/**
 The create-product page: its form fields, `validateForm` with one message
 per field chosen in a fixed priority order, the payload `handleSubmit`
 sends, how the submit outcome reaches the catalog, and the edits to the
 list of image-URL fields. `parseFloat` is not modelled: the page's
 number parser is a parameter returning a `PriceParse`.
 */
module ProductForm {
  import opened JsRuntime
  import Catalog

  datatype FormData = FormData(
    name: string,
    description: string,
    price: string,
    categoryId: string,
    images: seq<string>)

  /** What `parseFloat` can yield: NaN, a finite number, or an infinity. */
  datatype PriceParse = NotANumber | Finite(value: real) | PlusInfinity | MinusInfinity

  /** At most one message per field; `None` is an absent key. */
  datatype FormErrors = FormErrors(
    name: Option<string>,
    description: Option<string>,
    price: Option<string>,
    categoryId: Option<string>,
    images: Option<string>)
  {
    /** `Object.keys(newErrors).length === 0`. */
    predicate NoErrors()
    {
      name.None? && description.None? && price.None? && categoryId.None? && images.None?
    }
  }

  const MinNameLength: nat := 3
  const MinDescriptionLength: nat := 10
  const MaxPrice: real := 1000000.0

  const NameRequired := "Product name is required"
  const NameTooShort := "Product name must be at least 3 characters"
  const DescriptionRequired := "Description is required"
  const DescriptionTooShort := "Description must be at least 10 characters"
  const PriceRequired := "Price is required"
  const PriceNotANumber := "Price must be a valid number"
  const PriceNotPositive := "Price must be greater than 0"
  const PriceTooLarge := "Price must be less than 1,000,000"
  const CategoryRequired := "Category is required"
  const ImagesRequired := "At least one image URL is required"
  const ImagesInvalid := "All image URLs must be valid URLs (starting with http:// or https://)"
  const CreateFallback := "Failed to create product. Please try again."
  const ListRoute := "/products"

  /** The form as the page first renders it: one empty image field. */
  function InitialForm(): (f: FormData)
    ensures f.name == "" && f.description == "" && f.price == "" && f.categoryId == ""
    ensures f.images == [""]
  {
    FormData("", "", "", "", [""])
  }

  // ---------------------------------------------------------------------
  // Field rules

  /** The two-step text rule shared by name and description: blank after
      trimming is `required`, shorter than `min` after trimming is
      `tooShort`, anything else passes. */
  function MinLengthError(text: string, min: nat, required: string, tooShort: string): (r: Option<string>)
    requires min > 0 && required != tooShort
    ensures r == Some(required) <==> IsBlank(text)
    ensures r == Some(tooShort) <==> !IsBlank(text) && |Trim(text)| < min
    ensures r.None? <==> |Trim(text)| >= min
  {
    if !Truthy(Trim(text)) then Some(required)
    else if |Trim(text)| < min then Some(tooShort)
    else None
  }

  function NameError(name: string): (r: Option<string>)
    ensures r == Some(NameRequired) <==> IsBlank(name)
    ensures r == Some(NameTooShort) <==> !IsBlank(name) && |Trim(name)| < MinNameLength
    ensures r.None? <==> |Trim(name)| >= MinNameLength
  {
    MinLengthError(name, MinNameLength, NameRequired, NameTooShort)
  }

  function DescriptionError(description: string): (r: Option<string>)
    ensures r == Some(DescriptionRequired) <==> IsBlank(description)
    ensures r == Some(DescriptionTooShort) <==> !IsBlank(description) && |Trim(description)| < MinDescriptionLength
    ensures r.None? <==> |Trim(description)| >= MinDescriptionLength
  {
    MinLengthError(description, MinDescriptionLength, DescriptionRequired, DescriptionTooShort)
  }

  /** A parsed price the form accepts: finite, above 0 and at most 1,000,000. */
  predicate PriceInRange(parsed: PriceParse)
  {
    parsed.Finite? && 0.0 < parsed.value <= MaxPrice
  }

  /** The price rule, in order: the raw text is empty (no trimming here);
      the parse is NaN; the number is not above 0; it is above 1,000,000. */
  function PriceError(raw: string, parsed: PriceParse): (r: Option<string>)
    ensures r == Some(PriceRequired) <==> raw == ""
    ensures r == Some(PriceNotANumber) <==> raw != "" && parsed.NotANumber?
    ensures r == Some(PriceNotPositive) <==>
              raw != "" && (parsed.MinusInfinity? || (parsed.Finite? && parsed.value <= 0.0))
    ensures r == Some(PriceTooLarge) <==>
              raw != "" && (parsed.PlusInfinity? || (parsed.Finite? && parsed.value > MaxPrice))
    ensures r.None? <==> raw != "" && PriceInRange(parsed)
  {
    if !Truthy(raw) then Some(PriceRequired)
    else
      match parsed
      case NotANumber => Some(PriceNotANumber)
      case MinusInfinity => Some(PriceNotPositive)
      case PlusInfinity => Some(PriceTooLarge)
      case Finite(v) =>
        if v <= 0.0 then Some(PriceNotPositive)
        else if v > MaxPrice then Some(PriceTooLarge)
        else None
  }

  function CategoryError(categoryId: string): (r: Option<string>)
    ensures r.None? <==> categoryId != ""
    ensures r.Some? ==> r.value == CategoryRequired
  {
    if !Truthy(categoryId) then Some(CategoryRequired) else None
  }

  /** `/^https?:\/\/.+/.test(url)`: `http://` or `https://` at the start,
      then at least one character that `.` matches (anything but a line
      terminator). There is no end anchor and no trimming. */
  predicate UrlOk(url: string)
  {
    || (|url| > 7 && url[..7] == "http://" && !IsLineTerminator(url[7]))
    || (|url| > 8 && url[..8] == "https://" && !IsLineTerminator(url[8]))
  }

  /** The `filter` callback that keeps image fields with text. */
  function HasText(): string -> bool
  {
    (img: string) => Trim(img) != ""
  }

  /** The `filter` callback that keeps URLs the pattern rejects. */
  function FailsPattern(): string -> bool
  {
    (url: string) => !UrlOk(url)
  }

  /** The image entries that are not blank, in their order. Every entry
      with text survives as often as it occurs; blank entries are gone. */
  function ValidImages(images: seq<string>): (r: seq<string>)
    ensures forall i :: 0 <= i < |r| ==> !IsBlank(r[i]) && r[i] in images
    ensures forall i :: 0 <= i < |images| && !IsBlank(images[i]) ==> images[i] in r
  {
    Filter(images, HasText())
  }

  /** Every field with text survives as often as it occurs; blank fields
      are gone. */
  lemma ValidImagesCounts(images: seq<string>)
    ensures forall x :: multiset(ValidImages(images))[x] == (if IsBlank(x) then 0 else multiset(images)[x])
  {
    FilterCounts(images, HasText());
  }

  /** Filtering the fields keeps their order: the kept entries of `a + b`
      are those of `a` followed by those of `b`. */
  lemma ValidImagesSplits(a: seq<string>, b: seq<string>)
    ensures ValidImages(a + b) == ValidImages(a) + ValidImages(b)
  {
    FilterSplits(a, b, HasText());
  }

  /** A single field is kept exactly when it has text. Together with
      `ValidImagesSplits` this fixes the result entry by entry, so the
      first field with text becomes the first image of the product. */
  lemma ValidImagesSingle(x: string)
    ensures ValidImages([x]) == (if IsBlank(x) then [] else [x])
  {
    assert [x][1..] == [];
  }

  /** The image rule: no non-blank entry is `ImagesRequired`; otherwise one
      non-blank entry failing the pattern is `ImagesInvalid`. */
  function ImagesError(images: seq<string>): (r: Option<string>)
    ensures r == Some(ImagesRequired) <==> forall i :: 0 <= i < |images| ==> IsBlank(images[i])
    ensures r == Some(ImagesInvalid) <==>
              (exists i :: 0 <= i < |images| && !IsBlank(images[i]))
              && (exists i :: 0 <= i < |images| && !IsBlank(images[i]) && !UrlOk(images[i]))
    ensures r.None? || r == Some(ImagesRequired) || r == Some(ImagesInvalid)
  {
    var valid := ValidImages(images);
    KeptEntries(images, valid);
    if |valid| == 0 then
      Some(ImagesRequired)
    else
      var invalid := Filter(valid, FailsPattern());
      if |invalid| > 0 then
        assert !UrlOk(invalid[0]) && invalid[0] in valid;
        Some(ImagesInvalid)
      else
        NoFailingEntry(valid);
        None
  }

  /** The kept entries are non-empty exactly when some field has text, and
      the fields with text all pass the pattern when the kept ones do. */
  lemma KeptEntries(images: seq<string>, valid: seq<string>)
    requires valid == ValidImages(images)
    ensures |valid| == 0 <==> forall i :: 0 <= i < |images| ==> IsBlank(images[i])
    ensures (forall k :: 0 <= k < |valid| ==> UrlOk(valid[k])) ==>
              forall i :: 0 <= i < |images| && !IsBlank(images[i]) ==> UrlOk(images[i])
  {
    if |valid| > 0 {
      assert !IsBlank(valid[0]) && valid[0] in images;
    }
    if forall k :: 0 <= k < |valid| ==> UrlOk(valid[k]) {
      forall i | 0 <= i < |images| && !IsBlank(images[i]) ensures UrlOk(images[i]) {
        assert images[i] in valid;
      }
    }
  }

  /** An entry of the list that has text passes the pattern when every
      field with text does. */
  lemma KeptEntryPasses(images: seq<string>, x: string)
    requires forall i :: 0 <= i < |images| && !IsBlank(images[i]) ==> UrlOk(images[i])
    requires x in images && !IsBlank(x)
    ensures UrlOk(x)
  {
    var j :| 0 <= j < |images| && images[j] == x;
  }

  /** When filtering for failures keeps nothing, every entry passes. */
  lemma NoFailingEntry(valid: seq<string>)
    requires |Filter(valid, FailsPattern())| == 0
    ensures forall k :: 0 <= k < |valid| ==> UrlOk(valid[k])
  {
    forall k | 0 <= k < |valid| ensures UrlOk(valid[k]) {
      assert valid[k] !in Filter(valid, FailsPattern());
      assert FailsPattern()(valid[k]) == !UrlOk(valid[k]);
    }
  }

  /** `validateForm`'s error record: every field checked, each getting the
      first message its rule yields. */
  function Validate(form: FormData, parse: string -> PriceParse): (r: FormErrors)
    ensures r.name.None? || r.name == Some(NameRequired) || r.name == Some(NameTooShort)
    ensures r.description.None? || r.description == Some(DescriptionRequired)
            || r.description == Some(DescriptionTooShort)
    ensures r.price.None? || r.price == Some(PriceRequired) || r.price == Some(PriceNotANumber)
            || r.price == Some(PriceNotPositive) || r.price == Some(PriceTooLarge)
    ensures r.categoryId.None? || r.categoryId == Some(CategoryRequired)
    ensures r.images.None? || r.images == Some(ImagesRequired) || r.images == Some(ImagesInvalid)
  {
    FormErrors(
      NameError(form.name),
      DescriptionError(form.description),
      PriceError(form.price, parse(form.price)),
      CategoryError(form.categoryId),
      ImagesError(form.images))
  }

  /** What an acceptable form is, field by field, stated without the
      messages. */
  predicate Acceptable(form: FormData, parse: string -> PriceParse)
  {
    && |Trim(form.name)| >= MinNameLength
    && |Trim(form.description)| >= MinDescriptionLength
    && form.price != "" && PriceInRange(parse(form.price))
    && form.categoryId != ""
    && (exists i :: 0 <= i < |form.images| && !IsBlank(form.images[i]))
    && (forall i :: 0 <= i < |form.images| && !IsBlank(form.images[i]) ==> UrlOk(form.images[i]))
  }

  /** `validateForm()`: true exactly when the form is acceptable. */
  function ValidateForm(form: FormData, parse: string -> PriceParse): (ok: bool)
    ensures ok <==> Acceptable(form, parse)
  {
    Validate(form, parse).NoErrors()
  }

  // ---------------------------------------------------------------------
  // Submitting

  datatype CreatePayload = CreatePayload(
    name: string,
    description: string,
    price: real,
    categoryId: string,
    images: seq<string>)

  /** The body `handleSubmit` sends for an acceptable form: trimmed texts,
      the parsed price and only the non-blank image entries. */
  function Payload(form: FormData, parse: string -> PriceParse): (p: CreatePayload)
    requires Acceptable(form, parse)
    ensures p.name == Trim(form.name) && |p.name| >= MinNameLength
    ensures p.description == Trim(form.description) && |p.description| >= MinDescriptionLength
    ensures parse(form.price) == Finite(p.price) && 0.0 < p.price <= MaxPrice
    ensures p.categoryId == form.categoryId && p.categoryId != ""
    ensures p.images == ValidImages(form.images) && |p.images| >= 1
    ensures forall i :: 0 <= i < |p.images| ==> !IsBlank(p.images[i]) && UrlOk(p.images[i])
  {
    ValidImagesAccepted(form.images);
    CreatePayload(Trim(form.name), Trim(form.description), parse(form.price).value,
                  form.categoryId, ValidImages(form.images))
  }

  /** When some entry has text and every entry with text passes the
      pattern, the kept entries are non-empty and all pass it. */
  lemma ValidImagesAccepted(images: seq<string>)
    requires exists i :: 0 <= i < |images| && !IsBlank(images[i])
    requires forall i :: 0 <= i < |images| && !IsBlank(images[i]) ==> UrlOk(images[i])
    ensures |ValidImages(images)| >= 1
    ensures forall k :: 0 <= k < |ValidImages(images)| ==> UrlOk(ValidImages(images)[k])
  {
    var valid := ValidImages(images);
    KeptEntries(images, valid);
    forall k | 0 <= k < |valid| ensures UrlOk(valid[k]) {
      KeptEntryPasses(images, valid[k]);
    }
  }

  /** What the create call returns: the created product, or a failure with
      the server's optional message. */
  datatype CreateOutcome = Created(product: Catalog.Product) | CreateFailed(message: Option<string>)

  /** The page state after one submit. `request` is the payload sent, if any. */
  datatype SubmitResult = SubmitResult(
    errors: FormErrors,
    request: Option<CreatePayload>,
    apiError: Option<string>,
    isSubmitting: bool,
    navigateTo: Option<string>,
    catalog: Catalog.State)

  /** `handleSubmit`: an invalid form shows its errors and sends nothing;
      a valid one sends the payload; a created product is prepended to the
      catalog and the page moves to the list; a failure shows the server's
      message or the fallback and re-enables the button. */
  function HandleSubmit(form: FormData, parse: string -> PriceParse, outcome: CreateOutcome,
                        catalog: Catalog.State, isSubmitting: bool): (r: SubmitResult)
    ensures r.errors == Validate(form, parse)
    ensures r.request.Some? <==> ValidateForm(form, parse)
    ensures r.request.Some? ==> r.request.value == Payload(form, parse)
    ensures r.request.None? ==>
              r.catalog == catalog && r.apiError.None? && r.navigateTo.None? && r.isSubmitting == isSubmitting
    ensures r.request.Some? && outcome.Created? ==>
              && r.catalog == Catalog.ApplyAddProduct(catalog, outcome.product)
              && r.navigateTo == Some(ListRoute) && r.apiError.None? && r.isSubmitting
    ensures r.request.Some? && outcome.CreateFailed? ==>
              && r.catalog == catalog && r.navigateTo.None? && !r.isSubmitting
              && r.apiError == Some(OrFallback(outcome.message, CreateFallback))
  {
    var errors := Validate(form, parse);
    if !errors.NoErrors() then
      SubmitResult(errors, None, None, isSubmitting, None, catalog)
    else
      var payload := Payload(form, parse);
      match outcome
      case Created(product) =>
        SubmitResult(errors, Some(payload), None, true, Some(ListRoute), Catalog.ApplyAddProduct(catalog, product))
      case CreateFailed(message) =>
        SubmitResult(errors, Some(payload), Some(OrFallback(message, CreateFallback)), false, None, catalog)
  }

  // ---------------------------------------------------------------------
  // Editing the image-URL fields

  /** `handleImageChange(i, v)`: field `i` becomes `v`, nothing else moves. */
  function ChangeImage(images: seq<string>, i: nat, v: string): (r: seq<string>)
    requires i < |images|
    ensures |r| == |images| && r[i] == v
    ensures forall j :: 0 <= j < |images| && j != i ==> r[j] == images[j]
  {
    images[i := v]
  }

  /** `addImageField`: one more, empty, field at the end. */
  function AddImageField(images: seq<string>): (r: seq<string>)
    ensures |r| == |images| + 1 && r[|images|] == ""
    ensures r[..|images|] == images
  {
    images + [""]
  }

  /** `removeImageField(i)`: with more than one field, field `i` is dropped
      and the rest keep their order (an index outside the list drops
      nothing); the last remaining field is never removed. */
  function RemoveImageField(images: seq<string>, i: int): (r: seq<string>)
    ensures |images| <= 1 ==> r == images
    ensures |images| > 1 && 0 <= i < |images| ==>
              && |r| == |images| - 1
              && (forall j :: 0 <= j < i ==> r[j] == images[j])
              && (forall j :: i <= j < |r| ==> r[j] == images[j + 1])
    ensures !(0 <= i < |images|) ==> r == images
    ensures |images| >= 1 ==> |r| >= 1
  {
    if |images| > 1 && 0 <= i < |images| then images[..i] + images[i + 1..] else images
  }

  /** The three edits a user can make to the image fields. */
  datatype ImageEdit = Change(index: nat, value: string) | Add | Remove(at: int)

  /** An edit applied to the fields; a change to a field that is not shown
      does nothing, since no input exists for it. */
  function ApplyEdit(images: seq<string>, edit: ImageEdit): seq<string>
  {
    match edit
    case Change(i, v) => if i < |images| then ChangeImage(images, i, v) else images
    case Add => AddImageField(images)
    case Remove(i) => RemoveImageField(images, i)
  }

  function ApplyEdits(images: seq<string>, edits: seq<ImageEdit>): seq<string>
    decreases |edits|
  {
    if |edits| == 0 then images else ApplyEdits(ApplyEdit(images, edits[0]), edits[1..])
  }

  // ---------------------------------------------------------------------
  // Properties

  /** From the initial single field, no sequence of edits leaves the form
      without an image field. */
  lemma {:induction false} AlwaysOneImageField(images: seq<string>, edits: seq<ImageEdit>)
    requires |images| >= 1
    ensures |ApplyEdits(images, edits)| >= 1
    decreases |edits|
  {
    if |edits| > 0 {
      AlwaysOneImageField(ApplyEdit(images, edits[0]), edits[1..]);
    }
  }

  /** Removing the field just added gives back the fields as they were. */
  lemma AddThenRemoveImage(images: seq<string>)
    requires |images| >= 1
    ensures RemoveImageField(AddImageField(images), |images|) == images
  {
    assert (images + [""])[..|images|] == images;
  }

  /** The pattern's two schemes, each needing at least one more character
      that is not a line terminator. */
  lemma UrlOkHttp(rest: string)
    ensures UrlOk("http://" + rest) <==> rest != "" && !IsLineTerminator(rest[0])
  {
    var u := "http://" + rest;
    if |u| > 7 {
      assert u[7] == rest[0];
    }
    if |u| > 8 {
      assert u[..8] != "https://" by {
        assert u[4] == ':';
      }
    }
  }

  lemma UrlOkHttps(rest: string)
    ensures UrlOk("https://" + rest) <==> rest != "" && !IsLineTerminator(rest[0])
  {
    var u := "https://" + rest;
    assert u[..7] != "http://" by {
      assert u[4] == 's';
    }
    if |u| > 8 {
      assert u[8] == rest[0];
    }
  }

  /** Every accepted URL starts with one of the two schemes. */
  lemma UrlOkNeedsScheme(url: string)
    requires UrlOk(url)
    ensures url[..7] == "http://" || url[..8] == "https://"
  {
  }

  /** Scenarios: `"0"` is not above 0, `"2500000"` is above the limit,
      `"19.99"` and exactly `"1000000"` pass. */
  lemma PriceScenarios()
    ensures PriceError("0", Finite(0.0)) == Some(PriceNotPositive)
    ensures PriceError("2500000", Finite(2500000.0)) == Some(PriceTooLarge)
    ensures PriceError("19.99", Finite(19.99)).None?
    ensures PriceError("1000000", Finite(1000000.0)).None?
  {
  }

  /** Scenarios: an `ftp://` URL fails the pattern, an `https://` URL
      passes, and a leading space makes a URL fail. */
  lemma UrlScenarios()
    ensures !UrlOk("ftp://x.com/a.png")
    ensures UrlOk("https://x.com/a.png")
    ensures !UrlOk(" https://x.com/a.png")
  {
    UrlOkHttps("x.com/a.png");
    var ftp := "ftp://x.com/a.png";
    assert ftp[..7][0] == 'f' && ftp[..8][0] == 'f';
    var padded := " https://x.com/a.png";
    assert padded[..7][0] == ' ' && padded[..8][0] == ' ';
  }
}
