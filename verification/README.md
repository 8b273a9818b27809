# BitechX product admin — a Dafny model of its client-side logic

BitechX's admin UI is a Next.js application for managing a product catalog. It
offers email-token login, a product list with search, category filter and
pages, a create form, and delete. Most of it is markup. This project models
the small functional layer inside it, as pure Dafny functions over immutable
records, and proves what that layer promises:

- **Catalog store** (`Catalog.dfy`, the `products` Redux slice): the initial
  state and all ten reducers. The product list changes by prepend,
  replace-first-by-id and filter-by-id. Setting the search text or the
  category filter resets the page to 1.
- **Session store** (`Session.dfy`, the `auth` slice): `setCredentials`,
  `logout` and `initializeAuth`. `localStorage` is a `map<string, string>`
  plus a flag saying whether a browser window exists.
- **Create-product form** (`ProductForm.dfy`): `validateForm` gives each field
  at most one message, picked in a fixed order. Also modelled: the payload
  `handleSubmit` sends, how its outcome reaches the catalog, and the three
  edits to the list of image-URL fields.
- **Product list page** (`ProductList.dfy`): covers `fetchProducts` (search
  request or page request, then the dispatches), the debounced search
  condition, and the category select's `""`-means-no-filter rule. It also
  covers the pager's rules and the delete dialog, plus a step function for
  the page's events.
- **Login page** (`Login.dfy`): `validateEmail` as a one-pass scan, proved
  equal to a direct predicate for the pattern. Also the order of the two
  input checks, how a login result becomes credentials, and the redirect of
  an already-authenticated session.
- **SafeImage** (`SafeImage.dfy`): the `handleError` state machine and the
  condition for drawing the fallback box.
- **JavaScript runtime pieces** (`JsRuntime.dfy`): the ECMAScript whitespace
  set shared by `trim()` and `\s`, `trim`, `Array.prototype.filter`, and the
  `message || fallback` idiom.

Network calls are never made. Each one is an input: the outcome of the call
(data, or a failure with an optional server message). Each page function
returns the request it would make, so that "no request is made" can be
stated.

Two behaviours of the stores are easy to misread:

- On a storage miss, and outside a browser, `initializeAuth` leaves the
  session exactly as it was. It does not force "unauthenticated".
- `removeProduct` drops every entry with the id. It removes exactly one entry
  only when the id occurs once (`Catalog.RemoveUniqueShrinksByOne`).

## Model

| member | source | states |
|---|---|---|
| JsRuntime.Trim | app/products/new/page.tsx:84-93 | `trim()` drops only leading and trailing ECMAScript whitespace: the result is an infix of the input with blank text on both sides, it is empty exactly when the input is blank, and otherwise it neither starts nor ends with whitespace |
| JsRuntime.TrimIdempotent | app/products/new/page.tsx:146-147 | Trimming a trimmed text changes nothing |
| JsRuntime.TrimIgnoresPadding | app/products/new/page.tsx:117 | Whitespace added on either side does not change the trimmed text |
| JsRuntime.OrFallback | app/products/page.tsx:104 | `message \|\| fallback` gives the server's message when it is present and non-empty, and the fallback otherwise; the same idiom is used at app/products/new/page.tsx:160 and app/login/page.tsx:62-64 |
| JsRuntime.Filter | app/products/new/page.tsx:117 | `filter` keeps exactly the elements that pass: every survivor was in the list and passes, and every passing element survives |
| JsRuntime.FilterSplits | app/products/new/page.tsx:117 | Filtering distributes over concatenation, so survivors keep their relative order |
| JsRuntime.FilterCounts | app/products/new/page.tsx:117 | Each passing element survives as often as it occurred, and failing ones are gone |
| JsRuntime.FilterLength | app/products/new/page.tsx:117 | The length lost is exactly the number of failing elements |
| Catalog.Initial | lib/features/products/productsSlice.ts:33-42 | Start state: empty list, no current product, not loading, no error, total pages 1, page 1, empty search, no category |
| Catalog.FindIndex | lib/features/products/productsSlice.ts:78 | `findIndex` returns the first position holding the id; it returns none exactly when no entry has the id |
| Catalog.ApplySetProducts | lib/features/products/productsSlice.ts:48-52 | The list is replaced wholesale; loading becomes false and the error becomes null; the query state is untouched |
| Catalog.ApplySetCurrentProduct | lib/features/products/productsSlice.ts:53-55 | Only the detail-view target changes |
| Catalog.ApplySetLoading | lib/features/products/productsSlice.ts:56-58 | Only the loading flag changes |
| Catalog.ApplySetError | lib/features/products/productsSlice.ts:59-62 | The message is stored and loading is forced false; products and everything else are unchanged |
| Catalog.ApplySetCurrentPage | lib/features/products/productsSlice.ts:63-65 | Only the page changes, to the unchecked payload |
| Catalog.ApplySetSearchQuery | lib/features/products/productsSlice.ts:66-69 | The text is stored and the page becomes 1 whatever it was; nothing else moves |
| Catalog.ApplySetSelectedCategory | lib/features/products/productsSlice.ts:70-73 | The filter is stored and the page becomes 1 whatever it was; nothing else moves |
| Catalog.ApplyAddProduct | lib/features/products/productsSlice.ts:74-76 | The length grows by one, the product is at index 0, and every old entry moves back one place |
| Catalog.ApplyUpdateProduct | lib/features/products/productsSlice.ts:77-85 | Only the first entry with the id is replaced, and the length is kept; with no match the list is unchanged; the current product becomes the payload exactly when it has the same id |
| Catalog.ApplyRemoveProduct | lib/features/products/productsSlice.ts:86-88 | No entry with the id survives; with the id absent the list is unchanged; nothing but the list changes |
| Catalog.TotalPagesNeverChanges | lib/features/products/productsSlice.ts:44-89 | No sequence of actions changes `totalPages` |
| Catalog.PageStaysPositive | lib/features/products/productsSlice.ts:63-73 | If the page starts at 1 or more and every `setCurrentPage` payload is at least 1, the page stays at least 1 |
| Catalog.AddThenFind | lib/features/products/productsSlice.ts:74-78 | After `addProduct(p)`, a lookup by `p`'s id finds index 0 |
| Catalog.AddThenRemove | lib/features/products/productsSlice.ts:74-88 | `removeProduct(p.id)` undoes `addProduct(p)` when the id was new |
| Catalog.UpdateThenFind | lib/features/products/productsSlice.ts:77-81 | After an update whose id is present, the first match is at the same place and holds the payload |
| Catalog.RemoveProductSplits | lib/features/products/productsSlice.ts:86-88 | Removing from `a + b` is removing from `a` followed by removing from `b`, so the survivors keep their order |
| Catalog.RemoveProductCounts | lib/features/products/productsSlice.ts:86-88 | Each product with another id keeps its multiplicity; products with the id drop to zero |
| Catalog.RemoveProductLength | lib/features/products/productsSlice.ts:86-88 | The list shrinks by exactly the number of entries carrying the id |
| Catalog.RemoveUniqueShrinksByOne | lib/features/products/productsSlice.ts:86-88 | When exactly one entry has the id, the list shrinks by exactly one |
| Session.Initial | lib/features/auth/authSlice.ts:9-13 | Start state: token null, email null, not authenticated |
| Session.SetCredentials | lib/features/auth/authSlice.ts:19-32 | Sets token, email and authenticated; in a browser it writes `token` and `email` and keeps every other key; outside a browser storage is untouched |
| Session.Logout | lib/features/auth/authSlice.ts:33-43 | Clears all three fields; in a browser it removes exactly the two keys and keeps the rest |
| Session.Stored | lib/features/auth/authSlice.ts:47-50 | A stored value counts exactly when the key exists and its value is non-empty (JavaScript truthiness) |
| Session.InitializeAuth | lib/features/auth/authSlice.ts:44-56 | Restores the pair only in a browser with both values non-empty; otherwise the state is left exactly as it was; storage is only read |
| Session.ConsistentAlways | lib/features/auth/authSlice.ts:19-56 | Every reducer sequence keeps the invariant: authenticated exactly when both token and email are set |
| Session.LogoutIdempotent | lib/features/auth/authSlice.ts:33-43 | A second logout changes neither the state nor the storage |
| Session.CredentialsRoundTrip | lib/features/auth/authSlice.ts:23-54 | In a browser, `setCredentials(t, e)` and then `initializeAuth` on a fresh session give back the same session exactly when `t` and `e` are both non-empty |
| Session.LogoutThenRestore | lib/features/auth/authSlice.ts:40-55 | After logout, `initializeAuth` on a fresh session stays unauthenticated |
| Session.NoBrowserNoPersistence | lib/features/auth/authSlice.ts:27-52 | Credentials set outside a browser cannot be restored into a fresh session |
| Session.Transitions | lib/features/auth/authSlice.ts:19-56 | The two-state machine: after an action, authenticated exactly for `setCredentials`, for an `initializeAuth` storage hit, or for an `initializeAuth` miss on a session already authenticated |
| ProductForm.InitialForm | app/products/new/page.tsx:40-46 | The form starts with empty texts and a single empty image field |
| ProductForm.MinLengthError | app/products/new/page.tsx:84-95 | Two-step rule: "required" exactly when blank after trimming; "too short" exactly when non-blank with a trimmed length below the minimum; no message exactly when the trimmed length reaches it |
| ProductForm.NameError | app/products/new/page.tsx:84-88 | The two-step rule for the name, with minimum 3 |
| ProductForm.DescriptionError | app/products/new/page.tsx:91-95 | The two-step rule for the description, with minimum 10 |
| ProductForm.PriceError | app/products/new/page.tsx:98-109 | In order: an empty raw text is "required"; NaN is "valid number"; a value at most 0 or minus infinity is "greater than 0"; a value above 1,000,000 or plus infinity is "less than 1,000,000"; no message exactly for a finite value in (0, 1,000,000] |
| ProductForm.CategoryError | app/products/new/page.tsx:112-114 | "Category is required" exactly when no category is chosen |
| ProductForm.ValidImages | app/products/new/page.tsx:117 | Every kept entry is a non-blank entry of the list, and every non-blank entry is kept; multiplicity and order are stated by the three lemmas below |
| ProductForm.ValidImagesCounts | app/products/new/page.tsx:117 | Every field with text survives exactly as often as it occurs; blank fields are gone |
| ProductForm.ValidImagesSplits | app/products/new/page.tsx:117 | The kept entries of `a + b` are those of `a` followed by those of `b`, so the fields keep their order |
| ProductForm.ValidImagesSingle | app/products/new/page.tsx:117 | A single field is kept exactly when it has text; with the split lemma this fixes the result entry by entry |
| ProductForm.ImagesError | app/products/new/page.tsx:117-127 | "At least one image" exactly when every entry is blank; the URL message exactly when some non-blank entry fails the pattern on its untrimmed text; otherwise none |
| ProductForm.Validate | app/products/new/page.tsx:80-129 | The error record: each field holds no message or one of its own messages, never another field's |
| ProductForm.ValidateForm | app/products/new/page.tsx:80-131 | True exactly when every field meets its rule, stated independently of the messages |
| ProductForm.Payload | app/products/new/page.tsx:144-151 | The payload sent for a valid form has the trimmed name (3+ characters) and trimmed description (10+); the parsed price is in (0, 1,000,000]; it has the chosen category and only the non-blank image URLs (at least one, all passing the pattern) |
| ProductForm.HandleSubmit | app/products/new/page.tsx:133-164 | Every submit first clears the API error. An invalid form then sends nothing, leaves the catalog and the button as they were, and shows no API error. A valid one sends the payload. On success the product is prepended and the page navigates to /products. On failure the server message (or the fallback) is shown and the button is re-enabled |
| ProductForm.ChangeImage | app/products/new/page.tsx:166-170 | Only field `i` changes, to the new value; the length is kept |
| ProductForm.AddImageField | app/products/new/page.tsx:172-174 | One empty field is appended after the unchanged old fields |
| ProductForm.RemoveImageField | app/products/new/page.tsx:176-181 | With more than one field, exactly index `i` is dropped and the order is kept; an index outside the list or a single field changes nothing; the list never becomes empty |
| ProductForm.AlwaysOneImageField | app/products/new/page.tsx:166-181 | No sequence of image edits leaves the form without an image field |
| ProductForm.AddThenRemoveImage | app/products/new/page.tsx:172-181 | Removing the field just added restores the fields |
| ProductForm.UrlOkHttp | app/products/new/page.tsx:122-123 | `http://` followed by text passes exactly when that text starts with a character other than a line terminator |
| ProductForm.UrlOkHttps | app/products/new/page.tsx:122-123 | The same for `https://` |
| ProductForm.UrlOkNeedsScheme | app/products/new/page.tsx:122-123 | Every passing URL starts with `http://` or `https://` |
| ProductForm.PriceScenarios | app/products/new/page.tsx:98-109 | "0" is not above 0; "2500000" is above the limit; "19.99" and exactly "1000000" pass |
| ProductForm.UrlScenarios | app/products/new/page.tsx:122-126 | `ftp://x.com/a.png` fails; `https://x.com/a.png` passes; a leading space fails |
| ProductList.SelectRequest | app/products/page.tsx:85-96 | A non-empty query gives the search request with that text. Otherwise the page request has limit 10 and offset `(page-1)*10`, and carries the category exactly when the filter is set and non-empty |
| ProductList.FetchProducts | app/products/page.tsx:78-107 | Without a session: no request and no dispatch. Otherwise `setLoading(true)` is dispatched and the request for the query state is made; then comes `setProducts(data)`, or `setError` with the server message or "Failed to fetch products". The resulting catalog is exactly those dispatches applied |
| ProductList.DebounceDispatch | app/products/page.tsx:114-122 | The timer dispatches `setSearchQuery(local)` exactly when the typed text differs from the stored query |
| ProductList.HandleCategoryFilter | app/products/page.tsx:134-136 | `""` becomes no filter and any other value becomes that id; the page resets to 1 |
| ProductList.HandleDeleteConfirm | app/products/page.tsx:142-158 | With no target nothing happens. On success the id is sent, removed from the list, and the dialog closes. On failure the list and the dialog are unchanged and the server message or the fallback is alerted. The spinner ends either way |
| ProductList.SearchIgnoresPageAndCategory | app/products/page.tsx:85-96 | In search mode the request does not depend on the page or the category |
| ProductList.PagesTile | app/products/page.tsx:89-94 | For pages of at least 1 the offset is a non-negative multiple of 10; page 1 reads from 0; the next page starts where this one ends |
| ProductList.CategoryFilterRoundTrip | app/products/page.tsx:134-136 | The select shows back the value picked; the page request carries a category exactly when that value is non-empty |
| ProductList.DebounceSettles | app/products/page.tsx:114-122 | After the timer's dispatch the stored query equals the typed text and a second firing dispatches nothing; when a dispatch happened the page is 1 |
| ProductList.ChairScenario | app/products/page.tsx:85-122 | Typing "chair" on page 3, the timer gives page 1 and the search request rather than a page request |
| ProductList.SelectValue | app/products/page.tsx:198 | The category select shows the chosen id, or `""` ("All Categories") when there is no filter; `CategoryFilterRoundTrip` states its contract |
| ProductList.PagerVisible | app/products/page.tsx:246-250 | The pager is drawn only when the content area is neither loading nor showing a truthy error, outside search mode, and with a full page (line 315); `BusyPageIgnoresPager` and `NextNeverDisabledWhileVisible` state its consequences |
| ProductList.PreviousDisabled | app/products/page.tsx:320 | "Previous" is disabled exactly on page 1 |
| ProductList.NextDisabled | app/products/page.tsx:330 | "Next" is disabled exactly when the page holds fewer than 10 products |
| ProductList.Step | app/products/page.tsx:114-163 | One page event. Without a session the page draws nothing (lines 129-131), so no control acts; the debounce timer and the fetch still run. Otherwise: typing, the timer, the select, the two clear buttons (lines 213-240, only while there is something to clear), the pager clicks (lines 315-330, only when shown and enabled), a fetch result, opening, closing (line 343) and confirming the delete dialog; `PageMovesOnlyByPagerOrFilters` and `PageStaysPositive` state its contract |
| ProductList.BusyPageIgnoresPager | app/products/page.tsx:246-250 | While the spinner or the error box is shown there is no pager, so neither pager click changes anything |
| ProductList.PageMovesOnlyByPagerOrFilters | app/products/page.tsx:160-163 | The page moves only by one through an enabled, visible pager button, or to 1 through a change of search text or category filter |
| ProductList.ClearSearchSettles | app/products/page.tsx:218-222 | With a session, the search chip's clear button empties the box and the stored query and resets the page; the debounce timer then has nothing to do. Without one there is no chip and nothing changes |
| ProductList.SignedOutIgnoresControls | app/products/page.tsx:114-131 | Without a session no control event changes the page; the debounce effect still dispatches as usual, and a fetch result changes nothing |
| ProductList.NextNeverDisabledWhileVisible | app/products/page.tsx:315-330 | While the pager is shown, "Next" is never disabled; "Previous" is disabled exactly on page 1 |
| ProductList.PageStaysPositive | app/products/page.tsx:315-330 | Starting from page 1 or more, no sequence of page events goes below page 1, and `totalPages` never moves |
| ProductList.DeleteKeepsOthers | app/products/page.tsx:142-158 | Whatever the outcome of a delete, every other product keeps its multiplicity |
| Login.ValidateEmail | app/login/page.tsx:35-38 | The scan accepts exactly the strings with a non-empty local part without whitespace or `@`, one `@`, and a domain without whitespace or `@` that has a `.` with a character on each side |
| Login.ShapeFacts | app/login/page.tsx:36 | An accepted address contains no whitespace and a single `@` |
| Login.HandleSubmit | app/login/page.tsx:40-69 | A blank field gives "Email is required" and the format is not checked. A malformed one gives the format message. In both cases no login call is made and the session is unchanged. A successful login stores the returned token with the email exactly as typed and navigates to /products. A failure shows the server message or the fallback |
| Login.ExampleLogin | app/login/page.tsx:40-60 | Signing in as `user@example.com` with token `t1` gives that authenticated session |
| Login.ShapeIsNotBlank | app/login/page.tsx:45-53 | An address passing the format check is never blank |
| Login.GuardEffect | app/login/page.tsx:21-28 | With a session the effect navigates to /products and leaves `isChecking` as it was; without one, checking ends |
| Login.AuthenticatedNeverSeesForm | app/login/page.tsx:21-33 | While the session stays authenticated, the page never leaves "checking", so the form is never drawn, and it has asked for /products |
| SafeImage.Init | components/SafeImage.tsx:24-26 | The state starts as `(src, false, false)` |
| SafeImage.HandleError | components/SafeImage.tsx:28-39 | Once `hasError` is set an error is a no-op. The first error sets both flags and keeps `imgSrc`. The placeholder is swapped in only from `!hasError && useUnoptimized` |
| SafeImage.ErrorsSettle | components/SafeImage.tsx:28-39 | After any positive number of errors the state is exactly `(src, true, true)` |
| SafeImage.PlaceholderBranchUnreachable | components/SafeImage.tsx:34-37 | No reachable state takes the placeholder branch |
| SafeImage.SourceNeverChanges | components/SafeImage.tsx:24-37 | `imgSrc` always stays `src` |
| SafeImage.ShowsFallback | components/SafeImage.tsx:42 | The coloured box is drawn instead of an image exactly when `hasError`, `imgSrc` is `/placeholder.png` and `useUnoptimized` all hold; `FallbackReachability` and `StagedFallback` state when that happens |
| SafeImage.FallbackReachability | components/SafeImage.tsx:41-42 | The fallback box is drawn exactly when an error happened and `src` was already `/placeholder.png` |
| SafeImage.HandleErrorStaged | components/SafeImage.tsx:28-42 | Staged machine: the first error turns on unoptimised loading, the second swaps in the placeholder, the third draws the fallback, and later errors are no-ops |
| SafeImage.StagedEscalation | components/SafeImage.tsx:28-42 | For an ordinary image the staged states after 1, 2 and 3 or more errors are exactly as the comments describe |
| SafeImage.StagedOnPlaceholder | components/SafeImage.tsx:28-42 | When `src` is `/placeholder.png` itself (as ProductCard passes for a product without images), the staged machine is unoptimised after one error and gives up from the second on |
| SafeImage.StagedFallback | components/SafeImage.tsx:41-42 | With the staged machine the fallback is drawn exactly from the third error on for an ordinary image, and from the second on when `src` is `/placeholder.png`; `imgSrc` is only `src` or the placeholder |

## Left out

- The HTTP wrappers (`lib/api/products.ts`, `lib/api/categories.ts`, `lib/api/auth.ts`) and the API client they wrap are not modelled. The results of their calls are inputs: data, or a failure with an optional server message.
- The category store (`categoriesSlice`), `lib/hooks`, and the `Select`, `ConfirmDialog` and `LoadingSpinner` components are not part of this model. The category fetch on the list and create pages is therefore left out.
- Presentational files (`app/page.tsx`, `app/not-found.tsx`, `Button`, `Input`, `Textarea`, `ErrorMessage`, `PageLoader`, `ProductCard`, the Tailwind config) are not modelled. They hold only markup, image choice and price formatting.
- The edit page (`app/products/edit/[id]/page.tsx`) is not modelled, because it lies outside the three modelled pages. Its `validateForm` (lines 127-177) repeats the create page's rules, which `ProductForm.Validate` covers. Its `handleSubmit` (lines 180-205) sends trimmed texts and the non-blank images, then dispatches `updateProduct` (`Catalog.ApplyUpdateProduct`) and navigates to the product's slug, or shows the server message or "Failed to update product. Please try again.".
- The detail page (`app/products/[slug]/page.tsx`) is not modelled, because it lies outside the three modelled pages. It dispatches `setCurrentProduct` (line 57). Its delete (lines 72-84) dispatches `removeProduct` (`Catalog.ApplyRemoveProduct`) and navigates to the list, or alerts the server message or a fallback.
- The `Navbar` logout button (`components/Navbar.tsx:17-18`) dispatches `logout` (`Session.Logout`) and navigates to `/login`. The button itself is not modelled; the reducer is.
- `parseFloat` and `toFixed` are not modelled: floating point. Price parsing is a parameter returning NaN, a finite value or an infinity, and only the comparisons are modelled.
- Regular expressions are stated as direct predicates over characters. The email pattern is `Login.EmailShape`; the URL pattern is `ProductForm.UrlOk`.
- The 500 ms debounce timer, React effect scheduling, and races between in-flight requests are not modelled: timing and concurrency. Only the timer's dispatch condition is modelled, with events applied one at a time.
- Router navigation is recorded as the route requested. `window.scrollTo` and `alert` side effects are not performed; the alert text is an output field.
- The unauthenticated redirects to `/login` on the list and create pages, including the `isInitializing` flag, are not modelled. Only the login page's inverse redirect is modelled.
- Login's `isLoading` flag is not modelled: it only drives the button spinner.
- ProductForm.MinLengthError: trimmed lengths are counted in Unicode scalar values, while JavaScript's `length` counts UTF-16 code units. The two differ only for characters outside the Basic Multilingual Plane.
- ProductForm.ChangeImage: requires the index to be in the list. The page only passes indices of rendered fields, and an assignment past the end would make a sparse JavaScript array, which is not modelled.
- Catalog.ApplySetCurrentPage: the page is an integer. The JavaScript `number` payload could also be fractional, which the page never sends.

## Findings

| source | as written | input that shows it | evidently intended | confidence | as-written member | corrected member |
|---|---|---|---|---|---|---|
| components/SafeImage.tsx:28-39 | `handleError` sets `hasError` on the first error, so every later error is ignored. The "second try failed: show placeholder" branch can never run, and the fallback box never appears for a broken image | Mount with `https://x.com/a.png` and call `handleError` three times: the state stays `(src, true, true)`, with no placeholder and no fallback box. In a browser a second error never even arrives: the `<img>` keeps the same `src`, and no markup reads `useUnoptimized` (lines 67-101) | The first error switches to unoptimised loading, the second to the placeholder, and the third (the placeholder failed too) draws the fallback box; when `src` is already `/placeholder.png` there is nothing to swap in, so the second error draws it. This also needs the markup to load a different image after each step, so that a further error can occur | medium, not executed | SafeImage.PlaceholderBranchUnreachable | SafeImage.StagedFallback |
