/**
 The image-with-fallback component: three state variables (`imgSrc`,
 `hasError`, `useUnoptimized`) changed only by `handleError`, and the
 condition under which the coloured fallback box is drawn instead of an
 `<img>`. The component as written is `HandleError`; `HandleErrorStaged`
 is the staged escalation its comments describe (see the README's
 findings).
 */
module SafeImage {

  const Placeholder := "/placeholder.png"

  datatype ImageState = ImageState(imgSrc: string, hasError: bool, useUnoptimized: bool)

  /** The state right after mounting with `src`. */
  function Init(src: string): (s: ImageState)
    ensures s.imgSrc == src && !s.hasError && !s.useUnoptimized
  {
    ImageState(src, false, false)
  }

  /** `handleError` as written: only the first error does anything. It
      raises `hasError`, and either switches to unoptimised loading or,
      when that was already on, swaps in the placeholder image. */
  function HandleError(s: ImageState): (r: ImageState)
    ensures s.hasError ==> r == s
    ensures !s.hasError ==> r.hasError && r.useUnoptimized
    ensures !s.hasError && !s.useUnoptimized ==> r.imgSrc == s.imgSrc
    ensures !s.hasError && s.useUnoptimized ==> r.imgSrc == Placeholder
  {
    if s.hasError then s
    else if !s.useUnoptimized then s.(hasError := true, useUnoptimized := true)
    else s.(hasError := true, imgSrc := Placeholder)
  }

  /** The coloured fallback box is drawn instead of an image. */
  predicate ShowsFallback(s: ImageState)
  {
    s.hasError && s.imgSrc == Placeholder && s.useUnoptimized
  }

  /** The state after `n` load errors from mounting with `src`. */
  function AfterErrors(src: string, n: nat): ImageState
  {
    if n == 0 then Init(src) else HandleError(AfterErrors(src, n - 1))
  }

  /** Every reachable state: after one or more errors it is always
      `(src, true, true)`, whatever the number of errors. */
  lemma {:induction false} ErrorsSettle(src: string, n: nat)
    requires n >= 1
    ensures AfterErrors(src, n) == ImageState(src, true, true)
  {
    if n > 1 {
      ErrorsSettle(src, n - 1);
    }
  }

  /** The placeholder branch of `handleError` (`!hasError && useUnoptimized`)
      is never taken: no reachable state enables it. */
  lemma PlaceholderBranchUnreachable(src: string, n: nat)
    ensures var s := AfterErrors(src, n);
            !(!s.hasError && s.useUnoptimized)
  {
    if n >= 1 {
      ErrorsSettle(src, n);
    }
  }

  /** `imgSrc` never leaves `src`; in particular it is always `src` or the
      placeholder. */
  lemma SourceNeverChanges(src: string, n: nat)
    ensures AfterErrors(src, n).imgSrc == src
  {
    if n >= 1 {
      ErrorsSettle(src, n);
    }
  }

  /** The fallback is drawn exactly when at least one error happened and
      `src` itself was the placeholder path; for any other image it never
      appears, however often loading fails. */
  lemma FallbackReachability(src: string, n: nat)
    ensures ShowsFallback(AfterErrors(src, n)) <==> n >= 1 && src == Placeholder
  {
    if n >= 1 {
      ErrorsSettle(src, n);
    }
  }

  // ---------------------------------------------------------------------
  // The staged escalation the component's comments describe

  /** First error: try unoptimised loading. Second: swap in the
      placeholder. Third (the placeholder failed too): give up, which
      draws the fallback. Afterwards errors change nothing. */
  function HandleErrorStaged(s: ImageState): (r: ImageState)
    ensures s.hasError ==> r == s
    ensures !s.hasError && !s.useUnoptimized ==> r == s.(useUnoptimized := true)
    ensures !s.hasError && s.useUnoptimized && s.imgSrc != Placeholder ==> r == s.(imgSrc := Placeholder)
    ensures !s.hasError && s.useUnoptimized && s.imgSrc == Placeholder ==> ShowsFallback(r)
  {
    if s.hasError then s
    else if !s.useUnoptimized then s.(useUnoptimized := true)
    else if s.imgSrc != Placeholder then s.(imgSrc := Placeholder)
    else s.(hasError := true)
  }

  function AfterErrorsStaged(src: string, n: nat): ImageState
  {
    if n == 0 then Init(src) else HandleErrorStaged(AfterErrorsStaged(src, n - 1))
  }

  /** The staged machine on an ordinary image: unoptimised after one error,
      placeholder after two, fallback from the third on. */
  lemma {:induction false} StagedEscalation(src: string, n: nat)
    requires src != Placeholder
    ensures n == 1 ==> AfterErrorsStaged(src, n) == ImageState(src, false, true)
    ensures n == 2 ==> AfterErrorsStaged(src, n) == ImageState(Placeholder, false, true)
    ensures n >= 3 ==> AfterErrorsStaged(src, n) == ImageState(Placeholder, true, true)
  {
    if n > 0 {
      StagedEscalation(src, n - 1);
    }
  }

  /** The staged machine on the placeholder image itself: there is no
      other image to swap in, so the second error already gives up. */
  lemma {:induction false} StagedOnPlaceholder(src: string, n: nat)
    requires src == Placeholder
    ensures n == 1 ==> AfterErrorsStaged(src, n) == ImageState(src, false, true)
    ensures n >= 2 ==> AfterErrorsStaged(src, n) == ImageState(src, true, true)
  {
    if n > 0 {
      StagedOnPlaceholder(src, n - 1);
    }
  }

  /** With the staged machine the fallback is drawn exactly from the third
      error on for an ordinary image, and from the second on when `src` is
      already the placeholder; `imgSrc` is only ever `src` or the
      placeholder. */
  lemma StagedFallback(src: string, n: nat)
    ensures ShowsFallback(AfterErrorsStaged(src, n)) <==> n >= (if src == Placeholder then 2 else 3)
    ensures AfterErrorsStaged(src, n).imgSrc in {src, Placeholder}
  {
    if src == Placeholder {
      StagedOnPlaceholder(src, n);
    } else {
      StagedEscalation(src, n);
    }
  }
}
