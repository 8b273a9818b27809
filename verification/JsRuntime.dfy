/**
 The parts of the JavaScript runtime that the admin UI relies on: the
 whitespace class shared by `String.prototype.trim` and the regular
 expression escape `\s`, `trim` itself, `Array.prototype.filter`, and the
 `message || fallback` idiom the pages use to pick a user-visible error.
 */
module JsRuntime {

  /** A value of type `T | null`, or an optional response field such as
      `response?.data?.message`: `None` when it is absent, `Some(value)`
      when it is there. */
  datatype Option<+T> = None | Some(value: T)

  /** ECMAScript WhiteSpace or LineTerminator: exactly the characters that
      `trim` strips and `\s` matches. */
  predicate IsSpace(c: char)
  {
    var n := c as int;
    || n == 0x09 || n == 0x0A || n == 0x0B || n == 0x0C || n == 0x0D
    || n == 0x20 || n == 0xA0 || n == 0x1680
    || (0x2000 <= n <= 0x200A)
    || n == 0x2028 || n == 0x2029 || n == 0x202F || n == 0x205F
    || n == 0x3000 || n == 0xFEFF
  }

  /** ECMAScript LineTerminator: the characters the regular expression `.`
      does not match. */
  predicate IsLineTerminator(c: char)
  {
    var n := c as int;
    n == 0x0A || n == 0x0D || n == 0x2028 || n == 0x2029
  }

  /** A string made only of whitespace (including the empty string). */
  predicate IsBlank(s: string)
  {
    forall i :: 0 <= i < |s| ==> IsSpace(s[i])
  }

  /** A string with no whitespace at all. */
  predicate NoSpace(s: string)
  {
    forall i :: 0 <= i < |s| ==> !IsSpace(s[i])
  }

  /** JavaScript truthiness of a string: only `""` is falsy. */
  predicate Truthy(s: string)
  {
    s != ""
  }

  /** Number of whitespace characters at the start of `s`. */
  function LeadingSpaces(s: string): (k: nat)
    ensures k <= |s|
    ensures forall i :: 0 <= i < k ==> IsSpace(s[i])
    ensures k < |s| ==> !IsSpace(s[k])
  {
    if |s| == 0 || !IsSpace(s[0]) then 0 else 1 + LeadingSpaces(s[1..])
  }

  /** Number of whitespace characters at the end of `s`. */
  function TrailingSpaces(s: string): (k: nat)
    ensures k <= |s|
    ensures forall i :: |s| - k <= i < |s| ==> IsSpace(s[i])
    ensures k < |s| ==> !IsSpace(s[|s| - k - 1])
  {
    if |s| == 0 || !IsSpace(s[|s| - 1]) then 0 else 1 + TrailingSpaces(s[..|s| - 1])
  }

  /** `s.trim()`: the longest infix of `s` that neither starts nor ends with
      whitespace, obtained by dropping only whitespace on both sides. */
  function Trim(s: string): (r: string)
    ensures |r| <= |s|
    ensures r == "" <==> IsBlank(s)
    ensures r != "" ==> !IsSpace(r[0]) && !IsSpace(r[|r| - 1])
    ensures LeadingSpaces(s) + |r| <= |s|
    ensures r == s[LeadingSpaces(s)..LeadingSpaces(s) + |r|]
    ensures IsBlank(s[..LeadingSpaces(s)]) && IsBlank(s[LeadingSpaces(s) + |r|..])
  {
    var lo := LeadingSpaces(s);
    if lo == |s| then
      assert IsBlank(s);
      ""
    else
      var t := TrailingSpaces(s);
      assert !IsSpace(s[lo]);
      assert lo < |s| - t;
      s[lo..|s| - t]
  }

  /** A non-empty text with no whitespace at either end, padded only with
      whitespace, trims back to itself. */
  lemma TrimOfPadded(p: string, r: string, q: string)
    requires IsBlank(p) && IsBlank(q)
    requires r != "" && !IsSpace(r[0]) && !IsSpace(r[|r| - 1])
    ensures Trim(p + r + q) == r
  {
    var x := p + r + q;
    assert x == p + (r + q);
    LeadingSpacesPadded(p, r + q);
    assert (r + q)[0] == r[0];
    assert LeadingSpaces(r + q) == 0;
    TrailingSpacesPadded(p + r, q);
    assert (p + r)[|p + r| - 1] == r[|r| - 1];
    assert TrailingSpaces(p + r) == 0;
    assert x[|p|..|x| - |q|] == r;
  }

  /** Trimming twice is trimming once. */
  lemma TrimIdempotent(s: string)
    ensures Trim(Trim(s)) == Trim(s)
  {
    var r := Trim(s);
    if r != "" {
      TrimOfPadded("", r, "");
      assert "" + r + "" == r;
    }
  }

  /** Whitespace padding on either side does not change the trimmed text. */
  lemma TrimIgnoresPadding(a: string, s: string, b: string)
    requires IsBlank(a) && IsBlank(b)
    ensures Trim(a + s + b) == Trim(s)
  {
    if IsBlank(s) {
      BlankConcat(a, s);
      BlankConcat(a + s, b);
    } else {
      TrimOfPaddedText(a, s, b);
    }
  }

  /** The non-blank half of `TrimIgnoresPadding`. */
  lemma TrimOfPaddedText(a: string, s: string, b: string)
    requires IsBlank(a) && IsBlank(b) && !IsBlank(s)
    ensures Trim(a + s + b) == Trim(s)
  {
    var r := Trim(s);
    var lo := LeadingSpaces(s);
    var hi := lo + |r|;
    var pre := s[..lo];
    var post := s[hi..];
    assert IsBlank(pre) && IsBlank(post);
    SplitThree(s, lo, hi);
    var p := a + pre;
    var q := post + b;
    BlankConcat(a, pre);
    BlankConcat(post, b);
    ConcatRegroup(a, pre, r, post, b);
    TrimOfPadded(p, r, q);
  }

  /** Cutting a string at two points and gluing the pieces back. */
  lemma SplitThree(s: string, i: nat, j: nat)
    requires i <= j <= |s|
    ensures s == s[..i] + s[i..j] + s[j..]
  {
    assert s[..j] == s[..i] + s[i..j];
  }

  /** Regrouping five concatenated pieces around the middle one. */
  lemma ConcatRegroup(a: string, pre: string, r: string, post: string, b: string)
    ensures a + (pre + r + post) + b == (a + pre) + r + (post + b)
  {
  }

  /** Two blank strings make a blank string. */
  lemma BlankConcat(a: string, b: string)
    requires IsBlank(a) && IsBlank(b)
    ensures IsBlank(a + b)
  {
    forall i | 0 <= i < |a + b| ensures IsSpace((a + b)[i]) {
      if i >= |a| {
        assert (a + b)[i] == b[i - |a|];
      }
    }
  }

  /** Leading whitespace of `a + s` with `a` blank is `|a|` plus that of `s`. */
  lemma {:induction false} LeadingSpacesPadded(a: string, s: string)
    requires IsBlank(a)
    ensures LeadingSpaces(a + s) == |a| + LeadingSpaces(s)
  {
    if |a| > 0 {
      assert (a + s)[1..] == a[1..] + s;
      LeadingSpacesPadded(a[1..], s);
    } else {
      assert a + s == s;
    }
  }

  /** Trailing whitespace of `s + b` with `b` blank is `|b|` plus that of `s`. */
  lemma {:induction false} TrailingSpacesPadded(s: string, b: string)
    requires IsBlank(b)
    ensures TrailingSpaces(s + b) == |b| + TrailingSpaces(s)
  {
    if |b| > 0 {
      var x := s + b;
      assert x[..|x| - 1] == s + b[..|b| - 1];
      assert x[|x| - 1] == b[|b| - 1];
      TrailingSpacesPadded(s, b[..|b| - 1]);
    } else {
      assert s + b == s;
    }
  }

  /** JavaScript `message || fallback` over an optional server message:
      the server's text when it is present and non-empty, the fallback
      otherwise. */
  function OrFallback(message: Option<string>, fallback: string): (r: string)
    ensures message.Some? && Truthy(message.value) ==> r == message.value
    ensures message.None? || !Truthy(message.value) ==> r == fallback
    ensures Truthy(fallback) ==> Truthy(r)
  {
    match message
    case Some(m) => if Truthy(m) then m else fallback
    case None => fallback
  }

  // ---------------------------------------------------------------------
  // Array.prototype.filter

  /** `s.filter(keep)`: the elements satisfying `keep`, in their order. */
  function Filter<T>(s: seq<T>, keep: T -> bool): (r: seq<T>)
    ensures |r| <= |s|
    ensures forall i :: 0 <= i < |r| ==> r[i] in s && keep(r[i])
    ensures forall i :: 0 <= i < |s| && keep(s[i]) ==> s[i] in r
  {
    if |s| == 0 then []
    else if keep(s[0]) then [s[0]] + Filter(s[1..], keep)
    else Filter(s[1..], keep)
  }

  /** Filtering keeps a list whose every element passes. */
  lemma {:induction false} FilterKeepsAll<T>(s: seq<T>, keep: T -> bool)
    requires forall i :: 0 <= i < |s| ==> keep(s[i])
    ensures Filter(s, keep) == s
  {
    if |s| > 0 {
      var rest := s[1..];
      assert keep(s[0]);
      assert forall i :: 0 <= i < |rest| ==> rest[i] == s[i + 1];
      FilterKeepsAll(rest, keep);
      assert Filter(s, keep) == [s[0]] + rest;
      assert [s[0]] + rest == s;
    }
  }

  /** Filtering distributes over concatenation, so the survivors keep the
      relative order they had. */
  lemma {:induction false} FilterSplits<T>(a: seq<T>, b: seq<T>, keep: T -> bool)
    ensures Filter(a + b, keep) == Filter(a, keep) + Filter(b, keep)
    decreases |a|
  {
    if |a| == 0 {
      assert a + b == b;
    } else {
      assert (a + b)[0] == a[0];
      assert (a + b)[1..] == a[1..] + b;
      FilterSplits(a[1..], b, keep);
    }
  }

  /** Each passing element survives as often as it occurred; the others
      are all gone. */
  lemma {:induction false} FilterCounts<T>(s: seq<T>, keep: T -> bool)
    ensures forall x :: multiset(Filter(s, keep))[x] == (if keep(x) then multiset(s)[x] else 0)
  {
    if |s| > 0 {
      FilterCounts(s[1..], keep);
      assert s == [s[0]] + s[1..];
      assert multiset(s) == multiset([s[0]]) + multiset(s[1..]);
    }
  }

  /** The length lost is the number of failing elements. */
  lemma {:induction false} FilterLength<T>(s: seq<T>, keep: T -> bool)
    ensures |Filter(s, keep)| == |s| - CountFailing(s, keep)
  {
    if |s| > 0 {
      FilterLength(s[1..], keep);
    }
  }

  /** Number of elements of `s` that `keep` rejects. */
  function CountFailing<T>(s: seq<T>, keep: T -> bool): nat
  {
    if |s| == 0 then 0 else (if keep(s[0]) then 0 else 1) + CountFailing(s[1..], keep)
  }
}
