/** How the server's serializer fields clean a text value before any check:
    a DRF `CharField` strips surrounding white space with Python's
    `str.strip()` (its `trim_whitespace` option is on by default), and a
    field that does not allow blanks refuses a value that strips to
    nothing. */
module Fields {

  /** The characters Python's `str.isspace()` accepts: the ASCII white space
      and separator characters, and the Unicode space separators. */
  predicate IsSpace(c: char)
  {
    c == '\t' || c == '\n' || c == '\U{B}' || c == '\U{C}' || c == '\r' ||
    ('\U{1C}' <= c <= '\U{1F}') || c == ' ' || c == '\U{85}' || c == '\U{A0}' ||
    c == '\U{1680}' || ('\U{2000}' <= c <= '\U{200A}') || c == '\U{2028}' ||
    c == '\U{2029}' || c == '\U{202F}' || c == '\U{205F}' || c == '\U{3000}'
  }

  /** Nothing but white space. */
  predicate AllSpace(s: string)
  {
    forall i :: 0 <= i < |s| ==> IsSpace(s[i])
  }

  /** The index of the first character at or after `i` that is not white
      space, or `|s|` if there is none. */
  function SkipFrom(s: string, i: nat): (n: nat)
    requires i <= |s|
    ensures i <= n <= |s|
    ensures forall k :: i <= k < n ==> IsSpace(s[k])
    ensures n == |s| || !IsSpace(s[n])
    decreases |s| - i
  {
    if i < |s| && IsSpace(s[i]) then SkipFrom(s, i + 1) else i
  }

  /** The index just after the last character before `j` that is not white
      space, or 0 if there is none. */
  function SkipBack(s: string, j: nat): (n: nat)
    requires j <= |s|
    ensures n <= j
    ensures forall k :: n <= k < j ==> IsSpace(s[k])
    ensures n == 0 || !IsSpace(s[n - 1])
  {
    if j > 0 && IsSpace(s[j - 1]) then SkipBack(s, j - 1) else j
  }

  /** `str.strip()`: the white space at both ends is dropped; the result has
      white space at neither end and is empty exactly when `s` is all white
      space. */
  function Strip(s: string): (r: string)
    ensures |r| <= |s|
    ensures r == [] || (!IsSpace(r[0]) && !IsSpace(r[|r| - 1]))
    ensures r == [] <==> AllSpace(s)
  {
    var a := SkipFrom(s, 0);
    if a == |s| then []
    else
      var b := SkipBack(s, |s|);
      assert !IsSpace(s[a]);
      s[a..b]
  }

  /** Any index with the properties of `SkipFrom(s, i)` is it. */
  lemma {:induction false} SkipFromIs(s: string, i: nat, n: nat)
    requires i <= n <= |s|
    requires forall k :: i <= k < n ==> IsSpace(s[k])
    requires n == |s| || !IsSpace(s[n])
    ensures SkipFrom(s, i) == n
    decreases |s| - i
  {
    if i < n {
      SkipFromIs(s, i + 1, n);
    }
  }

  /** Any index with the properties of `SkipBack(s, j)` is it. */
  lemma {:induction false} SkipBackIs(s: string, j: nat, n: nat)
    requires n <= j <= |s|
    requires forall k :: n <= k < j ==> IsSpace(s[k])
    requires n == 0 || !IsSpace(s[n - 1])
    ensures SkipBack(s, j) == n
  {
    if n < j {
      SkipBackIs(s, j - 1, n);
    }
  }

  /** A text with white space at neither end is its own stripped value. */
  lemma StripClean(t: string)
    requires t == [] || (!IsSpace(t[0]) && !IsSpace(t[|t| - 1]))
    ensures Strip(t) == t
  {
    if t != [] {
      SkipFromIs(t, 0, 0);
      SkipBackIs(t, |t|, |t|);
    }
  }

  /** Stripping a stripped value changes nothing, so a cleaned value sent
      again is stored again as it is. */
  lemma StripIdempotent(s: string)
    ensures Strip(Strip(s)) == Strip(s)
  {
    StripClean(Strip(s));
  }

  /** Stripping ignores white space added at either end. */
  lemma StripPaddedAny(a: string, t: string, b: string)
    requires AllSpace(a) && AllSpace(b)
    ensures Strip(a + t + b) == Strip(t)
  {
    var i := SkipFrom(t, 0);
    if i == |t| {
      AllSpacePadded(a, t, b);
    } else {
      var j := SkipBack(t, |t|);
      PaddedStart(a, t, b, i);
      PaddedEnd(a, t, b, j);
      PaddedMiddle(a, t, b, i, j);
      StripBetween(t, i, j);
      StripBetween(a + t + b, |a| + i, |a| + j);
    }
  }

  /** The stripped value once the two ends are known. */
  lemma StripBetween(s: string, i: nat, j: nat)
    requires i < |s| && i == SkipFrom(s, 0) && j <= |s| && j == SkipBack(s, |s|)
    ensures i <= j && Strip(s) == s[i..j]
  {
    assert !IsSpace(s[i]);
  }

  lemma AllSpacePadded(a: string, t: string, b: string)
    requires AllSpace(a) && AllSpace(t) && AllSpace(b)
    ensures AllSpace(a + t + b)
  {
    var u := a + t + b;
    forall k | 0 <= k < |u| ensures IsSpace(u[k]) {
      if k >= |a| + |t| {
        assert u[k] == b[k - |a| - |t|];
      } else if k >= |a| {
        assert u[k] == t[k - |a|];
      }
    }
  }

  lemma PaddedMiddle(a: string, t: string, b: string, i: nat, j: nat)
    requires i <= j <= |t|
    ensures (a + t + b)[|a| + i..|a| + j] == t[i..j]
  {
    var u := a + t + b;
    forall k | 0 <= k < j - i ensures u[|a| + i..|a| + j][k] == t[i..j][k] {
      assert u[|a| + i + k] == t[i + k];
    }
  }

  lemma PaddedStart(a: string, t: string, b: string, i: nat)
    requires AllSpace(a) && i == SkipFrom(t, 0) && i < |t|
    ensures SkipFrom(a + t + b, 0) == |a| + i
  {
    var u := a + t + b;
    forall k | 0 <= k < |a| + i ensures IsSpace(u[k]) {
      if k >= |a| {
        assert u[k] == t[k - |a|];
      }
    }
    assert u[|a| + i] == t[i];
    SkipFromIs(u, 0, |a| + i);
  }

  lemma PaddedEnd(a: string, t: string, b: string, j: nat)
    requires AllSpace(b) && j == SkipBack(t, |t|) && 0 < j
    ensures SkipBack(a + t + b, |a + t + b|) == |a| + j
  {
    var u := a + t + b;
    forall k | |a| + j <= k < |u| ensures IsSpace(u[k]) {
      if k < |a| + |t| {
        assert u[k] == t[k - |a|];
      } else {
        assert u[k] == b[k - |a| - |t|];
      }
    }
    assert u[|a| + j - 1] == t[j - 1];
    SkipBackIs(u, |u|, |a| + j);
  }
}
