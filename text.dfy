/** The optional value used wherever the source has `null`, `undefined` or
    `None`. */
module Wrappers {

  datatype Option<T> = None | Some(value: T)
  {
    function GetOr(default: T): T
    {
      match this
      case Some(v) => v
      case None => default
    }
  }
}

/** String operations of the JavaScript client: the case-insensitive
    `includes` of the search box, the `trim()` test of the input guards and
    `parseInt` of the number inputs. */
module Text {
  import opened Wrappers

  /** `toLowerCase` on one character (ASCII letters; other characters are
      kept). */
  function LowerChar(c: char): (r: char)
    ensures 'A' <= c <= 'Z' ==> r as int == c as int + 32
    ensures !('A' <= c <= 'Z') ==> r == c
  {
    if 'A' <= c <= 'Z' then (c as int + 32) as char else c
  }

  function Lower(s: string): (r: string)
    ensures |r| == |s|
    ensures forall i :: 0 <= i < |s| ==> r[i] == LowerChar(s[i])
  {
    if s == [] then [] else [LowerChar(s[0])] + Lower(s[1..])
  }

  /** `s.includes(q)`: `q` occurs in `s` as a contiguous block, scanning from
      the left. */
  predicate Contains(s: string, q: string)
  {
    q <= s || (s != [] && Contains(s[1..], q))
  }

  /** `q` occurs in `s` starting at index `i`. */
  predicate OccursAt(s: string, q: string, i: int)
  {
    0 <= i <= |s| - |q| && s[i..i + |q|] == q
  }

  /** `Contains` agrees with the index-based reading of `includes`. */
  lemma ContainsAt(s: string, q: string)
    ensures Contains(s, q) <==> exists i :: OccursAt(s, q, i)
  {
    if Contains(s, q) {
      ContainsSome(s, q);
    }
    if exists i :: OccursAt(s, q, i) {
      var i :| OccursAt(s, q, i);
      OccursContains(s, q, i);
    }
  }

  /** What `Contains` finds is an occurrence. */
  lemma {:induction false} ContainsSome(s: string, q: string)
    requires Contains(s, q)
    ensures exists i :: OccursAt(s, q, i)
  {
    if q <= s {
      assert OccursAt(s, q, 0);
    } else {
      ContainsSome(s[1..], q);
      var j :| OccursAt(s[1..], q, j);
      assert s[j + 1..j + 1 + |q|] == s[1..][j..j + |q|];
      assert OccursAt(s, q, j + 1);
    }
  }

  /** An occurrence anywhere is found by `Contains`. */
  lemma {:induction false} OccursContains(s: string, q: string, i: int)
    requires OccursAt(s, q, i)
    ensures Contains(s, q)
    decreases i
  {
    if i > 0 {
      assert s[1..][i - 1..i - 1 + |q|] == s[i..i + |q|];
      OccursContains(s[1..], q, i - 1);
    }
  }

  /** Every string includes the empty string. */
  lemma ContainsEmpty(s: string)
    ensures Contains(s, "")
  {
  }

  /** The characters `String.prototype.trim` removes: the white space and line
      terminator characters of the JavaScript grammar. */
  predicate IsWhitespace(c: char)
  {
    c == '\t' || c == '\n' || c == '\U{B}' || c == '\U{C}' || c == '\r' || c == ' ' ||
    c == '\U{A0}' || c == '\U{1680}' || ('\U{2000}' <= c <= '\U{200A}') ||
    c == '\U{2028}' || c == '\U{2029}' || c == '\U{202F}' || c == '\U{205F}' ||
    c == '\U{3000}' || c == '\U{FEFF}'
  }

  /** `!s.trim()`: nothing but white space is left, so the trimmed string is
      empty and falsy. */
  predicate IsBlank(s: string)
  {
    forall i :: 0 <= i < |s| ==> IsWhitespace(s[i])
  }

  predicate IsDigit(c: char)
  {
    '0' <= c <= '9'
  }

  /** The longest prefix of `s` made of decimal digits. */
  function LeadingDigits(s: string): (r: string)
    ensures r <= s
    ensures forall i :: 0 <= i < |r| ==> IsDigit(r[i])
    ensures |r| < |s| ==> !IsDigit(s[|r|])
  {
    if s != [] && IsDigit(s[0]) then [s[0]] + LeadingDigits(s[1..]) else []
  }

  /** The value of a string of decimal digits, most significant first. */
  function DigitsValue(ds: string): nat
  {
    if ds == [] then 0
    else 10 * DigitsValue(ds[..|ds| - 1]) + (ds[|ds| - 1] as int - '0' as int) % 10
  }

  function DropWhitespace(s: string): (r: string)
    ensures r == [] || !IsWhitespace(r[0])
    ensures |r| <= |s| && r == s[|s| - |r|..]
  {
    if s != [] && IsWhitespace(s[0]) then DropWhitespace(s[1..]) else s
  }

  /** `parseInt(s)` with the default radix on decimal input: leading white
      space is skipped, one sign is read, then the longest run of digits;
      `None` stands for `NaN` (no digit at all). */
  function ParseInt(s: string): Option<int>
  {
    ParseSigned(DropWhitespace(s))
  }

  /** An optional sign, then the digits. */
  function ParseSigned(t: string): Option<int>
  {
    if t != [] && t[0] == '-' then Negated(ParseUnsigned(t[1..]))
    else if t != [] && t[0] == '+' then ParseUnsigned(t[1..])
    else ParseUnsigned(t)
  }

  /** The value of the leading digits, if there is at least one. */
  function ParseUnsigned(b: string): Option<int>
  {
    var ds := LeadingDigits(b);
    if ds == [] then None else Some(DigitsValue(ds))
  }

  function Negated(v: Option<int>): Option<int>
  {
    if v.Some? then Some(-v.value) else None
  }

  function DigitChar(d: nat): (c: char)
    requires d < 10
    ensures IsDigit(c)
  {
    ('0' as int + d) as char
  }

  /** The decimal digits of `n` (what `String(n)` prints for a non-negative
      integer). */
  function Digits(n: nat): (r: string)
    ensures r != []
    ensures forall i :: 0 <= i < |r| ==> IsDigit(r[i])
  {
    if n < 10 then [DigitChar(n)] else Digits(n / 10) + [DigitChar(n % 10)]
  }

  /** `String(n)` for an integer `n`. */
  function Decimal(n: int): string
  {
    if n < 0 then "-" + Digits(-n) else Digits(n)
  }

  lemma {:induction false} DigitsValueOfDigits(n: nat)
    ensures DigitsValue(Digits(n)) == n
  {
    if n >= 10 {
      DigitsValueOfDigits(n / 10);
      var r := Digits(n);
      assert r[..|r| - 1] == Digits(n / 10);
    }
  }

  lemma {:induction false} LeadingDigitsOfDigits(ds: string)
    requires forall i :: 0 <= i < |ds| ==> IsDigit(ds[i])
    ensures LeadingDigits(ds) == ds
  {
    if ds != [] {
      LeadingDigitsOfDigits(ds[1..]);
    }
  }

  lemma DigitIsNotSpaceOrSign(c: char)
    requires IsDigit(c)
    ensures !IsWhitespace(c) && c != '-' && c != '+'
  {
  }

  /** `parseInt` of a run of digits, possibly after a minus sign. */
  lemma ParseIntOfDigits(ds: string, negative: bool)
    requires ds != [] && forall i :: 0 <= i < |ds| ==> IsDigit(ds[i])
    ensures ParseInt(if negative then "-" + ds else ds)
         == Some(if negative then -(DigitsValue(ds) as int) else DigitsValue(ds))
  {
    LeadingDigitsOfDigits(ds);
    DigitIsNotSpaceOrSign(ds[0]);
    if negative {
      ParseIntOfNegative(ds);
    } else {
      ParseIntOfUnsigned(ds);
    }
  }

  lemma DropWhitespaceStops(s: string)
    requires s != [] && !IsWhitespace(s[0])
    ensures DropWhitespace(s) == s
  {
  }

  lemma ParseIntOfUnsigned(ds: string)
    requires ds != [] && LeadingDigits(ds) == ds
    requires !IsWhitespace(ds[0]) && ds[0] != '-' && ds[0] != '+'
    ensures ParseInt(ds) == Some(DigitsValue(ds))
  {
    DropWhitespaceStops(ds);
  }

  lemma ParseIntOfNegative(ds: string)
    requires ds != [] && LeadingDigits(ds) == ds
    ensures ParseInt("-" + ds) == Some(-(DigitsValue(ds) as int))
  {
    var s := "-" + ds;
    assert s[0] == '-' && s[1..] == ds;
    DropWhitespaceStops(s);
    ParseSignedMinus(s);
  }

  lemma ParseSignedMinus(t: string)
    requires t != [] && t[0] == '-'
    ensures ParseSigned(t) == Negated(ParseUnsigned(t[1..]))
  {
  }

  /** `parseInt` reads back what `String` prints. */
  lemma {:induction false} ParseIntOfDecimal(n: int)
    ensures ParseInt(Decimal(n)) == Some(n)
  {
    var m: nat := if n < 0 then -n else n;
    DigitsValueOfDigits(m);
    ParseIntOfDigits(Digits(m), n < 0);
  }
}
