/** Character and string helpers shared by the backend and frontend models:
    Python's whitespace stripping, joining of string pieces, decimal rendering
    of integers as JavaScript's `Number.prototype.toString` does for integral
    values, and `String.prototype.padStart`. */
module Text {

  /** Python's `str.isspace` on one character: exactly the characters that
      `str.strip()` without argument removes. */
  predicate IsSpace(c: char)
  {
    || ('\U{9}' <= c <= '\U{D}')      // tab, line feed, vertical tab, form feed, carriage return
    || ('\U{1C}' <= c <= '\U{1F}')    // file, group, record and unit separators
    || c == ' '
    || c == '\U{85}' || c == '\U{A0}' || c == '\U{1680}'
    || ('\U{2000}' <= c <= '\U{200A}')
    || c == '\U{2028}' || c == '\U{2029}' || c == '\U{202F}' || c == '\U{205F}'
    || c == '\U{3000}'
  }

  /** The number of whitespace characters `s` starts with. */
  function LeadingSpaces(s: string): (n: nat)
    ensures n <= |s|
    ensures forall i :: 0 <= i < n ==> IsSpace(s[i])
    ensures n < |s| ==> !IsSpace(s[n])
  {
    if s != [] && IsSpace(s[0]) then
      var n := 1 + LeadingSpaces(s[1..]);
      assert forall i :: 1 <= i < n ==> s[i] == s[1..][i - 1];
      n
    else 0
  }

  /** The end of `s[lo..hi]` once its trailing whitespace is dropped. */
  function TrailingEnd(s: string, lo: nat, hi: nat): (e: nat)
    requires lo <= hi <= |s|
    ensures lo <= e <= hi
    ensures forall i :: e <= i < hi ==> IsSpace(s[i])
    ensures e > lo ==> !IsSpace(s[e - 1])
    decreases hi
  {
    if hi > lo && IsSpace(s[hi - 1]) then TrailingEnd(s, lo, hi - 1) else hi
  }

  /** `r` is the slice of `s` that starts at `lo`, everything cut away on
      either side is whitespace, and `r` neither starts nor ends with
      whitespace. */
  predicate StrippedAt(s: string, lo: int, r: string)
  {
    && 0 <= lo && lo + |r| <= |s|
    && r == s[lo..lo + |r|]
    && (forall i :: 0 <= i < lo ==> IsSpace(s[i]))
    && (forall i :: lo + |r| <= i < |s| ==> IsSpace(s[i]))
    && (r != [] ==> !IsSpace(r[0]) && !IsSpace(r[|r| - 1]))
  }

  /** Python's `str.strip()` without argument: skip whitespace from the
      front, then from the back, and keep what lies between. */
  function Strip(s: string): (r: string)
    ensures StrippedAt(s, LeadingSpaces(s), r)
  {
    var lo := LeadingSpaces(s);
    s[lo..TrailingEnd(s, lo, |s|)]
  }

  /** Stripping is determined by its characterisation: any slice of `s`
      that `StrippedAt` accepts is `Strip(s)`. */
  lemma StripUnique(s: string, lo: int, r: string)
    requires StrippedAt(s, lo, r)
    ensures r == Strip(s)
  {
    var r' := Strip(s);
    var lo' := LeadingSpaces(s);
    assert StrippedAt(s, lo', r');
    if r != [] {
      assert s[lo] == r[0] && s[lo + |r| - 1] == r[|r| - 1];
    }
    if r' != [] {
      assert s[lo'] == r'[0] && s[lo' + |r'| - 1] == r'[|r'| - 1];
    }
    if r != [] && r' != [] {
      if lo != lo' { assert false; }
      if |r| != |r'| { assert false; }
    } else if r != [] || r' != [] {
      assert false;
    }
  }

  /** Stripping twice is stripping once. */
  lemma StripIdempotent(s: string)
    ensures Strip(Strip(s)) == Strip(s)
  {
    var r := Strip(s);
    assert r[0..0 + |r|] == r;
    StripUnique(r, 0, r);
  }

  /** Python's `"".join(parts)`. */
  function Concat(parts: seq<string>): string
  {
    if parts == [] then "" else parts[0] + Concat(parts[1..])
  }

  /** Joining distributes over concatenation of the piece lists. */
  lemma {:induction false} ConcatAppend(a: seq<string>, b: seq<string>)
    ensures Concat(a + b) == Concat(a) + Concat(b)
  {
    if a == [] {
      assert a + b == b;
    } else {
      assert (a + b)[1..] == a[1..] + b;
      ConcatAppend(a[1..], b);
    }
  }

  /** The concatenation of the images of `xs` under `f`, in order. */
  function ConcatMap<T>(f: T -> string, xs: seq<T>): string
  {
    if xs == [] then "" else f(xs[0]) + ConcatMap(f, xs[1..])
  }

  lemma {:induction false} ConcatMapAppend<T>(f: T -> string, a: seq<T>, b: seq<T>)
    ensures ConcatMap(f, a + b) == ConcatMap(f, a) + ConcatMap(f, b)
  {
    if a == [] {
      assert a + b == b;
    } else {
      assert (a + b)[1..] == a[1..] + b;
      ConcatMapAppend(f, a[1..], b);
    }
  }

  /** The image of `xs[k]` sits between the images of the elements before
      it and those after it. */
  lemma ConcatMapAt<T>(f: T -> string, xs: seq<T>, k: int)
    requires 0 <= k < |xs|
    ensures ConcatMap(f, xs) == ConcatMap(f, xs[..k]) + f(xs[k]) + ConcatMap(f, xs[k + 1..])
  {
    var rest := [xs[k]] + xs[k + 1..];
    assert rest[0] == xs[k] && rest[1..] == xs[k + 1..];
    assert ConcatMap(f, rest) == f(xs[k]) + ConcatMap(f, xs[k + 1..]);
    assert xs == xs[..k] + rest;
    ConcatMapAppend(f, xs[..k], rest);
  }

  /** Appending one element appends its image. */
  lemma ConcatMapSnoc<T>(f: T -> string, xs: seq<T>, x: T)
    ensures ConcatMap(f, xs + [x]) == ConcatMap(f, xs) + f(x)
  {
    ConcatMapAppend(f, xs, [x]);
    assert [x][1..] == [];
    assert ConcatMap(f, [x]) == f(x) + "";
  }

  /** String concatenation is associative. */
  lemma AppendAssoc(a: string, b: string, c: string)
    ensures (a + b) + c == a + (b + c)
  {
  }

  predicate IsDigit(c: char)
  {
    '0' <= c <= '9'
  }

  predicate AllDigits(s: string)
  {
    forall i :: 0 <= i < |s| ==> IsDigit(s[i])
  }

  function DigitChar(d: int): (c: char)
    requires 0 <= d < 10
    ensures IsDigit(c) && c as int - '0' as int == d
  {
    ('0' as int + d) as char
  }

  function DigitValue(c: char): int
    requires IsDigit(c)
  {
    c as int - '0' as int
  }

  /** The value of a string of decimal digits (the empty string reads as 0). */
  function DigitsValue(s: string): nat
    requires AllDigits(s)
  {
    if s == [] then 0 else DigitsValue(s[..|s| - 1]) * 10 + DigitValue(s[|s| - 1])
  }

  /** Decimal rendering of a natural number without leading zeros. */
  function NatToString(n: nat): (r: string)
    ensures |r| >= 1 && AllDigits(r)
    ensures |r| > 1 ==> r[0] != '0'
  {
    if n < 10 then [DigitChar(n)] else NatToString(n / 10) + [DigitChar(n % 10)]
  }

  /** Reading the digits back gives the number that was rendered. */
  lemma {:induction false} NatToStringRoundTrip(n: nat)
    ensures DigitsValue(NatToString(n)) == n
  {
    var r := NatToString(n);
    if n >= 10 {
      NatToStringRoundTrip(n / 10);
      assert r[..|r| - 1] == NatToString(n / 10);
    }
  }

  /** `Number.prototype.toString` on an integral value: a minus sign, if
      negative, before the decimal digits of the magnitude. */
  function IntToString(i: int): string
  {
    if i < 0 then "-" + NatToString(-i) else NatToString(i)
  }

  /** `s.padStart(width, fill)` with a one-character fill: prepends copies of
      `fill` until the string is `width` long; longer strings are unchanged. */
  function PadStart(s: string, width: nat, fill: char): (r: string)
    ensures |r| == if |s| < width then width else |s|
    ensures r[|r| - |s|..] == s
    ensures forall i :: 0 <= i < |r| - |s| ==> r[i] == fill
  {
    if |s| < width then seq(width - |s|, _ => fill) + s else s
  }
}
