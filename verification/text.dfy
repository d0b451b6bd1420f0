/** Character classes and string trimming as Python's `str.strip()` and
    JavaScript's `String.prototype.trim()` define them, plus fixed-width
    decimal digits used by the timestamp text format. */
module Text {

  /** Python `str.isspace()`, the set `str.strip()` removes. */
  predicate IsPySpace(c: char) {
    c == ' ' || ('\t' <= c <= '\r') || ('\U{1C}' <= c <= '\U{1F}')
    || c == '\U{85}' || c == '\U{A0}' || c == '\U{1680}'
    || ('\U{2000}' <= c <= '\U{200A}') || c == '\U{2028}' || c == '\U{2029}'
    || c == '\U{202F}' || c == '\U{205F}' || c == '\U{3000}'
  }

  /** JavaScript WhiteSpace and LineTerminator, the set `trim()` and `\s` use. */
  predicate IsJsSpace(c: char) {
    c == ' ' || ('\t' <= c <= '\r') || c == '\U{A0}' || c == '\U{1680}'
    || ('\U{2000}' <= c <= '\U{200A}') || c == '\U{2028}' || c == '\U{2029}'
    || c == '\U{202F}' || c == '\U{205F}' || c == '\U{3000}' || c == '\U{FEFF}'
  }

  /** The whitespace flavour a trim uses. */
  datatype Flavour = Py | Js

  predicate IsSpace(f: Flavour, c: char) {
    if f == Py then IsPySpace(c) else IsJsSpace(c)
  }

  predicate AllSpace(f: Flavour, s: string) {
    forall i :: 0 <= i < |s| ==> IsSpace(f, s[i])
  }

  function TrimStart(f: Flavour, s: string): (r: string)
    ensures |r| <= |s| && r == s[|s| - |r|..]
    ensures AllSpace(f, s[..|s| - |r|])
    ensures r != [] ==> !IsSpace(f, r[0])
  {
    if s != [] && IsSpace(f, s[0]) then TrimStart(f, s[1..]) else s
  }

  function TrimEnd(f: Flavour, s: string): (r: string)
    ensures |r| <= |s| && r == s[..|r|]
    ensures AllSpace(f, s[|r|..])
    ensures r != [] ==> !IsSpace(f, r[|r| - 1])
  {
    if s != [] && IsSpace(f, s[|s| - 1]) then
      var t := TrimEnd(f, s[..|s| - 1]);
      assert s[|t|..] == s[..|s| - 1][|t|..] + [s[|s| - 1]];
      t
    else s
  }

  /** `s.strip()` (Py) or `s.trim()` (Js): the longest infix without whitespace at
      either end, everything cut away being whitespace. */
  function Trim(f: Flavour, s: string): (r: string)
    ensures exists i, j ::
              && 0 <= i <= j <= |s| && r == s[i..j]
              && AllSpace(f, s[..i]) && AllSpace(f, s[j..])
    ensures r != [] ==> !IsSpace(f, r[0]) && !IsSpace(f, r[|r| - 1])
  {
    var a := TrimStart(f, s);
    var r := TrimEnd(f, a);
    var i := |s| - |a|;
    assert s[i..i + |r|] == r;
    assert s[i + |r|..] == a[|r|..];
    r
  }

  /** A string trims to nothing exactly when every character is whitespace. */
  lemma {:induction false} TrimEmptyIffAllSpace(f: Flavour, s: string)
    ensures Trim(f, s) == [] <==> AllSpace(f, s)
  {
    var r := Trim(f, s);
    var i, j :| 0 <= i <= j <= |s| && r == s[i..j] && AllSpace(f, s[..i]) && AllSpace(f, s[j..]);
    if r == [] {
      forall k | 0 <= k < |s| ensures IsSpace(f, s[k]) {
        if k < i { assert s[k] == s[..i][k]; } else { assert s[k] == s[j..][k - j]; }
      }
    } else {
      assert !IsSpace(f, s[i]);
    }
  }

  predicate IsDigit(c: char) { '0' <= c <= '9' }

  /** A digit of radix `base` (at most 16), hexadecimal letters of either case. */
  predicate IsDigitIn(base: nat, c: char) {
    || ('0' <= c <= '9' && c as int - '0' as int < base)
    || ('a' <= c <= 'f' && c as int - 'a' as int + 10 < base)
    || ('A' <= c <= 'F' && c as int - 'A' as int + 10 < base)
  }

  predicate AllDigitsIn(base: nat, s: string) {
    forall k :: 0 <= k < |s| ==> IsDigitIn(base, s[k])
  }

  function DigitValue(c: char): (v: nat)
    requires IsDigitIn(16, c)
    ensures v < 16
    ensures IsDigitIn(10, c) ==> v < 10
  {
    if '0' <= c <= '9' then c as int - '0' as int
    else if 'a' <= c <= 'f' then c as int - 'a' as int + 10
    else c as int - 'A' as int + 10
  }

  /** The lower-case digit written for `d`. */
  function DigitChar(d: nat): (c: char)
    requires d < 16
    ensures IsDigitIn(d + 1, c) && DigitValue(c) == d
  {
    if d < 10 then ('0' as int + d) as char else ('a' as int + (d - 10)) as char
  }

  function Pow(base: nat, w: nat): (p: nat)
    requires base >= 1
    ensures p >= 1
  {
    if w == 0 then 1 else base * Pow(base, w - 1)
  }

  /** `n` written in exactly `w` digits of radix `base`, most significant first,
      padded with zeros on the left (Python's `%0*d` and `%0*x`). */
  function Fixed(base: nat, n: nat, w: nat): (r: string)
    requires 2 <= base <= 16
    ensures |r| == w
    ensures AllDigitsIn(base, r)
  {
    if w == 0 then [] else Fixed(base, n / base, w - 1) + [DigitChar(n % base)]
  }

  /** The value of a string of digits of radix `base`. */
  function ReadDigits(base: nat, s: string): (n: nat)
    requires 2 <= base <= 16
    requires AllDigitsIn(base, s)
  {
    if s == [] then 0 else base * ReadDigits(base, s[..|s| - 1]) + DigitValue(s[|s| - 1])
  }

  lemma MulMono(a: nat, x: nat, y: nat)
    requires x <= y
    ensures a * x <= a * y
  {
    if a > 0 {
      MulMono(a - 1, x, y);
      assert a * x == (a - 1) * x + x;
      assert a * y == (a - 1) * y + y;
    }
  }

  lemma DivBelow(n: nat, base: nat, p: nat)
    requires base >= 1 && n < base * p
    ensures n / base < p
  {
    var q, r := n / base, n % base;
    assert n == base * q + r;
    if q >= p {
      MulMono(base, p, q);
    }
  }

  lemma FixedLast(base: nat, n: nat, w: nat)
    requires 2 <= base <= 16 && w > 0
    ensures Fixed(base, n, w)[..w - 1] == Fixed(base, n / base, w - 1)
    ensures DigitValue(Fixed(base, n, w)[w - 1]) == n % base
  {
  }

  lemma DivMod(n: nat, base: nat, p: nat)
    requires base >= 2 && n < base * p
    ensures n / base < p && n == base * (n / base) + n % base
  {
    DivBelow(n, base, p);
  }

  /** Reading back `w` fixed digits gives the number, when it fits in `w` digits. */
  lemma {:induction false} ReadFixed(base: nat, n: nat, w: nat)
    requires 2 <= base <= 16
    requires n < Pow(base, w)
    ensures ReadDigits(base, Fixed(base, n, w)) == n
    decreases w
  {
    if w > 0 {
      DivMod(n, base, Pow(base, w - 1));
      ReadFixed(base, n / base, w - 1);
      FixedLast(base, n, w);
    }
  }

  lemma StepBound(base: nat, hi: nat, v: nat, p: nat)
    requires v < base && hi < p
    ensures base * hi + v < base * p
  {
    MulMono(base, hi + 1, p);
    assert base * (hi + 1) == base * hi + base;
  }

  /** A read value is below the radix raised to the number of digits. */
  lemma {:induction false} ReadDigitsBound(base: nat, s: string)
    requires 2 <= base <= 16
    requires AllDigitsIn(base, s)
    ensures ReadDigits(base, s) < Pow(base, |s|)
  {
    if s != [] {
      ReadDigitsBound(base, s[..|s| - 1]);
      assert IsDigitIn(base, s[|s| - 1]);
      StepBound(base, ReadDigits(base, s[..|s| - 1]), DigitValue(s[|s| - 1]), Pow(base, |s| - 1));
    }
  }

  /** Decimal rendering without padding, as JavaScript's `String(n)` and Python's `str(n)`. */
  function Decimal(n: int): (r: string)
    ensures r != []
    decreases if n < 0 then -n + 1 else n
  {
    if n < 0 then "-" + Decimal(-n)
    else if n < 10 then [DigitChar(n)]
    else Decimal(n / 10) + [DigitChar(n % 10)]
  }

  predicate IsAsciiUpper(c: char) { 'A' <= c <= 'Z' }
  predicate IsAsciiLower(c: char) { 'a' <= c <= 'z' }
  predicate IsAsciiLetter(c: char) { IsAsciiUpper(c) || IsAsciiLower(c) }

  function LowerChar(c: char): char {
    if IsAsciiUpper(c) then (c as int + 32) as char else c
  }

  /** ASCII case folding, the comparison behind Django's `__iexact` on ASCII names. */
  function Lower(s: string): (r: string)
    ensures |r| == |s|
    ensures forall k :: 0 <= k < |s| ==> r[k] == LowerChar(s[k])
  {
    if s == [] then [] else [LowerChar(s[0])] + Lower(s[1..])
  }
}
