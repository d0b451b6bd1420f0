/** Aware UTC timestamps as Django stores them (microsecond precision) and
    the text Python's `datetime.isoformat()` writes for them and
    `datetime.fromisoformat()` reads back. */
module IsoTime {

  import opened Wrappers
  import opened Text

  datatype Instant = Instant(year: nat, month: nat, day: nat,
                             hour: nat, minute: nat, second: nat, micro: nat)

  predicate IsLeap(y: int) {
    y % 4 == 0 && (y % 100 != 0 || y % 400 == 0)
  }

  function DaysIn(y: int, m: int): int {
    if m == 2 then (if IsLeap(y) then 29 else 28)
    else if m == 4 || m == 6 || m == 9 || m == 11 then 30
    else 31
  }

  /** The ranges Python's `datetime` constructor enforces. */
  predicate Valid(t: Instant) {
    && 1 <= t.year <= 9999 && 1 <= t.month <= 12 && 1 <= t.day <= DaysIn(t.year, t.month)
    && 0 <= t.hour < 24 && 0 <= t.minute < 60 && 0 <= t.second < 60
    && 0 <= t.micro < 1000000
  }

  /** The position of an instant on the time line, in a mixed radix that keeps
      the field order, so comparing keys compares instants as the database does. */
  function Key(t: Instant): int {
    ((((((t.year * 13 + t.month) * 32 + t.day) * 24 + t.hour) * 60 + t.minute) * 60 + t.second)
      * 1000000 + t.micro)
  }

  const UtcSuffix: string := "+00:00"

  /** The date and time of day, `YYYY-MM-DDTHH:MM:SS`. */
  function Stamp(t: Instant): (s: string)
    ensures |s| == 19
  {
    Fixed(10, t.year, 4) + "-" + Fixed(10, t.month, 2) + "-" + Fixed(10, t.day, 2)
    + "T" + Fixed(10, t.hour, 2) + ":" + Fixed(10, t.minute, 2) + ":" + Fixed(10, t.second, 2)
  }

  /** The fraction, written only when the microsecond is not zero. */
  function Fraction(t: Instant): (s: string)
    ensures |s| == (if t.micro == 0 then 0 else 7)
  {
    if t.micro == 0 then "" else "." + Fixed(10, t.micro, 6)
  }

  /** `t.isoformat()` for an aware UTC datetime. */
  function Format(t: Instant): (s: string)
    ensures |s| == (if t.micro == 0 then 25 else 32)
    ensures s[|s| - 6..] == UtcSuffix
  {
    Stamp(t) + Fraction(t) + UtcSuffix
  }

  /** The shape `YYYY-MM-DDTHH:MM:SS` with an optional `.ffffff`. */
  predicate BodyShape(b: string) {
    && (|b| == 19 || (|b| == 26 && b[19] == '.' && AllDigitsIn(10, b[20..26])))
    && b[4] == '-' && b[7] == '-' && b[10] == 'T' && b[13] == ':' && b[16] == ':'
    && AllDigitsIn(10, b[0..4]) && AllDigitsIn(10, b[5..7]) && AllDigitsIn(10, b[8..10])
    && AllDigitsIn(10, b[11..13]) && AllDigitsIn(10, b[14..16]) && AllDigitsIn(10, b[17..19])
  }

  function BodyInstant(b: string): Instant
    requires BodyShape(b)
  {
    Instant(ReadDigits(10, b[0..4]), ReadDigits(10, b[5..7]), ReadDigits(10, b[8..10]),
            ReadDigits(10, b[11..13]), ReadDigits(10, b[14..16]), ReadDigits(10, b[17..19]),
            if |b| == 26 then ReadDigits(10, b[20..26]) else 0)
  }

  /** The date alone, `YYYY-MM-DD`. */
  predicate DateShape(b: string) {
    && |b| == 10 && b[4] == '-' && b[7] == '-'
    && AllDigitsIn(10, b[0..4]) && AllDigitsIn(10, b[5..7]) && AllDigitsIn(10, b[8..10])
  }

  /** A zero UTC offset as `fromisoformat` (Python 3.11) writes or reads it:
      `+00:00`, `-00:00` or `Z`. The length of the suffix, 0 when there is none. */
  function ZeroOffset(s: string): (n: nat)
    ensures n <= |s|
    ensures n == 6 ==> s[|s| - 6..] in {"+00:00", "-00:00"}
    ensures n == 1 ==> s[|s| - 1] == 'Z'
    ensures n in {0, 1, 6}
  {
    if |s| >= 6 && (s[|s| - 6..] == UtcSuffix || s[|s| - 6..] == "-00:00") then 6
    else if |s| >= 1 && s[|s| - 1] == 'Z' then 1
    else 0
  }

  /** `datetime.fromisoformat(s)` followed by the view's "naive means UTC"
      rule, on these shapes: `YYYY-MM-DDTHH:MM:SS[.ffffff]` with a zero
      offset or none, and a date alone (midnight). `None` is the
      `ValueError`. */
  function Parse(s: string): (r: Option<Instant>)
    ensures r.Some? ==> Valid(r.value)
    ensures DateShape(s) ==> r.Some? == Valid(Instant(ReadDigits(10, s[0..4]), ReadDigits(10, s[5..7]),
                                                        ReadDigits(10, s[8..10]), 0, 0, 0, 0))
  {
    if DateShape(s) then
      var t := Instant(ReadDigits(10, s[0..4]), ReadDigits(10, s[5..7]), ReadDigits(10, s[8..10]), 0, 0, 0, 0);
      if Valid(t) then Some(t) else None
    else
      var body := s[..|s| - ZeroOffset(s)];
      if !BodyShape(body) then None
      else
        var t := BodyInstant(body);
        if Valid(t) then Some(t) else None
  }

  /** The offset spellings of UTC read alike: `Z`, `+00:00` and `-00:00`. */
  lemma ZeroOffsetsAgree(b: string)
    requires BodyShape(b)
    ensures Parse(b + "Z") == Parse(b + UtcSuffix) == Parse(b + "-00:00") == Parse(b)
  {
    assert (b + "Z")[..|b|] == b;
    assert (b + UtcSuffix)[..|b|] == b && (b + UtcSuffix)[|b|..] == UtcSuffix;
    assert (b + "-00:00")[..|b|] == b && (b + "-00:00")[|b|..] == "-00:00";
    assert (b + "Z")[|b|] == 'Z';
    assert b[..|b|] == b;
    if |b| == 19 {
      assert b[17..19][1] == b[18];
      assert b[|b| - 6..][0] == b[13] == ':';
    } else {
      assert b[20..26][5] == b[25];
      assert b[20..26][0] == b[20];
      assert b[|b| - 6..][0] == b[20];
    }
    assert ZeroOffset(b) == 0;
  }

  lemma StampFields(t: Instant)
    ensures var p := Stamp(t);
      && p[0..4] == Fixed(10, t.year, 4) && p[5..7] == Fixed(10, t.month, 2)
      && p[8..10] == Fixed(10, t.day, 2) && p[11..13] == Fixed(10, t.hour, 2)
      && p[14..16] == Fixed(10, t.minute, 2) && p[17..19] == Fixed(10, t.second, 2)
      && p[4] == '-' && p[7] == '-' && p[10] == 'T' && p[13] == ':' && p[16] == ':'
  {
  }

  lemma FormatBody(t: Instant)
    requires Valid(t)
    ensures var s := Format(t); BodyShape(s[..|s| - 6]) && BodyInstant(s[..|s| - 6]) == t
  {
    var s := Format(t);
    var b := s[..|s| - 6];
    var p, f := Stamp(t), Fraction(t);
    assert b == p + f;
    assert b[..19] == p;
    assert b[19..] == f;
    StampFields(t);
    assert b[0..4] == p[0..4] && b[5..7] == p[5..7] && b[8..10] == p[8..10];
    assert b[11..13] == p[11..13] && b[14..16] == p[14..16] && b[17..19] == p[17..19];
    ReadFixed(10, t.year, 4);
    ReadFixed(10, t.month, 2);
    ReadFixed(10, t.day, 2);
    ReadFixed(10, t.hour, 2);
    ReadFixed(10, t.minute, 2);
    ReadFixed(10, t.second, 2);
    if t.micro != 0 {
      assert b[20..26] == f[1..];
      ReadFixed(10, t.micro, 6);
    }
  }

  /** `fromisoformat(t.isoformat()) == t`. */
  lemma ParseFormat(t: Instant)
    requires Valid(t)
    ensures Parse(Format(t)) == Some(t)
  {
    FormatBody(t);
  }

  /** The written form never holds a '|', so it can be a field of a '|'-joined text. */
  lemma FormatHasNoBar(t: Instant)
    ensures forall k :: 0 <= k < |Format(t)| ==> Format(t)[k] != '|'
  {
    var s := Format(t);
    forall k | 0 <= k < |s| ensures s[k] != '|' {
      FormatChars(t, k);
    }
  }

  lemma FormatChars(t: Instant, k: int)
    requires 0 <= k < |Format(t)|
    ensures Format(t)[k] == '-' || Format(t)[k] == 'T' || Format(t)[k] == ':' || Format(t)[k] == '.'
            || Format(t)[k] == '+' || IsDigit(Format(t)[k])
  {
    var s := Format(t);
    if k >= |s| - 6 {
      assert s[k] == s[|s| - 6..][k - (|s| - 6)];
    } else {
      var p, f := Stamp(t), Fraction(t);
      assert s == p + f + UtcSuffix;
      StampFields(t);
      if k < 19 {
        assert s[k] == p[k];
        if k < 4 { assert p[k] == p[0..4][k]; }
        else if 5 <= k < 7 { assert p[k] == p[5..7][k - 5]; }
        else if 8 <= k < 10 { assert p[k] == p[8..10][k - 8]; }
        else if 11 <= k < 13 { assert p[k] == p[11..13][k - 11]; }
        else if 14 <= k < 16 { assert p[k] == p[14..16][k - 14]; }
        else if 17 <= k { assert p[k] == p[17..19][k - 17]; }
      } else if k > 19 {
        assert s[k] == f[k - 19] == Fixed(10, t.micro, 6)[k - 20];
      }
    }
  }

  /** Every character written is ASCII, so UTF-8 encodes it as one byte. */
  lemma FormatAscii(t: Instant)
    ensures forall k :: 0 <= k < |Format(t)| ==> Format(t)[k] as int < 128
  {
    forall k | 0 <= k < |Format(t)| ensures Format(t)[k] as int < 128 {
      FormatChars(t, k);
    }
  }
}
