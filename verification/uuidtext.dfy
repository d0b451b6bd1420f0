/** 128-bit UUIDs and their text: `str(u)` writes the canonical 8-4-4-4-12
    lower-case hexadecimal form, and `UUID(s)` reads it back after dropping
    hyphens. The database orders UUIDs as 128-bit unsigned numbers. */
module UuidText {

  import opened Wrappers
  import opened Text

  const Span: nat := 0x1_0000_0000_0000_0000_0000_0000_0000_0000

  type Uuid = n: nat | n < 0x1_0000_0000_0000_0000_0000_0000_0000_0000

  lemma SpanIsPow()
    ensures Pow(16, 32) == Span
  {
    assert Pow(16, 8) == 0x1_0000_0000 by {
      assert Pow(16, 4) == 0x1_0000 by {
        assert Pow(16, 2) == 256;
      }
    }
    assert Pow(16, 16) == Pow(16, 8) * Pow(16, 8) by { PowAdd(16, 8, 8); }
    assert Pow(16, 32) == Pow(16, 16) * Pow(16, 16) by { PowAdd(16, 16, 16); }
  }

  lemma {:induction false} PowAdd(base: nat, a: nat, b: nat)
    requires base >= 1
    ensures Pow(base, a + b) == Pow(base, a) * Pow(base, b)
  {
    if a > 0 {
      PowAdd(base, a - 1, b);
      assert Pow(base, a + b) == base * Pow(base, a - 1 + b);
    }
  }

  /** `str(u)`: 32 lower-case hex digits grouped 8-4-4-4-12. */
  function Format(u: Uuid): (s: string)
    ensures |s| == 36
  {
    var h := Fixed(16, u, 32);
    h[..8] + "-" + h[8..12] + "-" + h[12..16] + "-" + h[16..20] + "-" + h[20..]
  }

  /** `s` with every '-' removed. */
  function DropHyphens(s: string): (r: string)
    ensures |r| <= |s|
    ensures forall k :: 0 <= k < |r| ==> r[k] != '-'
  {
    if s == [] then []
    else if s[0] == '-' then DropHyphens(s[1..])
    else [s[0]] + DropHyphens(s[1..])
  }

  /** `UUID(s)` on a hyphenated or plain hexadecimal form: after the hyphens
      go, exactly 32 hex digits of either case must remain. `None` is the
      `ValueError` the constructor raises. */
  function Parse(s: string): (r: Option<Uuid>)
    ensures r.Some? <==> |DropHyphens(s)| == 32 && AllDigitsIn(16, DropHyphens(s))
  {
    var h := DropHyphens(s);
    if |h| == 32 && AllDigitsIn(16, h) then
      ReadDigitsBound(16, h);
      SpanIsPow();
      Some(ReadDigits(16, h))
    else None
  }

  lemma {:induction false} DropHyphensAppend(a: string, b: string)
    ensures DropHyphens(a + b) == DropHyphens(a) + DropHyphens(b)
  {
    if a != [] {
      assert (a + b)[1..] == a[1..] + b;
      DropHyphensAppend(a[1..], b);
    } else {
      assert a + b == b;
    }
  }

  lemma {:induction false} DropHyphensNone(s: string)
    requires forall k :: 0 <= k < |s| ==> s[k] != '-'
    ensures DropHyphens(s) == s
  {
    if s != [] {
      DropHyphensNone(s[1..]);
    }
  }

  lemma DropDash(x: string, y: string)
    ensures DropHyphens(x + "-" + y) == DropHyphens(x) + DropHyphens(y)
  {
    DropHyphensAppend(x + "-", y);
    DropHyphensAppend(x, "-");
  }

  lemma DropFormat(u: Uuid)
    ensures DropHyphens(Format(u)) == Fixed(16, u, 32)
  {
    var h := Fixed(16, u, 32);
    var a, b, c, d, e := h[..8], h[8..12], h[12..16], h[16..20], h[20..];
    forall k | 0 <= k < |h| ensures h[k] != '-' {
      assert IsDigitIn(16, h[k]);
    }
    DropHyphensNone(a);
    DropHyphensNone(b);
    DropHyphensNone(c);
    DropHyphensNone(d);
    DropHyphensNone(e);
    DropDash(a, b);
    DropDash(a + "-" + b, c);
    DropDash(a + "-" + b + "-" + c, d);
    DropDash(a + "-" + b + "-" + c + "-" + d, e);
    assert a + b + c + d + e == h;
  }

  /** `UUID(str(u)) == u`. */
  lemma ParseFormat(u: Uuid)
    ensures Parse(Format(u)) == Some(u)
  {
    DropFormat(u);
    SpanIsPow();
    ReadFixed(16, u, 32);
  }

  /** Every character written is ASCII and none is a '|'. */
  lemma FormatChars(u: Uuid)
    ensures forall k :: 0 <= k < |Format(u)| ==> Format(u)[k] as int < 128 && Format(u)[k] != '|'
  {
    var h := Fixed(16, u, 32);
    var s := Format(u);
    forall k | 0 <= k < |s| ensures s[k] as int < 128 && s[k] != '|' {
      if s[k] != '-' {
        CharOfFormat(u, k);
      }
    }
  }

  lemma CharOfFormat(u: Uuid, k: int)
    requires 0 <= k < 36
    ensures Format(u)[k] == '-' || IsDigitIn(16, Format(u)[k])
  {
    var h := Fixed(16, u, 32);
    var s := Format(u);
    if k < 8 { assert s[k] == h[k]; }
    else if 8 < k < 13 { assert s[k] == h[k - 1]; }
    else if 13 < k < 18 { assert s[k] == h[k - 2]; }
    else if 18 < k < 23 { assert s[k] == h[k - 3]; }
    else if 23 < k { assert s[k] == h[k - 4]; }
  }
}
