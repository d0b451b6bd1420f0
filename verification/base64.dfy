/** The URL-safe base64 codec of RFC 4648 section 5 over bytes, as Python's
    `base64.urlsafe_b64encode` writes it and `base64.urlsafe_b64decode` reads it
    back. The decoder first maps '-' to '+' and '_' to '/', so both spellings of
    the two last digits are read. */
module Base64Url {

  import opened Wrappers

  type byte = b: int | 0 <= b < 256
  type sextet = v: int | 0 <= v < 64

  /** The character written for a 6-bit value. */
  function Digit(v: sextet): char {
    if v < 26 then ('A' as int + v) as char
    else if v < 52 then ('a' as int + (v - 26)) as char
    else if v < 62 then ('0' as int + (v - 52)) as char
    else if v == 62 then '-'
    else '_'
  }

  /** The 6-bit value a character stands for, if any. */
  function Value(c: char): Option<sextet> {
    if 'A' <= c <= 'Z' then Some(c as int - 'A' as int)
    else if 'a' <= c <= 'z' then Some(c as int - 'a' as int + 26)
    else if '0' <= c <= '9' then Some(c as int - '0' as int + 52)
    else if c == '-' || c == '+' then Some(62)
    else if c == '_' || c == '/' then Some(63)
    else None
  }

  lemma ValueOfDigit(v: sextet)
    ensures Value(Digit(v)) == Some(v)
  {
  }

  /** Every digit the encoder writes is a letter, a decimal digit, '-' or '_'. */
  predicate IsUrlSafeChar(c: char) {
    ('A' <= c <= 'Z') || ('a' <= c <= 'z') || ('0' <= c <= '9') || c == '-' || c == '_'
  }

  function Encode3(b0: byte, b1: byte, b2: byte): string {
    [Digit(b0 / 4), Digit((b0 % 4) * 16 + b1 / 16), Digit((b1 % 16) * 4 + b2 / 64), Digit(b2 % 64)]
  }

  /** `urlsafe_b64encode`: every three bytes become four digits; a final one or
      two bytes become two or three digits padded with '=' to four. */
  function Encode(b: seq<byte>): (s: string)
    ensures |s| % 4 == 0
    ensures |s| == 4 * ((|b| + 2) / 3)
  {
    if |b| >= 3 then Encode3(b[0], b[1], b[2]) + Encode(b[3..])
    else if |b| == 2 then [Digit(b[0] / 4), Digit((b[0] % 4) * 16 + b[1] / 16), Digit((b[1] % 16) * 4), '=']
    else if |b| == 1 then [Digit(b[0] / 4), Digit((b[0] % 4) * 16), '=', '=']
    else []
  }

  function Join3(v0: sextet, v1: sextet, v2: sextet, v3: sextet): seq<byte> {
    [v0 * 4 + v1 / 16, (v1 % 16) * 16 + v2 / 4, (v2 % 4) * 64 + v3]
  }

  /** Decodes one group of four characters; only the last group may be padded.
      The low bits a padded group leaves unused are ignored, as Python does. */
  function DecodeGroup(g: string, last: bool): Option<seq<byte>>
    requires |g| == 4
  {
    var o0, o1, o2, o3 := Value(g[0]), Value(g[1]), Value(g[2]), Value(g[3]);
    if o0.None? || o1.None? then None
    else if last && g[2] == '=' && g[3] == '=' then
      Some([o0.value * 4 + o1.value / 16])
    else if o2.None? then None
    else if last && g[3] == '=' then
      Some([o0.value * 4 + o1.value / 16, (o1.value % 16) * 16 + o2.value / 4])
    else if o3.None? then None
    else Some(Join3(o0.value, o1.value, o2.value, o3.value))
  }

  /** `urlsafe_b64decode` on well-formed input: `None` stands for the
      `binascii.Error` raised on a length that is not a multiple of four, a
      character outside the alphabet, or padding anywhere but at the end. */
  function Decode(s: string): Option<seq<byte>>
    decreases |s|
  {
    if |s| == 0 then Some([])
    else if |s| < 4 then None
    else
      match DecodeGroup(s[..4], |s| == 4)
      case None => None
      case Some(head) =>
        match Decode(s[4..])
        case None => None
        case Some(tail) => Some(head + tail)
  }

  lemma Split3(b0: byte, b1: byte, b2: byte)
    ensures b0 == (b0 / 4) * 4 + ((b0 % 4) * 16 + b1 / 16) / 16
    ensures b1 == (((b0 % 4) * 16 + b1 / 16) % 16) * 16 + ((b1 % 16) * 4 + b2 / 64) / 4
    ensures b2 == (((b1 % 16) * 4 + b2 / 64) % 4) * 64 + b2 % 64
  {
  }

  lemma JoinSplit(b0: byte, b1: byte, b2: byte)
    ensures Join3(b0 / 4, (b0 % 4) * 16 + b1 / 16, (b1 % 16) * 4 + b2 / 64, b2 % 64) == [b0, b1, b2]
  {
    Split3(b0, b1, b2);
  }

  lemma DecodeEncode3(b0: byte, b1: byte, b2: byte, last: bool)
    ensures DecodeGroup(Encode3(b0, b1, b2), last) == Some([b0, b1, b2])
  {
    var v0, v1, v2, v3 := b0 / 4, (b0 % 4) * 16 + b1 / 16, (b1 % 16) * 4 + b2 / 64, b2 % 64;
    var g := Encode3(b0, b1, b2);
    assert g == [Digit(v0), Digit(v1), Digit(v2), Digit(v3)];
    ValueOfDigit(v0);
    ValueOfDigit(v1);
    ValueOfDigit(v2);
    ValueOfDigit(v3);
    assert g[2] != '=' && g[3] != '=';
    JoinSplit(b0, b1, b2);
    assert DecodeGroup(g, last) == Some(Join3(v0, v1, v2, v3));
  }

  /** Decoding what was encoded gives back the original bytes. */
  lemma {:induction false} DecodeEncode(b: seq<byte>)
    ensures Decode(Encode(b)) == Some(b)
    decreases |b|
  {
    var s := Encode(b);
    if |b| >= 3 {
      var g := Encode3(b[0], b[1], b[2]);
      var rest := Encode(b[3..]);
      assert s == g + rest;
      assert s[..4] == g;
      assert s[4..] == rest;
      DecodeEncode3(b[0], b[1], b[2], |s| == 4);
      DecodeEncode(b[3..]);
      assert [b[0], b[1], b[2]] + b[3..] == b;
    } else if |b| == 2 {
      ValueOfDigit(b[0] / 4);
      ValueOfDigit((b[0] % 4) * 16 + b[1] / 16);
      ValueOfDigit((b[1] % 16) * 4);
      assert s[..4] == s;
      assert s[4..] == [];
      var v1 := (b[0] % 4) * 16 + b[1] / 16;
      assert v1 % 16 == b[1] / 16 && v1 / 16 == b[0] % 4;
      assert ((b[1] % 16) * 4) / 4 == b[1] % 16;
      assert DecodeGroup(s[..4], true) == Some([b[0], b[1]]);
      assert Decode(s[4..]) == Some([]);
      assert [b[0], b[1]] + [] == b;
    } else if |b| == 1 {
      ValueOfDigit(b[0] / 4);
      ValueOfDigit((b[0] % 4) * 16);
      assert s[..4] == s;
      assert s[4..] == [];
      assert ((b[0] % 4) * 16) / 16 == b[0] % 4;
      assert DecodeGroup(s[..4], true) == Some([b[0]]);
      assert Decode(s[4..]) == Some([]);
      assert [b[0]] + [] == b;
    }
  }

  /** An encoding holds only URL-safe digits and trailing '=' padding. */
  lemma {:induction false} EncodeAlphabet(b: seq<byte>)
    ensures forall k :: 0 <= k < |Encode(b)| ==> IsUrlSafeChar(Encode(b)[k]) || Encode(b)[k] == '='
    decreases |b|
  {
    if |b| >= 3 {
      EncodeAlphabet(b[3..]);
    }
  }
}
