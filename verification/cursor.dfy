/** The keyset-pagination cursor of the hub message history: URL-safe base64
    of `"<created_at.isoformat()>|<str(id)>"`. Decoding never raises; every
    failure reads as "no cursor". */
module Cursor {

  import opened Wrappers
  import Base64Url
  import IsoTime
  import UuidText

  predicate IsAscii(s: string) {
    forall k :: 0 <= k < |s| ==> s[k] as int < 128
  }

  /** `s.encode()` on ASCII text: one byte per character. */
  function AsciiBytes(s: string): (b: seq<Base64Url.byte>)
    requires IsAscii(s)
    ensures |b| == |s| && forall k :: 0 <= k < |s| ==> b[k] == s[k] as int
  {
    if s == [] then [] else [s[0] as int] + AsciiBytes(s[1..])
  }

  /** `b.decode()` where only single-byte (ASCII) sequences are read; a byte
      of 0x80 or more is taken as the `UnicodeDecodeError`. */
  function AsciiText(b: seq<Base64Url.byte>): (r: Option<string>)
    ensures r.Some? <==> forall k :: 0 <= k < |b| ==> b[k] < 128
    ensures r.Some? ==> |r.value| == |b| && forall k :: 0 <= k < |b| ==> r.value[k] as int == b[k]
  {
    if b == [] then Some([])
    else if b[0] >= 128 then None
    else match AsciiText(b[1..])
      case None => None
      case Some(t) => Some([b[0] as char] + t)
  }

  lemma AsciiRoundTrip(s: string)
    requires IsAscii(s)
    ensures AsciiText(AsciiBytes(s)) == Some(s)
  {
    var t := AsciiText(AsciiBytes(s));
    assert t.Some?;
    assert t.value == s;
  }

  /** `raw.split("|", 1)` unpacked into two names: the text before the first
      '|' and everything after it; a text without '|' cannot be unpacked. */
  function SplitAtBar(raw: string): (r: Option<(string, string)>)
    ensures r.None? <==> forall k :: 0 <= k < |raw| ==> raw[k] != '|'
    ensures r.Some? ==> raw == r.value.0 + "|" + r.value.1
    ensures r.Some? ==> forall k :: 0 <= k < |r.value.0| ==> r.value.0[k] != '|'
  {
    if raw == [] then None
    else if raw[0] == '|' then Some(([], raw[1..]))
    else match SplitAtBar(raw[1..])
      case None => None
      case Some(p) =>
        assert raw == [raw[0]] + raw[1..];
        Some(([raw[0]] + p.0, p.1))
  }

  lemma {:induction false} SplitJoined(a: string, b: string)
    requires forall k :: 0 <= k < |a| ==> a[k] != '|'
    ensures SplitAtBar(a + "|" + b) == Some((a, b))
  {
    var s := a + "|" + b;
    if a == [] {
      assert s[1..] == b;
    } else {
      assert s[0] == a[0];
      assert s[1..] == a[1..] + "|" + b;
      SplitJoined(a[1..], b);
      assert [a[0]] + a[1..] == a;
    }
  }

  /** The text the cursor carries before encoding. */
  function Payload(createdAt: IsoTime.Instant, id: UuidText.Uuid): string
  {
    IsoTime.Format(createdAt) + "|" + UuidText.Format(id)
  }

  lemma PayloadAscii(createdAt: IsoTime.Instant, id: UuidText.Uuid)
    ensures IsAscii(Payload(createdAt, id))
  {
    var a, b := IsoTime.Format(createdAt), UuidText.Format(id);
    IsoTime.FormatAscii(createdAt);
    UuidText.FormatChars(id);
    forall k | 0 <= k < |a + "|" + b| ensures (a + "|" + b)[k] as int < 128 {
      if k < |a| { assert (a + "|" + b)[k] == a[k]; }
      else if k > |a| { assert (a + "|" + b)[k] == b[k - |a| - 1]; }
    }
  }

  /** `encode_cursor(created_at, message_id)`. */
  function Encode(createdAt: IsoTime.Instant, id: UuidText.Uuid): (c: string)
    ensures |c| % 4 == 0 && c != []
  {
    PayloadAscii(createdAt, id);
    Base64Url.Encode(AsciiBytes(Payload(createdAt, id)))
  }

  /** `decode_cursor(cursor)`: `Some((created_at_str, message_id_str))`, or
      `None` for the `(None, None)` every exception turns into. */
  function Decode(cursor: string): (r: Option<(string, string)>)
    ensures r.Some? <==>
              && Base64Url.Decode(cursor).Some?
              && AsciiText(Base64Url.Decode(cursor).value).Some?
              && SplitAtBar(AsciiText(Base64Url.Decode(cursor).value).value).Some?
    ensures r.Some? ==> AsciiText(Base64Url.Decode(cursor).value) == Some(r.value.0 + "|" + r.value.1)
  {
    match Base64Url.Decode(cursor)
    case None => None
    case Some(bytes) =>
      match AsciiText(bytes)
      case None => None
      case Some(raw) => SplitAtBar(raw)
  }

  /** `decode_cursor(encode_cursor(t, id)) == (t.isoformat(), str(id))`. */
  lemma DecodeEncode(createdAt: IsoTime.Instant, id: UuidText.Uuid)
    requires IsoTime.Valid(createdAt)
    ensures Decode(Encode(createdAt, id)) == Some((IsoTime.Format(createdAt), UuidText.Format(id)))
  {
    PayloadAscii(createdAt, id);
    var raw := Payload(createdAt, id);
    Base64Url.DecodeEncode(AsciiBytes(raw));
    AsciiRoundTrip(raw);
    IsoTime.FormatHasNoBar(createdAt);
    SplitJoined(IsoTime.Format(createdAt), UuidText.Format(id));
  }
}
