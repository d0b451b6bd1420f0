/** The chat message and reaction objects the frontend holds, with the
    JavaScript operations on them the hooks rely on: object spread,
    `String(v)`, template text and nullish tests. A field that is `None` is
    absent (`undefined`); `Some(JNull)` is an explicit `null`. */
module ChatTypes {

  import opened Wrappers
  import opened Json
  import Text

  /** `ChatReaction`; a count of `None` is `undefined` or `NaN` (what
      arithmetic on `undefined` gives). */
  datatype Reaction = Reaction(emoji: string, userIds: seq<string>, count: Option<int>, reactedByMe: Option<bool>)

  /** `ChatMessage`, with the fields the hooks read; every other field
      is kept in `rest`. */
  datatype Message = Message(
    id: Option<Json>,
    clientTempId: Option<Json>,
    text: Option<Json>,
    sender: Option<Json>,
    isMine: Option<bool>,
    status: Option<Json>,
    seenBy: Option<map<string, Json>>,
    reactions: Option<seq<Reaction>>,
    myReaction: Option<Json>,
    deletedAt: Option<Json>,
    attachments: Option<seq<Json>>,
    messageType: Option<Json>,
    createdAt: Option<Json>,
    rest: map<string, Json>)

  /** `{}`: a message object with no fields. */
  const Empty: Message := Message(None, None, None, None, None, None, None, None, None, None, None, None, None, map[])

  function Pick<T>(x: Option<T>, y: Option<T>): (r: Option<T>)
    ensures y.Some? ==> r == y
    ensures y.None? ==> r == x
  {
    if y.Some? then y else x
  }

  /** `{ ...a, ...b }`: every field `b` has wins, the rest come from `a`. */
  function Spread(a: Message, b: Message): (r: Message)
  {
    Message(Pick(a.id, b.id), Pick(a.clientTempId, b.clientTempId), Pick(a.text, b.text), Pick(a.sender, b.sender),
            Pick(a.isMine, b.isMine), Pick(a.status, b.status), Pick(a.seenBy, b.seenBy),
            Pick(a.reactions, b.reactions), Pick(a.myReaction, b.myReaction), Pick(a.deletedAt, b.deletedAt),
            Pick(a.attachments, b.attachments), Pick(a.messageType, b.messageType), Pick(a.createdAt, b.createdAt),
            a.rest + b.rest)
  }

  /** Spreading is a merge: `{}` is neutral on either side, and spreading the
      same object twice is spreading it once. */
  lemma SpreadLaws(a: Message, b: Message)
    ensures Spread(a, Empty) == a && Spread(Empty, b) == b
    ensures Spread(Spread(a, b), b) == Spread(a, b)
  {
    assert a.rest + map[] == a.rest;
    assert map[] + b.rest == b.rest;
  }

  /** `v == null`: absent or null. */
  predicate Nullish(v: Option<Json>) {
    v.None? || v == Some(JNull)
  }

  /** `String(v)` for a value that is present. */
  function JsText(v: Json): string
    decreases v
  {
    match v
    case JNull => "null"
    case JBool(b) => if b then "true" else "false"
    case JNum(n) => Text.Decimal(n)
    case JStr(s) => s
    case JArr(xs) => JoinItems(xs)
    case JObj(_) => "[object Object]"
  }

  /** `Array.prototype.join(",")`: null items print as nothing. */
  function JoinItems(xs: seq<Json>): string
    decreases xs
  {
    if xs == [] then ""
    else (if xs[0].JNull? then "" else JsText(xs[0])) + (if |xs| == 1 then "" else "," + JoinItems(xs[1..]))
  }

  /** `String(v)`, `undefined` included. */
  function JsString(v: Option<Json>): string {
    if v.None? then "undefined" else JsText(v.value)
  }

  /** `m.sender?.id`. */
  function SenderId(m: Message): Option<Json> {
    if m.sender.Some? && m.sender.value.JObj? && "id" in m.sender.value.fields then Some(m.sender.value.fields["id"])
    else None
  }

  /** The index of the first element satisfying `p`, or -1: `findIndex`. */
  function FindIndex<T>(s: seq<T>, p: T -> bool): (i: int)
    ensures -1 <= i < |s|
    ensures i == -1 <==> forall k :: 0 <= k < |s| ==> !p(s[k])
    ensures i >= 0 ==> p(s[i]) && forall k :: 0 <= k < i ==> !p(s[k])
  {
    if s == [] then -1
    else if p(s[0]) then 0
    else var j := FindIndex(s[1..], p); if j == -1 then -1 else j + 1
  }

  /** `Array.prototype.filter` on user ids: drops every copy of `u`. */
  function Without(ids: seq<string>, u: string): (r: seq<string>)
    ensures forall x :: x in r <==> x in ids && x != u
    ensures |r| <= |ids|
  {
    if ids == [] then [] else (if ids[0] == u then [] else [ids[0]]) + Without(ids[1..], u)
  }

  /** A list that holds no id twice. */
  predicate Distinct(ids: seq<string>) {
    forall i, j :: 0 <= i < j < |ids| ==> ids[i] != ids[j]
  }

  lemma {:induction false} WithoutDistinct(ids: seq<string>, u: string)
    requires Distinct(ids)
    ensures Distinct(Without(ids, u))
    ensures u in ids ==> |Without(ids, u)| == |ids| - 1
    ensures u !in ids ==> Without(ids, u) == ids
  {
    if ids != [] {
      WithoutDistinct(ids[1..], u);
      if ids[0] != u {
        var r := Without(ids, u);
        forall i, j | 0 <= i < j < |r| ensures r[i] != r[j] {
          if i == 0 {
            assert r[j] in Without(ids[1..], u);
            assert ids[0] !in ids[1..];
          }
        }
      } else {
        assert u !in ids[1..];
      }
    }
  }

  predicate Unique<T(==,!new)>(s: seq<T>) {
    forall i, j :: 0 <= i < j < |s| ==> s[i] != s[j]
  }

  /** `Array.from(new Set(s))`: first occurrences, in order. */
  function Dedup<T(==,!new)>(s: seq<T>): (r: seq<T>)
    ensures forall x :: x in r <==> x in s
    ensures Unique(r)
    ensures |r| <= |s|
    decreases |s|
  {
    if s == [] then []
    else
      var init := Dedup(s[..|s| - 1]);
      var x := s[|s| - 1];
      assert forall y :: y in s <==> y in s[..|s| - 1] || y == x by {
        assert s == s[..|s| - 1] + [x];
      }
      if x in init then init else init + [x]
  }

  /** `Dedup` keeps a list that already holds nothing twice. */
  lemma {:induction false} DedupUnique<T(!new)>(s: seq<T>)
    requires Unique(s)
    ensures Dedup(s) == s
    decreases |s|
  {
    if s != [] {
      DedupUnique(s[..|s| - 1]);
      assert s[|s| - 1] !in s[..|s| - 1];
      assert s[..|s| - 1] + [s[|s| - 1]] == s;
    }
  }
}
