/** The hub message history endpoint: `GET` returns one page of a hub's
    messages, newest first in the query and oldest first in the reply, with a
    keyset cursor for the next (older) page; `POST` stores a message and
    announces it to the hub's sockets. */
module HubHistory {

  import opened Wrappers
  import opened Json
  import opened Community
  import Text
  import IsoTime
  import UuidText
  import Cursor
  import opened Queries

  const PageSize: nat := 30

  type Bound = (IsoTime.Instant, UuidText.Uuid)

  /** A message's place in the `(created_at, id)` order as one number. */
  function OrderKey(m: HubMessage): int {
    IsoTime.Key(m.createdAt) * UuidText.Span + m.id
  }

  function BoundKey(b: Bound): int {
    IsoTime.Key(b.0) * UuidText.Span + b.1
  }

  /** The cursor filter `Q(created_at__lt=t) | Q(created_at=t, id__lt=u)`. */
  predicate OlderThan(m: HubMessage, b: Bound) {
    || IsoTime.Key(m.createdAt) < IsoTime.Key(b.0)
    || (IsoTime.Key(m.createdAt) == IsoTime.Key(b.0) && m.id < b.1)
  }

  lemma MulAtLeast(s: nat, d: int)
    requires d >= 1
    ensures d * s >= s
  {
    var n: nat := d - 1;
    assert d * s == n * s + s;
  }

  /** Comparing `k * Span + i` compares `k` first and `i` on a tie. */
  lemma LexKey(k1: int, i1: UuidText.Uuid, k2: int, i2: UuidText.Uuid)
    ensures k1 * UuidText.Span + i1 < k2 * UuidText.Span + i2 <==> k1 < k2 || (k1 == k2 && i1 < i2)
  {
    var s := UuidText.Span;
    if k1 < k2 {
      MulAtLeast(s, k2 - k1);
      assert k2 * s == k1 * s + (k2 - k1) * s;
    } else if k1 > k2 {
      MulAtLeast(s, k1 - k2);
      assert k1 * s == k2 * s + (k1 - k2) * s;
    }
  }

  /** The cursor filter is exactly "sorts before the cursor's row". */
  lemma OlderThanIsKeyOrder(m: HubMessage, b: Bound)
    ensures OlderThan(m, b) <==> OrderKey(m) < BoundKey(b)
  {
    LexKey(IsoTime.Key(m.createdAt), m.id, IsoTime.Key(b.0), b.1);
  }

  /** Equal order keys mean equal timestamps and equal ids. */
  lemma OrderKeyInjective(a: HubMessage, b: HubMessage)
    requires OrderKey(a) == OrderKey(b)
    ensures a.id == b.id
  {
    LexKey(IsoTime.Key(a.createdAt), a.id, IsoTime.Key(b.createdAt), b.id);
    LexKey(IsoTime.Key(b.createdAt), b.id, IsoTime.Key(a.createdAt), a.id);
  }

  /** What the view makes of the `cursor` query parameter: a bound only when the
      parameter is non-empty, decodes, both halves are non-empty and both parse;
      every other case (the `except: pass`) leaves the query unbounded. */
  function CursorBound(cursor: Option<string>): (r: Option<Bound>)
    ensures r.Some? ==> cursor.Some? && Cursor.Decode(cursor.value).Some?
    ensures r.Some? ==>
              var halves := Cursor.Decode(cursor.value).value;
              IsoTime.Parse(halves.0) == Some(r.value.0) && UuidText.Parse(halves.1) == Some(r.value.1)
  {
    if cursor.None? || cursor.value == "" then None
    else match Cursor.Decode(cursor.value)
      case None => None
      case Some(halves) =>
        if halves.0 == "" || halves.1 == "" then None
        else match (IsoTime.Parse(halves.0), UuidText.Parse(halves.1))
          case (Some(t), Some(u)) => Some((t, u))
          case _ => None
  }

  /** A cursor this view wrote reads back as the row it was written for. */
  lemma CursorBoundOfEncoded(t: IsoTime.Instant, u: UuidText.Uuid)
    requires IsoTime.Valid(t)
    ensures CursorBound(Some(Cursor.Encode(t, u))) == Some((t, u))
  {
    Cursor.DecodeEncode(t, u);
    IsoTime.ParseFormat(t);
    UuidText.ParseFormat(u);
  }

  predicate InPage(hubId: string, bound: Option<Bound>, m: HubMessage) {
    m.hubId == hubId && (bound.None? || OlderThan(m, bound.value))
  }

  /** The rows the query can return: this hub's, older than the bound if any. */
  function Eligible(store: seq<HubMessage>, hubId: string, bound: Option<Bound>): seq<HubMessage> {
    Filter(store, m => InPage(hubId, bound, m))
  }

  /** `order_by("-created_at", "-id")`. */
  function Query(store: seq<HubMessage>, hubId: string, bound: Option<Bound>): (q: seq<HubMessage>)
    ensures Descending(q, OrderKey)
    ensures multiset(q) == multiset(Eligible(store, hubId, bound))
  {
    var a := Sort(Eligible(store, hubId, bound), OrderKey);
    ReverseOrder(a, OrderKey);
    ReverseMultiset(a);
    Reverse(a)
  }

  function Min(a: nat, b: nat): nat { if a <= b then a else b }

  /** `rows = list(qs[:PAGE_SIZE + 1])`, `has_more = len(rows) > PAGE_SIZE`,
      `rows = rows[:PAGE_SIZE]`, `rows.reverse()`: the newest eligible rows, at
      most a page of them, oldest first, and whether older ones remain. */
  function PageRows(store: seq<HubMessage>, hubId: string, bound: Option<Bound>): (r: (seq<HubMessage>, bool))
    ensures var e := Eligible(store, hubId, bound);
      && |r.0| == Min(|e|, PageSize)
      && (r.1 <==> |e| > PageSize)
      && Ascending(r.0, OrderKey)
      && (forall m :: m in r.0 ==> m in e)
      && multiset(r.0) <= multiset(e)
      && (forall m :: m in e && m !in r.0 ==> OrderKey(m) <= OrderKey(r.0[0]))
  {
    Page(Query(store, hubId, bound), Eligible(store, hubId, bound))
  }

  /** The page cut from the ordered rows `q` of the eligible rows `e`. */
  function Page(q: seq<HubMessage>, e: seq<HubMessage>): (r: (seq<HubMessage>, bool))
    requires Descending(q, OrderKey) && multiset(q) == multiset(e)
    ensures && |r.0| == Min(|e|, PageSize)
            && (r.1 <==> |e| > PageSize)
            && Ascending(r.0, OrderKey)
            && (forall m :: m in r.0 ==> m in e)
            && multiset(r.0) <= multiset(e)
            && (forall m :: m in e && m !in r.0 ==> OrderKey(m) <= OrderKey(r.0[0]))
  {
    var fetched := q[..Min(|q|, PageSize + 1)];
    var hasMore := |fetched| > PageSize;
    var rows := fetched[..Min(|fetched|, PageSize)];
    assert rows == q[..Min(|q|, PageSize)];
    PageFacts(q, rows, e);
    (Reverse(rows), hasMore)
  }

  lemma PageFacts(q: seq<HubMessage>, rows: seq<HubMessage>, e: seq<HubMessage>)
    requires Descending(q, OrderKey) && multiset(q) == multiset(e)
    requires rows == q[..Min(|q|, PageSize)]
    ensures |q| == |e|
    ensures Ascending(Reverse(rows), OrderKey)
    ensures forall m :: m in Reverse(rows) ==> m in e
    ensures multiset(Reverse(rows)) <= multiset(e)
    ensures forall m :: m in e && m !in Reverse(rows) ==> OrderKey(m) <= OrderKey(Reverse(rows)[0])
  {
    assert |q| == |multiset(q)| == |multiset(e)| == |e|;
    assert q == rows + q[|rows|..];
    ReverseMultiset(rows);
    PageAscending(q, rows);
    PageFromQuery(q, rows, e);
    RestIsOlder(q, rows, e);
  }

  lemma PageAscending(q: seq<HubMessage>, rows: seq<HubMessage>)
    requires Descending(q, OrderKey) && rows == q[..Min(|q|, PageSize)]
    ensures Ascending(Reverse(rows), OrderKey)
  {
    assert Descending(rows, OrderKey);
    ReverseOrderDesc(rows);
  }

  lemma ReverseOrderDesc(s: seq<HubMessage>)
    requires Descending(s, OrderKey)
    ensures Ascending(Reverse(s), OrderKey)
  {
    var r := Reverse(s);
    forall i, j | 0 <= i < j < |r| ensures OrderKey(r[i]) <= OrderKey(r[j]) {
      assert r[i] == s[|s| - 1 - i] && r[j] == s[|s| - 1 - j];
    }
  }

  lemma PageFromQuery(q: seq<HubMessage>, rows: seq<HubMessage>, e: seq<HubMessage>)
    requires multiset(q) == multiset(e) && rows == q[..Min(|q|, PageSize)]
    ensures forall m :: m in Reverse(rows) ==> m in e
  {
    var page := Reverse(rows);
    var n := |rows|;
    forall m | m in page ensures m in e {
      var k :| 0 <= k < n && page[k] == m;
      assert m == q[n - 1 - k];
      assert m in multiset(q);
    }
  }

  lemma RestIsOlder(q: seq<HubMessage>, rows: seq<HubMessage>, e: seq<HubMessage>)
    requires Descending(q, OrderKey) && multiset(q) == multiset(e)
    requires rows == q[..Min(|q|, PageSize)]
    ensures forall m :: m in e && m !in Reverse(rows) ==> OrderKey(m) <= OrderKey(Reverse(rows)[0])
  {
    var page := Reverse(rows);
    var n := |rows|;
    forall j | 0 <= j < n ensures q[j] in page {
      assert page[n - 1 - j] == q[j];
    }
    forall m | m in e && m !in page ensures OrderKey(m) <= OrderKey(page[0]) {
      assert m in multiset(e);
      assert m in multiset(q);
      var i :| 0 <= i < |q| && q[i] == m;
      forall j | 0 <= j < n ensures q[j] != m {
        assert q[j] in page;
      }
      assert n - 1 < i;
      assert page[0] == q[n - 1];
      assert OrderKey(q[i]) <= OrderKey(q[n - 1]);
    }
  }

  /** The `sender` object of a message: id, display name and photo
      (always `null`, see `Person`). */
  function SenderCard(id: string, p: Person): (j: Json)
    ensures j.JObj? && Field(j.fields, "id") == JStr(id) && Field(j.fields, "photo") == JNull
    ensures Field(j.fields, "name") == JStr(DisplayName(p))
  {
    JObj(map["id" := JStr(id), "name" := JStr(DisplayName(p)), "photo" := JNull])
  }

  /** One message of the reply, as the view serialises it for `userId`. */
  datatype MessageView = MessageView(
    id: string,
    text: string,
    createdAt: string,
    sender: Json,
    isMine: bool,
    status: string,
    seenBy: seq<string>)

  /** `people` gives the `User` row of each sender id (`select_related("sender")`). */
  function View(m: HubMessage, userId: string, people: string -> Person): MessageView
  {
    MessageView(UuidText.Format(m.id), m.text, IsoTime.Format(m.createdAt), SenderCard(m.senderId, people(m.senderId)),
                m.senderId == userId, "sent", [])
  }

  function Views(rows: seq<HubMessage>, userId: string, people: string -> Person): (v: seq<MessageView>)
    ensures |v| == |rows|
    ensures forall k :: 0 <= k < |rows| ==> v[k] == View(rows[k], userId, people)
  {
    if rows == [] then [] else [View(rows[0], userId, people)] + Views(rows[1..], userId, people)
  }

  datatype HistoryPage = HistoryPage(messages: seq<MessageView>, nextCursor: Option<string>)

  /** The response for a page of rows: a view per row, and a cursor at the
      oldest row when more remain. */
  function Respond(rows: seq<HubMessage>, hasMore: bool, userId: string, people: string -> Person): (p: HistoryPage)
    ensures |p.messages| == |rows|
    ensures forall k :: 0 <= k < |rows| ==>
              && p.messages[k].id == UuidText.Format(rows[k].id)
              && p.messages[k].text == rows[k].text
              && p.messages[k].createdAt == IsoTime.Format(rows[k].createdAt)
              && p.messages[k].sender == SenderCard(rows[k].senderId, people(rows[k].senderId))
              && (p.messages[k].isMine <==> rows[k].senderId == userId)
    ensures p.nextCursor.Some? <==> hasMore && |rows| > 0
    ensures p.nextCursor.Some? ==> p.nextCursor == Some(Cursor.Encode(rows[0].createdAt, rows[0].id))
  {
    var next := if hasMore && |rows| > 0 then Some(Cursor.Encode(rows[0].createdAt, rows[0].id)) else None;
    HistoryPage(Views(rows, userId, people), next)
  }

  /** `GroupMessagesView.get`. */
  function Get(store: seq<HubMessage>, members: set<Membership>, people: string -> Person, userId: string,
               hubId: string, cursor: Option<string>): (r: Outcome<HistoryPage>)
    ensures r.Err? <==> !IsActiveMember(members, userId, hubId)
    ensures r.Err? ==> r.status == 403
    ensures r.Ok? ==>
              var rows := PageRows(store, hubId, CursorBound(cursor)).0;
              && |r.value.messages| == |rows| <= PageSize
              && (forall k :: 0 <= k < |rows| ==>
                    && r.value.messages[k].id == UuidText.Format(rows[k].id)
                    && r.value.messages[k].text == rows[k].text
                    && r.value.messages[k].createdAt == IsoTime.Format(rows[k].createdAt)
                    && r.value.messages[k].sender == SenderCard(rows[k].senderId, people(rows[k].senderId))
                    && (r.value.messages[k].isMine <==> rows[k].senderId == userId))
              && (r.value.nextCursor.Some? <==> |Eligible(store, hubId, CursorBound(cursor))| > PageSize)
              && (r.value.nextCursor.Some? ==>
                    r.value.nextCursor == Some(Cursor.Encode(rows[0].createdAt, rows[0].id)))
  {
    if !IsActiveMember(members, userId, hubId) then Err(403, "You are not a member of this hub")
    else
      var page := PageRows(store, hubId, CursorBound(cursor));
      Ok(Respond(page.0, page.1, userId, people))
  }

  lemma RowsValid(store: seq<HubMessage>, hubId: string, bound: Option<Bound>, rows: seq<HubMessage>)
    requires WellFormedStore(store)
    requires rows == PageRows(store, hubId, bound).0
    ensures forall k :: 0 <= k < |rows| ==> IsoTime.Valid(rows[k].createdAt)
  {
    forall k | 0 <= k < |rows| ensures IsoTime.Valid(rows[k].createdAt) {
      assert rows[k] in Eligible(store, hubId, bound);
      assert rows[k] in store;
    }
  }

  /** Following `nextCursor` neither skips nor repeats a message: the rows
      eligible before are exactly this page plus the rows eligible after,
      and no row of this page is eligible again. */
  lemma NextCursorResumes(store: seq<HubMessage>, hubId: string, bound: Option<Bound>)
    requires WellFormedStore(store)
    requires PageRows(store, hubId, bound).1
    ensures var rows := PageRows(store, hubId, bound).0;
      var next := CursorBound(Some(Cursor.Encode(rows[0].createdAt, rows[0].id)));
      && next == Some((rows[0].createdAt, rows[0].id))
      && (forall m :: m in Eligible(store, hubId, bound) <==> m in rows || m in Eligible(store, hubId, next))
      && (forall m :: m in rows ==> m !in Eligible(store, hubId, next))
  {
    var rows := PageRows(store, hubId, bound).0;
    RowsValid(store, hubId, bound, rows);
    var first := rows[0];
    CursorBoundOfEncoded(first.createdAt, first.id);
    var b := (first.createdAt, first.id);
    NoGap(store, hubId, bound, b);
    NextWithin(store, hubId, bound, b);
    NoRepeat(store, hubId, bound, b);
  }

  lemma NoGap(store: seq<HubMessage>, hubId: string, bound: Option<Bound>, b: Bound)
    requires WellFormedStore(store)
    requires var rows := PageRows(store, hubId, bound).0; |rows| > 0 && b == (rows[0].createdAt, rows[0].id)
    ensures forall m :: m in Eligible(store, hubId, bound) ==>
              m in PageRows(store, hubId, bound).0 || m in Eligible(store, hubId, Some(b))
  {
    var rows := PageRows(store, hubId, bound).0;
    var e := Eligible(store, hubId, bound);
    var first := rows[0];
    assert first in e;
    forall m | m in e && m !in rows ensures m in Eligible(store, hubId, Some(b)) {
      assert OrderKey(m) <= OrderKey(first);
      if OrderKey(m) == OrderKey(first) {
        OrderKeyInjective(m, first);
        SameIdSameRow(store, m, first);
      }
      OlderThanIsKeyOrder(m, b);
    }
  }

  lemma NextWithin(store: seq<HubMessage>, hubId: string, bound: Option<Bound>, b: Bound)
    requires var rows := PageRows(store, hubId, bound).0; |rows| > 0 && b == (rows[0].createdAt, rows[0].id)
    ensures forall m :: m in Eligible(store, hubId, Some(b)) ==> m in Eligible(store, hubId, bound)
  {
    var rows := PageRows(store, hubId, bound).0;
    var first := rows[0];
    assert first in Eligible(store, hubId, bound);
    forall m | m in Eligible(store, hubId, Some(b)) ensures m in Eligible(store, hubId, bound) {
      OlderThanIsKeyOrder(m, b);
      if bound.Some? {
        OlderThanIsKeyOrder(first, bound.value);
        OlderThanIsKeyOrder(m, bound.value);
      }
    }
  }

  lemma NoRepeat(store: seq<HubMessage>, hubId: string, bound: Option<Bound>, b: Bound)
    requires var rows := PageRows(store, hubId, bound).0; |rows| > 0 && b == (rows[0].createdAt, rows[0].id)
    ensures forall m :: m in PageRows(store, hubId, bound).0 ==> m !in Eligible(store, hubId, Some(b))
  {
    var rows := PageRows(store, hubId, bound).0;
    forall m | m in rows ensures m !in Eligible(store, hubId, Some(b)) {
      var k :| 0 <= k < |rows| && rows[k] == m;
      assert OrderKey(rows[0]) <= OrderKey(m);
      OlderThanIsKeyOrder(m, b);
    }
  }

  lemma SameIdSameRow(store: seq<HubMessage>, a: HubMessage, b: HubMessage)
    requires WellFormedStore(store) && a in store && b in store && a.id == b.id
    ensures a == b
  {
    var i :| 0 <= i < |store| && store[i] == a;
    var j :| 0 <= j < |store| && store[j] == b;
  }

  /** The reply to the poster. */
  datatype PostReply = PostReply(id: string, tempId: Json, text: string, createdAt: string, senderId: string,
                                 sender: Json)

  datatype Posted = Posted(store: seq<HubMessage>, reply: PostReply, notice: Json)

  /** The `message:new` event handed to the hub's socket group; it names the
      sender in `excludeSenderId` so the sender's own sockets drop it. */
  function Notice(reply: PostReply): (j: Json)
    ensures j.JObj? && "payload" in j.fields && j.fields["payload"].JObj?
    ensures Field(j.fields["payload"].fields, "excludeSenderId") == JStr(reply.senderId)
    ensures Field(j.fields["payload"].fields, "sender") == reply.sender
    ensures Field(j.fields, "type") == JStr("message:new")
  {
    JObj(map[
      "type" := JStr("message:new"),
      "payload" := JObj(map[
        "id" := JStr(reply.id),
        "tempId" := reply.tempId,
        "text" := JStr(reply.text),
        "createdAt" := JStr(reply.createdAt),
        "sender" := reply.sender,
        "excludeSenderId" := JStr(reply.senderId),
        "isMine" := JBool(false),
        "status" := JStr("sent")])])
  }

  /** `GroupMessagesView.post`: the text is `(data.get("text") or "").strip()`;
      a truthy non-string has no `strip` and fails with a server error. A blank
      text is refused before membership is looked at. The database supplies
      the fresh `newId` and the creation time `now`. */
  function Post(store: seq<HubMessage>, members: set<Membership>, userId: string, poster: Person, hubId: string,
                text: Json, tempId: Json, newId: UuidText.Uuid, now: IsoTime.Instant): (r: Outcome<Posted>)
    requires IsoTime.Valid(now)
    ensures PyStrOrEmpty(text).None? ==> r == Err(500, "AttributeError")
    ensures PyStrOrEmpty(text).Some? ==>
              var body := Text.Trim(Text.Py, PyStrOrEmpty(text).value);
              && (body == [] ==> r.Err? && r.status == 400)
              && (body != [] && !IsActiveMember(members, userId, hubId) ==> r.Err? && r.status == 403)
              && (body != [] && IsActiveMember(members, userId, hubId) ==>
                    && r.Ok?
                    && r.value.store == store + [HubMessage(newId, hubId, userId, body, now)]
                    && r.value.reply.senderId == userId && r.value.reply.text == body
                    && r.value.reply.sender == SenderCard(userId, poster)
                    && r.value.notice == Notice(r.value.reply))
  {
    match PyStrOrEmpty(text)
    case None => Err(500, "AttributeError")
    case Some(raw) =>
      var body := Text.Trim(Text.Py, raw);
      if body == [] then Err(400, "Message text is required")
      else if !IsActiveMember(members, userId, hubId) then Err(403, "You are not a member of this hub")
      else
        var msg := HubMessage(newId, hubId, userId, body, now);
        var reply := PostReply(UuidText.Format(newId), tempId, body, IsoTime.Format(now), userId,
                               SenderCard(userId, poster));
        Ok(Posted(store + [msg], reply, Notice(reply)))
  }

  /** A posted message keeps the store well formed when its id is fresh. */
  lemma PostKeepsStore(store: seq<HubMessage>, members: set<Membership>, userId: string, poster: Person, hubId: string,
                       text: Json, tempId: Json, newId: UuidText.Uuid, now: IsoTime.Instant)
    requires IsoTime.Valid(now) && WellFormedStore(store)
    requires forall k :: 0 <= k < |store| ==> store[k].id != newId
    ensures var r := Post(store, members, userId, poster, hubId, text, tempId, newId, now);
      r.Ok? ==> WellFormedStore(r.value.store)
  {
    var r := Post(store, members, userId, poster, hubId, text, tempId, newId, now);
    if r.Ok? {
      var body := Text.Trim(Text.Py, PyStrOrEmpty(text).value);
      AppendKeepsStore(store, HubMessage(newId, hubId, userId, body, now));
    }
  }

  lemma AppendKeepsStore(store: seq<HubMessage>, m: HubMessage)
    requires WellFormedStore(store) && IsoTime.Valid(m.createdAt)
    requires forall k :: 0 <= k < |store| ==> store[k].id != m.id
    ensures WellFormedStore(store + [m])
  {
    var t := store + [m];
    assert forall k :: 0 <= k < |store| ==> t[k] == store[k];
  }
}
