/** `PrivateChatConsumer`: the socket of one private conversation. It gates
    the connection, dispatches received frames, creates messages, keeps the
    per-(message, user) receipt ledger and forwards room events to every
    socket but the one that caused them. */
module PrivateChat {

  import opened Wrappers
  import opened Json
  import opened Frames
  import Text
  import IsoTime
  import UuidText

  datatype PrivateMessage = PrivateMessage(
    conversationId: string,
    senderId: string,
    text: string,
    clientTempId: Json,
    createdAt: IsoTime.Instant)

  /** A `PrivateMessageReceipt` row; an absent row reads as `Receipt(None, None)`. */
  datatype Receipt = Receipt(deliveredAt: Option<IsoTime.Instant>, readAt: Option<IsoTime.Instant>)

  /** `last_delivered_at` and `last_read_at` of a conversation member. */
  datatype Marks = Marks(lastDelivered: Option<IsoTime.Instant>, lastRead: Option<IsoTime.Instant>)

  /** The tables the consumer reads and writes. `conversations` maps an id to
      its `is_active`; `members` is keyed by (conversation, user); `receipts`
      by (message, user). */
  datatype Db = Db(
    conversations: map<string, bool>,
    members: map<(string, string), Marks>,
    messages: map<UuidText.Uuid, PrivateMessage>,
    receipts: map<(UuidText.Uuid, string), Receipt>)

  /** An accepted socket: its user, its conversation and its channel name. */
  datatype Session = Session(userId: string, conversationId: string, channel: string)

  /** What handling one frame does: new tables and the actions taken, or an
      exception that escapes the handler. */
  datatype Reaction = Handled(db: Db, outs: seq<Out>) | Raised(error: string)

  function ReceiptOf(db: Db, m: UuidText.Uuid, u: string): Receipt {
    if (m, u) in db.receipts then db.receipts[(m, u)] else Receipt(None, None)
  }

  /** The ledger invariant: a receipt that is read is also delivered. */
  predicate ReadImpliesDelivered(db: Db) {
    forall k :: k in db.receipts && db.receipts[k].readAt.Some? ==> db.receipts[k].deliveredAt.Some?
  }

  /** Nobody holds a receipt for a message they sent. */
  predicate NoSelfReceipts(db: Db) {
    forall k :: k in db.receipts && k.0 in db.messages ==> db.messages[k.0].senderId != k.1
  }

  /** Every receipt belongs to a stored message. */
  predicate ReceiptsOfMessages(db: Db) {
    forall k :: k in db.receipts ==> k.0 in db.messages
  }

  predicate Ledger(db: Db) { ReadImpliesDelivered(db) && NoSelfReceipts(db) && ReceiptsOfMessages(db) }

  // ---------------------------------------------------------------------
  // Connect

  /** `_can_join_conversation`: an active conversation the user belongs to. */
  predicate CanJoin(db: Db, conversationId: string, userId: string) {
    conversationId in db.conversations && db.conversations[conversationId]
    && (conversationId, userId) in db.members
  }

  /** `connect`: `user` is the authenticated user's id (`None` when anonymous)
      and `conversationId` the URL's `conversation_id`. */
  function Connect(db: Db, user: Option<string>, conversationId: Option<string>, channel: string)
    : (r: (Option<Session>, seq<Out>))
    ensures user.None? ==> r == (None, [Close(4001)])
    ensures user.Some? && (conversationId.None? || conversationId.value == "") ==> r == (None, [Close(4002)])
    ensures (user.Some? && conversationId.Some? && conversationId.value != ""
             && !CanJoin(db, conversationId.value, user.value)) ==> r == (None, [Close(4003)])
    ensures r.0.Some? <==> user.Some? && conversationId.Some? && conversationId.value != ""
                           && CanJoin(db, conversationId.value, user.value)
    ensures r.0.Some? ==> r.0.value == Session(user.value, conversationId.value, channel)
                          && r.1 == [Send(Frame("ws:ready", JObj(map["ok" := JBool(true)])))]
  {
    if user.None? then (None, [Close(4001)])
    else if conversationId.None? || conversationId.value == "" then (None, [Close(4002)])
    else if !CanJoin(db, conversationId.value, user.value) then (None, [Close(4003)])
    else (Some(Session(user.value, conversationId.value, channel)),
          [Send(Frame("ws:ready", JObj(map["ok" := JBool(true)])))])
  }

  // ---------------------------------------------------------------------
  // Receipts

  /** Marks `m` delivered to `u` at `now` and stamps the member's
      `last_delivered_at`; `false` when it already was. */
  function Deliver(db: Db, m: UuidText.Uuid, u: string, now: IsoTime.Instant): (r: (Db, bool))
    requires m in db.messages && db.messages[m].senderId != u
    ensures r.1 <==> ReceiptOf(db, m, u).deliveredAt.None?
    ensures !r.1 ==> r.0 == db
    ensures r.1 ==> r.0.receipts == db.receipts[(m, u) := ReceiptOf(db, m, u).(deliveredAt := Some(now))]
    ensures r.0.messages == db.messages && r.0.conversations == db.conversations
    ensures r.0.members.Keys == db.members.Keys
  {
    var rc := ReceiptOf(db, m, u);
    if rc.deliveredAt.Some? then (db, false)
    else
      var c := db.messages[m].conversationId;
      var members := if (c, u) in db.members
                     then db.members[(c, u) := db.members[(c, u)].(lastDelivered := Some(now))]
                     else db.members;
      (db.(receipts := db.receipts[(m, u) := rc.(deliveredAt := Some(now))], members := members), true)
  }

  /** `_mark_delivered` as written: the message is looked up by id alone, in
      any conversation. */
  function MarkDeliveredAsWritten(db: Db, m: UuidText.Uuid, u: string, now: IsoTime.Instant): (r: (Db, bool))
    ensures r.1 <==> m in db.messages && db.messages[m].senderId != u && ReceiptOf(db, m, u).deliveredAt.None?
    ensures !r.1 ==> r.0 == db
  {
    if m !in db.messages || db.messages[m].senderId == u then (db, false)
    else Deliver(db, m, u, now)
  }

  /** `_mark_delivered` restricted to the socket's conversation, as
      `_mark_seen` is. */
  function MarkDelivered(db: Db, c: string, m: UuidText.Uuid, u: string, now: IsoTime.Instant): (r: (Db, bool))
    ensures r.1 <==> m in db.messages && db.messages[m].conversationId == c
                     && db.messages[m].senderId != u && ReceiptOf(db, m, u).deliveredAt.None?
    ensures !r.1 ==> r.0 == db
    ensures r.1 ==> ReceiptOf(r.0, m, u).deliveredAt == Some(now)
                    && ReceiptOf(r.0, m, u).readAt == ReceiptOf(db, m, u).readAt
    ensures forall k :: k != (m, u) ==> ReceiptOf(r.0, k.0, k.1) == ReceiptOf(db, k.0, k.1)
  {
    if m !in db.messages || db.messages[m].conversationId != c || db.messages[m].senderId == u then (db, false)
    else Deliver(db, m, u, now)
  }

  /** `_mark_seen`: stamps whichever of delivered and read is missing and the
      member's `last_read_at`/`last_delivered_at`; `false` when both were set. */
  function MarkSeen(db: Db, c: string, m: UuidText.Uuid, u: string, now: IsoTime.Instant): (r: (Db, bool))
    ensures r.1 <==> m in db.messages && db.messages[m].conversationId == c && db.messages[m].senderId != u
                     && (ReceiptOf(db, m, u).deliveredAt.None? || ReceiptOf(db, m, u).readAt.None?)
    ensures !r.1 ==> r.0 == db
    ensures r.1 ==> ReceiptOf(r.0, m, u).deliveredAt.Some? && ReceiptOf(r.0, m, u).readAt.Some?
    ensures r.1 ==> forall k :: k != (m, u) ==> ReceiptOf(r.0, k.0, k.1) == ReceiptOf(db, k.0, k.1)
    ensures r.0.messages == db.messages && r.0.conversations == db.conversations
  {
    if m !in db.messages || db.messages[m].conversationId != c || db.messages[m].senderId == u then (db, false)
    else
      var rc := ReceiptOf(db, m, u);
      if rc.deliveredAt.Some? && rc.readAt.Some? then (db, false)
      else
        var rc2 := Receipt(if rc.deliveredAt.None? then Some(now) else rc.deliveredAt,
                           if rc.readAt.None? then Some(now) else rc.readAt);
        var members := if (c, u) in db.members then db.members[(c, u) := Marks(Some(now), Some(now))]
                       else db.members;
        (db.(receipts := db.receipts[(m, u) := rc2], members := members), true)
  }

  // ---------------------------------------------------------------------
  // Frames

  /** How Django reads a `messageId` for a UUID primary key: text as hex
      digits with optional hyphens, an integer as the 128-bit value (`True` is
      1); anything else raises `ValidationError`, which is `None` here. */
  function ReadUuid(v: Json): (r: Option<UuidText.Uuid>)
    ensures v.JStr? ==> r == UuidText.Parse(v.s)
    ensures v.JNum? ==> (r.Some? <==> 0 <= v.n < UuidText.Span)
    ensures r.Some? && v.JNum? ==> r.value == v.n
  {
    match v
    case JStr(s) => UuidText.Parse(s)
    case JNum(n) => if 0 <= n < UuidText.Span then Some(n) else None
    case JBool(b) => if b then Some(1) else Some(0)
    case _ => None
  }

  /** `str(message_id)` for the values `ReadUuid` accepts. */
  function IdText(v: Json): string {
    match v
    case JStr(s) => s
    case JNum(n) => Text.Decimal(n)
    case JBool(b) => if b then "True" else "False"
    case _ => ""
  }

  /** The `message_payload` dictionary sent on ack and broadcast. */
  function MessagePayload(id: UuidText.Uuid, tempId: Json, text: string, senderId: string,
                          senderName: string, createdAt: IsoTime.Instant): Json
  {
    JObj(map[
      "id" := JStr(UuidText.Format(id)),
      "clientTempId" := tempId,
      "messageType" := JStr("TEXT"),
      "text" := JStr(text),
      "sender" := JObj(map["id" := JStr(senderId), "name" := JStr(senderName)]),
      "createdAt" := JStr(IsoTime.Format(createdAt)),
      "deletedAt" := JNull,
      "editedAt" := JNull,
      "attachments" := JArr([]),
      "reactions" := JArr([]),
      "myReaction" := JNull,
      "replyTo" := JNull])
  }

  /** `handle_send_message`. `newId` is the primary key the database assigns
      and `senderName` the sender's `full_name or username`. */
  function HandleSend(db: Db, s: Session, payload: Json, now: IsoTime.Instant, newId: UuidText.Uuid,
                      senderName: string): (r: Reaction)
    ensures !payload.JObj? || PyStrOrEmpty(Field(payload.fields, "text")).None? ==> r.Raised?
    ensures r.Handled? ==>
              var tempId := Field(payload.fields, "clientTempId");
              var text := Text.Trim(Text.Py, PyStrOrEmpty(Field(payload.fields, "text")).value);
              && (!PyTruthy(tempId) ==> r == Handled(db, [SendError("Missing clientTempId", JNull)]))
              && (PyTruthy(tempId) && text == [] ==> r == Handled(db, [SendError("Message cannot be empty", JNull)]))
              && (PyTruthy(tempId) && text != [] ==>
                    var mp := MessagePayload(newId, tempId, text, s.userId, senderName, now);
                    && r.db == db.(messages := db.messages[newId := PrivateMessage(s.conversationId, s.userId, text, tempId, now)])
                    && r.outs == [Send(Frame("message:ack", mp)), GroupSend(Frame("message:new", mp), Some(s.channel))])
  {
    if !payload.JObj? then Raised("AttributeError")
    else
      var tempId := Field(payload.fields, "clientTempId");
      match PyStrOrEmpty(Field(payload.fields, "text"))
      case None => Raised("AttributeError")
      case Some(raw) =>
        var text := Text.Trim(Text.Py, raw);
        if !PyTruthy(tempId) then Handled(db, [SendError("Missing clientTempId", JNull)])
        else if text == [] then Handled(db, [SendError("Message cannot be empty", JNull)])
        else if s.conversationId !in db.conversations then Raised("DoesNotExist")
        else
          var msg := PrivateMessage(s.conversationId, s.userId, text, tempId, now);
          var mp := MessagePayload(newId, tempId, text, s.userId, senderName, now);
          Handled(db.(messages := db.messages[newId := msg]),
                  [Send(Frame("message:ack", mp)), GroupSend(Frame("message:new", mp), Some(s.channel))])
  }

  /** `handle_delivered`: a room event exactly when the ledger changed. */
  function HandleDelivered(db: Db, s: Session, payload: Json, now: IsoTime.Instant): (r: Reaction)
    ensures !payload.JObj? ==> r.Raised?
    ensures r.Handled? && r.outs == [] ==> r.db == db
    ensures r.Handled? && r.db == db ==> forall o :: o in r.outs ==> !o.GroupSend?
    ensures r.Handled? && r.db != db ==>
              r.outs == [GroupSend(Frame("message:delivered",
                                         JObj(map["messageId" := JStr(IdText(Field(payload.fields, "messageId")))])), None)]
  {
    if !payload.JObj? then Raised("AttributeError")
    else
      var id := Field(payload.fields, "messageId");
      if !PyTruthy(id) then Handled(db, [SendError("Missing messageId", JNull)])
      else match ReadUuid(id)
        case None => Raised("ValidationError")
        case Some(m) =>
          var (db2, changed) := MarkDelivered(db, s.conversationId, m, s.userId, now);
          if !changed then Handled(db2, [])
          else Handled(db2, [GroupSend(Frame("message:delivered", JObj(map["messageId" := JStr(IdText(id))])), None)])
  }

  /** `handle_seen`: a room event exactly when the ledger changed. */
  function HandleSeen(db: Db, s: Session, payload: Json, now: IsoTime.Instant): (r: Reaction)
    ensures !payload.JObj? ==> r.Raised?
    ensures r.Handled? && r.outs == [] ==> r.db == db
    ensures r.Handled? && r.db == db ==> forall o :: o in r.outs ==> !o.GroupSend?
    ensures r.Handled? && r.db != db ==>
              r.outs == [GroupSend(Frame("message:seen",
                                         JObj(map["messageId" := JStr(IdText(Field(payload.fields, "messageId"))),
                                                  "userId" := JStr(s.userId)])), None)]
  {
    if !payload.JObj? then Raised("AttributeError")
    else
      var id := Field(payload.fields, "messageId");
      if !PyTruthy(id) then Handled(db, [SendError("Missing messageId", JNull)])
      else match ReadUuid(id)
        case None => Raised("ValidationError")
        case Some(m) =>
          var (db2, changed) := MarkSeen(db, s.conversationId, m, s.userId, now);
          if !changed then Handled(db2, [])
          else Handled(db2, [GroupSend(Frame("message:seen", JObj(map["messageId" := JStr(IdText(id)),
                                                                       "userId" := JStr(s.userId)])), None)])
  }

  /** `receive_json`: dispatch on `type`; the payload defaults to `{}` when falsy. */
  function Receive(db: Db, s: Session, content: map<string, Json>, now: IsoTime.Instant,
                   newId: UuidText.Uuid, senderName: string): (r: Reaction)
    ensures Field(content, "type") == JStr("ping") ==>
              r == Handled(db, [Send(Frame("pong", JObj(map["t" := JStr(IsoTime.Format(now))])))])
    ensures Field(content, "type") !in {JStr("ping"), JStr("message:send"), JStr("message:delivered"), JStr("message:seen")} ==>
              r == Handled(db, [SendError("Unknown type: ", Field(content, "type"))])
    ensures !PyTruthy(Field(content, "payload")) && Field(content, "type") != JStr("ping") ==> r.Handled?
  {
    var t := Field(content, "type");
    var p := Field(content, "payload");
    var payload := if PyTruthy(p) then p else JObj(map[]);
    if t == JStr("ping") then Handled(db, [Send(Frame("pong", JObj(map["t" := JStr(IsoTime.Format(now))])))])
    else if t == JStr("message:send") then HandleSend(db, s, payload, now, newId, senderName)
    else if t == JStr("message:delivered") then HandleDelivered(db, s, payload, now)
    else if t == JStr("message:seen") then HandleSeen(db, s, payload, now)
    else Handled(db, [SendError("Unknown type: ", t)])
  }

  /** `broadcast`: what a socket on `channel` forwards to its client for a
      room event, if anything. */
  function Broadcast(payload: Json, sender: Option<string>, channel: string): (r: Option<Json>)
    ensures r.Some? <==> PyTruthy(payload) && !(sender.Some? && sender.value != "" && sender.value == channel)
    ensures r.Some? ==> r.value == payload
  {
    if sender.Some? && sender.value != "" && sender.value == channel then None
    else if PyTruthy(payload) then Some(payload)
    else None
  }

  // ---------------------------------------------------------------------
  // Properties

  /** Every frame keeps the ledger: read implies delivered, no receipt for
      one's own message, no receipt without its message. `newId` is fresh, as
      the database's primary key is. */
  lemma ReceiveKeepsLedger(db: Db, s: Session, content: map<string, Json>, now: IsoTime.Instant,
                           newId: UuidText.Uuid, senderName: string)
    requires Ledger(db) && newId !in db.messages
    requires Receive(db, s, content, now, newId, senderName).Handled?
    ensures Ledger(Receive(db, s, content, now, newId, senderName).db)
  {
    var t := Field(content, "type");
    var p := Field(content, "payload");
    var payload := if PyTruthy(p) then p else JObj(map[]);
    if t == JStr("message:send") {
      SendKeepsLedger(db, s, payload, now, newId, senderName);
    } else if t == JStr("message:delivered") {
      DeliveredKeepsLedger(db, s, payload, now);
    } else if t == JStr("message:seen") {
      SeenKeepsLedger(db, s, payload, now);
    }
  }

  /** Storing a new message under a fresh key keeps the ledger. */
  lemma SendKeepsLedger(db: Db, s: Session, payload: Json, now: IsoTime.Instant,
                        newId: UuidText.Uuid, senderName: string)
    requires Ledger(db) && newId !in db.messages
    requires HandleSend(db, s, payload, now, newId, senderName).Handled?
    ensures Ledger(HandleSend(db, s, payload, now, newId, senderName).db)
  {
    var r := HandleSend(db, s, payload, now, newId, senderName);
    assert r.db.receipts == db.receipts;
    assert forall k :: k in db.messages ==> k in r.db.messages && r.db.messages[k] == db.messages[k];
  }

  /** A delivery receipt keeps the ledger. */
  lemma DeliveredKeepsLedger(db: Db, s: Session, payload: Json, now: IsoTime.Instant)
    requires Ledger(db) && HandleDelivered(db, s, payload, now).Handled?
    ensures Ledger(HandleDelivered(db, s, payload, now).db)
  {
    var id := Field(payload.fields, "messageId");
    if PyTruthy(id) && ReadUuid(id).Some? {
      var m := ReadUuid(id).value;
      var (db2, changed) := MarkDelivered(db, s.conversationId, m, s.userId, now);
      if changed {
        assert (m, s.userId) in db.receipts ==> db.receipts[(m, s.userId)].readAt.None?;
        assert db2.receipts == db.receipts[(m, s.userId) := ReceiptOf(db, m, s.userId).(deliveredAt := Some(now))];
      }
    }
  }

  /** A read receipt keeps the ledger. */
  lemma SeenKeepsLedger(db: Db, s: Session, payload: Json, now: IsoTime.Instant)
    requires Ledger(db) && HandleSeen(db, s, payload, now).Handled?
    ensures Ledger(HandleSeen(db, s, payload, now).db)
  {
    var id := Field(payload.fields, "messageId");
    if PyTruthy(id) && ReadUuid(id).Some? {
      var m := ReadUuid(id).value;
      var (db2, changed) := MarkSeen(db, s.conversationId, m, s.userId, now);
      if changed {
        assert db2.receipts.Keys == db.receipts.Keys + {(m, s.userId)};
      }
    }
  }

  /** A second delivery receipt for the same message and user changes nothing. */
  lemma MarkDeliveredIdempotent(db: Db, c: string, m: UuidText.Uuid, u: string, t1: IsoTime.Instant, t2: IsoTime.Instant)
    ensures var first := MarkDelivered(db, c, m, u, t1).0;
      MarkDelivered(first, c, m, u, t2) == (first, false)
  {
  }

  /** A second read receipt for the same message and user changes nothing. */
  lemma MarkSeenIdempotent(db: Db, c: string, m: UuidText.Uuid, u: string, t1: IsoTime.Instant, t2: IsoTime.Instant)
    ensures var first := MarkSeen(db, c, m, u, t1).0;
      MarkSeen(first, c, m, u, t2) == (first, false)
  {
    var (first, changed) := MarkSeen(db, c, m, u, t1);
    if changed {
      assert ReceiptOf(first, m, u).deliveredAt.Some? && ReceiptOf(first, m, u).readAt.Some?;
    }
  }

  /** The same `message:seen` frame twice: the second one publishes nothing
      and leaves the tables as the first left them. */
  lemma SeenTwiceIsSilent(db: Db, s: Session, content: map<string, Json>, t1: IsoTime.Instant, t2: IsoTime.Instant,
                          newId: UuidText.Uuid, senderName: string)
    requires Field(content, "type") == JStr("message:seen")
    requires Receive(db, s, content, t1, newId, senderName).Handled?
    ensures var first := Receive(db, s, content, t1, newId, senderName);
      var second := Receive(first.db, s, content, t2, newId, senderName);
      && second.Handled? && second.db == first.db
      && (forall o :: o in second.outs ==> !o.GroupSend?)
      && (|second.outs| == 0 || second.outs == first.outs)
  {
    var p := Field(content, "payload");
    var payload := if PyTruthy(p) then p else JObj(map[]);
    var id := Field(payload.fields, "messageId");
    if PyTruthy(id) {
      var m := ReadUuid(id).value;
      MarkSeenIdempotent(db, s.conversationId, m, s.userId, t1, t2);
    }
  }

  /** A receipt, once delivered or read, stays so under every frame. */
  lemma ReceiptsNeverRegress(db: Db, s: Session, content: map<string, Json>, now: IsoTime.Instant,
                             newId: UuidText.Uuid, senderName: string, m: UuidText.Uuid, u: string)
    requires Receive(db, s, content, now, newId, senderName).Handled?
    ensures var after := Receive(db, s, content, now, newId, senderName).db;
      && (ReceiptOf(db, m, u).deliveredAt.Some? ==> ReceiptOf(after, m, u).deliveredAt == ReceiptOf(db, m, u).deliveredAt)
      && (ReceiptOf(db, m, u).readAt.Some? ==> ReceiptOf(after, m, u).readAt == ReceiptOf(db, m, u).readAt)
  {
  }

  /** The room event of a sent message reaches every other socket of the
      room and not the sender's own, which has the ack instead. */
  lemma SendSkipsOwnChannel(db: Db, s: Session, payload: Json, now: IsoTime.Instant, newId: UuidText.Uuid,
                            senderName: string, other: string)
    requires s.channel != "" && other != s.channel
    requires HandleSend(db, s, payload, now, newId, senderName).Handled?
    requires |HandleSend(db, s, payload, now, newId, senderName).outs| == 2
    ensures var outs := HandleSend(db, s, payload, now, newId, senderName).outs;
      && outs[0].Send? && Field(outs[0].frame.fields, "type") == JStr("message:ack")
      && outs[1].GroupSend?
      && Broadcast(outs[1].payload, outs[1].senderChannel, s.channel).None?
      && Broadcast(outs[1].payload, outs[1].senderChannel, other) == Some(outs[1].payload)
      && Field(outs[1].payload.fields, "payload") == Field(outs[0].frame.fields, "payload")
  {
    var tempId := Field(payload.fields, "clientTempId");
    var text := Text.Trim(Text.Py, PyStrOrEmpty(Field(payload.fields, "text")).value);
    assert PyTruthy(tempId) && text != [];
    var mp := MessagePayload(newId, tempId, text, s.userId, senderName, now);
    var outs := HandleSend(db, s, payload, now, newId, senderName).outs;
    assert outs == [Send(Frame("message:ack", mp)), GroupSend(Frame("message:new", mp), Some(s.channel))];
    FrameTruthy("message:new", mp);
  }

  lemma FrameTruthy(t: string, p: Json)
    ensures PyTruthy(Frame(t, p))
  {
    assert "type" in Frame(t, p).fields;
  }

  /** `_mark_delivered` as written accepts a message of another conversation:
      a member of conversation "a" gets a delivery receipt for a message of
      conversation "b", and the event goes to room "a". */
  lemma DeliveredAcrossConversations(now: IsoTime.Instant)
    ensures var db := Db(map["a" := true, "b" := true], map[("a", "u") := Marks(None, None)],
                         map[7 := PrivateMessage("b", "v", "hi", JStr("t"), now)], map[]);
      && db.messages[7].conversationId != "a"
      && MarkDeliveredAsWritten(db, 7, "u", now).1
      && ReceiptOf(MarkDeliveredAsWritten(db, 7, "u", now).0, 7, "u").deliveredAt == Some(now)
      && !MarkDelivered(db, "a", 7, "u", now).1
  {
    var db := Db(map["a" := true, "b" := true], map[("a", "u") := Marks(None, None)],
                 map[7 := PrivateMessage("b", "v", "hi", JStr("t"), now)], map[]);
    assert ReceiptOf(db, 7, "u") == Receipt(None, None);
  }
}
