/** `ChatConsumer`: the socket of one community hub. It gates the
    connection, acknowledges sends, relays typing and seen events, and
    forwards room events to its client unless they name its user as the
    one to exclude. */
module HubChat {

  import opened Wrappers
  import opened Json
  import opened Frames
  import opened Community
  import Text
  import HubHistory

  /** An accepted socket: its user, hub and channel name. */
  datatype Session = Session(userId: string, hubId: string, channel: string)

  datatype Reaction = Handled(outs: seq<Out>) | Raised(error: string)

  /** `_hub_exists`: an active hub with that id. */
  predicate HubActive(hubs: seq<Hub>, hubId: string) {
    exists h :: h in hubs && h.id == hubId && h.isActive
  }

  /** The `presence:update` frame announcing `userId` online. */
  function Presence(userId: string): Json {
    Frame("presence:update", JObj(map["userId" := JStr(userId), "online" := JBool(true), "lastSeen" := JNull]))
  }

  /** `connect`: `user` is the user's id, `None` when anonymous. An accepted
      socket announces its user to the room with `exclude_self`. */
  function Connect(hubs: seq<Hub>, members: set<Membership>, user: Option<string>, hubId: string,
                   channel: string): (r: (Option<Session>, seq<Out>))
    ensures user.None? ==> r == (None, [Close(4001)])
    ensures user.Some? && hubId == "" ==> r == (None, [Close(4002)])
    ensures (user.Some? && hubId != "" && !HubActive(hubs, hubId)) ==> r == (None, [Close(4004)])
    ensures (user.Some? && hubId != "" && HubActive(hubs, hubId) && !IsActiveMember(members, user.value, hubId))
              ==> r == (None, [Close(4003)])
    ensures r.0.Some? <==> user.Some? && hubId != "" && HubActive(hubs, hubId) && IsActiveMember(members, user.value, hubId)
    ensures r.0.Some? ==> r.0.value == Session(user.value, hubId, channel)
                          && r.1 == [GroupSend(Presence(user.value), Some(channel))]
  {
    if user.None? then (None, [Close(4001)])
    else if hubId == "" then (None, [Close(4002)])
    else if !HubActive(hubs, hubId) then (None, [Close(4004)])
    else if !IsActiveMember(members, user.value, hubId) then (None, [Close(4003)])
    else (Some(Session(user.value, hubId, channel)), [GroupSend(Presence(user.value), Some(channel))])
  }

  /** `handle_message_send`: nothing is stored; the sender's socket gets a
      `message:delivered` whose `messageId` is still the temporary id. */
  function HandleSend(payload: Json): (r: Reaction)
    ensures !payload.JObj? || PyStrOrEmpty(Field(payload.fields, "text")).None? ==> r.Raised?
    ensures r.Handled? ==> |r.outs| == 1 && !r.outs[0].Close?
    ensures r.Handled? && Text.Trim(Text.Py, PyStrOrEmpty(Field(payload.fields, "text")).value) == [] ==>
              r.outs[0].SendError?
    ensures r.Handled? && Text.Trim(Text.Py, PyStrOrEmpty(Field(payload.fields, "text")).value) != [] ==>
              var tempId := Field(payload.fields, "tempId");
              r.outs[0] == Send(Frame("message:delivered", JObj(map["tempId" := tempId, "messageId" := tempId])))
  {
    if !payload.JObj? then Raised("AttributeError")
    else
      var tempId := Field(payload.fields, "tempId");
      match PyStrOrEmpty(Field(payload.fields, "text"))
      case None => Raised("AttributeError")
      case Some(raw) =>
        if Text.Trim(Text.Py, raw) == [] then Handled([SendError("Message text is required", JNull)])
        else Handled([Send(Frame("message:delivered", JObj(map["tempId" := tempId, "messageId" := tempId])))])
  }

  /** `handle_typing`: `name` is the user's `full_name or username`. */
  function Typing(s: Session, name: string, isTyping: bool): (o: Out)
    ensures o.GroupSend? && o.senderChannel == Some(s.channel)
    ensures o.payload.JObj? && Field(o.payload.fields, "type") == JStr("typing:update")
    ensures Field(o.payload.fields, "payload") ==
              JObj(map["user" := JObj(map["id" := JStr(s.userId), "name" := JStr(name)]), "isTyping" := JBool(isTyping)])
  {
    GroupSend(Frame("typing:update", JObj(map[
                "user" := JObj(map["id" := JStr(s.userId), "name" := JStr(name)]),
                "isTyping" := JBool(isTyping)])),
              Some(s.channel))
  }

  /** `handle_seen`: relays the id to the room; without an id, nothing. */
  function HandleSeen(s: Session, payload: Json): (r: Reaction)
    ensures !payload.JObj? ==> r.Raised?
    ensures payload.JObj? && !PyTruthy(Field(payload.fields, "messageId")) ==> r == Handled([])
    ensures r.Handled? ==> forall k :: 0 <= k < |r.outs| ==> r.outs[k].GroupSend?
    ensures payload.JObj? && PyTruthy(Field(payload.fields, "messageId")) ==>
              r == Handled([GroupSend(Frame("message:seen:update",
                                            JObj(map["messageId" := Field(payload.fields, "messageId"),
                                                     "userId" := JStr(s.userId)])),
                                      Some(s.channel))])
  {
    if !payload.JObj? then Raised("AttributeError")
    else
      var id := Field(payload.fields, "messageId");
      if !PyTruthy(id) then Handled([])
      else Handled([GroupSend(Frame("message:seen:update", JObj(map["messageId" := id, "userId" := JStr(s.userId)])),
                              Some(s.channel))])
  }

  /** `receive_json`. No frame closes the socket. */
  function Receive(s: Session, content: map<string, Json>, name: string): (r: Reaction)
    ensures !PyTruthy(Field(content, "type")) ==> r == Handled([SendError("Missing event type", JNull)])
    ensures (PyTruthy(Field(content, "type")) && Field(content, "type") !in
              {JStr("message:send"), JStr("typing:start"), JStr("typing:stop"), JStr("message:seen")}) ==>
              r == Handled([SendError("Unknown event type: ", Field(content, "type"))])
    ensures r.Handled? ==> forall k :: 0 <= k < |r.outs| ==> !r.outs[k].Close?
  {
    var t := Field(content, "type");
    var p := Field(content, "payload");
    var payload := if PyTruthy(p) then p else JObj(map[]);
    if !PyTruthy(t) then Handled([SendError("Missing event type", JNull)])
    else if t == JStr("message:send") then HandleSend(payload)
    else if t == JStr("typing:start") then Handled([Typing(s, name, true)])
    else if t == JStr("typing:stop") then Handled([Typing(s, name, false)])
    else if t == JStr("message:seen") then HandleSeen(s, payload)
    else Handled([SendError("Unknown event type: ", t)])
  }

  /** The `excludeSenderId` test of `broadcast`: `payload.get("payload", {})`
      must be an object (any exception is swallowed and the frame is sent)
      and its truthy `excludeSenderId` must be the receiver's id. A
      non-string value never matches: `str` of it cannot be a UUID's text. */
  predicate NamesReceiver(payload: Json, userId: string) {
    && payload.JObj?
    && var inner := if "payload" in payload.fields then payload.fields["payload"] else JObj(map[]);
    && inner.JObj?
    && PyTruthy(Field(inner.fields, "excludeSenderId"))
    && Field(inner.fields, "excludeSenderId") == JStr(userId)
  }

  /** `broadcast` as written: `sender_channel` is never looked at, so an
      `exclude_self` event reaches the socket that published it. */
  function BroadcastAsWritten(payload: Json, senderChannel: Option<string>, channel: string, userId: string)
    : (r: Option<Json>)
    ensures r.Some? <==> PyTruthy(payload) && !NamesReceiver(payload, userId)
    ensures r.Some? ==> r.value == payload
  {
    if !PyTruthy(payload) then None
    else if NamesReceiver(payload, userId) then None
    else Some(payload)
  }

  /** `broadcast` as `_broadcast_to_room` documents it: a socket also ignores
      the events it published with `exclude_self`. */
  function Broadcast(payload: Json, senderChannel: Option<string>, channel: string, userId: string)
    : (r: Option<Json>)
    ensures r.Some? <==> PyTruthy(payload) && !NamesReceiver(payload, userId)
                         && !(senderChannel.Some? && senderChannel.value == channel)
    ensures r.Some? ==> r.value == payload
  {
    if senderChannel.Some? && senderChannel.value == channel then None
    else BroadcastAsWritten(payload, senderChannel, channel, userId)
  }

  /** As written, a typing event comes back to the typist's own socket. */
  lemma TypingEchoesAsWritten(s: Session, name: string, isTyping: bool)
    requires s.userId != ""
    ensures var out := Typing(s, name, isTyping);
      BroadcastAsWritten(out.payload, out.senderChannel, s.channel, s.userId) == Some(out.payload)
  {
    var out := Typing(s, name, isTyping);
    var inner := out.payload.fields["payload"];
    assert Field(inner.fields, "excludeSenderId") == JNull;
  }

  /** With the sender's channel checked, an `exclude_self` event reaches every
      socket of the room but the publishing one. */
  lemma ExcludeSelfHonoured(s: Session, name: string, isTyping: bool, other: string, otherUser: string)
    requires other != s.channel
    ensures var out := Typing(s, name, isTyping);
      && Broadcast(out.payload, out.senderChannel, s.channel, s.userId).None?
      && Broadcast(out.payload, out.senderChannel, other, otherUser) == Some(out.payload)
  {
    var out := Typing(s, name, isTyping);
    var inner := out.payload.fields["payload"];
    assert Field(inner.fields, "excludeSenderId") == JNull;
  }

  /** The room event of a message posted through the REST view is dropped by
      every socket of its sender and delivered to every other member's. */
  lemma PostedNoticeSkipsSender(reply: HubHistory.PostReply, channel: string, userId: string)
    requires reply.senderId != ""
    ensures Broadcast(HubHistory.Notice(reply), None, channel, reply.senderId).None?
    ensures userId != reply.senderId ==>
              Broadcast(HubHistory.Notice(reply), None, channel, userId) == Some(HubHistory.Notice(reply))
  {
  }
}
