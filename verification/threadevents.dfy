/** The `onEvent` reducer of `useChatThreadWS`: how socket events change the
    message list of an open thread, with the text-hash set that keeps a
    message from being applied twice. */
module ThreadEvents {

  import opened Wrappers
  import opened Json
  import opened ChatTypes

  datatype Event =
    | MessageNew(payload: Message)
    | MessageAck(payload: Message)
    | MessageDelivered(messageId: string)
    | MessageSeen(messageId: string, userId: string)
    | ReactionUpdate(messageId: string, emoji: string, userId: string, action: string)
    | TypingUpdate
    | MessageDelete(messageId: string, deletedAt: Option<Json>)
    | MessageEdit(payload: Message)
    | PresenceUpdate
    | ErrorEvent
    | Other

  datatype Thread = Thread(messages: seq<Message>, knownHashes: set<string>)

  /** `hashMessage`: `` `${clientTempId ?? ""}|${text ?? ""}` ``. */
  function Hash(m: Message): (h: string)
    ensures Nullish(m.clientTempId) && Nullish(m.text) ==> h == "|"
    ensures !Nullish(m.clientTempId) ==>
              var t := JsText(m.clientTempId.value); |h| > |t| && h[..|t|] == t && h[|t|] == '|'
    ensures Nullish(m.clientTempId) ==> |h| > 0 && h[0] == '|'
  {
    (if Nullish(m.clientTempId) then "" else JsText(m.clientTempId.value)) + "|"
    + (if Nullish(m.text) then "" else JsText(m.text.value))
  }

  /** The hash sees only the temporary id and the text: two messages that
      agree on both, whatever their ids, senders or times, hash alike, so the
      second of them is taken for a replay. */
  lemma HashSeesTempIdAndText(a: Message, b: Message)
    requires a.clientTempId == b.clientTempId && a.text == b.text
    ensures Hash(a) == Hash(b)
  {
  }

  /** `normalizeMine`: `isMine` recomputed from the sender. */
  function NormalizeMine(m: Message, me: Option<Json>): (r: Message)
    ensures r == m.(isMine := r.isMine)
    ensures r.isMine == Some(JsString(SenderId(m)) == JsString(me))
  {
    m.(isMine := Some(JsString(SenderId(m)) == JsString(me)))
  }

  predicate IdIs(m: Message, id: string) { m.id == Some(JStr(id)) }

  /** The `setMessages` step of new/ack: replace the entry with the same
      `clientTempId` in place, else append unless the id is already there. */
  function Upsert(prev: seq<Message>, msg: Message): (r: seq<Message>)
    ensures var idx := if !Nullish(msg.clientTempId) then FindIndex(prev, (m: Message) => m.clientTempId == msg.clientTempId) else -1;
      && (idx != -1 ==> |r| == |prev| && r[idx] == Spread(prev[idx], msg).(status := Some(JStr("sent")))
                        && forall k :: 0 <= k < |prev| && k != idx ==> r[k] == prev[k])
      && (idx == -1 && (exists k :: 0 <= k < |prev| && prev[k].id == msg.id) ==> r == prev)
      && (idx == -1 && (forall k :: 0 <= k < |prev| ==> prev[k].id != msg.id) ==>
            r == prev + [msg.(status := if Nullish(msg.status) then Some(JStr("sent")) else msg.status)])
  {
    var idx := if !Nullish(msg.clientTempId) then FindIndex(prev, (m: Message) => m.clientTempId == msg.clientTempId) else -1;
    if idx != -1 then prev[idx := Spread(prev[idx], msg).(status := Some(JStr("sent")))]
    else if exists k :: 0 <= k < |prev| && prev[k].id == msg.id then prev
    else prev + [msg.(status := if Nullish(msg.status) then Some(JStr("sent")) else msg.status)]
  }

  /** The delivered step: `seen` stays `seen`, anything else becomes `delivered`. */
  function Deliver(m: Message): Message {
    m.(status := if m.status == Some(JStr("seen")) then Some(JStr("seen")) else Some(JStr("delivered")))
  }

  /** The seen step: the reader and the local time join `seenBy`. */
  function MarkSeen(m: Message, userId: string, now: string): Message {
    m.(seenBy := Some(m.seenBy.GetOr(map[])[userId := JStr(now)]))
  }

  function Inc(c: Option<int>): Option<int> { if c.Some? then Some(c.value + 1) else None }

  /** `Math.max(0, count - 1)`; `NaN` stays `NaN`. */
  function DecFloor(c: Option<int>): Option<int> {
    if c.None? then None else if c.value - 1 < 0 then Some(0) else Some(c.value - 1)
  }

  /** The reaction list after a `reaction:update` for one message. */
  function UpdateReactions(rs: seq<Reaction>, emoji: string, userId: string, action: string, mine: bool)
    : (r: seq<Reaction>)
    ensures action != "added" && action != "removed" ==> r == rs
  {
    var idx := FindIndex(rs, (x: Reaction) => x.emoji == emoji);
    if action == "added" then
      if idx == -1 then rs + [Reaction(emoji, [userId], Some(1), Some(mine))]
      else if userId in rs[idx].userIds then rs
      else rs[idx := rs[idx].(userIds := rs[idx].userIds + [userId], count := Inc(rs[idx].count),
                              reactedByMe := if mine then Some(true) else rs[idx].reactedByMe)]
    else if action == "removed" && idx != -1 then
      var next := DecFloor(rs[idx].count);
      if next == Some(0) then rs[..idx] + rs[idx + 1..]
      else rs[idx := rs[idx].(userIds := Without(rs[idx].userIds, userId), count := next,
                              reactedByMe := if mine then Some(false) else rs[idx].reactedByMe)]
    else rs
  }

  function React(m: Message, emoji: string, userId: string, action: string, me: Option<Json>): Message {
    var mine := userId == JsString(me);
    m.(reactions := Some(UpdateReactions(m.reactions.GetOr([]), emoji, userId, action, mine)),
       myReaction := if mine then (if action == "added" then Some(JStr(emoji)) else Some(JNull)) else m.myReaction)
  }

  /** The delete step: a tombstone with no text, attachments or reactions. */
  function Tombstone(m: Message, deletedAt: Option<Json>, now: string): Message {
    m.(deletedAt := if Nullish(deletedAt) then Some(JStr(now)) else deletedAt,
       text := Some(JStr("")), attachments := Some([]), reactions := Some([]), myReaction := Some(JNull))
  }

  /** `prev.map(m => m.id === id ? f(m) : m)`. */
  function MapTarget(prev: seq<Message>, id: Option<Json>, f: Message -> Message): (r: seq<Message>)
    ensures |r| == |prev|
    ensures forall k :: 0 <= k < |prev| ==> r[k] == (if prev[k].id == id then f(prev[k]) else prev[k])
  {
    seq(|prev|, k requires 0 <= k < |prev| => if prev[k].id == id then f(prev[k]) else prev[k])
  }

  /** `onEvent`. `me` is `currentUserId`; `now` is the local clock's ISO text. */
  function OnEvent(t: Thread, e: Event, me: Option<Json>, now: string): (r: Thread)
    ensures (e.MessageNew? || e.MessageAck?) && Hash(NormalizeMine(e.payload, me)) in t.knownHashes ==> r == t
    ensures (e.MessageNew? || e.MessageAck?) && Hash(NormalizeMine(e.payload, me)) !in t.knownHashes ==>
              r == Thread(Upsert(t.messages, NormalizeMine(e.payload, me)), t.knownHashes + {Hash(NormalizeMine(e.payload, me))})
    ensures e.TypingUpdate? || e.PresenceUpdate? || e.ErrorEvent? || e.Other? ==> r == t
    ensures !(e.MessageNew? || e.MessageAck?) ==> r.knownHashes == t.knownHashes
    ensures !(e.MessageNew? || e.MessageAck?) ==> |r.messages| == |t.messages|
  {
    match e
    case MessageNew(p) => NewOrAck(t, NormalizeMine(p, me))
    case MessageAck(p) => NewOrAck(t, NormalizeMine(p, me))
    case MessageDelivered(id) => t.(messages := MapTarget(t.messages, Some(JStr(id)), Deliver))
    case MessageSeen(id, u) => t.(messages := MapTarget(t.messages, Some(JStr(id)), (m: Message) => MarkSeen(m, u, now)))
    case ReactionUpdate(id, emoji, u, action) =>
      t.(messages := MapTarget(t.messages, Some(JStr(id)), (m: Message) => React(m, emoji, u, action, me)))
    case MessageDelete(id, at) => t.(messages := MapTarget(t.messages, Some(JStr(id)), (m: Message) => Tombstone(m, at, now)))
    case MessageEdit(p) =>
      var edited := NormalizeMine(p, me);
      t.(messages := MapTarget(t.messages, edited.id, (m: Message) => Spread(m, edited)))
    case _ => t
  }

  function NewOrAck(t: Thread, msg: Message): Thread {
    var h := Hash(msg);
    if h in t.knownHashes then t else Thread(Upsert(t.messages, msg), t.knownHashes + {h})
  }

  /** The effect on thread change: the known hashes are forgotten. */
  function ThreadChanged(t: Thread): (r: Thread)
    ensures r.messages == t.messages && r.knownHashes == {}
  {
    t.(knownHashes := {})
  }

  // ---------------------------------------------------------------------
  // Properties

  /** A new or ack event applied twice has the effect of applying it once. */
  lemma ReplayIgnored(t: Thread, e: Event, me: Option<Json>, now: string)
    requires e.MessageNew? || e.MessageAck?
    ensures OnEvent(OnEvent(t, e, me, now), e, me, now) == OnEvent(t, e, me, now)
  {
  }

  /** After a thread change, an event seen before is applied again. */
  lemma AppliedAfterThreadChange(t: Thread, e: Event, me: Option<Json>, now: string)
    requires e.MessageNew? || e.MessageAck?
    ensures OnEvent(ThreadChanged(t), e, me, now).messages == Upsert(t.messages, NormalizeMine(e.payload, me))
  {
  }

  /** A delivered receipt never takes a message back from `seen`, and leaves
      every message with another id as it was. */
  lemma DeliveredNeverDowngrades(t: Thread, id: string, me: Option<Json>, now: string, k: nat)
    requires k < |t.messages|
    ensures var after := OnEvent(t, MessageDelivered(id), me, now).messages[k];
      && (t.messages[k].status == Some(JStr("seen")) ==> after.status == Some(JStr("seen")))
      && (IdIs(t.messages[k], id) ==> after.status in {Some(JStr("seen")), Some(JStr("delivered"))})
      && (!IdIs(t.messages[k], id) ==> after == t.messages[k])
  {
  }

  /** A seen receipt records its reader on the target message only. */
  lemma SeenTouchesOnlyTarget(t: Thread, id: string, u: string, me: Option<Json>, now: string, k: nat)
    requires k < |t.messages|
    ensures var after := OnEvent(t, MessageSeen(id, u), me, now).messages[k];
      && (IdIs(t.messages[k], id) ==>
            && after.seenBy.Some? && u in after.seenBy.value
            && after == t.messages[k].(seenBy := after.seenBy)
            && forall v :: v in t.messages[k].seenBy.GetOr(map[]) ==> v in after.seenBy.value)
      && (!IdIs(t.messages[k], id) ==> after == t.messages[k])
  {
  }

  /** A deleted message keeps no content. */
  lemma DeleteLeavesTombstone(t: Thread, id: string, at: Option<Json>, me: Option<Json>, now: string, k: nat)
    requires k < |t.messages| && IdIs(t.messages[k], id)
    ensures var after := OnEvent(t, MessageDelete(id, at), me, now).messages[k];
      && after.text == Some(JStr("")) && after.attachments == Some([]) && after.reactions == Some([])
      && after.myReaction == Some(JNull) && !Nullish(after.deletedAt)
      && after.id == t.messages[k].id && after.clientTempId == t.messages[k].clientTempId
  {
  }

  /** An edit merges into the message with its id only, and replaying it
      changes nothing more. */
  lemma EditIsIdempotent(t: Thread, p: Message, me: Option<Json>, now: string)
    ensures var once := OnEvent(t, MessageEdit(p), me, now);
      && OnEvent(once, MessageEdit(p), me, now) == once
      && forall k :: 0 <= k < |t.messages| ==>
           once.messages[k] == if t.messages[k].id == NormalizeMine(p, me).id
                               then Spread(t.messages[k], NormalizeMine(p, me)) else t.messages[k]
  {
    var edited := NormalizeMine(p, me);
    var once := OnEvent(t, MessageEdit(p), me, now);
    var twice := OnEvent(once, MessageEdit(p), me, now);
    forall k | 0 <= k < |once.messages| ensures twice.messages[k] == once.messages[k] {
      SpreadLaws(t.messages[k], edited);
    }
  }

  /** What a well-kept reaction list satisfies: every count is `NaN` or at
      least one, and no reaction lists a user twice. */
  predicate WellKept(rs: seq<Reaction>) {
    forall i :: 0 <= i < |rs| ==> (rs[i].count.Some? ==> rs[i].count.value >= 1) && Distinct(rs[i].userIds)
  }

  /** `reaction:update` keeps the list well kept: an added user is listed at
      most once and a reaction whose count reaches zero is dropped. */
  lemma UpdateKeepsWellKept(rs: seq<Reaction>, emoji: string, userId: string, action: string, mine: bool)
    requires WellKept(rs)
    ensures WellKept(UpdateReactions(rs, emoji, userId, action, mine))
  {
    var idx := FindIndex(rs, (x: Reaction) => x.emoji == emoji);
    var r := UpdateReactions(rs, emoji, userId, action, mine);
    if action == "added" && idx != -1 && userId !in rs[idx].userIds {
      var ids := rs[idx].userIds + [userId];
      forall i, j | 0 <= i < j < |ids| ensures ids[i] != ids[j] {
        if j == |ids| - 1 { assert ids[i] in rs[idx].userIds; }
      }
    } else if action == "removed" && idx != -1 && DecFloor(rs[idx].count) != Some(0) {
      WithoutDistinct(rs[idx].userIds, userId);
    } else if action == "removed" && idx != -1 {
      forall i | 0 <= i < |r| ensures (r[i].count.Some? ==> r[i].count.value >= 1) && Distinct(r[i].userIds) {
        if i < idx { assert r[i] == rs[i]; } else { assert r[i] == rs[i + 1]; }
      }
    }
  }

  /** After an `added` update the user is listed under that emoji. */
  lemma AddedIsListed(rs: seq<Reaction>, emoji: string, userId: string, mine: bool)
    ensures var r := UpdateReactions(rs, emoji, userId, "added", mine);
      exists i :: 0 <= i < |r| && r[i].emoji == emoji && userId in r[i].userIds
  {
    var idx := FindIndex(rs, (x: Reaction) => x.emoji == emoji);
    var r := UpdateReactions(rs, emoji, userId, "added", mine);
    if idx == -1 {
      assert r[|rs|].emoji == emoji && userId in r[|rs|].userIds;
    } else {
      assert r[idx].emoji == emoji && userId in r[idx].userIds;
    }
  }
}
