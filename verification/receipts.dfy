/** `useMessageReceipts`: delivered and read receipts for the messages of
    one thread. Each receipt is sent at most once per mounted hook: an id is
    remembered in a set, queued, and posted in a batch when a short timer
    fires (250 ms for delivered, 400 ms for read) or when the hook unmounts.
    The timers become explicit steps; the POST is recorded as a `Post` and
    its answer is ignored, as the source ignores it. */
module Receipts {

  import opened Wrappers
  import opened Json
  import opened ChatTypes

  /** One kind of receipt: the ids remembered (`deliveredSet` or
      `readSet`), the queue waiting for the timer, whether a timer is
      pending, and the batches posted so far (each the body
      `{ messageIds: ids }` of one POST to `markDeliveredBatch()` or
      `markSeenBatch()`). */
  datatype Side = Side(marked: set<Json>, queue: seq<Json>, timer: bool, batches: seq<seq<Json>>)

  datatype Receipts = Receipts(delivery: Side, seen: Side)

  const Idle := Side({}, [], false, [])

  const Fresh := Receipts(Idle, Idle)

  /** The ids posted so far, batch after batch. */
  function Posted(batches: seq<seq<Json>>): seq<Json>
    decreases |batches|
  {
    if batches == [] then [] else Posted(batches[..|batches| - 1]) + batches[|batches| - 1]
  }

  /** What the hook keeps true of each kind: every remembered id is either
      posted or waiting in the queue, no id is posted or queued twice, and a
      non-empty queue always has a timer pending. */
  ghost predicate SideInv(s: Side) {
    && Unique(Posted(s.batches) + s.queue)
    && (forall x :: x in s.marked <==> x in Posted(s.batches) + s.queue)
    && (s.queue != [] ==> s.timer)
  }

  ghost predicate Inv(st: Receipts) {
    SideInv(st.delivery) && SideInv(st.seen)
  }

  lemma FreshInv()
    ensures Inv(Fresh)
  {
  }

  /** The four early returns of `markDelivered` and `markRead`, without the
      already-marked test: an id that is truthy, a signed-in user, and a
      sender other than that user. */
  predicate Receivable(me: Option<string>, m: Message) {
    && m.id.Some? && JsTruthy(m.id.value)
    && me.Some? && me.value != ""
    && SenderId(m) != Some(JStr(me.value))
  }

  /** Remembers `id`, queues it and starts the timer if none is pending. */
  function Enqueue(s: Side, id: Json): (r: Side)
    requires id !in s.marked
    ensures r.marked == s.marked + {id} && r.queue == s.queue + [id] && r.timer && r.batches == s.batches
    ensures SideInv(s) ==> SideInv(r)
  {
    EnqueueKeepsInv(s, id);
    Side(s.marked + {id}, s.queue + [id], true, s.batches)
  }

  lemma EnqueueKeepsInv(s: Side, id: Json)
    requires id !in s.marked
    ensures SideInv(s) ==> SideInv(Side(s.marked + {id}, s.queue + [id], true, s.batches))
  {
    if SideInv(s) {
      var before := Posted(s.batches) + s.queue;
      assert Posted(s.batches) + (s.queue + [id]) == before + [id];
      assert id !in before;
      forall i, j | 0 <= i < j < |before + [id]| ensures (before + [id])[i] != (before + [id])[j] {
        if j == |before| {
          assert (before + [id])[i] == before[i];
        } else {
          assert (before + [id])[i] == before[i] && (before + [id])[j] == before[j];
        }
      }
    }
  }

  /** `markDelivered(msg)`. */
  function MarkDelivered(st: Receipts, me: Option<string>, m: Message): (r: Receipts)
    ensures !Receivable(me, m) || m.id.value in st.delivery.marked ==> r == st
    ensures Receivable(me, m) && m.id.value !in st.delivery.marked ==>
              && r.delivery.marked == st.delivery.marked + {m.id.value}
              && r.delivery.queue == st.delivery.queue + [m.id.value]
              && r.delivery.timer && r.delivery.batches == st.delivery.batches
              && r.seen == st.seen
    ensures Inv(st) ==> Inv(r)
  {
    if !Receivable(me, m) || m.id.value in st.delivery.marked then st
    else st.(delivery := Enqueue(st.delivery, m.id.value))
  }

  /** `{ ...m, status: "seen" }` for the messages with the read id. */
  function MarkSeen(view: seq<Message>, id: Json): (r: seq<Message>)
    ensures |r| == |view|
    ensures forall k :: 0 <= k < |view| ==>
              r[k] == if view[k].id == Some(id) then view[k].(status := Some(JStr("seen"))) else view[k]
  {
    seq(|view|, k requires 0 <= k < |view| =>
      if view[k].id == Some(id) then view[k].(status := Some(JStr("seen"))) else view[k])
  }

  /** `markRead(msg)`: as `markDelivered` on the read side, and, when an
      `onLocalUpdate` is given, the messages on screen with that id are shown
      as seen straight away. */
  function MarkRead(st: Receipts, me: Option<string>, m: Message, view: seq<Message>, hasUpdater: bool)
    : (r: (Receipts, seq<Message>))
    ensures !Receivable(me, m) || m.id.value in st.seen.marked ==> r == (st, view)
    ensures Receivable(me, m) && m.id.value !in st.seen.marked ==>
              && r.0.seen.marked == st.seen.marked + {m.id.value}
              && r.0.seen.queue == st.seen.queue + [m.id.value]
              && r.0.seen.timer && r.0.seen.batches == st.seen.batches
              && r.0.delivery == st.delivery
              && r.1 == (if hasUpdater then MarkSeen(view, m.id.value) else view)
    ensures Inv(st) ==> Inv(r.0)
  {
    if !Receivable(me, m) || m.id.value in st.seen.marked then (st, view)
    else (st.(seen := Enqueue(st.seen, m.id.value)), if hasUpdater then MarkSeen(view, m.id.value) else view)
  }

  /** `flushDelivered()` / `flushRead()`: an empty queue posts nothing;
      otherwise the queue is emptied and its distinct ids are posted. */
  function Flush(s: Side): (r: Side)
    ensures s.queue == [] ==> r == s
    ensures s.queue != [] ==> r.batches == s.batches + [Dedup(s.queue)]
    ensures r.queue == [] && r.marked == s.marked && r.timer == s.timer
  {
    if s.queue == [] then s
    else s.(queue := [], batches := s.batches + [Dedup(s.queue)])
  }

  /** The batch a flush posts is exactly the queue, in order: the queue
      never holds an id twice, so the `Set` round trip changes nothing. */
  lemma FlushPostsQueue(s: Side)
    requires Unique(Posted(s.batches) + s.queue) && s.queue != []
    ensures Flush(s).batches == s.batches + [s.queue]
    ensures Posted(Flush(s).batches) == Posted(s.batches) + s.queue
  {
    var q, before := s.queue, Posted(s.batches);
    forall i, j | 0 <= i < j < |q| ensures q[i] != q[j] {
      assert (before + q)[|before| + i] == q[i] && (before + q)[|before| + j] == q[j];
    }
    DedupUnique(q);
    assert (s.batches + [q])[..|s.batches|] == s.batches;
  }

  /** The timer callback: the timer is cleared and the queue flushed. */
  function TimerFires(s: Side): (r: Side)
    ensures !r.timer && r.queue == [] && r.marked == s.marked
    ensures s.queue != [] ==> r.batches == s.batches + [Dedup(s.queue)]
    ensures SideInv(s) ==> SideInv(r) && Posted(r.batches) == Posted(s.batches) + s.queue
  {
    FiringKeepsInv(s);
    Flush(s.(timer := false))
  }

  lemma FiringKeepsInv(s: Side)
    ensures SideInv(s) ==> SideInv(Flush(s.(timer := false)))
                           && Posted(Flush(s.(timer := false)).batches) == Posted(s.batches) + s.queue
  {
    if SideInv(s) {
      var c := s.(timer := false);
      if s.queue != [] {
        FlushPostsQueue(c);
      } else {
        assert Posted(s.batches) + s.queue == Posted(s.batches);
      }
    }
  }

  /** The cleanup on unmount: each pending timer is cancelled and its queue
      flushed at once. */
  function Unmount(st: Receipts): (r: Receipts)
    ensures Inv(st) ==> Inv(r) && r.delivery.queue == [] && r.seen.queue == []
  {
    Receipts(if st.delivery.timer then TimerFires(st.delivery) else st.delivery,
             if st.seen.timer then TimerFires(st.seen) else st.seen)
  }

  /** After unmounting, every remembered id has been posted exactly once. */
  lemma UnmountPostsEverything(st: Receipts)
    requires Inv(st)
    ensures var r := Unmount(st);
      && Unique(Posted(r.delivery.batches)) && Unique(Posted(r.seen.batches))
      && (forall x :: x in st.delivery.marked <==> x in Posted(r.delivery.batches))
      && (forall x :: x in st.seen.marked <==> x in Posted(r.seen.batches))
  {
    var r := Unmount(st);
    assert Posted(r.delivery.batches) + [] == Posted(r.delivery.batches);
    assert Posted(r.seen.batches) + [] == Posted(r.seen.batches);
  }

  /** A message the auto-deliver effect acknowledges: present, and with
      status "sent" or "delivered". */
  predicate AutoDeliverable(om: Option<Message>) {
    om.Some? && om.value.status in {Some(JStr("sent")), Some(JStr("delivered"))}
  }

  /** The ids the auto-deliver effect would acknowledge among `msgs`. */
  function AutoIds(me: Option<string>, msgs: seq<Option<Message>>): (ids: set<Json>)
    decreases |msgs|
  {
    if msgs == [] then {}
    else
      var om := msgs[|msgs| - 1];
      AutoIds(me, msgs[..|msgs| - 1])
        + (if AutoDeliverable(om) && Receivable(me, om.value) then {om.value.id.value} else {})
  }

  /** What one pass over a prefix of the messages has done: the ids it
      acknowledged are remembered, the new ones are queued after the old
      queue, and nothing else has changed. */
  ghost predicate Passed(st: Receipts, me: Option<string>, seen: seq<Option<Message>>, r: Receipts, queued: seq<Json>) {
    && SideInv(r.delivery)
    && r.delivery.marked == st.delivery.marked + AutoIds(me, seen)
    && r.delivery.queue == st.delivery.queue + queued
    && (forall x :: x in queued <==> x in AutoIds(me, seen) && x !in st.delivery.marked)
    && r.delivery.batches == st.delivery.batches && r.seen == st.seen
  }

  /** `markDelivered(msg)` for a message the effect picks; the rest are skipped. */
  function Visit(r: Receipts, me: Option<string>, om: Option<Message>): Receipts {
    if AutoDeliverable(om) then MarkDelivered(r, me, om.value) else r
  }

  /** The id a visit appends to the delivered queue, if any. */
  function Appended(r: Receipts, me: Option<string>, om: Option<Message>): seq<Json> {
    if AutoDeliverable(om) && Receivable(me, om.value) && om.value.id.value !in r.delivery.marked
    then [om.value.id.value] else []
  }

  lemma VisitStep(st: Receipts, me: Option<string>, msgs: seq<Option<Message>>, i: int,
                  r: Receipts, queued: seq<Json>)
    requires 0 <= i < |msgs|
    requires Passed(st, me, msgs[..i], r, queued)
    ensures Passed(st, me, msgs[..i + 1], Visit(r, me, msgs[i]), queued + Appended(r, me, msgs[i]))
  {
    AutoIdsStep(me, msgs, i);
  }

  /** The `useEffect` that calls `markDelivered` for every present message
      whose status is "sent" or "delivered", when a user is signed in;
      `queued` is what the pass adds to the delivered queue. */
  method AutoDeliver(st: Receipts, me: Option<string>, msgs: seq<Option<Message>>)
    returns (r: Receipts, queued: seq<Json>)
    requires Inv(st)
    ensures Inv(r)
    ensures r.delivery.marked == st.delivery.marked + AutoIds(me, msgs)
    ensures r.delivery.queue == st.delivery.queue + queued
    ensures forall x :: x in queued <==> x in AutoIds(me, msgs) && x !in st.delivery.marked
    ensures r.delivery.batches == st.delivery.batches && r.seen == st.seen
    ensures me.None? || me.value == "" ==> r == st
  {
    r, queued := st, [];
    if me.None? || me.value == "" {
      NoUserNoIds(me, msgs);
      return;
    }
    var i := 0;
    while i < |msgs|
      invariant 0 <= i <= |msgs|
      invariant Passed(st, me, msgs[..i], r, queued)
    {
      VisitStep(st, me, msgs, i, r, queued);
      queued := queued + Appended(r, me, msgs[i]);
      r := Visit(r, me, msgs[i]);
      i := i + 1;
    }
    assert msgs[..|msgs|] == msgs;
  }

  lemma AutoIdsStep(me: Option<string>, msgs: seq<Option<Message>>, i: int)
    requires 0 <= i < |msgs|
    ensures AutoIds(me, msgs[..i + 1]) == AutoIds(me, msgs[..i])
              + (if AutoDeliverable(msgs[i]) && Receivable(me, msgs[i].value) then {msgs[i].value.id.value} else {})
  {
    assert msgs[..i + 1][..i] == msgs[..i];
  }

  lemma {:induction false} NoUserNoIds(me: Option<string>, msgs: seq<Option<Message>>)
    requires me.None? || me.value == ""
    ensures AutoIds(me, msgs) == {}
    decreases |msgs|
  {
    if msgs != [] {
      NoUserNoIds(me, msgs[..|msgs| - 1]);
    }
  }

  /** A user's own messages are never acknowledged, and a second call for
      the same message changes nothing. */
  lemma MarkOnce(st: Receipts, me: Option<string>, m: Message, view: seq<Message>, hasUpdater: bool)
    ensures me.Some? && SenderId(m) == Some(JStr(me.value)) ==>
              MarkDelivered(st, me, m) == st && MarkRead(st, me, m, view, hasUpdater) == (st, view)
    ensures var d := MarkDelivered(st, me, m); MarkDelivered(d, me, m) == d
    ensures var rd := MarkRead(st, me, m, view, hasUpdater);
      MarkRead(rd.0, me, m, rd.1, hasUpdater) == rd
  {
  }
}
