/** `useChatRetryQueue`: failed TEXT messages wait in a store keyed by their
    client id and are re-sent with exponential back-off once connected. The
    IndexedDB store is a map; `Date.now()`, the `sendMessage` failures and the
    in-flight set of a concurrent pass are parameters. */
module RetryQueue {

  import opened Wrappers
  import opened Json
  import opened ChatTypes

  const MaxRetries: int := 5
  const BaseDelay: real := 800.0
  const MaxDelay: real := 15000.0

  /** `Math.pow(1.7, n)` for a whole `n`. */
  function Pow17(n: int): (p: real)
    ensures p > 0.0
    ensures n >= 0 ==> p >= 1.0
    decreases if n < 0 then -n else n, if n < 0 then 1 else 0
  {
    if n == 0 then 1.0
    else if n > 0 then 1.7 * Pow17(n - 1)
    else 1.0 / Pow17(-n)
  }

  lemma {:induction false} Pow17Monotone(i: int, j: int)
    requires 0 <= i <= j
    ensures Pow17(i) <= Pow17(j)
    decreases j
  {
    if i < j {
      Pow17Monotone(i, j - 1);
    }
  }

  /** `getDelay(retryCount)`. */
  function Delay(retryCount: int): (d: real)
    ensures 0.0 < d <= MaxDelay
    ensures retryCount >= 0 ==> BaseDelay <= d
  {
    var grown := BaseDelay * Pow17(retryCount);
    if grown < MaxDelay then grown else MaxDelay
  }

  /** The back-off never shrinks as retries accumulate. */
  lemma DelayMonotone(i: int, j: int)
    requires 0 <= i <= j
    ensures Delay(i) <= Delay(j)
  {
    Pow17Monotone(i, j);
  }

  /** Every entry that can still be sent waits less than the cap; from the
      sixth retry on the wait would be the cap. */
  lemma DelayBelowCap(n: int)
    ensures 0 <= n < MaxRetries ==> Delay(n) < MaxDelay
    ensures n >= 6 ==> Delay(n) == MaxDelay
  {
    assert Pow17(4) == 8.3521 by {
      assert Pow17(1) == 1.7;
      assert Pow17(2) == 2.89;
      assert Pow17(3) == 4.913;
    }
    if 0 <= n < MaxRetries {
      Pow17Monotone(n, 4);
    }
    if n >= 6 {
      assert Pow17(6) == 24.137569 by {
        assert Pow17(5) == 14.19857;
      }
      Pow17Monotone(6, n);
    }
  }

  datatype Payload = Payload(clientTempId: Json, text: Json, replyToId: Json)

  datatype Entry = Entry(key: Json, payload: Payload, retryCount: int, lastTriedAt: int)

  type Store = map<Json, Entry>

  /** The store's key path is `key`: each entry sits under its own key. */
  predicate KeyPath(store: Store) {
    forall k :: k in store ==> store[k].key == k
  }

  /** `msg.replyTo?.id ?? null`. */
  function ReplyToId(m: Message): (r: Json)
    ensures r != JNull ==> "replyTo" in m.rest && m.rest["replyTo"].JObj?
  {
    if "replyTo" in m.rest && m.rest["replyTo"].JObj? && "id" in m.rest["replyTo"].fields
       && m.rest["replyTo"].fields["id"] != JNull
    then m.rest["replyTo"].fields["id"]
    else JNull
  }

  /** `msg.retryCount ?? 0`; a number stored there is read as is. */
  function RetryCountOf(m: Message): int {
    if "retryCount" in m.rest && m.rest["retryCount"].JNum? then m.rest["retryCount"].n else 0
  }

  /** `enqueueRetry(msg)`: only a TEXT message with a truthy client id is
      stored, under that id, replacing any entry there. */
  function Enqueue(store: Store, m: Message, now: int): (r: Store)
    ensures KeyPath(store) ==> KeyPath(r)
    ensures r != store ==> m.clientTempId.Some? && JsTruthy(m.clientTempId.value) && m.messageType == Some(JStr("TEXT"))
    ensures m.clientTempId.Some? && JsTruthy(m.clientTempId.value) && m.messageType == Some(JStr("TEXT")) ==>
              var k := m.clientTempId.value;
              && r.Keys == store.Keys + {k}
              && r[k].key == k && r[k].payload.clientTempId == k
              && r[k].lastTriedAt == now
              && (forall o :: o in store && o != k ==> r[o] == store[o])
  {
    if m.clientTempId.None? || !JsTruthy(m.clientTempId.value) then store
    else if m.messageType != Some(JStr("TEXT")) then store
    else
      var k := m.clientTempId.value;
      var text := if m.text.Some? && JsTruthy(m.text.value) then m.text.value else JStr("");
      store[k := Entry(k, Payload(k, text, ReplyToId(m)), RetryCountOf(m), now)]
  }

  /** What one pass does with one entry. */
  datatype Fate = Busy | Expired | Waiting | Sent | Failed

  function FateOf(e: Entry, inflight: set<Json>, now: int, throws: bool): (f: Fate)
    ensures f == Busy <==> e.key in inflight
    ensures f == Expired <==> e.key !in inflight && e.retryCount >= MaxRetries
    ensures f in {Sent, Failed} <==>
              e.key !in inflight && e.retryCount < MaxRetries && (now - e.lastTriedAt) as real >= Delay(e.retryCount)
    ensures f == Failed <==> f in {Sent, Failed} && throws
  {
    if e.key in inflight then Busy
    else if e.retryCount >= MaxRetries then Expired
    else if ((now - e.lastTriedAt) as real) < Delay(e.retryCount) then Waiting
    else if throws then Failed
    else Sent
  }

  /** The entry a failed send writes back. */
  function Retried(e: Entry, at: int): (r: Entry)
    ensures r.key == e.key && r.payload == e.payload
    ensures r.retryCount == e.retryCount + 1 && r.lastTriedAt == at
  {
    e.(retryCount := e.retryCount + 1, lastTriedAt := at)
  }

  /** The store after one entry's turn. */
  function Apply(store: Store, e: Entry, f: Fate, at: int): (r: Store)
    ensures forall o :: o != e.key ==> (o in r <==> o in store) && (o in r ==> r[o] == store[o])
    ensures f in {Busy, Waiting} ==> r == store
    ensures f in {Expired, Sent} ==> e.key !in r
    ensures f == Failed ==> e.key in r && r[e.key] == Retried(e, at)
  {
    match f
    case Busy => store
    case Waiting => store
    case Expired => store - {e.key}
    case Sent => store - {e.key}
    case Failed => store[e.key := Retried(e, at)]
  }

  predicate DistinctKeys(order: seq<Json>) {
    forall i, j :: 0 <= i < j < |order| ==> order[i] != order[j]
  }

  /** The payloads a connected pass hands to `sendMessage` without it
      throwing: those of the entries whose fate is Sent, in `order`. */
  function SentIn(store: Store, order: seq<Json>, inflight: set<Json>, now: int, throws: set<Json>): (s: seq<Payload>)
    requires forall k :: k in order ==> k in store
    ensures |s| <= |order|
  {
    if order == [] then []
    else
      var k := order[|order| - 1];
      SentIn(store, order[..|order| - 1], inflight, now, throws)
        + (if FateOf(store[k], inflight, now, k in throws) == Sent then [store[k].payload] else [])
  }

  /** Every entry whose fate is Sent has its payload sent. */
  lemma {:induction false} SentInHas(store: Store, order: seq<Json>, inflight: set<Json>, now: int,
                                     throws: set<Json>, k: Json)
    requires forall k :: k in order ==> k in store
    requires k in order && FateOf(store[k], inflight, now, k in throws) == Sent
    ensures store[k].payload in SentIn(store, order, inflight, now, throws)
  {
    var init := order[..|order| - 1];
    if k != order[|order| - 1] {
      var j :| 0 <= j < |order| && order[j] == k;
      assert init[j] == k;
      SentInHas(store, init, inflight, now, throws, k);
    }
  }

  /** One more key of `order` sends its payload exactly when its fate is Sent. */
  lemma SentInStep(store: Store, order: seq<Json>, i: nat, inflight: set<Json>, now: int, throws: set<Json>)
    requires i < |order| && forall k :: k in order ==> k in store
    ensures SentIn(store, order[..i + 1], inflight, now, throws)
              == SentIn(store, order[..i], inflight, now, throws)
                 + (if FateOf(store[order[i]], inflight, now, order[i] in throws) == Sent
                    then [store[order[i]].payload] else [])
  {
    assert order[..i + 1][..i] == order[..i];
  }

  /** Only entries whose fate is Sent have their payload sent. */
  lemma {:induction false} SentInFrom(store: Store, order: seq<Json>, inflight: set<Json>, now: int,
                                      throws: set<Json>, p: Payload)
    requires forall k :: k in order ==> k in store
    requires p in SentIn(store, order, inflight, now, throws)
    ensures exists k :: k in store && store[k].payload == p && FateOf(store[k], inflight, now, k in throws) == Sent
  {
    var k := order[|order| - 1];
    var init := order[..|order| - 1];
    if p !in SentIn(store, init, inflight, now, throws) {
      assert store[k].payload == p && FateOf(store[k], inflight, now, k in throws) == Sent;
    } else {
      SentInFrom(store, init, inflight, now, throws, p);
    }
  }

  /** Where one key of the store stands after the pass. */
  predicate Settled(store: Store, r: Store, k: Json, inflight: set<Json>, now: int, throws: set<Json>, at: int)
    requires k in store
  {
    var f := FateOf(store[k], inflight, now, k in throws);
    && (f in {Busy, Waiting} ==> k in r && r[k] == store[k])
    && (f in {Expired, Sent} ==> k !in r)
    && (f == Failed ==> k in r && r[k] == Retried(store[k], at))
  }

  /** The `for` loop of a connected pass. */
  method Pass(store: Store, order: seq<Json>, inflight: set<Json>, now: int, throws: set<Json>, at: int)
    returns (r: Store, sent: seq<Payload>)
    requires KeyPath(store)
    requires DistinctKeys(order) && (forall k :: k in order ==> k in store)
    ensures r.Keys <= store.Keys && KeyPath(r)
    ensures forall j :: 0 <= j < |order| ==> Settled(store, r, order[j], inflight, now, throws, at)
    ensures sent == SentIn(store, order, inflight, now, throws)
  {
    r, sent := store, [];
    var i := 0;
    while i < |order|
      invariant 0 <= i <= |order|
      invariant r.Keys <= store.Keys && KeyPath(r)
      invariant forall j :: i <= j < |order| ==> order[j] in r && r[order[j]] == store[order[j]]
      invariant forall j :: 0 <= j < i ==> Settled(store, r, order[j], inflight, now, throws, at)
      invariant sent == SentIn(store, order[..i], inflight, now, throws)
    {
      var k := order[i];
      var e := r[k];
      assert e == store[k] && e.key == k;
      var f := FateOf(e, inflight, now, k in throws);
      if f == Sent {
        sent := sent + [e.payload];
      }
      r := Apply(r, e, f, at);
      SentInStep(store, order, i, inflight, now, throws);
      i := i + 1;
    }
    assert order[..|order|] == order;
  }

  /** `processQueue()`: `order` is the order `getAll` returns the keys in,
      `throws` the keys whose `sendMessage` throws, `at` the time a failure is
      written back. Returns the store and the payloads sent, in order. */
  method ProcessQueue(store: Store, order: seq<Json>, connected: bool, inflight: set<Json>,
                      now: int, throws: set<Json>, at: int)
    returns (r: Store, sent: seq<Payload>)
    requires KeyPath(store)
    requires DistinctKeys(order) && (forall k :: k in order <==> k in store)
    ensures !connected ==> r == store && sent == []
    ensures r.Keys <= store.Keys && KeyPath(r)
    ensures forall k :: k in store && connected ==>
              var f := FateOf(store[k], inflight, now, k in throws);
              && (f in {Busy, Waiting} ==> k in r && r[k] == store[k])
              && (f in {Expired, Sent} ==> k !in r)
              && (f == Failed ==> k in r && r[k] == Retried(store[k], at))
    ensures forall p :: p in sent ==>
              exists k :: k in store && store[k].payload == p && FateOf(store[k], inflight, now, k in throws) == Sent
    ensures connected ==> sent == SentIn(store, order, inflight, now, throws)
    ensures forall k :: connected && k in store && FateOf(store[k], inflight, now, k in throws) == Sent ==>
              store[k].payload in sent
    ensures |sent| <= |order|
  {
    if !connected {
      return store, [];
    }
    r, sent := Pass(store, order, inflight, now, throws, at);
    forall k | k in store
      ensures Settled(store, r, k, inflight, now, throws, at)
    {
      var j :| 0 <= j < |order| && order[j] == k;
    }
    forall k | k in store && FateOf(store[k], inflight, now, k in throws) == Sent
      ensures store[k].payload in sent
    {
      SentInHas(store, order, inflight, now, throws, k);
    }
    forall p | p in sent
      ensures exists k :: k in store && store[k].payload == p && FateOf(store[k], inflight, now, k in throws) == Sent
    {
      SentInFrom(store, order, inflight, now, throws, p);
    }
  }

  /** An entry that keeps failing is sent at most five times: each failure
      adds one retry, and at five it is dropped unsent. */
  lemma FailuresExpire(e: Entry, inflight: set<Json>, now: int, at: int, throws: bool)
    requires e.key !in inflight
    ensures e.retryCount >= MaxRetries - 1 ==>
              FateOf(Retried(e, at), inflight, now, throws) == Expired
    ensures FateOf(e, inflight, now, throws) == Failed ==>
              Retried(e, at).retryCount == e.retryCount + 1 <= MaxRetries
  {
  }
}
