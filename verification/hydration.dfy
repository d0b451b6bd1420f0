/** Restoring a thread from the local cache (`useHydrationState`): merging
    cached messages into the current ones by key, and capping what is
    cached. The date parse of `createdAt` is the parameter `at`. */
module Hydration {

  import opened Wrappers
  import opened Json
  import opened ChatTypes
  import Queries

  const CacheCap: nat := 100

  /** `m.id || m.clientTempId`, with `None` when both are falsy. */
  function KeyOf(m: Message): (k: Option<Json>)
    ensures k.Some? ==> JsTruthy(k.value)
    ensures k.None? <==> !(m.id.Some? && JsTruthy(m.id.value)) && !(m.clientTempId.Some? && JsTruthy(m.clientTempId.value))
  {
    if m.id.Some? && JsTruthy(m.id.value) then m.id
    else if m.clientTempId.Some? && JsTruthy(m.clientTempId.value) then m.clientTempId
    else None
  }

  /** The `Map` built by `merge`: entries in first-insertion order. */
  type Entries = seq<(Json, Message)>

  predicate UniqueKeys(es: Entries) {
    forall i, j :: 0 <= i < j < |es| ==> es[i].0 != es[j].0
  }

  predicate HasKey(es: Entries, k: Json) {
    exists i :: 0 <= i < |es| && es[i].0 == k
  }

  lemma ConsKeys(e: (Json, Message), tail: Entries)
    ensures forall x :: HasKey([e] + tail, x) <==> x == e.0 || HasKey(tail, x)
  {
    var r := [e] + tail;
    forall x ensures HasKey(r, x) <==> x == e.0 || HasKey(tail, x) {
      if x == e.0 { assert r[0].0 == x; }
      if HasKey(r, x) && x != e.0 {
        var i :| 0 <= i < |r| && r[i].0 == x;
        assert tail[i - 1].0 == x;
      }
      if HasKey(tail, x) {
        var i :| 0 <= i < |tail| && tail[i].0 == x;
        assert r[i + 1].0 == x;
      }
    }
  }

  /** `map.set(key, existing ? { ...existing, ...m } : m)`. */
  function Put(es: Entries, k: Json, m: Message): (r: Entries)
    requires UniqueKeys(es)
    ensures |r| >= |es|
    ensures UniqueKeys(r)
    ensures HasKey(r, k) && forall x :: HasKey(r, x) <==> HasKey(es, x) || x == k
    ensures forall i :: 0 <= i < |es| && es[i].0 != k ==> r[i] == es[i]
    ensures forall i :: 0 <= i < |r| && r[i].0 == k ==> r[i].1 == Spread(r[i].1, m)
    decreases |es|
  {
    if es == [] then
      assert [(k, m)][0].0 == k;
      [(k, m)]
    else
      assert es == [es[0]] + es[1..];
      ConsKeys(es[0], es[1..]);
      if es[0].0 == k then
        SpreadLaws(es[0].1, m);
        assert forall i :: 1 <= i < |es| ==> es[i].0 != k;
        var r := [(k, Spread(es[0].1, m))] + es[1..];
        ConsKeys((k, Spread(es[0].1, m)), es[1..]);
        r
      else
        var tail := Put(es[1..], k, m);
        ConsKeys(es[0], tail);
        assert forall j :: 0 <= j < |tail| ==> tail[j].0 != es[0].0 by {
          forall j | 0 <= j < |tail| ensures tail[j].0 != es[0].0 {
            assert HasKey(tail, tail[j].0);
            if HasKey(es[1..], tail[j].0) {
              var i :| 0 <= i < |es[1..]| && es[1..][i].0 == tail[j].0;
              assert es[i + 1].0 == tail[j].0;
            }
          }
        }
        [es[0]] + tail
  }

  /** The entries after `forEach` over `ms`; keyless messages are skipped. */
  function Collect(ms: seq<Message>): (r: Entries)
    ensures UniqueKeys(r)
    ensures forall x :: HasKey(r, x) <==> exists i :: 0 <= i < |ms| && KeyOf(ms[i]) == Some(x)
    decreases |ms|
  {
    if ms == [] then []
    else
      var init := ms[..|ms| - 1];
      var m := ms[|ms| - 1];
      var before := Collect(init);
      assert forall i :: 0 <= i < |init| ==> init[i] == ms[i];
      match KeyOf(m)
      case None => before
      case Some(k) => Put(before, k, m)
  }

  /** For each key, the entry kept has every field the LAST message with that
      key carries: later (incoming) messages override earlier (current) ones. */
  lemma {:induction false} LaterWins(ms: seq<Message>, j: nat)
    requires j < |ms| && KeyOf(ms[j]).Some?
    requires forall l :: j < l < |ms| ==> KeyOf(ms[l]) != KeyOf(ms[j])
    ensures exists i :: 0 <= i < |Collect(ms)| && Collect(ms)[i].0 == KeyOf(ms[j]).value
                        && Collect(ms)[i].1 == Spread(Collect(ms)[i].1, ms[j])
    decreases |ms|
  {
    var k := KeyOf(ms[j]).value;
    var init := ms[..|ms| - 1];
    var r := Collect(ms);
    assert HasKey(r, k);
    if j == |ms| - 1 {
      var i :| 0 <= i < |r| && r[i].0 == k;
      assert r[i].1 == Spread(r[i].1, ms[j]);
    } else {
      assert forall l :: j < l < |init| ==> init[l] == ms[l];
      LaterWins(init, j);
      var before := Collect(init);
      var i :| 0 <= i < |before| && before[i].0 == k && before[i].1 == Spread(before[i].1, init[j]);
      assert KeyOf(ms[|ms| - 1]) != Some(k);
      assert r[i] == before[i];
    }
  }

  function Values(es: Entries): (r: seq<Message>)
    ensures |r| == |es| && forall i :: 0 <= i < |es| ==> r[i] == es[i].1
  {
    seq(|es|, i requires 0 <= i < |es| => es[i].1)
  }

  /** `merge(current, incoming)`: one message per key, ordered by
      `createdAt`. */
  function Merge(current: seq<Message>, incoming: seq<Message>, at: Message -> int): (r: seq<Message>)
    ensures Queries.Ascending(r, at)
    ensures multiset(r) == multiset(Values(Collect(current + incoming)))
    ensures |r| == |Collect(current + incoming)|
  {
    Queries.Sort(Values(Collect(current + incoming)), at)
  }

  /** The merged thread keeps one message for every key found among current
      and incoming messages, and drops the keyless ones. */
  lemma MergeKeys(current: seq<Message>, incoming: seq<Message>, k: Json)
    ensures HasKey(Collect(current + incoming), k) <==>
              (exists i :: 0 <= i < |current| && KeyOf(current[i]) == Some(k))
              || (exists i :: 0 <= i < |incoming| && KeyOf(incoming[i]) == Some(k))
  {
    var all := current + incoming;
    if exists i :: 0 <= i < |incoming| && KeyOf(incoming[i]) == Some(k) {
      var i :| 0 <= i < |incoming| && KeyOf(incoming[i]) == Some(k);
      assert all[|current| + i] == incoming[i];
    }
    if exists i :: 0 <= i < |current| && KeyOf(current[i]) == Some(k) {
      var i :| 0 <= i < |current| && KeyOf(current[i]) == Some(k);
      assert all[i] == current[i];
    }
    if HasKey(Collect(all), k) {
      var i :| 0 <= i < |all| && KeyOf(all[i]) == Some(k);
      if i >= |current| { assert all[i] == incoming[i - |current|]; }
    }
  }

  /** `msgs.slice(-100)`. */
  function CapCache(msgs: seq<Message>): (r: seq<Message>)
    ensures |r| <= CacheCap
    ensures |msgs| <= CacheCap ==> r == msgs
    ensures |msgs| > CacheCap ==> r == msgs[|msgs| - CacheCap..]
  {
    if |msgs| <= CacheCap then msgs else msgs[|msgs| - CacheCap..]
  }

  /** The cache by thread id, after `saveCache`. */
  function SaveCache(cache: map<string, seq<Message>>, threadId: string, msgs: seq<Message>)
    : (r: map<string, seq<Message>>)
    ensures threadId in r && r[threadId] == CapCache(msgs)
    ensures forall t :: t in cache && t != threadId ==> t in r && r[t] == cache[t]
  {
    cache[threadId := CapCache(msgs)]
  }

  /** `loadCache(threadId)`. */
  function LoadCache(cache: map<string, seq<Message>>, threadId: string): (r: seq<Message>)
    ensures threadId !in cache ==> r == []
  {
    if threadId in cache then cache[threadId] else []
  }

  /** What is saved is read back as the newest (at most) 100 messages. */
  lemma SaveThenLoad(cache: map<string, seq<Message>>, threadId: string, msgs: seq<Message>)
    ensures LoadCache(SaveCache(cache, threadId, msgs), threadId) == CapCache(msgs)
    ensures |msgs| > 0 ==> LoadCache(SaveCache(cache, threadId, msgs), threadId)[|CapCache(msgs)| - 1] == msgs[|msgs| - 1]
  {
  }
}
