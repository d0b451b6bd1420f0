/** The client side of the chat socket (`useWebSocketChat`): reconnect
    back-off, the bounded offline queue, flushing it in order, acknowledgement
    tracking and the typing flag. The socket, timers, `Math.random` and the
    generated ids are parameters. Times are milliseconds. */
module WsClient {

  import opened Wrappers
  import opened Json

  /** `clamp(n, min, max)`, that is `Math.max(min, Math.min(max, n))`. */
  function Clamp(n: real, lo: real, hi: real): (r: real)
    ensures r >= lo
    ensures lo <= hi ==> r <= hi
    ensures lo <= n <= hi ==> r == n
    ensures lo <= hi && n >= hi ==> r == hi
  {
    var m := if hi < n then hi else n;
    if lo > m then lo else m
  }

  /** `Math.pow(1.6, e)` for a whole exponent. */
  function Growth(e: nat): (p: real)
    ensures p >= 1.0
  {
    if e == 0 then 1.0 else 1.6 * Growth(e - 1)
  }

  /** `jitter(ms)`: `ms` moved by up to 20% either way; `rnd` is the value of
      `Math.random() * 2 - 1`, in [-1, 1). */
  function Jitter(ms: real, rnd: real): real {
    ms + rnd * (ms * 0.2)
  }

  /** The delay `scheduleReconnect` waits after its `tries`-th attempt
      (counted from 1, as the counter is raised first). */
  function ReconnectDelay(minMs: real, maxMs: real, tries: nat, rnd: real): (d: real)
    requires tries >= 1
    ensures d >= minMs
    ensures minMs <= maxMs ==> d <= maxMs
  {
    Clamp(Jitter(minMs * Growth(tries - 1), rnd), minMs, maxMs)
  }

  /** Once the un-jittered delay has passed `maxMs / 0.8`, every attempt waits
      exactly `maxMs`. */
  lemma DelaySaturates(minMs: real, maxMs: real, tries: nat, rnd: real)
    requires tries >= 1 && 0.0 <= minMs <= maxMs && -1.0 <= rnd < 1.0
    requires minMs * Growth(tries - 1) * 0.8 >= maxMs
    ensures ReconnectDelay(minMs, maxMs, tries, rnd) == maxMs
  {
    var b := minMs * Growth(tries - 1);
    assert b >= 0.0;
    var t := b * 0.2;
    assert (rnd + 1.0) * t >= 0.0;
    assert (rnd + 1.0) * t == rnd * t + t;
    assert Jitter(b, rnd) == b + rnd * t;
    assert Jitter(b, rnd) >= maxMs;
  }

  /** The un-jittered delay never shrinks from one attempt to the next. */
  lemma {:induction false} GrowthMonotone(i: nat, j: nat)
    requires i <= j
    ensures Growth(i) <= Growth(j)
  {
    if i < j {
      GrowthMonotone(i, j - 1);
    }
  }

  datatype WsEvent = WsEvent(kind: string, payload: Json)

  datatype PendingItem = PendingItem(id: Json, event: WsEvent, tries: nat)

  datatype Client = Client(
    open: bool,
    queue: seq<PendingItem>,
    awaiting: map<Json, PendingItem>,
    typingStarted: bool)

  /** The fields `{...(p || {})}` copies. A truthy string or array would copy
      its indices; payloads here are objects or absent. */
  function Spreadable(p: Json): (m: map<string, Json>)
    ensures p.JObj? ==> m == p.fields
  {
    if p.JObj? then p.fields else map[]
  }

  /** `(evt.payload?.clientId as string) || makeId("client")`. */
  function ClientIdOf(payload: Json, generated: string): (id: Json)
    ensures payload.JObj? && JsTruthy(Field(payload.fields, "clientId")) ==> id == Field(payload.fields, "clientId")
    ensures !(payload.JObj? && JsTruthy(Field(payload.fields, "clientId"))) ==> id == JStr(generated)
  {
    if payload.JObj? && JsTruthy(Field(payload.fields, "clientId")) then Field(payload.fields, "clientId")
    else JStr(generated)
  }

  /** The event with `clientId` written into its payload. */
  function Tagged(e: WsEvent, id: Json): (o: WsEvent)
    ensures o.kind == e.kind && o.payload.JObj?
    ensures Field(o.payload.fields, "clientId") == id
    ensures forall k :: k in Spreadable(e.payload) && k != "clientId" ==> Field(o.payload.fields, k) == Spreadable(e.payload)[k]
  {
    WsEvent(e.kind, JObj(Spreadable(e.payload)["clientId" := id]))
  }

  /** Push onto the offline queue, first dropping its head when it already
      holds `maxQueue` items. */
  function Enqueue(q: seq<PendingItem>, item: PendingItem, maxQueue: int): (r: seq<PendingItem>)
    ensures |q| >= maxQueue && q != [] ==> r == q[1..] + [item]
    ensures |q| < maxQueue || q == [] ==> r == q + [item]
  {
    (if |q| >= maxQueue && q != [] then q[1..] else q) + [item]
  }

  function Max(a: int, b: int): int { if a < b then b else a }

  /** The queue never grows beyond `max(maxQueue, 1)` items, nor beyond what
      it already held. */
  lemma EnqueueBounded(q: seq<PendingItem>, item: PendingItem, maxQueue: int)
    ensures |Enqueue(q, item, maxQueue)| <= Max(|q|, Max(maxQueue, 1))
    ensures |q| <= Max(maxQueue, 1) ==> |Enqueue(q, item, maxQueue)| <= Max(maxQueue, 1)
    ensures Enqueue(q, item, maxQueue)[|Enqueue(q, item, maxQueue)| - 1] == item
  {
  }

  datatype Sent = Sent(client: Client, clientId: Json, wire: seq<WsEvent>)

  /** `sendRaw(evt, {requireAck})`. `generated` is the id `makeId` would give
      and `sendThrows` whether `ws.send` throws. */
  function SendRaw(c: Client, e: WsEvent, requireAck: bool, generated: string, sendThrows: bool, maxQueue: int)
    : (r: Sent)
    ensures r.clientId == ClientIdOf(e.payload, generated)
    ensures r.wire == (if c.open && !sendThrows then [Tagged(e, r.clientId)] else [])
    ensures r.wire == [] ==>
              && r.client.queue == Enqueue(c.queue, PendingItem(r.clientId, Tagged(e, r.clientId), 0), maxQueue)
              && r.client.awaiting == c.awaiting
    ensures r.wire != [] ==>
              && r.client.queue == c.queue
              && (requireAck || e.kind == "message:send" ==>
                    r.client.awaiting == c.awaiting[r.clientId := PendingItem(r.clientId, r.wire[0], 1)])
              && (!requireAck && e.kind != "message:send" ==> r.client.awaiting == c.awaiting)
    ensures r.client.open == c.open && r.client.typingStarted == c.typingStarted
  {
    var id := ClientIdOf(e.payload, generated);
    var out := Tagged(e, id);
    if !c.open || sendThrows then
      Sent(c.(queue := Enqueue(c.queue, PendingItem(id, out, 0), maxQueue)), id, [])
    else if requireAck || e.kind == "message:send" then
      Sent(c.(awaiting := c.awaiting[id := PendingItem(id, out, 1)]), id, [out])
    else Sent(c, id, [out])
  }

  /** What a flushed item goes out as. */
  function Outgoing(item: PendingItem): WsEvent {
    Tagged(item.event, item.id)
  }

  /** The acknowledgement table after `items` went out one by one. */
  function TrackAll(awaiting: map<Json, PendingItem>, items: seq<PendingItem>): map<Json, PendingItem>
  {
    if items == [] then awaiting
    else
      var before := TrackAll(awaiting, items[..|items| - 1]);
      var item := items[|items| - 1];
      if Outgoing(item).kind == "message:send" then before[item.id := item.(tries := item.tries + 1)]
      else before
  }

  /** `flushQueue()`: while the socket is open, send the head of the queue;
      `ws.send` throws for the item at position `failAt` (no item when
      `failAt >= |queue|`), which then stays at the head and stops the flush. */
  method Flush(c: Client, failAt: nat) returns (r: Client, wire: seq<WsEvent>)
    ensures !c.open ==> r == c && wire == []
    ensures c.open ==>
              var k := if failAt < |c.queue| then failAt else |c.queue|;
              && |wire| == k
              && (forall i :: 0 <= i < k ==> wire[i] == Outgoing(c.queue[i]))
              && r.queue == c.queue[k..]
              && r.awaiting == TrackAll(c.awaiting, c.queue[..k])
    ensures r.open == c.open && r.typingStarted == c.typingStarted
  {
    if !c.open {
      return c, [];
    }
    var q := c.queue;
    var awaiting := c.awaiting;
    var n := 0;
    wire := [];
    while q != []
      invariant 0 <= n <= |c.queue| && n <= failAt
      invariant q == c.queue[n..]
      invariant |wire| == n && forall i :: 0 <= i < n ==> wire[i] == Outgoing(c.queue[i])
      invariant awaiting == TrackAll(c.awaiting, c.queue[..n])
      decreases |q|
    {
      var item := q[0];
      if n == failAt {
        break;
      }
      wire := wire + [Outgoing(item)];
      assert c.queue[..n + 1][..n] == c.queue[..n];
      if Outgoing(item).kind == "message:send" {
        awaiting := awaiting[item.id := item.(tries := item.tries + 1)];
      }
      q := q[1..];
      n := n + 1;
    }
    r := c.(queue := q, awaiting := awaiting);
  }

  /** The socket's `onmessage` for a parsed frame: an acknowledgement
      (`message:delivered` naming a `clientId`, or else a `tempId`) ends the
      wait for that id; a `pong` stops there; everything else is handed on.
      A `null` frame makes `data.type` throw, and the frame is dropped. */
  function OnMessage(c: Client, data: Json): (r: (Client, Option<Json>))
    ensures r.0.queue == c.queue && r.0.open == c.open && r.0.typingStarted == c.typingStarted
    ensures r.0.awaiting.Keys <= c.awaiting.Keys
    ensures forall k :: k in r.0.awaiting ==> r.0.awaiting[k] == c.awaiting[k]
    ensures data.JNull? ==> r.1.None? && r.0 == c
    ensures !data.JNull? ==> (r.1.None? <==> data.JObj? && Field(data.fields, "type") == JStr("pong"))
    ensures r.1.Some? ==> r.1.value == data
  {
    if data.JNull? then (c, None)
    else
      var kind := if data.JObj? then Field(data.fields, "type") else JNull;
      var c2 :=
        if kind == JStr("message:delivered") then
          var p := Field(data.fields, "payload");
          var byClient := if p.JObj? then Field(p.fields, "clientId") else JNull;
          var byTemp := if p.JObj? then Field(p.fields, "tempId") else JNull;
          var id := if JsTruthy(byClient) then byClient else byTemp;
          if JsTruthy(id) && id in c.awaiting then c.(awaiting := c.awaiting - {id}) else c
        else c;
      if kind == JStr("pong") then (c2, None) else (c2, Some(data))
  }

  /** A `message:send` that went out is waited for, and the server's
      `message:delivered` naming its id (as `clientId` or as `tempId`) ends
      the wait. */
  lemma SendThenAcknowledge(c: Client, e: WsEvent, generated: string, maxQueue: int, byTemp: bool)
    requires c.open && e.kind == "message:send" && generated != ""
    ensures var s := SendRaw(c, e, true, generated, false, maxQueue);
      var ackPayload := if byTemp then JObj(map["tempId" := s.clientId]) else JObj(map["clientId" := s.clientId]);
      var ack := JObj(map["type" := JStr("message:delivered"), "payload" := ackPayload]);
      && s.clientId in s.client.awaiting
      && s.clientId !in OnMessage(s.client, ack).0.awaiting
      && OnMessage(s.client, ack).1 == Some(ack)
  {
  }

  /** `typing()`: the events it hands to `sendRaw`; `typing:start` only when
      the flag is down. */
  function Typing(c: Client): (r: (Client, seq<WsEvent>))
    ensures r.0.typingStarted
    ensures r.1 == (if c.typingStarted then [] else [WsEvent("typing:start", JObj(map[]))])
    ensures r.0 == c.(typingStarted := true)
  {
    if c.typingStarted then (c, [])
    else (c.(typingStarted := true), [WsEvent("typing:start", JObj(map[]))])
  }

  /** `typingStop()`, and equally the 800 ms timer `typing()` arms: send
      `typing:stop` and lower the flag. */
  function TypingStop(c: Client): (r: (Client, seq<WsEvent>))
    ensures !r.0.typingStarted && r.0 == c.(typingStarted := false)
    ensures r.1 == [WsEvent("typing:stop", JObj(map[]))]
  {
    (c.(typingStarted := false), [WsEvent("typing:stop", JObj(map[]))])
  }

  /** Between two stops, `typing:start` goes out at most once, however many
      keystrokes call `typing()`; after a stop it goes out again. */
  lemma {:induction false} TypingStartsOnce(c: Client, keystrokes: nat)
    requires keystrokes >= 1
    ensures Starts(c, keystrokes) == (if c.typingStarted then 0 else 1)
    ensures Starts(TypingStop(c).0, keystrokes) == 1
    decreases keystrokes
  {
    if keystrokes > 1 {
      TypingStartsOnce(Typing(c).0, keystrokes - 1);
      TypingStartsOnce(Typing(TypingStop(c).0).0, keystrokes - 1);
    }
  }

  /** The number of `typing:start` events `n` successive `typing()` calls send. */
  function Starts(c: Client, n: nat): nat
    decreases n
  {
    if n == 0 then 0 else |Typing(c).1| + Starts(Typing(c).0, n - 1)
  }
}
