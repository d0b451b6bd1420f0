/** `NotificationProvider`: the toast list. `notify` appends and keeps the
    latest three; `remove` and an elapsed `duration` drop one id. The uuid
    and the timer are parameters and results. */
module Notifications {

  import opened Wrappers
  import Queries

  const MaxNotifications: nat := 3

  datatype Kind = Success | Error | Warning | Info | Loading

  datatype Notification = Notification(id: string, kind: Kind, title: Option<string>, message: string,
                                       duration: Option<real>)

  /** `s` is `t` with some elements deleted. */
  predicate Subsequence(s: seq<Notification>, t: seq<Notification>)
    decreases |t|
  {
    if t == [] then s == []
    else (s != [] && s[0] == t[0] && Subsequence(s[1..], t[1..])) || Subsequence(s, t[1..])
  }

  /** `next.slice(-MAX_NOTIFICATIONS)`. */
  function Latest(next: seq<Notification>): (r: seq<Notification>)
    ensures |r| == if |next| < MaxNotifications then |next| else MaxNotifications
    ensures r == next[|next| - |r|..]
  {
    if |next| <= MaxNotifications then next else next[|next| - MaxNotifications..]
  }

  /** `notify(n)` with `id` the fresh uuid: the new list and, when the
      duration is truthy, the timer that will remove it. */
  function Notify(items: seq<Notification>, kind: Kind, title: Option<string>, message: string,
                  duration: Option<real>, id: string): (r: (seq<Notification>, Option<(string, real)>))
    ensures |r.0| == if |items| < MaxNotifications then |items| + 1 else MaxNotifications
    ensures r.0[|r.0| - 1] == Notification(id, kind, title, message, duration)
    ensures r.0 == (items + [r.0[|r.0| - 1]])[|items| + 1 - |r.0|..]
    ensures |items| < MaxNotifications ==> r.0 == items + [r.0[|r.0| - 1]]
    ensures r.1.Some? <==> duration.Some? && duration.value != 0.0
    ensures r.1.Some? ==> r.1.value == (id, duration.value)
  {
    var n := Notification(id, kind, title, message, duration);
    (Latest(items + [n]), if duration.Some? && duration.value != 0.0 then Some((id, duration.value)) else None)
  }

  function Other(id: string): Notification -> bool {
    (x: Notification) => x.id != id
  }

  /** `remove(id)`, and what an elapsed timer does. */
  function Remove(items: seq<Notification>, id: string): (r: seq<Notification>)
    ensures forall x :: x in r <==> x in items && x.id != id
    ensures |r| <= |items|
  {
    Queries.Filter(items, Other(id))
  }

  lemma {:induction false} RemoveKeepsOrder(items: seq<Notification>, id: string)
    ensures Subsequence(Remove(items, id), items)
  {
    if items != [] {
      RemoveKeepsOrder(items[1..], id);
      if items[0].id != id {
        assert Remove(items, id) == [items[0]] + Remove(items[1..], id);
        assert ([items[0]] + Remove(items[1..], id))[1..] == Remove(items[1..], id);
      } else {
        assert Remove(items, id) == Remove(items[1..], id);
      }
    }
  }

  lemma {:induction false} RemoveAbsent(items: seq<Notification>, id: string)
    requires forall x :: x in items ==> x.id != id
    ensures Remove(items, id) == items
  {
    if items != [] {
      RemoveAbsent(items[1..], id);
    }
  }

  lemma {:induction false} RemoveAppend(a: seq<Notification>, b: seq<Notification>, id: string)
    ensures Remove(a + b, id) == Remove(a, id) + Remove(b, id)
  {
    if a == [] {
      assert a + b == b;
    } else {
      assert (a + b)[1..] == a[1..] + b;
      RemoveAppend(a[1..], b, id);
    }
  }

  /** Below the cap, dismissing a notification just shown gives back the
      list as it was. */
  lemma NotifyThenDismiss(items: seq<Notification>, kind: Kind, title: Option<string>, message: string,
                          duration: Option<real>, id: string)
    requires |items| < MaxNotifications
    requires forall x :: x in items ==> x.id != id
    ensures Remove(Notify(items, kind, title, message, duration, id).0, id) == items
  {
    var n := Notification(id, kind, title, message, duration);
    RemoveAppend(items, [n], id);
    RemoveAbsent(items, id);
    assert Remove([n], id) == [];
  }
}
