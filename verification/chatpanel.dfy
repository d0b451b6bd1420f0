/** The pure helpers of the community `ChatPanel`: the edit and delete
    windows, the recent-emoji list, range selection, and the per-emoji
    counters that both the `reaction:update` event and the optimistic
    reaction step adjust. */
module ChatPanel {

  import opened Wrappers
  import opened Json
  import opened ChatTypes

  const MinuteMs: int := 60 * 1000
  const EditWindowMs: int := 20 * MinuteMs
  const DeleteWindowMs: int := 60 * MinuteMs
  const MaxRecentEmojis: nat := 5

  /** `new Date(msg.createdAt).getTime()` is `createdMs`, with `None` for the
      `NaN` of an unreadable date; `now` is `Date.now()`. */
  predicate WithinMs(createdMs: Option<int>, now: int, window: int) {
    createdMs.Some? && now - createdMs.value <= window
  }

  predicate Alive(msg: Message) {
    !(msg.deletedAt.Some? && JsTruthy(msg.deletedAt.value))
  }

  /** `canEdit(msg)`. */
  function CanEdit(msg: Message, createdMs: Option<int>, now: int): (ok: bool)
    ensures ok <==> msg.isMine == Some(true) && Alive(msg) && msg.messageType == Some(JStr("TEXT"))
                    && WithinMs(createdMs, now, EditWindowMs)
  {
    if msg.isMine != Some(true) then false
    else if !Alive(msg) then false
    else if msg.messageType != Some(JStr("TEXT")) then false
    else WithinMs(createdMs, now, EditWindowMs)
  }

  /** `canDeleteForEveryone(msg)`. */
  function CanDeleteForEveryone(msg: Message, createdMs: Option<int>, now: int): (ok: bool)
    ensures ok <==> msg.isMine == Some(true) && Alive(msg) && WithinMs(createdMs, now, DeleteWindowMs)
  {
    if msg.isMine != Some(true) then false
    else if !Alive(msg) then false
    else WithinMs(createdMs, now, DeleteWindowMs)
  }

  /** A message that may still be edited may still be deleted for everyone,
      and once a window has closed it stays closed. */
  lemma WindowsNest(msg: Message, createdMs: Option<int>, now: int, later: int)
    requires now <= later
    ensures CanEdit(msg, createdMs, now) ==> CanDeleteForEveryone(msg, createdMs, now)
    ensures !CanEdit(msg, createdMs, now) ==> !CanEdit(msg, createdMs, later)
    ensures !CanDeleteForEveryone(msg, createdMs, now) ==> !CanDeleteForEveryone(msg, createdMs, later)
  {
  }

  /** `getRecentEmojis()` from the stored value, parsed: `None` when it is
      missing or does not parse; only the string items of an array survive. */
  function RecentFrom(parsed: Option<Json>): (r: seq<string>)
    ensures parsed.None? || !parsed.value.JArr? ==> r == []
    ensures parsed.Some? && parsed.value.JArr? ==>
              forall e :: e in r <==> JStr(e) in parsed.value.items
  {
    if parsed.None? || !parsed.value.JArr? then [] else Strings(parsed.value.items)
  }

  function Strings(items: seq<Json>): (r: seq<string>)
    ensures forall e :: e in r <==> JStr(e) in items
    ensures |r| <= |items|
  {
    if items == [] then []
    else (if items[0].JStr? then [items[0].s] else []) + Strings(items[1..])
  }

  /** The stored form `JSON.stringify(list)`. */
  function Stored(list: seq<string>): (j: Json)
    ensures j.JArr? && |j.items| == |list|
    ensures forall i :: 0 <= i < |list| ==> j.items[i] == JStr(list[i])
  {
    JArr(seq(|list|, i requires 0 <= i < |list| => JStr(list[i])))
  }

  lemma {:induction false} StringsOfStored(list: seq<string>)
    ensures Strings(Stored(list).items) == list
  {
    if list != [] {
      assert Stored(list).items[1..] == Stored(list[1..]).items;
      StringsOfStored(list[1..]);
    }
  }

  /** `saveRecentEmoji(emoji)` on the list read before. */
  function SaveRecent(prev: seq<string>, emoji: string): (next: seq<string>)
    ensures |next| == (if 1 + |Without(prev, emoji)| <= MaxRecentEmojis then 1 + |Without(prev, emoji)| else MaxRecentEmojis)
    ensures next == ([emoji] + Without(prev, emoji))[..|next|]
    ensures next[0] == emoji && forall i :: 1 <= i < |next| ==> next[i] != emoji
    ensures forall e :: e in next ==> e == emoji || e in prev
  {
    var all := [emoji] + Without(prev, emoji);
    var next := if |all| <= MaxRecentEmojis then all else all[..MaxRecentEmojis];
    assert forall i :: 1 <= i < |next| ==> next[i] == Without(prev, emoji)[i - 1] && next[i] in Without(prev, emoji);
    next
  }

  /** What `saveRecentEmoji` writes reads back unchanged; recent emojis stay
      distinct once they are. */
  lemma SaveThenLoad(prev: seq<string>, emoji: string)
    requires Distinct(prev)
    ensures RecentFrom(Some(Stored(SaveRecent(prev, emoji)))) == SaveRecent(prev, emoji)
    ensures Distinct(SaveRecent(prev, emoji))
  {
    StringsOfStored(SaveRecent(prev, emoji));
    WithoutDistinct(prev, emoji);
    var all := [emoji] + Without(prev, emoji);
    assert Distinct(all);
  }

  /** `selectableMessages`: neither SYSTEM nor deleted. */
  function Selectable(messages: seq<Message>): (r: seq<Message>)
    ensures forall m :: m in r <==> m in messages && m.messageType != Some(JStr("SYSTEM")) && Alive(m)
    ensures |r| <= |messages|
  {
    if messages == [] then []
    else (if messages[0].messageType != Some(JStr("SYSTEM")) && Alive(messages[0]) then [messages[0]] else [])
         + Selectable(messages[1..])
  }

  function Ids(messages: seq<Message>): (r: seq<Option<Json>>)
    ensures |r| == |messages| && forall i :: 0 <= i < |messages| ==> r[i] == messages[i].id
  {
    seq(|messages|, i requires 0 <= i < |messages| => messages[i].id)
  }

  /** `indexOf`. */
  function IndexOf(ids: seq<Option<Json>>, id: Option<Json>): (i: int)
    ensures -1 <= i < |ids|
    ensures i == -1 <==> id !in ids
    ensures i >= 0 ==> ids[i] == id && id !in ids[..i]
  {
    if ids == [] then -1
    else if ids[0] == id then 0
    else var j := IndexOf(ids[1..], id); if j == -1 then -1 else j + 1
  }

  /** `selectRange(fromId, toId)`: the selection grown by every selectable id
      between the two, in either order; an unknown id leaves it unchanged. */
  function SelectRange(selected: seq<Option<Json>>, ids: seq<Option<Json>>, fromId: Option<Json>, toId: Option<Json>)
    : (r: seq<Option<Json>>)
    ensures fromId !in ids || toId !in ids ==> r == selected
    ensures fromId in ids && toId in ids ==>
              && Unique(r)
              && forall x :: x in r <==> x in selected || x in Between(ids, IndexOf(ids, fromId), IndexOf(ids, toId))
  {
    var a := IndexOf(ids, fromId);
    var b := IndexOf(ids, toId);
    if a == -1 || b == -1 then selected
    else Dedup(selected + Between(ids, a, b))
  }

  /** `ids.slice(min(a, b), max(a, b) + 1)`. */
  function Between(ids: seq<Option<Json>>, a: nat, b: nat): (r: seq<Option<Json>>)
    requires a < |ids| && b < |ids|
    ensures ids[a] in r && ids[b] in r
    ensures forall x :: x in r ==> x in ids
  {
    if a <= b then ids[a..b + 1] else ids[b..a + 1]
  }

  /** Selecting from either end gives the same selection. */
  lemma RangeEitherWay(selected: seq<Option<Json>>, ids: seq<Option<Json>>, x: Option<Json>, y: Option<Json>)
    ensures SelectRange(selected, ids, x, y) == SelectRange(selected, ids, y, x)
  {
  }

  /** A reaction as `ChatPanel` keeps it: an emoji and a count (`None` is
      `NaN`, which arithmetic keeps and no comparison admits). */
  datatype Counted = Counted(emoji: string, count: Option<int>)

  /** `reactions.findIndex((r) => r.emoji === emoji)`. */
  function FindEmoji(rs: seq<Counted>, emoji: string): (i: int)
    ensures -1 <= i < |rs|
    ensures i == -1 <==> forall k :: 0 <= k < |rs| ==> rs[k].emoji != emoji
    ensures i >= 0 ==> rs[i].emoji == emoji && forall k :: 0 <= k < i ==> rs[k].emoji != emoji
  {
    if rs == [] then -1
    else if rs[0].emoji == emoji then 0
    else var j := FindEmoji(rs[1..], emoji); if j == -1 then -1 else j + 1
  }

  /** `reactions.splice(idx, 1)`. */
  function RemoveAt(rs: seq<Counted>, idx: nat): (r: seq<Counted>)
    requires idx < |rs|
    ensures |r| == |rs| - 1
    ensures forall k :: 0 <= k < idx ==> r[k] == rs[k]
    ensures forall k :: idx <= k < |r| ==> r[k] == rs[k + 1]
  {
    rs[..idx] + rs[idx + 1..]
  }

  /** The `reaction:update` reducer on one message's reactions: "added"
      counts the emoji up (listing it with 1 when new), any other action
      counts it down and unlists it at zero. */
  function ApplyUpdate(rs: seq<Counted>, emoji: string, action: string): (r: seq<Counted>)
    ensures var idx := FindEmoji(rs, emoji);
      && (idx == -1 && action == "added" ==> r == rs + [Counted(emoji, Some(1))])
      && (idx == -1 && action != "added" ==> r == rs)
      && (idx >= 0 && rs[idx].count.None? ==> r == rs)
      && (idx >= 0 && rs[idx].count.Some? ==>
            var n := rs[idx].count.value + (if action == "added" then 1 else -1);
            && (n > 0 ==> r == rs[idx := Counted(emoji, Some(n))])
            && (n <= 0 ==> r == RemoveAt(rs, idx)))
  {
    var idx := FindEmoji(rs, emoji);
    if idx == -1 then
      if action == "added" then rs + [Counted(emoji, Some(1))] else rs
    else
      var cur := rs[idx].count;
      var next := if cur.None? then None else if action == "added" then Some(cur.value + 1) else Some(cur.value - 1);
      if next.Some? && next.value <= 0 then RemoveAt(rs, idx)
      else rs[idx := rs[idx].(count := next)]
  }

  /** Every count is a positive number and no emoji is listed twice. */
  predicate WellCounted(rs: seq<Counted>) {
    && (forall i :: 0 <= i < |rs| ==> rs[i].count.Some? && rs[i].count.value >= 1)
    && (forall i, j :: 0 <= i < j < |rs| ==> rs[i].emoji != rs[j].emoji)
  }

  predicate Numeric(rs: seq<Counted>) {
    forall i :: 0 <= i < |rs| ==> rs[i].count.Some?
  }

  /** The sum of the counts. */
  function Total(rs: seq<Counted>): int
    requires Numeric(rs)
  {
    if rs == [] then 0 else rs[0].count.value + Total(rs[1..])
  }

  lemma {:induction false} TotalSplit(rs: seq<Counted>, k: nat)
    requires k <= |rs| && Numeric(rs)
    ensures Total(rs) == Total(rs[..k]) + Total(rs[k..])
  {
    if k > 0 {
      assert rs[..k][1..] == rs[1..][..k - 1];
      assert rs[k..] == rs[1..][k - 1..];
      TotalSplit(rs[1..], k - 1);
    }
  }

  lemma TotalOne(rs: seq<Counted>, k: nat)
    requires k < |rs| && Numeric(rs)
    ensures Total(rs) == Total(rs[..k]) + rs[k].count.value + Total(rs[k + 1..])
  {
    TotalSplit(rs, k);
    assert rs[k..][1..] == rs[k + 1..];
  }

  lemma TotalAppend(rs: seq<Counted>, x: Counted)
    requires Numeric(rs) && x.count.Some?
    ensures Total(rs + [x]) == Total(rs) + x.count.value
  {
    TotalSplit(rs + [x], |rs|);
    assert (rs + [x])[..|rs|] == rs;
    assert (rs + [x])[|rs|..] == [x];
  }

  lemma TotalSet(rs: seq<Counted>, k: nat, x: Counted)
    requires k < |rs| && Numeric(rs) && x.count.Some?
    ensures Total(rs[k := x]) == Total(rs) - rs[k].count.value + x.count.value
  {
    TotalOne(rs, k);
    TotalOne(rs[k := x], k);
    assert rs[k := x][..k] == rs[..k] && rs[k := x][k + 1..] == rs[k + 1..];
  }

  lemma TotalRemove(rs: seq<Counted>, k: nat)
    requires k < |rs| && Numeric(rs)
    ensures Total(RemoveAt(rs, k)) == Total(rs) - rs[k].count.value
  {
    TotalOne(rs, k);
    TotalSplit(RemoveAt(rs, k), k);
    assert RemoveAt(rs, k)[..k] == rs[..k] && RemoveAt(rs, k)[k..] == rs[k + 1..];
  }

  lemma WellCountedAppend(rs: seq<Counted>, emoji: string)
    requires WellCounted(rs) && FindEmoji(rs, emoji) == -1
    ensures WellCounted(rs + [Counted(emoji, Some(1))])
  {
    var r := rs + [Counted(emoji, Some(1))];
    assert forall i :: 0 <= i < |rs| ==> r[i] == rs[i];
  }

  lemma WellCountedSet(rs: seq<Counted>, idx: nat, n: int)
    requires WellCounted(rs) && idx < |rs| && n >= 1
    ensures WellCounted(rs[idx := Counted(rs[idx].emoji, Some(n))])
  {
    var r := rs[idx := Counted(rs[idx].emoji, Some(n))];
    assert forall i :: 0 <= i < |rs| ==> r[i].emoji == rs[i].emoji;
  }

  lemma WellCountedRemove(rs: seq<Counted>, idx: nat)
    requires WellCounted(rs) && idx < |rs|
    ensures WellCounted(RemoveAt(rs, idx))
  {
    var r := RemoveAt(rs, idx);
    forall i, j | 0 <= i < j < |r|
      ensures r[i].emoji != r[j].emoji
    {
      var i' := if i < idx then i else i + 1;
      var j' := if j < idx then j else j + 1;
      assert r[i] == rs[i'] && r[j] == rs[j'];
    }
  }

  /** An update keeps counts positive and emojis distinct. */
  lemma UpdateWellCounted(rs: seq<Counted>, emoji: string, action: string)
    requires WellCounted(rs)
    ensures WellCounted(ApplyUpdate(rs, emoji, action))
  {
    var idx := FindEmoji(rs, emoji);
    if idx == -1 {
      if action == "added" { WellCountedAppend(rs, emoji); }
    } else {
      var n := rs[idx].count.value + (if action == "added" then 1 else -1);
      if n > 0 { WellCountedSet(rs, idx, n); } else { WellCountedRemove(rs, idx); }
    }
  }

  /** "added" raises the total by one; any other action lowers it by one
      exactly when the emoji was listed. */
  lemma UpdateTotal(rs: seq<Counted>, emoji: string, action: string)
    requires WellCounted(rs)
    ensures WellCounted(ApplyUpdate(rs, emoji, action))
    ensures action == "added" ==> Total(ApplyUpdate(rs, emoji, action)) == Total(rs) + 1
    ensures action != "added" && FindEmoji(rs, emoji) >= 0 ==> Total(ApplyUpdate(rs, emoji, action)) == Total(rs) - 1
    ensures action != "added" && FindEmoji(rs, emoji) == -1 ==> Total(ApplyUpdate(rs, emoji, action)) == Total(rs)
  {
    UpdateWellCounted(rs, emoji, action);
    var idx := FindEmoji(rs, emoji);
    var r := ApplyUpdate(rs, emoji, action);
    if idx == -1 {
      if action == "added" {
        assert r == rs + [Counted(emoji, Some(1))];
        TotalAppend(rs, Counted(emoji, Some(1)));
      }
    } else if action == "added" {
      assert r == rs[idx := Counted(emoji, Some(rs[idx].count.value + 1))];
      TotalSet(rs, idx, Counted(emoji, Some(rs[idx].count.value + 1)));
    } else if rs[idx].count.value > 1 {
      assert r == rs[idx := Counted(emoji, Some(rs[idx].count.value - 1))];
      TotalSet(rs, idx, Counted(emoji, Some(rs[idx].count.value - 1)));
    } else {
      assert r == RemoveAt(rs, idx);
      TotalRemove(rs, idx);
    }
  }

  /** Replacing the entry an emoji is found at by one of the same emoji
      leaves it found there. */
  lemma FindAfterSet(rs: seq<Counted>, emoji: string, c: Counted)
    requires FindEmoji(rs, emoji) >= 0 && c.emoji == emoji
    ensures FindEmoji(rs[FindEmoji(rs, emoji) := c], emoji) == FindEmoji(rs, emoji)
  {
    var idx := FindEmoji(rs, emoji);
    var t := rs[idx := c];
    assert forall k :: 0 <= k < idx ==> t[k] == rs[k];
    assert t[idx].emoji == emoji;
  }

  /** An emoji not listed is found at the end once appended. */
  lemma FindAfterAppend(rs: seq<Counted>, emoji: string, c: Counted)
    requires FindEmoji(rs, emoji) == -1 && c.emoji == emoji
    ensures FindEmoji(rs + [c], emoji) == |rs|
  {
    var t := rs + [c];
    assert forall k :: 0 <= k < |rs| ==> t[k] == rs[k];
    assert t[|rs|].emoji == emoji;
  }

  /** An "added" followed by a "removed" for the same emoji puts the list
      back as it was. */
  lemma AddThenRemove(rs: seq<Counted>, emoji: string, action: string)
    requires WellCounted(rs) && action != "added"
    ensures ApplyUpdate(ApplyUpdate(rs, emoji, "added"), emoji, action) == rs
  {
    var idx := FindEmoji(rs, emoji);
    var once := ApplyUpdate(rs, emoji, "added");
    if idx == -1 {
      FindAfterAppend(rs, emoji, Counted(emoji, Some(1)));
      assert RemoveAt(once, |rs|) == rs;
    } else {
      var c := Counted(emoji, Some(rs[idx].count.value + 1));
      assert once == rs[idx := c];
      FindAfterSet(rs, emoji, c);
      assert once[idx := Counted(emoji, rs[idx].count)] == rs;
    }
  }

  /** `inc(e)` of `reactToMessage`: one more for a listed emoji (an absent
      count stays absent, as `undefined + 1` is `NaN`), a new entry of one
      otherwise; no entry is ever dropped. */
  function Inc(rs: seq<Counted>, emoji: string): (r: seq<Counted>)
    ensures FindEmoji(rs, emoji) == -1 ==> r == rs + [Counted(emoji, Some(1))]
    ensures var idx := FindEmoji(rs, emoji);
      idx >= 0 ==> r == rs[idx := rs[idx].(count := if rs[idx].count.None? then None else Some(rs[idx].count.value + 1))]
    ensures |r| >= |rs| && forall i :: 0 <= i < |rs| ==> r[i].emoji == rs[i].emoji
  {
    var idx := FindEmoji(rs, emoji);
    if idx == -1 then rs + [Counted(emoji, Some(1))]
    else rs[idx := rs[idx].(count := if rs[idx].count.None? then None else Some(rs[idx].count.value + 1))]
  }

  /** Where no count goes from below zero to zero, `inc` is the "added"
      update; the two differ only on a listed count of -1 or less, which
      `inc` raises and the update drops. */
  lemma IncIsAdded(rs: seq<Counted>, emoji: string)
    requires var idx := FindEmoji(rs, emoji); idx >= 0 && rs[idx].count.Some? ==> rs[idx].count.value >= 0
    ensures Inc(rs, emoji) == ApplyUpdate(rs, emoji, "added")
  {
  }

  /** On the list `[x: -1]` the update drops the entry and `inc` keeps it at zero. */
  lemma IncKeepsNegative()
    ensures Inc([Counted("x", Some(-1))], "x") == [Counted("x", Some(0))]
    ensures ApplyUpdate([Counted("x", Some(-1))], "x", "added") == []
  {
    assert FindEmoji([Counted("x", Some(-1))], "x") == 0;
  }

  /** The optimistic step of `reactToMessage`: `prior` is `m.myReaction || null`;
      the same emoji counts down (`dec`) and clears it, another one counts the
      prior one down (when it was an emoji) and the new one up (`inc`). */
  function OptimisticReact(rs: seq<Counted>, myReaction: Option<Json>, emoji: string): (r: (seq<Counted>, Json))
    ensures myReaction == Some(JStr(emoji)) && emoji != "" ==> r == (ApplyUpdate(rs, emoji, "removed"), JNull)
    ensures !(myReaction == Some(JStr(emoji)) && emoji != "") ==> r.1 == JStr(emoji)
    ensures (myReaction.Some? && myReaction.value.JStr? && myReaction.value.s != "" && myReaction.value.s != emoji) ==>
              r.0 == Inc(ApplyUpdate(rs, myReaction.value.s, "removed"), emoji)
    ensures Nullish(myReaction) ==> r == (Inc(rs, emoji), JStr(emoji))
  {
    var prior := if myReaction.Some? && JsTruthy(myReaction.value) then myReaction.value else JNull;
    if prior == JStr(emoji) then (ApplyUpdate(rs, emoji, "removed"), JNull)
    else
      var afterOld := if prior.JStr? then ApplyUpdate(rs, prior.s, "removed") else rs;
      (Inc(afterOld, emoji), JStr(emoji))
  }

  /** Reacting and then tapping the same emoji again, from no reaction,
      restores the counts and clears `myReaction`. */
  lemma ReactTwiceRestores(rs: seq<Counted>, myReaction: Option<Json>, emoji: string)
    requires WellCounted(rs) && Nullish(myReaction) && emoji != ""
    ensures var once := OptimisticReact(rs, myReaction, emoji);
      OptimisticReact(once.0, Some(once.1), emoji) == (rs, JNull)
  {
    IncIsAdded(rs, emoji);
    AddThenRemove(rs, emoji, "removed");
  }

  /** Switching from a listed emoji to another moves one unit of count from
      the one to the other: the total is unchanged. */
  lemma SwitchKeepsTotal(rs: seq<Counted>, before: string, emoji: string)
    requires WellCounted(rs) && before != "" && before != emoji && FindEmoji(rs, before) >= 0
    ensures var r := OptimisticReact(rs, Some(JStr(before)), emoji).0;
      WellCounted(r) && Total(r) == Total(rs)
  {
    UpdateTotal(rs, before, "removed");
    var mid := ApplyUpdate(rs, before, "removed");
    UpdateTotal(mid, emoji, "added");
    IncIsAdded(mid, emoji);
  }
}
