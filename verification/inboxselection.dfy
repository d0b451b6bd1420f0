/** Selecting chats in the inbox (`useInboxSelection`): the selection is a
    set of keys, `c_<hub id>` for a community and `p_<conversation id>` for
    a private chat, and the header's meta (kind, delete, mark label) is
    derived from the items those keys name. */
module InboxSelection {

  import opened Wrappers

  datatype InboxItem =
    | Community(hubId: string, hubUnread: Option<int>)
    | Private(conversationId: string, chatUnread: Option<int>)

  datatype SelectionKind = GroupOnly | PrivateOnly | Mixed

  /** `keyOf(item)`. */
  function KeyOf(item: InboxItem): (k: string)
    ensures |k| >= 2 && k[1] == '_'
    ensures item.Community? <==> k[0] == 'c'
  {
    match item
    case Community(id, _) => "c_" + id
    case Private(id, _) => "p_" + id
  }

  /** Keys name items uniquely: the prefix tells the kind apart. */
  lemma KeysIdentify(a: InboxItem, b: InboxItem)
    requires KeyOf(a) == KeyOf(b)
    ensures a.Community? == b.Community?
    ensures a.Community? ==> a.hubId == b.hubId
    ensures a.Private? ==> a.conversationId == b.conversationId
  {
    if a.Community? && b.Community? {
      assert a.hubId == KeyOf(a)[2..];
      assert b.hubId == KeyOf(b)[2..];
    } else if a.Private? && b.Private? {
      assert a.conversationId == KeyOf(a)[2..];
      assert b.conversationId == KeyOf(b)[2..];
    }
  }

  /** `start(key)`. */
  function Start(key: string): (s: set<string>)
    ensures key in s && |s| == 1
  {
    {key}
  }

  /** `toggle(key)`: flips `key` and nothing else. */
  function Toggle(s: set<string>, key: string): (r: set<string>)
    ensures key in r <==> key !in s
    ensures forall k :: k != key ==> (k in r <==> k in s)
  {
    if key in s then s - {key} else s + {key}
  }

  /** Toggling twice is no change. */
  lemma ToggleTwice(s: set<string>, key: string)
    ensures Toggle(Toggle(s, key), key) == s
  {
  }

  /** `selectAll()`: the keys of every listed item. */
  function SelectAll(items: seq<InboxItem>): (s: set<string>)
    ensures forall k :: k in s <==> exists i :: 0 <= i < |items| && KeyOf(items[i]) == k
  {
    set i | 0 <= i < |items| :: KeyOf(items[i])
  }

  /** `new Map(items.map((i) => [keyOf(i), i])).get(key)`: a later item with
      the same key replaces an earlier one. */
  function Lookup(items: seq<InboxItem>, key: string): (r: Option<InboxItem>)
    ensures r.None? <==> forall i :: 0 <= i < |items| ==> KeyOf(items[i]) != key
    ensures r.Some? ==> r.value in items && KeyOf(r.value) == key
    decreases |items|
  {
    if items == [] then None
    else
      var later := Lookup(items[1..], key);
      if later.Some? then later
      else if KeyOf(items[0]) == key then Some(items[0])
      else None
  }

  /** `selectedItems` holds `it`: a selected key names it. */
  predicate Selected(items: seq<InboxItem>, keys: set<string>, it: InboxItem) {
    exists k :: k in keys && Lookup(items, k) == Some(it)
  }

  predicate HasGroup(items: seq<InboxItem>, keys: set<string>) {
    exists k :: k in keys && Lookup(items, k).Some? && Lookup(items, k).value.Community?
  }

  predicate HasPrivate(items: seq<InboxItem>, keys: set<string>) {
    exists k :: k in keys && Lookup(items, k).Some? && Lookup(items, k).value.Private?
  }

  /** `kind`. */
  function Kind(items: seq<InboxItem>, keys: set<string>): (r: SelectionKind)
    ensures r == GroupOnly <==> HasGroup(items, keys) && !HasPrivate(items, keys)
    ensures r == PrivateOnly <==> HasPrivate(items, keys) && !HasGroup(items, keys)
    ensures keys == {} ==> r == Mixed
  {
    var g := HasGroup(items, keys);
    var p := HasPrivate(items, keys);
    if g && p then Mixed else if g then GroupOnly else if p then PrivateOnly else Mixed
  }

  /** `canDelete`: only private chats can be deleted in bulk. */
  function CanDelete(items: seq<InboxItem>, keys: set<string>): (ok: bool)
    ensures ok <==> Kind(items, keys) == PrivateOnly
  {
    Kind(items, keys) == PrivateOnly
  }

  /** Bulk delete is offered exactly when some selected item is a private
      chat and none is a community. */
  lemma CanDeleteMeans(items: seq<InboxItem>, keys: set<string>)
    ensures CanDelete(items, keys) <==>
              (exists it :: Selected(items, keys, it) && it.Private?)
              && !(exists it :: Selected(items, keys, it) && it.Community?)
  {
    if CanDelete(items, keys) {
      var k :| k in keys && Lookup(items, k).Some? && Lookup(items, k).value.Private?;
      assert Selected(items, keys, Lookup(items, k).value);
    }
    if exists it :: Selected(items, keys, it) && it.Private? {
      var it :| Selected(items, keys, it) && it.Private?;
      var k :| k in keys && Lookup(items, k) == Some(it);
      assert HasPrivate(items, keys);
    }
    if HasGroup(items, keys) {
      var k :| k in keys && Lookup(items, k).Some? && Lookup(items, k).value.Community?;
      assert Selected(items, keys, Lookup(items, k).value);
    }
  }

  /** `(unread_count ?? 0) > 0` for either kind. */
  predicate Unread(it: InboxItem) {
    match it
    case Community(_, u) => u.GetOr(0) > 0
    case Private(_, u) => u.GetOr(0) > 0
  }

  /** `markLabel`. */
  function MarkLabel(items: seq<InboxItem>, keys: set<string>): (text: string)
    ensures text == "Mark as read" <==> exists it :: Selected(items, keys, it) && Unread(it)
    ensures text == "Mark as read" || text == "Mark as unread"
  {
    if exists k :: k in keys && Lookup(items, k).Some? && Unread(Lookup(items, k).value) then "Mark as read"
    else "Mark as unread"
  }

  /** The id a chat action names an item by: the hub id of a community,
      the conversation id of a private chat. */
  function ChatId(it: InboxItem): (id: string)
    ensures it.Community? ==> id == it.hubId
    ensures it.Private? ==> id == it.conversationId
  {
    match it
    case Community(id, _) => id
    case Private(id, _) => id
  }

  /** `selectedChatIds`: the ids of the items the keys name, taking the keys
      in `order` (the set's iteration order) and skipping keys that name no
      listed item. */
  function SelectedIds(items: seq<InboxItem>, order: seq<string>): (ids: seq<string>)
    ensures |ids| <= |order|
  {
    if order == [] then []
    else
      var rest := SelectedIds(items, order[1..]);
      match Lookup(items, order[0])
      case Some(it) => [ChatId(it)] + rest
      case None => rest
  }

  /** A key of `order` naming a listed item. */
  predicate Names(items: seq<InboxItem>, order: seq<string>, x: string) {
    exists k :: k in order && Lookup(items, k).Some? && x == ChatId(Lookup(items, k).value)
  }

  /** An id is listed iff some key of `order` names an item with that id. */
  lemma {:induction false} SelectedIdsHas(items: seq<InboxItem>, order: seq<string>, x: string)
    ensures x in SelectedIds(items, order) <==> Names(items, order, x)
  {
    if order != [] {
      SelectedIdsHas(items, order[1..], x);
      if Names(items, order, x) {
        var k :| k in order && Lookup(items, k).Some? && x == ChatId(Lookup(items, k).value);
        if k != order[0] {
          assert k in order[1..];
          assert Names(items, order[1..], x);
        }
      }
      if Names(items, order[1..], x) {
        var k :| k in order[1..] && Lookup(items, k).Some? && x == ChatId(Lookup(items, k).value);
        assert k in order;
      }
    }
  }

  /** The ids sent are exactly those of the selected items. */
  lemma SelectedIdsMeans(items: seq<InboxItem>, keys: set<string>, order: seq<string>)
    requires forall k :: k in order <==> k in keys
    ensures forall x :: x in SelectedIds(items, order) <==> exists it :: Selected(items, keys, it) && x == ChatId(it)
  {
    forall x | x in SelectedIds(items, order)
      ensures exists it :: Selected(items, keys, it) && x == ChatId(it)
    {
      SelectedIdsHas(items, order, x);
      var k :| k in order && Lookup(items, k).Some? && x == ChatId(Lookup(items, k).value);
      assert Selected(items, keys, Lookup(items, k).value);
    }
    forall x | exists it :: Selected(items, keys, it) && x == ChatId(it)
      ensures x in SelectedIds(items, order)
    {
      var it :| Selected(items, keys, it) && x == ChatId(it);
      var k :| k in keys && Lookup(items, k) == Some(it);
      assert k in order;
      assert Names(items, order, x);
      SelectedIdsHas(items, order, x);
    }
  }

  /** The header's bulk actions. */
  datatype Action = Pin | Mute | Archive | Mark | Delete

  /** The call an action makes: the selected chats' ids and, for `onMark`,
      whether they are to be marked read. */
  datatype Request = Request(action: Action, ids: seq<string>, markRead: bool)

  /** `onPin`, `onMute`, `onArchive`, `onMark` and `onDelete`: the request
      sent and the selection after it. `order` lists the selected keys in
      the set's iteration order; `fails` is whether the awaited request
      rejects, in which case `clear()` is never reached. */
  function OnAction(items: seq<InboxItem>, keys: set<string>, order: seq<string>, action: Action, fails: bool)
    : (r: (set<string>, Option<Request>))
    requires forall k :: k in order <==> k in keys
    ensures r.1.Some? <==> action != Delete || CanDelete(items, keys)
    ensures r.1.None? ==> r.0 == keys
    ensures r.1.Some? ==> r.1.value.action == action
    ensures r.1.Some? ==> forall x :: x in r.1.value.ids <==> exists it :: Selected(items, keys, it) && x == ChatId(it)
    ensures r.1.Some? ==> r.0 == if fails then keys else {}
    ensures r.1.Some? && action == Mark ==> (r.1.value.markRead <==> MarkLabel(items, keys) == "Mark as read")
  {
    if action == Delete && !CanDelete(items, keys) then (keys, None)
    else
      var anyUnread := exists k :: k in keys && Lookup(items, k).Some? && Unread(Lookup(items, k).value);
      SelectedIdsMeans(items, keys, order);
      (if fails then keys else {}, Some(Request(action, SelectedIds(items, order), anyUnread)))
  }

  /** A selection holding a community chat never reaches the delete call,
      while every other action always goes through and, once its request
      succeeds, ends the selection. */
  lemma DeleteSparesCommunities(items: seq<InboxItem>, keys: set<string>, order: seq<string>, it: InboxItem,
                                action: Action, fails: bool)
    requires Selected(items, keys, it) && it.Community?
    requires forall k :: k in order <==> k in keys
    ensures OnAction(items, keys, order, Delete, fails) == (keys, None)
    ensures action != Delete ==> OnAction(items, keys, order, action, false).0 == {}
    ensures action != Delete ==> OnAction(items, keys, order, action, fails).1.Some?
  {
    CanDeleteMeans(items, keys);
  }

  /** Selecting everything in a list of private chats only allows bulk delete. */
  lemma AllPrivateCanDelete(items: seq<InboxItem>)
    requires |items| > 0 && forall i :: 0 <= i < |items| ==> items[i].Private?
    ensures CanDelete(items, SelectAll(items))
  {
    var k := KeyOf(items[0]);
    assert k in SelectAll(items);
    assert Lookup(items, k).Some?;
    assert HasPrivate(items, SelectAll(items));
  }
}
