/** One reaction per user per message, applied optimistically on the client:
    `applyLocalReaction` (`useChatReactions`) and `toggleReactionLocal`
    (`useReactionUI`) compute the same step, and `reactToMessage` rolls it
    back when the request fails. */
module Reactions {

  import opened Wrappers
  import opened Json
  import opened ChatTypes

  /** Some reaction with emoji `e` lists user `u`. */
  predicate Lists(rs: seq<Reaction>, u: string, e: string) {
    exists i :: 0 <= i < |rs| && rs[i].emoji == e && u in rs[i].userIds
  }

  lemma ListsCons(x: Reaction, rs: seq<Reaction>, u: string, e: string)
    ensures Lists([x] + rs, u, e) <==> (x.emoji == e && u in x.userIds) || Lists(rs, u, e)
  {
    var xs := [x] + rs;
    if Lists(rs, u, e) {
      var i :| 0 <= i < |rs| && rs[i].emoji == e && u in rs[i].userIds;
      assert xs[i + 1] == rs[i];
    }
    if x.emoji == e && u in x.userIds {
      assert xs[0] == x;
    }
    if Lists(xs, u, e) {
      var i :| 0 <= i < |xs| && xs[i].emoji == e && u in xs[i].userIds;
      if i > 0 { assert rs[i - 1] == xs[i]; }
    }
  }

  /** Every reaction with `me` removed, and reactions left without users
      dropped; every other user keeps exactly the reactions they had. */
  function RemoveUser(rs: seq<Reaction>, me: string): (r: seq<Reaction>)
    ensures |r| <= |rs|
    ensures forall i :: 0 <= i < |r| ==> me !in r[i].userIds && |r[i].userIds| > 0
    ensures forall i :: 0 <= i < |r| ==> exists j :: 0 <= j < |rs| && r[i].emoji == rs[j].emoji
    ensures forall u, e :: u != me ==> (Lists(r, u, e) <==> Lists(rs, u, e))
  {
    if rs == [] then []
    else
      var ids := Without(rs[0].userIds, me);
      var tail := RemoveUser(rs[1..], me);
      assert rs == [rs[0]] + rs[1..];
      var r := if |ids| > 0 then [rs[0].(userIds := ids)] + tail else tail;
      assert forall u, e :: u != me ==> (Lists(r, u, e) <==> Lists(rs, u, e)) by {
        forall u, e | u != me ensures Lists(r, u, e) <==> Lists(rs, u, e) {
          ListsCons(rs[0], rs[1..], u, e);
          if |ids| > 0 { ListsCons(rs[0].(userIds := ids), tail, u, e); }
        }
      }
      r
  }

  /** The number of reactions that list `u`. */
  function Listing(rs: seq<Reaction>, u: string): nat {
    if rs == [] then 0 else (if u in rs[0].userIds then 1 else 0) + Listing(rs[1..], u)
  }

  /** The optimistic step: new reactions and the new `myReaction` (`JNull`
      when undone). */
  function ApplyLocal(reactions: Option<seq<Reaction>>, myReaction: Option<Json>, emoji: string, me: string)
    : (r: (seq<Reaction>, Json))
    ensures forall i :: 0 <= i < |r.0| ==> |r.0[i].userIds| > 0
    ensures myReaction == Some(JStr(emoji)) ==> r.1 == JNull && Listing(r.0, me) == 0
    ensures myReaction != Some(JStr(emoji)) ==>
              && r.1 == JStr(emoji) && Listing(r.0, me) == 1
              && exists i :: 0 <= i < |r.0| && r.0[i].emoji == emoji && me in r.0[i].userIds
    ensures forall u, e :: u != me ==> (Lists(r.0, u, e) <==> Lists(reactions.GetOr([]), u, e))
  {
    var next := RemoveUser(reactions.GetOr([]), me);
    NoneListed(next, me);
    if myReaction == Some(JStr(emoji)) then (next, JNull)
    else
      var idx := FindIndex(next, (x: Reaction) => x.emoji == emoji);
      if idx == -1 then
        var added := next + [Reaction(emoji, [me], None, None)];
        ListingAppend(next, Reaction(emoji, [me], None, None), me);
        assert added[|next|].emoji == emoji && me in added[|next|].userIds;
        OthersAfterAppend(next, Reaction(emoji, [me], None, None), me);
        (added, JStr(emoji))
      else
        var added := next[idx := next[idx].(userIds := next[idx].userIds + [me])];
        ListingAddAt(next, idx, me);
        assert added[idx].emoji == emoji && me in added[idx].userIds;
        OthersAfterAddAt(next, idx, me);
        (added, JStr(emoji))
  }

  /** A reaction listing only `me` appended: every other user keeps theirs. */
  lemma OthersAfterAppend(rs: seq<Reaction>, x: Reaction, me: string)
    requires x.userIds == [me]
    ensures forall u, e :: u != me ==> (Lists(rs + [x], u, e) <==> Lists(rs, u, e))
  {
    forall u, e | u != me ensures Lists(rs + [x], u, e) <==> Lists(rs, u, e) {
      if Lists(rs, u, e) {
        var i :| 0 <= i < |rs| && rs[i].emoji == e && u in rs[i].userIds;
        assert (rs + [x])[i] == rs[i];
      }
      if Lists(rs + [x], u, e) {
        var i :| 0 <= i < |rs + [x]| && (rs + [x])[i].emoji == e && u in (rs + [x])[i].userIds;
        assert i < |rs| && rs[i] == (rs + [x])[i];
      }
    }
  }

  /** `me` added to one reaction: every other user keeps theirs. */
  lemma OthersAfterAddAt(rs: seq<Reaction>, idx: nat, me: string)
    requires idx < |rs|
    ensures var added := rs[idx := rs[idx].(userIds := rs[idx].userIds + [me])];
      forall u, e :: u != me ==> (Lists(added, u, e) <==> Lists(rs, u, e))
  {
    var added := rs[idx := rs[idx].(userIds := rs[idx].userIds + [me])];
    forall u, e | u != me ensures Lists(added, u, e) <==> Lists(rs, u, e) {
      if Lists(rs, u, e) {
        var i :| 0 <= i < |rs| && rs[i].emoji == e && u in rs[i].userIds;
        assert added[i].emoji == e && u in added[i].userIds;
      }
      if Lists(added, u, e) {
        var i :| 0 <= i < |added| && added[i].emoji == e && u in added[i].userIds;
        assert rs[i].emoji == e && u in rs[i].userIds;
      }
    }
  }

  lemma {:induction false} NoneListed(rs: seq<Reaction>, me: string)
    requires forall i :: 0 <= i < |rs| ==> me !in rs[i].userIds
    ensures Listing(rs, me) == 0
  {
    if rs != [] { NoneListed(rs[1..], me); }
  }

  lemma {:induction false} ListingAppend(rs: seq<Reaction>, x: Reaction, u: string)
    ensures Listing(rs + [x], u) == Listing(rs, u) + (if u in x.userIds then 1 else 0)
  {
    if rs != [] {
      assert (rs + [x])[1..] == rs[1..] + [x];
      ListingAppend(rs[1..], x, u);
    }
  }

  lemma {:induction false} ListingAddAt(rs: seq<Reaction>, idx: nat, u: string)
    requires idx < |rs| && forall i :: 0 <= i < |rs| ==> u !in rs[i].userIds
    ensures Listing(rs[idx := rs[idx].(userIds := rs[idx].userIds + [u])], u) == 1
  {
    var r := rs[idx := rs[idx].(userIds := rs[idx].userIds + [u])];
    if idx == 0 {
      assert r[1..] == rs[1..];
      NoneListed(rs[1..], u);
    } else {
      assert r[1..] == rs[1..][idx - 1 := rs[idx].(userIds := rs[idx].userIds + [u])];
      ListingAddAt(rs[1..], idx - 1, u);
    }
  }

  /** `toggleReactionLocal(msg, emoji)` over the thread's messages. */
  function ToggleLocal(msgs: seq<Message>, target: Option<Json>, emoji: string, me: string): (r: seq<Message>)
    ensures |r| == |msgs|
    ensures forall k :: 0 <= k < |msgs| && msgs[k].id != target ==> r[k] == msgs[k]
    ensures forall k :: 0 <= k < |msgs| && msgs[k].id == target ==>
              var step := ApplyLocal(msgs[k].reactions, msgs[k].myReaction, emoji, me);
              r[k] == msgs[k].(reactions := Some(step.0), myReaction := Some(step.1))
  {
    seq(|msgs|, k requires 0 <= k < |msgs| =>
      if msgs[k].id != target then msgs[k]
      else
        var step := ApplyLocal(msgs[k].reactions, msgs[k].myReaction, emoji, me);
        msgs[k].(reactions := Some(step.0), myReaction := Some(step.1)))
  }

  /** The `updateMessage(id, patch)` callback the hook is given. Its body
      belongs to the caller and is not part of this model; it is taken to
      spread the patch over the messages with that id and leave the others,
      which is what its type `(id, Partial<ChatMessage>) => void` suggests. */
  function UpdateMessage(msgs: seq<Message>, id: Option<Json>, patch: Message): (r: seq<Message>)
    ensures |r| == |msgs|
    ensures forall k :: 0 <= k < |msgs| ==> r[k] == (if msgs[k].id == id then Spread(msgs[k], patch) else msgs[k])
  {
    seq(|msgs|, k requires 0 <= k < |msgs| => if msgs[k].id == id then Spread(msgs[k], patch) else msgs[k])
  }

  /** `reactToMessage(msg, emoji)`: nothing when reactions are off or the
      message is deleted; otherwise the optimistic step, undone when the
      request fails. The request's outcome is the parameter `fails`. */
  function ReactToMessage(msgs: seq<Message>, msg: Message, emoji: string, me: string, enabled: bool, fails: bool)
    : (r: seq<Message>)
    ensures !enabled || (msg.deletedAt.Some? && JsTruthy(msg.deletedAt.value)) ==> r == msgs
  {
    if !enabled || (msg.deletedAt.Some? && JsTruthy(msg.deletedAt.value)) then msgs
    else
      var step := ApplyLocal(msg.reactions, msg.myReaction, emoji, me);
      var optimistic := UpdateMessage(msgs, msg.id, Empty.(reactions := Some(step.0), myReaction := Some(step.1)));
      if !fails then optimistic
      else UpdateMessage(optimistic, msg.id,
                         Empty.(reactions := Some(msg.reactions.GetOr([])),
                                myReaction := Some(if Nullish(msg.myReaction) then JNull else msg.myReaction.value)))
  }

  /** A failed request puts back the reactions and `myReaction` the message
      had (with absent values as `[]` and `null`), and touches nothing else. */
  lemma FailedReactRollsBack(msgs: seq<Message>, msg: Message, emoji: string, me: string, k: nat)
    requires k < |msgs| && msgs[k].id == msg.id
    requires !(msg.deletedAt.Some? && JsTruthy(msg.deletedAt.value))
    ensures var after := ReactToMessage(msgs, msg, emoji, me, true, true)[k];
      && after.reactions == Some(msg.reactions.GetOr([]))
      && after.myReaction == Some(if Nullish(msg.myReaction) then JNull else msg.myReaction.value)
      && after == msgs[k].(reactions := after.reactions, myReaction := after.myReaction)
  {
    var after := ReactToMessage(msgs, msg, emoji, me, true, true)[k];
    assert after.rest == msgs[k].rest + map[] + map[];
  }

  /** Reacting twice with the same emoji, from a message the user has not
      reacted to, leaves the user listed nowhere and `myReaction` null. */
  lemma SameEmojiTwiceUndoes(reactions: Option<seq<Reaction>>, myReaction: Option<Json>, emoji: string, me: string)
    requires myReaction != Some(JStr(emoji))
    ensures var once := ApplyLocal(reactions, myReaction, emoji, me);
      var twice := ApplyLocal(Some(once.0), Some(once.1), emoji, me);
      twice.1 == JNull && Listing(twice.0, me) == 0
  {
  }
}
