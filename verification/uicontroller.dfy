/** The message-thread UI mode (`useChatUIController`): normal, selecting
    messages, or replying to one. */
module UiController {

  import opened Wrappers

  datatype Mode = Normal | Selection(ids: set<string>) | Reply(messageId: string)

  /** A selection is never empty. */
  predicate Valid(m: Mode) {
    m.Selection? ==> m.ids != {}
  }

  /** `startSelection(id)`. */
  function StartSelection(id: string): (m: Mode)
    ensures m == Selection({id}) && Valid(m)
  {
    Selection({id})
  }

  /** `toggleSelection(id)`: outside a selection it starts one; inside, it
      flips `id`, and removing the last id returns to normal. */
  function ToggleSelection(m: Mode, id: string): (r: Mode)
    ensures Valid(r)
    ensures !m.Selection? ==> r == Selection({id})
    ensures m.Selection? && m.ids == {id} ==> r == Normal
    ensures m.Selection? && r.Selection? ==>
              (id in r.ids <==> id !in m.ids) && forall x :: x != id ==> (x in r.ids <==> x in m.ids)
  {
    if !m.Selection? then Selection({id})
    else
      var ids := if id in m.ids then m.ids - {id} else m.ids + {id};
      if ids == {} then Normal else Selection(ids)
  }

  /** `clearSelection()`. */
  function ClearSelection(m: Mode): (r: Mode)
    ensures r == Normal
  {
    Normal
  }

  /** `startReply(id)`: replying always leaves any selection. */
  function StartReply(m: Mode, id: string): (r: Mode)
    ensures r == Reply(id)
  {
    Reply(id)
  }

  /** `cancelReply()`. */
  function CancelReply(m: Mode): (r: Mode)
    ensures r == Normal
  {
    Normal
  }

  /** The `selection` handle: the ids, non-null only while selecting. */
  function SelectionView(m: Mode): (v: Option<set<string>>)
    ensures v.Some? <==> m.Selection?
    ensures v.Some? ==> v.value == m.ids
  {
    if m.Selection? then Some(m.ids) else None
  }

  /** The `reply` handle: the message replied to, non-null only while replying. */
  function ReplyView(m: Mode): (v: Option<string>)
    ensures v.Some? <==> m.Reply?
  {
    if m.Reply? then Some(m.messageId) else None
  }

  datatype Action = Start(id: string) | Toggle(id: string) | Clear | BeginReply(id: string) | Cancel

  function Step(m: Mode, a: Action): Mode {
    match a
    case Start(id) => StartSelection(id)
    case Toggle(id) => ToggleSelection(m, id)
    case Clear => ClearSelection(m)
    case BeginReply(id) => StartReply(m, id)
    case Cancel => CancelReply(m)
  }

  function Run(m: Mode, actions: seq<Action>): Mode
    decreases |actions|
  {
    if actions == [] then m else Run(Step(m, actions[0]), actions[1..])
  }

  /** From the initial mode, no sequence of actions reaches an empty
      selection, and the two handles are never both present. */
  lemma {:induction false} AlwaysValid(m: Mode, actions: seq<Action>)
    requires Valid(m)
    ensures Valid(Run(m, actions))
    ensures !(SelectionView(Run(m, actions)).Some? && ReplyView(Run(m, actions)).Some?)
    decreases |actions|
  {
    if actions != [] {
      AlwaysValid(Step(m, actions[0]), actions[1..]);
    }
  }

  /** Toggling the only selected id and toggling it again is starting a
      selection afresh. */
  lemma ToggleOffAndOn(id: string)
    ensures ToggleSelection(ToggleSelection(Selection({id}), id), id) == StartSelection(id)
  {
  }
}
