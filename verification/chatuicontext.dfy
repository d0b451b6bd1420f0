/** `ChatUIProvider`: the UI state the chat screens share — which screen is
    shown, the open chat, the search boxes, the selection bar, the local
    government areas (LGAs) with their hubs, and the create-hub and
    change-LGA dialogs. Each React state setter becomes a function from one
    state to the next; the asynchronous request of `createHub` is split into
    the step before the request and the step after its answer. */
module ChatUI {

  import opened Wrappers

  datatype ChatKind = CommunityChat | PrivateChat

  /** `ActiveChat` without its `null`: `{ kind, id }`, which is always truthy. */
  datatype Chat = Chat(kind: ChatKind, id: string)

  datatype Mode = Inbox | InChat | NewChat

  /** The part of `SelectionState` every variant shares. */
  datatype Selection = Selection(active: bool, count: int)

  const Cleared := Selection(false, 0)

  /** `LGAGroupBlock`: an LGA and the hubs listed under it. */
  datatype Block = Block(lgaId: string, lgaName: string, hubIds: seq<string>)

  /** The registered inbox reload callback is named by an identifier;
      `reloads` lists, in order, the callbacks that `refreshInbox` invoked. */
  datatype Ui = Ui(
    activeChat: Option<Chat>,
    newChatOpen: bool,
    inboxSearch: string,
    newChatSearch: string,
    selection: Selection,
    reloadFn: Option<nat>,
    reloads: seq<nat>,
    lgaGroups: seq<Block>,
    currentLGA: Option<Block>,
    changeLGAOpen: bool,
    createHubOpen: bool,
    creatingHub: bool)

  const Initial := Ui(None, false, "", "", Cleared, None, [], [], None, false, false, false)

  /** `mode`: the new-chat picker wins over an open chat, which wins over the inbox. */
  function ModeOf(ui: Ui): (m: Mode)
    ensures m == NewChat <==> ui.newChatOpen
    ensures m == InChat <==> !ui.newChatOpen && ui.activeChat.Some?
    ensures m == Inbox <==> !ui.newChatOpen && ui.activeChat.None?
  {
    if ui.newChatOpen then NewChat
    else if ui.activeChat.Some? then InChat
    else Inbox
  }

  function SetInboxSearch(ui: Ui, v: string): Ui { ui.(inboxSearch := v) }

  function SetNewChatSearch(ui: Ui, v: string): Ui { ui.(newChatSearch := v) }

  function SetSelection(ui: Ui, s: Selection): Ui { ui.(selection := s) }

  function ResetSelection(ui: Ui): Ui { ui.(selection := Cleared) }

  /* ---------- Inbox reload ---------- */

  /** `registerInboxReload(fn)`: the latest registration replaces the earlier one. */
  function RegisterInboxReload(ui: Ui, fn: nat): (r: Ui)
    ensures r.reloadFn == Some(fn)
    ensures r.(reloadFn := ui.reloadFn) == ui
  {
    ui.(reloadFn := Some(fn))
  }

  /** `refreshInbox()`: `inboxReloadRef.current?.()`. */
  function RefreshInbox(ui: Ui): (r: Ui)
    ensures ui.reloadFn.None? ==> r == ui
    ensures ui.reloadFn.Some? ==> r.reloads == ui.reloads + [ui.reloadFn.value]
    ensures r.(reloads := ui.reloads) == ui
  {
    match ui.reloadFn
    case None => ui
    case Some(fn) => ui.(reloads := ui.reloads + [fn])
  }

  /** A refresh calls the callback registered last, and only that one. */
  lemma RefreshCallsLatest(ui: Ui, f: nat, g: nat)
    ensures RefreshInbox(RegisterInboxReload(RegisterInboxReload(ui, f), g)).reloads == ui.reloads + [g]
  {
  }

  /* ---------- LGA / groups ---------- */

  /** `blocks.find(b => b.lga.id === id)`: the first block of that LGA. */
  function FindLGA(blocks: seq<Block>, id: string): (r: Option<Block>)
    ensures r.None? <==> forall b :: b in blocks ==> b.lgaId != id
    ensures r.Some? ==> exists k :: 0 <= k < |blocks| && blocks[k] == r.value && r.value.lgaId == id
                         && forall j :: 0 <= j < k ==> blocks[j].lgaId != id
  {
    if blocks == [] then None
    else if blocks[0].lgaId == id then Some(blocks[0])
    else
      var r := FindLGA(blocks[1..], id);
      if r.Some? then
        var k :| 0 <= k < |blocks[1..]| && blocks[1..][k] == r.value && r.value.lgaId == id
                 && forall j :: 0 <= j < k ==> blocks[1..][j].lgaId != id;
        assert blocks[k + 1] == r.value;
        r
      else r
  }

  /** `setInboxLGAs(blocks, resolvedId)`: the blocks replace the list; the
      current LGA is the block of `resolvedId` when that is a non-empty id
      found in the list, otherwise the first block, and none for an empty list. */
  function SetInboxLGAs(ui: Ui, blocks: seq<Block>, resolvedId: Option<string>): (r: Ui)
    ensures r.lgaGroups == blocks
    ensures blocks == [] ==> r.currentLGA.None?
    ensures blocks != [] ==> r.currentLGA.Some? && r.currentLGA.value in blocks
    ensures blocks != [] && resolvedId.Some? && resolvedId.value != [] && FindLGA(blocks, resolvedId.value).Some?
            ==> r.currentLGA.value.lgaId == resolvedId.value
    ensures blocks != [] && (resolvedId.None? || resolvedId.value == [] || FindLGA(blocks, resolvedId.value).None?)
            ==> r.currentLGA == Some(blocks[0])
    ensures r.(lgaGroups := ui.lgaGroups, currentLGA := ui.currentLGA) == ui
  {
    if blocks == [] then ui.(lgaGroups := blocks, currentLGA := None)
    else
      var found := if resolvedId.Some? && resolvedId.value != [] then FindLGA(blocks, resolvedId.value) else None;
      ui.(lgaGroups := blocks, currentLGA := if found.Some? then found else Some(blocks[0]))
  }

  /** `setCurrentLGAById(id)`: switches to the listed block of that LGA; an
      unknown id leaves the current one as it was. */
  function SetCurrentLGAById(ui: Ui, id: string): (r: Ui)
    ensures FindLGA(ui.lgaGroups, id).None? ==> r == ui
    ensures FindLGA(ui.lgaGroups, id).Some? ==>
              r.currentLGA.Some? && r.currentLGA.value in ui.lgaGroups && r.currentLGA.value.lgaId == id
    ensures r.(currentLGA := ui.currentLGA) == ui
  {
    match FindLGA(ui.lgaGroups, id)
    case None => ui
    case Some(b) => ui.(currentLGA := Some(b))
  }

  /** Loading the blocks with a resolved id is the same as loading them
      without one and then switching to that id. */
  lemma ResolvedIdIsSwitch(ui: Ui, blocks: seq<Block>, id: string)
    requires id != []
    ensures SetInboxLGAs(ui, blocks, Some(id)) == SetCurrentLGAById(SetInboxLGAs(ui, blocks, None), id)
  {
  }

  /** Whatever is loaded, the current LGA is always one of the listed blocks,
      and switching keeps it so. */
  lemma CurrentIsListed(ui: Ui, blocks: seq<Block>, resolvedId: Option<string>, id: string)
    requires blocks != []
    ensures var loaded := SetInboxLGAs(ui, blocks, resolvedId);
      && SetCurrentLGAById(loaded, id).currentLGA.Some?
      && SetCurrentLGAById(loaded, id).currentLGA.value in blocks
  {
  }

  /* ---------- Navigation ---------- */

  /** `openChat(chat)`: shows the chat (or the inbox for `null`), closes the
      picker and clears the selection. */
  function OpenChat(ui: Ui, chat: Option<Chat>): (r: Ui)
    ensures ModeOf(r) == (if chat.Some? then InChat else Inbox)
    ensures r.activeChat == chat && r.selection == Cleared
    ensures r.(activeChat := ui.activeChat, newChatOpen := ui.newChatOpen, selection := ui.selection) == ui
  {
    ui.(activeChat := chat, newChatOpen := false, selection := Cleared)
  }

  /** `openNewChat()`: the picker opens with an empty search. */
  function OpenNewChat(ui: Ui): (r: Ui)
    ensures ModeOf(r) == NewChat && r.newChatSearch == "" && r.selection == Cleared
    ensures r.activeChat == ui.activeChat
    ensures r.(newChatOpen := ui.newChatOpen, newChatSearch := ui.newChatSearch, selection := ui.selection) == ui
  {
    ui.(newChatOpen := true, newChatSearch := "", selection := Cleared)
  }

  /** `closeNewChat()`: back to whatever the picker covered. */
  function CloseNewChat(ui: Ui): (r: Ui)
    ensures ModeOf(r) == (if ui.activeChat.Some? then InChat else Inbox)
    ensures r.newChatSearch == "" && r.selection == Cleared
    ensures r.(newChatOpen := ui.newChatOpen, newChatSearch := ui.newChatSearch, selection := ui.selection) == ui
  {
    ui.(newChatOpen := false, newChatSearch := "", selection := Cleared)
  }

  /** `goHome()`: the inbox, from any screen. */
  function GoHome(ui: Ui): (r: Ui)
    ensures ModeOf(r) == Inbox && r.selection == Cleared
    ensures r.(activeChat := ui.activeChat, newChatOpen := ui.newChatOpen, selection := ui.selection) == ui
  {
    ui.(activeChat := None, newChatOpen := false, selection := Cleared)
  }

  /** Closing the picker returns to the chat that was open before it. */
  lemma PickerReturns(ui: Ui)
    ensures CloseNewChat(OpenNewChat(ui)).activeChat == ui.activeChat
    ensures ModeOf(CloseNewChat(OpenNewChat(ui))) == (if ui.activeChat.Some? then InChat else Inbox)
  {
  }

  datatype Nav = Open(chat: Option<Chat>) | OpenPicker | ClosePicker | Home

  function Navigate(ui: Ui, n: Nav): Ui {
    match n
    case Open(chat) => OpenChat(ui, chat)
    case OpenPicker => OpenNewChat(ui)
    case ClosePicker => CloseNewChat(ui)
    case Home => GoHome(ui)
  }

  function Run(ui: Ui, ns: seq<Nav>): Ui
    decreases |ns|
  {
    if ns == [] then ui else Run(Navigate(ui, ns[0]), ns[1..])
  }

  /** The state navigation does not touch: the inbox search, the reload
      callback, the LGAs and the dialogs. */
  predicate SameBesidesNavigation(a: Ui, b: Ui) {
    && a.inboxSearch == b.inboxSearch
    && a.reloadFn == b.reloadFn && a.reloads == b.reloads
    && a.lgaGroups == b.lgaGroups && a.currentLGA == b.currentLGA
    && a.changeLGAOpen == b.changeLGAOpen && a.createHubOpen == b.createHubOpen && a.creatingHub == b.creatingHub
  }

  /** After any non-empty run of navigation actions the selection is cleared
      and the inbox search, the LGAs and the dialogs are as they were. */
  lemma {:induction false} NavigationClearsSelection(ui: Ui, ns: seq<Nav>)
    requires ns != []
    ensures Run(ui, ns).selection == Cleared
    ensures SameBesidesNavigation(Run(ui, ns), ui)
    decreases |ns|
  {
    var next := Navigate(ui, ns[0]);
    assert Run(ui, ns) == Run(next, ns[1..]);
    assert next.selection == Cleared && SameBesidesNavigation(next, ui);
    if |ns| > 1 {
      NavigationClearsSelection(next, ns[1..]);
    }
  }

  /* ---------- Change LGA ---------- */

  /** `openChangeLGA()`: an open dialog stays open. */
  function OpenChangeLGA(ui: Ui): (r: Ui)
    ensures r.changeLGAOpen
    ensures r.(changeLGAOpen := ui.changeLGAOpen) == ui
  {
    if ui.changeLGAOpen then ui else ui.(changeLGAOpen := true)
  }

  function CloseChangeLGA(ui: Ui): (r: Ui)
    ensures !r.changeLGAOpen
    ensures r.(changeLGAOpen := ui.changeLGAOpen) == ui
  {
    ui.(changeLGAOpen := false)
  }

  lemma ChangeLGAToggles(ui: Ui)
    ensures OpenChangeLGA(OpenChangeLGA(ui)) == OpenChangeLGA(ui)
    ensures CloseChangeLGA(OpenChangeLGA(ui)) == CloseChangeLGA(ui)
  {
  }

  /* ---------- Create hub ---------- */

  function OpenCreateHub(ui: Ui): Ui { ui.(createHubOpen := true) }

  function CloseCreateHub(ui: Ui): Ui { ui.(createHubOpen := false) }

  /** `CreateHubPayload`; the cover image is named by its file name. */
  datatype HubPayload = HubPayload(name: string, category: string, description: Option<string>, cover: Option<string>)

  datatype FormValue = Text(text: string) | Upload(file: string)

  /** The `FormData` posted to `/communities/create/`: name and category
      always, the description when it is non-empty, the cover when given. */
  function HubForm(p: HubPayload): (form: seq<(string, FormValue)>)
    ensures |form| >= 2 && form[0] == ("name", Text(p.name)) && form[1] == ("category", Text(p.category))
    ensures (exists k :: 2 <= k < |form| && form[k].0 == "description") <==> p.description.Some? && p.description.value != ""
    ensures (exists k :: 2 <= k < |form| && form[k].0 == "cover") <==> p.cover.Some?
    ensures forall k :: 2 <= k < |form| ==>
              (form[k].0 == "description" && form[k].1 == Text(p.description.value))
              || (form[k].0 == "cover" && form[k].1 == Upload(p.cover.value))
  {
    var base := [("name", Text(p.name)), ("category", Text(p.category))];
    var withDescription := if p.description.Some? && p.description.value != ""
                           then base + [("description", Text(p.description.value))] else base;
    var form := if p.cover.Some? then withDescription + [("cover", Upload(p.cover.value))] else withDescription;
    assert "description"[0] != "cover"[0];
    assert p.description.Some? && p.description.value != "" ==> form[2].0 == "description";
    assert p.cover.Some? ==> form[|form| - 1].0 == "cover";
    form
  }

  /** The part of `createHub` before the request: the busy flag is raised. */
  function BeginCreateHub(ui: Ui, p: HubPayload): (r: (Ui, seq<(string, FormValue)>))
    ensures r.0.creatingHub && r.0.(creatingHub := ui.creatingHub) == ui
    ensures r.1 == HubForm(p)
  {
    (ui.(creatingHub := true), HubForm(p))
  }

  /** The part after the answer: on success the dialog closes and the inbox
      reloads; on failure the error is thrown. Both lower the busy flag. */
  function FinishCreateHub(ui: Ui, ok: bool): (r: (Ui, bool))
    ensures !r.0.creatingHub
    ensures r.1 <==> !ok
    ensures ok ==> !r.0.createHubOpen && r.0.reloads == RefreshInbox(ui).reloads
    ensures !ok ==> r.0 == ui.(creatingHub := false)
    ensures r.0.(creatingHub := ui.creatingHub, createHubOpen := ui.createHubOpen, reloads := ui.reloads) == ui
  {
    if ok then (RefreshInbox(CloseCreateHub(ui)).(creatingHub := false), false)
    else (ui.(creatingHub := false), true)
  }

  /** A request that fails keeps the dialog as it was, so the user can retry;
      one that succeeds closes it and reloads the inbox once. */
  lemma CreateHubOutcome(ui: Ui, p: HubPayload, ok: bool)
    requires ui.reloadFn.Some?
    ensures var after := FinishCreateHub(BeginCreateHub(ui, p).0, ok).0;
      && !after.creatingHub
      && (ok ==> !after.createHubOpen && after.reloads == ui.reloads + [ui.reloadFn.value])
      && (!ok ==> after == ui.(creatingHub := false))
  {
  }
}
