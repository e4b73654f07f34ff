// What each action makes of the tabs and groups it names, and that it leaves
// the others alone (src/lib/tabsState.ts).
module TabsActions {
  import opened Sequences
  import opened PaneTrees
  import opened PaneGeometry
  import opened TabGroups
  import opened PaneMoves
  import opened PaneTemplates
  import opened TabGroupsPersistence
  import opened TabTitles
  import opened TabsState
  import opened TabsStateProofs
  import opened TabsStateEffects

  // ----- the tabs an action results in -----

  // What the reducer shows when an action results in `tabs`: those tabs, or
  // the same with other titles.
  predicate Shows(r: seq<Tab>, tabs: seq<Tab>, before: seq<Tab>, names: seq<Tab> -> seq<string>) {
    if tabs == before then r == tabs
    else
      && |r| == |tabs|
      && forall i :: 0 <= i < |tabs| ==>
           && r[i] == tabs[i].(title := r[i].title)
           && r[i].title == (if i < |names(tabs)| then names(tabs)[i] else tabs[i].title)
  }

  // An action that leaves the bar in its order is settled by focusing only.
  lemma SettledInOrder(state: TabsState)
    requires Ready(state) && RootsOk(state.groups) && Order(state.groups) == TabIds(state.tabs)
    ensures Settle(state).tabs == state.tabs && Settle(state).groupCount == state.groupCount
    ensures Settle(state).activeTabId == state.activeTabId
    ensures Settle(state).groups
         == if state.activeTabId.Some? then FocusPane(state.groups, state.activeTabId.value) else state.groups
  {
    SettleKeepsMatching(state);
    if state.activeTabId.Some? {
      FocusPaneKeepsPanes(state.groups, state.groupCount, state.activeTabId.value);
    }
  }

  lemma ReducedInOrder(state: TabsState, action: TabsAction, names: seq<Tab> -> seq<string>)
    requires Settled(state) && Allowed(state, action)
    requires RootsOk(state.groups) && RootsOk(ApplyAction(state, action).groups)
    requires Order(ApplyAction(state, action).groups) == TabIds(ApplyAction(state, action).tabs)
    ensures var applied, r := ApplyAction(state, action), TabsReducer(state, action, names);
      && Shows(r.tabs, applied.tabs, state.tabs, names)
      && r.activeTabId == applied.activeTabId && r.groupCount == applied.groupCount
      && r.groups == if r.activeTabId.Some? then FocusPane(applied.groups, r.activeTabId.value) else applied.groups
  {
    ApplyActionIsReady(state, action);
    SettledInOrder(ApplyAction(state, action));
  }

  // ----- focusing a tab -----

  // Exactly the tab `id` is marked, which thereby counts as connected.
  predicate MarksOnly(tabs: seq<Tab>, before: seq<Tab>, id: TabId) {
    && |tabs| == |before|
    && forall i :: 0 <= i < |tabs| ==>
         tabs[i] == if before[i].id == id then before[i].(isActive := true, hasConnected := Some(true))
                    else before[i].(isActive := false)
  }

  // The group of `id` has that pane focused and is not zoomed on another;
  // nothing else about the groups changes.
  predicate FocusesOnly(groups: seq<TabGroup>, before: seq<TabGroup>, id: TabId) {
    && |groups| == |before|
    && forall i :: 0 <= i < |groups| ==>
         groups[i] == if id !in Panes(before[i]) then before[i]
                      else before[i].(activeTabId := id,
                                      zoomedTabId := if before[i].zoomedTabId == Some(id) then Some(id) else None)
  }

  lemma FocusPaneFocusesOnly(groups: seq<TabGroup>, id: TabId)
    requires Distinct(Order(groups)) && id in Order(groups)
    ensures FocusesOnly(FocusPane(groups, id), groups, id)
  {
    forall i | 0 <= i < |groups| && id in Panes(groups[i]) ensures i == FindGroup(groups, id) {
      FindGroupIsUnique(groups, id, i);
    }
  }

  lemma IdsInOrder(state: TabsState)
    requires Settled(state)
    ensures Order(state.groups) == TabIds(state.tabs)
  {
  }

  lemma ActivateMarksOnly(state: TabsState, id: TabId)
    requires id in TabIds(state.tabs)
    ensures var r := Activate(state, id);
      && MarksOnly(r.tabs, state.tabs, id) && r.activeTabId == Some(id) && TabIds(r.tabs) == TabIds(state.tabs)
      && r.groups == state.groups && r.groupCount == state.groupCount
  {
  }

  lemma SetActiveApplied(state: TabsState, id: TabId)
    requires RootsOk(state.groups)
    ensures Allowed(state, SetActive(id)) && ApplyAction(state, SetActive(id)) == Activate(state, id)
  {
  }

  // Choosing a tab makes it the active one and changes nothing else.
  lemma SetActiveFocuses(state: TabsState, id: TabId, names: seq<Tab> -> seq<string>) returns (tabs: seq<Tab>)
    requires Settled(state) && id in TabIds(state.tabs)
    ensures RootsOk(state.groups)
    ensures var r := TabsReducer(state, SetActive(id), names);
      && r.activeTabId == Some(id) && r.groupCount == state.groupCount
      && MarksOnly(tabs, state.tabs, id) && Shows(r.tabs, tabs, state.tabs, names)
      && FocusesOnly(r.groups, state.groups, id)
  {
    hide *;
    SettledIsReady(state);
    IdsInOrder(state);
    ReadyHasRootsOk(state);
    SetActiveApplied(state, id);
    ReducerKeepsSettled(state, SetActive(id), names);
    ActivateMarksOnly(state, id);
    ReducedInOrder(state, SetActive(id), names);
    FocusPaneFocusesOnly(state.groups, id);
    tabs := ApplyAction(state, SetActive(id)).tabs;
  }

  // A tab that is not there cannot be chosen.
  lemma SetActiveOfNone(state: TabsState, id: TabId, names: seq<Tab> -> seq<string>)
    requires Settled(state) && id !in TabIds(state.tabs)
    ensures RootsOk(state.groups) && TabsReducer(state, SetActive(id), names) == state
  {
    ReadyHasRootsOk(state);
    SettleKeepsSettled(state);
  }

  // ----- zooming -----

  // Zooming a pane focuses it and shows it alone, or shows its whole group
  // again when it was zoomed or is alone there; no other group changes.
  lemma ZoomShows(state: TabsState, id: TabId, names: seq<Tab> -> seq<string>) returns (tabs: seq<Tab>)
    requires Settled(state) && id in TabIds(state.tabs)
    ensures RootsOk(state.groups) && RootsOk(ApplyAction(state, Zoom(id)).groups) && FindGroup(state.groups, id) >= 0
    ensures var r, at := TabsReducer(state, Zoom(id), names), FindGroup(state.groups, id);
      var group := state.groups[at];
      && r.activeTabId == Some(id) && r.groupCount == state.groupCount && |r.groups| == |state.groups|
      && VisiblePaneIds(r.groups, r.activeTabId)
         == (if group.zoomedTabId == Some(id) || |Panes(group)| == 1 then Panes(group) else [id])
      && r.groups[at] == group.(activeTabId := id, zoomedTabId := r.groups[at].zoomedTabId)
      && (forall i :: 0 <= i < |r.groups| && i != at ==> r.groups[i] == state.groups[i])
      && MarksOnly(tabs, state.tabs, id) && Shows(r.tabs, tabs, state.tabs, names)
  {
    hide *;
    SettledIsReady(state);
    IdsInOrder(state);
    ReadyHasRootsOk(state);
    ZoomApplied(state, id);
    ReducerKeepsSettled(state, Zoom(id), names);
    ActivateMarksOnly(state.(groups := ToggleZoom(state.groups, id)), id);
    ToggleZoomKeepsPanes(state.groups, state.groupCount, id);
    ReducedInOrder(state, Zoom(id), names);
    ToggleZoomShows(state.groups, state.groupCount, id);
    ToggledIsFocused(state.groups, state.groupCount, id);
    LoneExactlyWhen(state.groups, state.groupCount, FindGroup(state.groups, id));
    tabs := ApplyAction(state, Zoom(id)).tabs;
  }

  lemma ZoomApplied(state: TabsState, id: TabId)
    requires RootsOk(state.groups)
    ensures Allowed(state, Zoom(id))
    ensures ApplyAction(state, Zoom(id)) == Activate(state.(groups := ToggleZoom(state.groups, id)), id)
  {
  }

  lemma LoneExactlyWhen(groups: seq<TabGroup>, groupCount: nat, at: nat)
    requires GroupsOk(groups, groupCount) && at < |groups|
    ensures |Panes(groups[at])| == 1 <==> groups[at].root.Pane?
  {
    assert GroupOk(groups[at]);
    PanesOfOne(groups[at]);
  }

  lemma PanesOfOne(group: TabGroup)
    requires GroupOk(group)
    ensures |Panes(group)| == 1 <==> group.root.Pane?
  {
    if group.root.Split? {
      SplitHasTwoPanes(group.root);
    }
  }

  lemma SplitHasTwoPanes(node: PaneNode)
    requires Canonical(node) && node.Split?
    ensures |PaneIds(node)| >= 2
  {
    var children := node.children;
    CanonicalHasPanes(children[0]);
    assert AllCanonical(node.orientation, children[1..]) && children[1..][0] == children[1];
    CanonicalHasPanes(children[1]);
    assert PaneIdsOf(children) == PaneIds(children[0]) + PaneIdsOf(children[1..]);
    assert PaneIdsOf(children[1..]) == PaneIds(children[1]) + PaneIdsOf(children[1..][1..]);
  }

  lemma ToggledIsFocused(groups: seq<TabGroup>, groupCount: nat, id: TabId)
    requires GroupsOk(groups, groupCount) && id in Order(groups)
    ensures var toggled, at := ToggleZoom(groups, id), FindGroup(groups, id);
      && FocusPane(toggled, id) == toggled && |toggled| == |groups|
      && toggled[at] == groups[at].(activeTabId := id, zoomedTabId := toggled[at].zoomedTabId)
  {
    var at := FindGroup(groups, id);
    assert GroupOk(groups[at]);
    hide GroupsOk;
    hide Order;
    if groups[at].root.Pane? {
      LonePaneIsFocused(groups, at, id);
    } else {
      var toggled := ToggleZoom(groups, id);
      FindGroupAfterUpdate(groups, at, toggled[at], id);
      assert toggled[at := toggled[at]] == toggled;
    }
  }

  // ----- dragging a divider -----

  // The group of that id is laid out anew; every other one is as before.
  predicate ResizesOnly(groups: seq<TabGroup>, before: seq<TabGroup>, groupId: nat) {
    && |groups| == |before|
    && forall i :: 0 <= i < |groups| ==>
         groups[i] == if before[i].id == groupId then before[i].(root := groups[i].root) else before[i]
  }

  lemma ResizedGroupsResizeOnly(groups: seq<TabGroup>, groupCount: nat, groupId: nat, path: seq<int>, sizes: seq<real>)
    requires GroupsOk(groups, groupCount)
    ensures var r := ResizedGroups(groups, groupId, path, sizes);
      && ResizesOnly(r, groups, groupId)
      && (forall i :: 0 <= i < |groups| ==> Panes(r[i]) == Panes(groups[i]))
  {
    forall i | 0 <= i < |groups| ensures Panes(ResizedGroups(groups, groupId, path, sizes)[i]) == Panes(groups[i]) {
      assert GroupOk(groups[i]);
      ResizeSplitKeepsPanes(groups[i].root, path, sizes);
    }
  }

  // Groups that hold the same panes and have the same focus are focused alike.
  lemma FocusedAlike(groups: seq<TabGroup>, other: seq<TabGroup>, id: TabId)
    requires |groups| == |other|
    requires forall i :: 0 <= i < |groups| ==>
      Panes(groups[i]) == Panes(other[i])
      && other[i].activeTabId == groups[i].activeTabId && other[i].zoomedTabId == groups[i].zoomedTabId
    requires FocusPane(groups, id) == groups
    ensures FocusPane(other, id) == other
  {
    FoundAlike(groups, other, id);
    var at := FindGroup(groups, id);
    if at >= 0 {
      var group := groups[at];
      assert FocusPane(groups, id)[at] == group;
      assert other[at := other[at]] == other;
    }
  }

  lemma {:induction false} FoundAlike(groups: seq<TabGroup>, other: seq<TabGroup>, id: TabId)
    requires |groups| == |other| && forall i :: 0 <= i < |groups| ==> Panes(groups[i]) == Panes(other[i])
    ensures FindGroup(groups, id) == FindGroup(other, id)
  {
    if groups != [] {
      FoundAlike(groups[1..], other[1..], id);
    }
  }

  lemma SettledIsFocused(state: TabsState)
    requires Settled(state) && state.activeTabId.Some?
    ensures FocusPane(state.groups, state.activeTabId.value) == state.groups
  {
    ReadyHasRootsOk(state);
    SettledInOrder(state);
    SettleKeepsSettled(state);
  }

  lemma ResizeApplied(state: TabsState, groupId: nat, path: seq<int>, sizes: seq<real>)
    requires RootsOk(state.groups)
    ensures Allowed(state, Resize(groupId, path, sizes))
    ensures ApplyAction(state, Resize(groupId, path, sizes))
         == state.(groups := ResizedGroups(state.groups, groupId, path, sizes))
  {
  }

  // A drag changes the tree of that group only, neither tabs nor focus.
  lemma ResizeTouchesOneGroup(state: TabsState, groupId: nat, path: seq<int>, sizes: seq<real>,
          names: seq<Tab> -> seq<string>)
    requires Settled(state)
    ensures RootsOk(state.groups) && RootsOk(ApplyAction(state, Resize(groupId, path, sizes)).groups)
    ensures var r := TabsReducer(state, Resize(groupId, path, sizes), names);
      && r == state.(groups := r.groups)
      && ResizesOnly(r.groups, state.groups, groupId)
      && r.groups == ResizedGroups(state.groups, groupId, path, sizes)
  {
    var groups, action := ResizedGroups(state.groups, groupId, path, sizes), Resize(groupId, path, sizes);
    hide *;
    SettledIsReady(state);
    IdsInOrder(state);
    ReadyHasRootsOk(state);
    ResizeApplied(state, groupId, path, sizes);
    ReducerKeepsSettled(state, action, names);
    ResizedGroupsKeepPanes(state.groups, state.groupCount, groupId, path, sizes);
    ReducedInOrder(state, action, names);
    ResizedGroupsResizeOnly(state.groups, state.groupCount, groupId, path, sizes);
    ResizedStaysFocused(state, groups, groupId);
    SameTabsShown(TabsReducer(state, action, names).tabs, state.tabs, names);
  }

  lemma ResizedStaysFocused(state: TabsState, groups: seq<TabGroup>, groupId: nat)
    requires Settled(state) && ResizesOnly(groups, state.groups, groupId)
    requires forall i :: 0 <= i < |groups| ==> Panes(groups[i]) == Panes(state.groups[i])
    ensures state.activeTabId.Some? ==> FocusPane(groups, state.activeTabId.value) == groups
  {
    if state.activeTabId.Some? {
      SettledIsFocused(state);
      hide Settled;
      FocusedAlike(state.groups, groups, state.activeTabId.value);
    }
  }

  lemma SameTabsShown(r: seq<Tab>, before: seq<Tab>, names: seq<Tab> -> seq<string>)
    requires Shows(r, before, before, names)
    ensures r == before
  {
  }

  // The split at the path shares its room by the new sizes; the panes around
  // it stay where they were, in a box of any size. A path that leads nowhere
  // changes nothing.
  lemma ResizeSharesTheSplit(state: TabsState, at: nat, path: seq<int>, sizes: seq<real>,
          names: seq<Tab> -> seq<string>, box: Rect)
    returns (before: seq<Placed>, room: Rect, after: seq<Placed>)
    requires Settled(state) && at < |state.groups|
    ensures var action := Resize(state.groups[at].id, path, sizes);
      RootsOk(state.groups) && RootsOk(ApplyAction(state, action).groups)
    ensures var action := Resize(state.groups[at].id, path, sizes);
      var r, root := TabsReducer(state, action, names), state.groups[at].root;
      && |r.groups| == |state.groups|
      && match NodeAt(root, path)
         case None => r.groups[at] == state.groups[at]
         case Some(node) =>
           && NodeAt(r.groups[at].root, path) == Some(Resized(node, sizes))
           && Place(root, box) == before + Place(node, room) + after
           && Place(r.groups[at].root, box) == before + Place(Resized(node, sizes), room) + after
  {
    var root := state.groups[at].root;
    hide *;
    ResizeTouchesOneGroup(state, state.groups[at].id, path, sizes, names);
    SettledIsReady(state);
    ResizedAt(state.groups, state.groupCount, at, path, sizes);
    match NodeAt(root, path)
    case None => before, room, after := [], box, [];
    case Some(_) => before, room, after := ResizeSplitIsLocal(root, path, sizes, box);
  }

  lemma ResizedAt(groups: seq<TabGroup>, groupCount: nat, at: nat, path: seq<int>, sizes: seq<real>)
    requires GroupsOk(groups, groupCount) && at < |groups|
    ensures Canonical(groups[at].root)
    ensures var r := ResizedGroups(groups, groups[at].id, path, sizes);
      && |r| == |groups|
      && r[at] == groups[at].(root := ResizeSplit(groups[at].root, path, sizes))
      && (NodeAt(groups[at].root, path).None? ==> r[at] == groups[at])
  {
    assert GroupOk(groups[at]);
    if NodeAt(groups[at].root, path).None? {
      ResizeNowhere(groups[at].root, path, sizes);
    }
  }

  lemma {:induction false} ResizeNowhere(root: PaneNode, path: seq<int>, sizes: seq<real>)
    requires NodeAt(root, path).None?
    ensures ResizeSplit(root, path, sizes) == root
    decreases |path|
  {
    if root.Split? && 0 <= path[0] < |root.children| {
      ResizeNowhere(root.children[path[0]], path[1..], sizes);
      assert root.children[path[0] := root.children[path[0]]] == root.children;
    }
  }

  // ----- renaming and updating -----

  lemma ToTabsApplied(state: TabsState, action: TabsAction)
    requires Settled(state) && RootsOk(state.groups) && Allowed(state, action)
    requires action.RenamePage? || action.Rename? || action.Update?
    ensures var applied := ApplyAction(state, action);
      && applied == state.(tabs := applied.tabs) && TabIds(applied.tabs) == TabIds(state.tabs)
  {
    ApplyToTabsIsReady(state, action);
  }

  // Renaming and updating touch the tabs only.
  lemma ReducedTabsOnly(state: TabsState, action: TabsAction, names: seq<Tab> -> seq<string>)
    requires Settled(state) && Allowed(state, action)
    requires action.RenamePage? || action.Rename? || action.Update?
    ensures RootsOk(state.groups) && RootsOk(ApplyAction(state, action).groups)
    ensures var r := TabsReducer(state, action, names);
      && r == state.(tabs := r.tabs)
      && Shows(r.tabs, ApplyAction(state, action).tabs, state.tabs, names)
  {
    hide *;
    SettledIsReady(state);
    IdsInOrder(state);
    ReadyHasRootsOk(state);
    ReducerKeepsSettled(state, action, names);
    ToTabsApplied(state, action);
    ReducedInOrder(state, action, names);
    if state.activeTabId.Some? {
      SettledIsFocused(state);
    }
  }

  // The tab gets the name, and no other tab changes.
  lemma RenameRenames(state: TabsState, id: TabId, title: string, names: seq<Tab> -> seq<string>)
    returns (tabs: seq<Tab>)
    requires Settled(state)
    ensures RootsOk(state.groups) && RootsOk(ApplyAction(state, Rename(id, title)).groups)
    ensures var r := TabsReducer(state, Rename(id, title), names);
      && r == state.(tabs := r.tabs) && Shows(r.tabs, tabs, state.tabs, names)
      && |tabs| == |state.tabs|
      && forall i :: 0 <= i < |tabs| ==>
           tabs[i] == if state.tabs[i].id != id then state.tabs[i]
                      else state.tabs[i].(title := title, duplicateBaseTitle := None, autoTitle := false)
  {
    ReducedTabsOnly(state, Rename(id, title), names);
    tabs := ApplyAction(state, Rename(id, title)).tabs;
    hide Settled;
    hide RootsOk;
    hide TabsReducer;
    hide Shows;
  }

  // The pages of that kind get the title, and no other tab changes.
  lemma RenamePageRenames(state: TabsState, kind: TabKind, title: string, names: seq<Tab> -> seq<string>)
    returns (tabs: seq<Tab>)
    requires Settled(state)
    ensures RootsOk(state.groups) && RootsOk(ApplyAction(state, RenamePage(kind, title)).groups)
    ensures var r := TabsReducer(state, RenamePage(kind, title), names);
      && r == state.(tabs := r.tabs) && Shows(r.tabs, tabs, state.tabs, names)
      && |tabs| == |state.tabs|
      && forall i :: 0 <= i < |tabs| ==>
           tabs[i] == if state.tabs[i].kind == kind then state.tabs[i].(title := title) else state.tabs[i]
  {
    ReducedTabsOnly(state, RenamePage(kind, title), names);
    tabs := ApplyAction(state, RenamePage(kind, title)).tabs;
    hide Settled;
    hide RootsOk;
    hide TabsReducer;
    hide Shows;
  }

  // Kinds of tab that run a session.
  predicate RunsSession(kind: TabKind) {
    kind.Terminal? || kind.Ssh? || kind.Serial?
  }

  // What is missing filled in: a session tab has connected if it is active
  // and counts its sessions from 0, while any other is connected and has none.
  predicate FillsIn(tab: Tab, given: Tab) {
    && tab == given.(hasConnected := tab.hasConnected, sessionNonce := tab.sessionNonce)
    && (if RunsSession(given.kind)
        then
          && tab.hasConnected == (if given.hasConnected.None? then Some(given.isActive) else given.hasConnected)
          && tab.sessionNonce == (if given.sessionNonce.None? then Some(0) else given.sessionNonce)
        else tab.hasConnected == Some(true) && tab.sessionNonce == Some(0))
  }

  lemma DefaultsFillIn(tab: Tab)
    ensures FillsIn(EnsureTabDefaults(tab), tab)
  {
  }

  // The tab becomes what the updater makes of it, but for the active mark,
  // which stays on the active tab; no other tab changes.
  lemma UpdateUpdates(state: TabsState, id: TabId, updater: Tab -> Tab, names: seq<Tab> -> seq<string>)
    returns (tabs: seq<Tab>)
    requires Settled(state) && forall tab :: updater(tab).id == tab.id
    ensures RootsOk(state.groups) && RootsOk(ApplyAction(state, Update(id, updater)).groups)
    ensures var r := TabsReducer(state, Update(id, updater), names);
      && r == state.(tabs := r.tabs) && Shows(r.tabs, tabs, state.tabs, names)
      && |tabs| == |state.tabs|
      && forall i :: 0 <= i < |tabs| ==>
           if state.tabs[i].id != id then tabs[i] == state.tabs[i]
           else
             && tabs[i].isActive == state.tabs[i].isActive
             && FillsIn(tabs[i].(isActive := updater(state.tabs[i]).isActive), updater(state.tabs[i]))
  {
    ReducedTabsOnly(state, Update(id, updater), names);
    tabs := ApplyAction(state, Update(id, updater)).tabs;
    hide RootsOk;
    hide TabsReducer;
    hide Shows;
    forall i | 0 <= i < |tabs| && state.tabs[i].id == id
      ensures tabs[i].isActive == state.tabs[i].isActive
      ensures FillsIn(tabs[i].(isActive := updater(state.tabs[i]).isActive), updater(state.tabs[i]))
    {
      DefaultsFillIn(updater(state.tabs[i]));
    }
  }

  // ----- the tabs an action does not name -----

  // A tab as it was, but for the mark of the active one. A tab counts as
  // connected from when it becomes active; otherwise that stays as it is.
  predicate CarriedOver(tab: Tab, was: Tab, active: Option<TabId>) {
    && tab == was.(isActive := active == Some(was.id), hasConnected := tab.hasConnected)
    && (tab.hasConnected == was.hasConnected || (tab.isActive && tab.hasConnected == Some(true)))
    && (tab.isActive && !was.isActive ==> tab.hasConnected == Some(true))
  }

  // Every tab that was there before is carried over.
  predicate CarriesOver(tabs: seq<Tab>, before: seq<Tab>, active: Option<TabId>) {
    forall tab, was :: tab in tabs && was in before && tab.id == was.id ==> CarriedOver(tab, was, active)
  }

  // Whether the action opens this tab, which then reads so.
  ghost predicate Opens(state: TabsState, action: TabsAction, tab: Tab) {
    match action
    case Add(given) => tab == given.(isActive := true, hasConnected := Some(true))
    case OpenPage(given) => tab == given.(isActive := true)
    case Duplicate(sourceId, newId, _) =>
      tab.id == newId && tab.isActive && IsCopyOf(tab, sourceId, state.tabs)
    case UseTemplate(id, _, newIds) =>
      tab.id in newIds && !tab.isActive && IsCopyOf(tab, id, state.tabs)
    case _ => false
  }

  // A copy of one of the tabs, under a title no tab has unless it is automatic.
  ghost predicate IsCopyOf(tab: Tab, id: TabId, tabs: seq<Tab>) {
    exists source :: source in tabs && source.id == id && IsCopy(tab, source)
                     && (!source.autoTitle ==> tab.title !in Titles(tabs))
  }

  // A copy of a session: it counts as connected and numbers its session one
  // past the original's, in 32 bits. The name it counts from is the
  // original's, unless that is named automatically.
  ghost predicate IsCopy(tab: Tab, source: Tab) {
    && RunsSession(source.kind) && tab.kind == source.kind && tab.autoTitle == source.autoTitle
    && tab.hasConnected == Some(true)
    && tab.sessionNonce
       == (match source.sessionNonce
           case None => Some(1)
           case Some(nonce) => Some((nonce + 1) % 4294967296))
    && (if source.autoTitle then tab.duplicateBaseTitle == None && tab.title == source.title
        else
          && tab.duplicateBaseTitle
             == (if source.duplicateBaseTitle.None? then Some(source.title) else source.duplicateBaseTitle)
          && exists n: nat :: n >= 2 && tab.title == NumberedTitle(tab.duplicateBaseTitle.value, n))
  }

  lemma DuplicateIsCopy(source: Tab, newId: TabId, tabs: seq<Tab>)
    requires CanCopy(source)
    ensures IsCopy(DuplicateTabData(source, newId, tabs), source)
    ensures var copy := DuplicateTabData(source, newId, tabs);
      copy.id == newId && copy.isActive && IsCopy(copy.(isActive := false), source)
    ensures !source.autoTitle ==> DuplicateTabData(source, newId, tabs).title !in Titles(tabs)
  {
    if !source.autoTitle {
      DuplicateHasFreshTitle(source, newId, tabs);
      var base := if source.duplicateBaseTitle.Some? then source.duplicateBaseTitle.value else source.title;
      assert DuplicateTitle(base, Titles(tabs)) == NumberedTitle(base, FirstFreeIndex(base, Titles(tabs), 2));
    }
  }

  lemma {:induction false} CopiesAreCopies(source: Tab, newIds: seq<TabId>, tabs: seq<Tab>)
    requires CanCopy(source) || newIds == []
    ensures forall tab :: tab in Copies(source, newIds, tabs) ==>
      IsCopy(tab, source) && tab.id in newIds && !tab.isActive
    decreases |newIds|
  {
    if newIds != [] {
      var copy := DuplicateTabData(source, newIds[0], tabs).(isActive := false);
      DuplicateIsCopy(source, newIds[0], tabs);
      hide IsCopy;
      hide DuplicateTabData;
      CopiesAreCopies(source, newIds[1..], tabs + [copy]);
      CopiesStep(source, newIds, tabs, copy);
    }
  }

  // The copies for a template, under titles of their own.
  lemma CopiesAreCopiesOf(tabs: seq<Tab>, source: nat, newIds: seq<TabId>)
    requires source < |tabs| && (CanCopy(tabs[source]) || newIds == [])
    ensures forall tab :: tab in Copies(tabs[source], newIds, tabs) ==>
      IsCopyOf(tab, tabs[source].id, tabs) && tab.id in newIds && !tab.isActive
  {
    var copies := Copies(tabs[source], newIds, tabs);
    CopiesAreCopies(tabs[source], newIds, tabs);
    hide IsCopy;
    hide Copies;
    if !tabs[source].autoTitle {
      CopiesHaveFreshTitles(tabs[source], newIds, tabs);
      assert forall i :: 0 <= i < |copies| ==> copies[i].title !in Titles(tabs);
    }
  }

  // The tabs of an action: those carried over, and those it opens.
  ghost predicate OnlyOpens(state: TabsState, action: TabsAction, tabs: seq<Tab>, active: Option<TabId>) {
    && CarriesOver(tabs, state.tabs, active)
    && forall tab :: tab in tabs && tab.id !in TabIds(state.tabs) ==> Opens(state, action, tab)
  }

  // Every tab marked active or not, and those that were there as they were.
  lemma MarkedCarriesOver(tabs: seq<Tab>, before: seq<Tab>, active: Option<TabId>)
    requires Distinct(TabIds(before)) && forall tab :: tab in tabs && tab.id in TabIds(before) ==> tab in before
    ensures CarriesOver(MarkedActive(tabs, active), before, active)
  {
    var marked := MarkedActive(tabs, active);
    forall tab, was | tab in marked && was in before && tab.id == was.id ensures CarriedOver(tab, was, active) {
      var i :| 0 <= i < |marked| && marked[i] == tab;
      assert tabs[i] in tabs && tabs[i].id == tab.id;
      IdInTabs(before, was);
      SameTab(before, tabs[i], was);
    }
  }

  lemma IdInTabs(tabs: seq<Tab>, tab: Tab)
    requires tab in tabs
    ensures tab.id in TabIds(tabs)
  {
    var i :| 0 <= i < |tabs| && tabs[i] == tab;
    assert TabIds(tabs)[i] == tab.id;
  }

  lemma SameTab(tabs: seq<Tab>, a: Tab, b: Tab)
    requires Distinct(TabIds(tabs)) && a in tabs && b in tabs && a.id == b.id
    ensures a == b
  {
    var i :| 0 <= i < |tabs| && tabs[i] == a;
    var j :| 0 <= j < |tabs| && tabs[j] == b;
    assert TabIds(tabs)[i] == TabIds(tabs)[j];
    DistinctPlaces(TabIds(tabs), i, j);
  }

  lemma DistinctPlaces(ids: seq<TabId>, i: nat, j: nat)
    requires Distinct(ids) && i < |ids| && j < |ids| && ids[i] == ids[j]
    ensures i == j
  {
  }

  lemma UnchangedCarriesOver(state: TabsState)
    requires Ready(state)
    ensures CarriesOver(state.tabs, state.tabs, state.activeTabId)
  {
    forall tab, was | tab in state.tabs && was in state.tabs && tab.id == was.id
      ensures CarriedOver(tab, was, state.activeTabId)
    {
      SameTab(state.tabs, tab, was);
    }
  }

  lemma ActivateCarriesOver(state: TabsState, groups: seq<TabGroup>, groupCount: nat, id: TabId)
    requires Ready(state)
    ensures var r := Activate(state.(groups := groups, groupCount := groupCount), id);
      CarriesOver(r.tabs, state.tabs, r.activeTabId) && TabIds(r.tabs) == TabIds(state.tabs)
  {
    UnchangedCarriesOver(state);
    MarkedCarriesOver(state.tabs, state.tabs, Some(id));
  }

  lemma AddedCarriesOver(tabs: seq<Tab>, tab: Tab)
    requires Distinct(TabIds(tabs)) && tab.id !in TabIds(tabs)
    ensures CarriesOver(AllInactive(tabs) + [tab], tabs, Some(tab.id))
    ensures forall t :: t in AllInactive(tabs) + [tab] && t.id !in TabIds(tabs) ==> t == tab
  {
    var inactive := AllInactive(tabs);
    forall t, was | t in inactive + [tab] && was in tabs && t.id == was.id
      ensures CarriedOver(t, was, Some(tab.id))
    {
      IdInTabs(tabs, was);
      var i :| 0 <= i < |inactive| && inactive[i] == t;
      SameTab(tabs, tabs[i], was);
    }
    forall t | t in inactive && t.id !in TabIds(tabs) ensures false {
      IdInTabs(inactive, t);
    }
  }

  lemma RemoveOnlyCarriesOver(state: TabsState, ids: set<TabId>, options: RemoveOptions)
    requires Ready(state)
    ensures var r := RemoveTabsFromState(state, ids, options);
      CarriesOver(r.tabs, state.tabs, r.activeTabId) && forall tab :: tab in r.tabs ==> tab.id in TabIds(state.tabs)
  {
    var r := RemoveTabsFromState(state, ids, options);
    UnchangedCarriesOver(state);
    TabsWithoutMembers(state.tabs, ids);
    var remaining := TabsWithout(state.tabs, ids);
    if r.tabs != state.tabs && remaining != [] {
      MarkedCarriesOver(remaining, state.tabs, r.activeTabId);
    }
    forall tab | tab in r.tabs ensures tab.id in TabIds(state.tabs) {
      RemoveTabsIsReady(state, ids, options);
      IdInTabs(r.tabs, tab);
      WithoutMembers(TabIds(state.tabs), ids);
    }
  }

  lemma LaidOutCarriesOver(tabs: seq<Tab>, copies: seq<Tab>, id: TabId)
    requires Distinct(TabIds(tabs)) && id in TabIds(tabs) && Distinct(TabIds(tabs) + TabIds(copies))
    requires forall copy :: copy in copies ==> !copy.isActive && copy.hasConnected == Some(true)
    ensures var r := MarkedActive(tabs + copies, Some(id));
      && CarriesOver(r, tabs, Some(id))
      && forall tab :: tab in r && tab.id !in TabIds(tabs) ==> tab in copies
  {
    var all := tabs + copies;
    var r := MarkedActive(all, Some(id));
    DistinctAppend(TabIds(tabs), TabIds(copies));
    forall tab | tab in all && tab.id in TabIds(tabs) ensures tab in tabs {
      if tab in copies {
        IdInTabs(copies, tab);
        assert false;
      }
    }
    MarkedCarriesOver(all, tabs, Some(id));
    forall tab | tab in r && tab.id !in TabIds(tabs) ensures tab in copies {
      var i :| 0 <= i < |r| && r[i] == tab;
      if i < |tabs| {
        IdInTabs(tabs, tabs[i]);
      } else {
        assert all[i] == copies[i - |tabs|];
      }
    }
  }

  lemma DuplicateOnlyOpens(state: TabsState, sourceId: TabId, newId: TabId, split: Option<Direction>)
    requires Ready(state) && RootsOk(state.groups) && newId !in TabIds(state.tabs)
    ensures var r := ApplyDuplicate(state, sourceId, newId, split);
      OnlyOpens(state, Duplicate(sourceId, newId, split), r.tabs, r.activeTabId)
  {
    hide InsertNextTo;
    hide RootsOk;
    hide GroupsOk;
    hide CarriedOver;
    hide IsCopy;
    hide DuplicateTabData;
    var source := TabIndex(state.tabs, sourceId);
    if source == -1 || !CanCopy(state.tabs[source]) {
      UnchangedCarriesOver(state);
      forall tab | tab in state.tabs ensures tab.id in TabIds(state.tabs) {
        IdInTabs(state.tabs, tab);
      }
      return;
    }
    var newTab := DuplicateTabData(state.tabs[source], newId, state.tabs);
    DuplicateIsCopy(state.tabs[source], newId, state.tabs);
    AddedCarriesOver(state.tabs, newTab);
    assert state.tabs[source] in state.tabs;
  }

  lemma UseTemplateOnlyOpens(state: TabsState, id: TabId, shape: LayoutShape, newIds: seq<TabId>)
    requires Ready(state) && Allowed(state, UseTemplate(id, shape, newIds))
    ensures var r := ApplyUseTemplate(state, id, shape, newIds);
      OnlyOpens(state, UseTemplate(id, shape, newIds), r.tabs, r.activeTabId)
  {
    hide *;
    NothingOpened(state, UseTemplate(id, shape, newIds));
    if id in TabIds(state.tabs) {
      var source := TabIndex(state.tabs, id);
      var more := if CanCopy(state.tabs[source]) then newIds else [];
      TemplateOpens(state, id, shape, newIds, more);
      CopiedOnlyOpens(state, id, shape, newIds, more);
    } else {
      TemplateOfNone(state, id, shape, newIds);
    }
  }

  lemma NothingOpened(state: TabsState, action: TabsAction)
    requires Ready(state)
    ensures OnlyOpens(state, action, state.tabs, state.activeTabId)
  {
    hide CarriedOver;
    UnchangedCarriesOver(state);
    forall tab | tab in state.tabs ensures tab.id in TabIds(state.tabs) {
      IdInTabs(state.tabs, tab);
    }
  }

  lemma TemplateOfNone(state: TabsState, id: TabId, shape: LayoutShape, newIds: seq<TabId>)
    requires id !in TabIds(state.tabs)
    ensures ApplyUseTemplate(state, id, shape, newIds) == state
  {
  }

  lemma TemplateOpens(state: TabsState, id: TabId, shape: LayoutShape, newIds: seq<TabId>, more: seq<TabId>)
    requires id in TabIds(state.tabs)
    requires more == if CanCopy(state.tabs[TabIndex(state.tabs, id)]) then newIds else []
    ensures var r := ApplyUseTemplate(state, id, shape, newIds);
      || r == state
      || (r.activeTabId == Some(id)
          && r.tabs == MarkedActive(state.tabs + Copies(state.tabs[TabIndex(state.tabs, id)], more, state.tabs),
                                    Some(id)))
  {
    hide ApplyTemplate;
    hide Copies;
    TabIdsAppend(state.tabs, Copies(state.tabs[TabIndex(state.tabs, id)], more, state.tabs));
  }

  lemma CopiedOnlyOpens(state: TabsState, id: TabId, shape: LayoutShape, newIds: seq<TabId>, more: seq<TabId>)
    requires Ready(state) && Allowed(state, UseTemplate(id, shape, newIds)) && id in TabIds(state.tabs)
    requires more == if CanCopy(state.tabs[TabIndex(state.tabs, id)]) then newIds else []
    ensures var copies := Copies(state.tabs[TabIndex(state.tabs, id)], more, state.tabs);
      OnlyOpens(state, UseTemplate(id, shape, newIds), MarkedActive(state.tabs + copies, Some(id)), Some(id))
  {
    hide CarriesOver;
    hide ShapeHasPanes;
    hide GroupsOk;
    hide IsCopyOf;
    hide Copies;
    var source := TabIndex(state.tabs, id);
    CopiesAreCopiesOf(state.tabs, source, more);
    CopiesAreConnected(state.tabs[source], more, state.tabs);
    DistinctAppend(TabIds(state.tabs), more);
    LaidOutCarriesOver(state.tabs, Copies(state.tabs[source], more, state.tabs), id);
  }

  lemma CopiesAreConnected(source: Tab, newIds: seq<TabId>, tabs: seq<Tab>)
    requires CanCopy(source) || newIds == []
    ensures forall tab :: tab in Copies(source, newIds, tabs) ==> tab.hasConnected == Some(true)
  {
    CopiesAreCopies(source, newIds, tabs);
  }

  predicate ActsOnTabs(action: TabsAction) {
    action.RenamePage? || action.Rename? || action.Update?
  }

  lemma MovesOnlyCarryOver(state: TabsState, action: TabsAction)
    requires Ready(state) && RootsOk(state.groups)
    requires MovesPanes(action) || action.SetActive?
    ensures var r := ApplyAction(state, action);
      CarriesOver(r.tabs, state.tabs, r.activeTabId) && TabIds(r.tabs) == TabIds(state.tabs)
  {
    hide CarriesOver;
    hide Ready;
    hide RootsOk;
    hide Activate;
    hide PlacePane;
    hide MergeGroup;
    hide BreakOutPane;
    hide FindGroup;
    UnchangedCarriesOver(state);
    match action {
      case PlaceBeside(id, targetId, direction) =>
        ActivateCarriesOver(state, PlacePane(state.groups, id, targetId, direction), state.groupCount, id);
      case Merge(id, targetId, direction) =>
        var merged := MergeGroup(state.groups, id, targetId, direction);
        if merged.Some? && FindGroup(merged.value, targetId) >= 0 {
          ActivateCarriesOver(state, merged.value, state.groupCount,
                              merged.value[FindGroup(merged.value, targetId)].activeTabId);
        }
      case BreakOut(id, index) =>
        var broken := BreakOutPane(state.groups, id, state.groupCount + 1, index);
        if broken.Some? {
          ActivateCarriesOver(state, broken.value, state.groupCount + 1, id);
        }
      case Zoom(id) => ActivateCarriesOver(state, ToggleZoom(state.groups, id), state.groupCount, id);
      case SetActive(id) => ActivateCarriesOver(state, state.groups, state.groupCount, id);
      case _ =>
    }
  }

  lemma AddedOnlyOpens(state: TabsState, action: TabsAction)
    requires Ready(state) && RootsOk(state.groups) && Allowed(state, action)
    requires action.Add? || action.OpenPage?
    ensures OnlyOpens(state, action, ApplyAction(state, action).tabs, ApplyAction(state, action).activeTabId)
  {
    hide RootsOk;
    hide GroupsOk;
    hide CarriesOver;
    hide Activate;
    match action {
      case Add(tab) => AddedCarriesOver(state.tabs, tab.(isActive := true, hasConnected := Some(true)));
      case OpenPage(tab) =>
        var existing := KindIndex(state.tabs, tab.kind);
        if existing < 0 {
          AddedCarriesOver(state.tabs, tab.(isActive := true));
        } else {
          ActivateCarriesOver(state, state.groups, state.groupCount, state.tabs[existing].id);
          SameIdsOpenNothing(state, action);
        }
    }
  }

  lemma SameIdsOpenNothing(state: TabsState, action: TabsAction)
    requires RootsOk(state.groups) && TabIds(ApplyAction(state, action).tabs) == TabIds(state.tabs)
    ensures forall tab :: tab in ApplyAction(state, action).tabs ==> tab.id in TabIds(state.tabs)
  {
    hide ApplyAction;
    forall tab | tab in ApplyAction(state, action).tabs ensures tab.id in TabIds(state.tabs) {
      IdInTabs(ApplyAction(state, action).tabs, tab);
    }
  }

  lemma AppliedOnlyOpens(state: TabsState, action: TabsAction)
    requires Ready(state) && RootsOk(state.groups) && Allowed(state, action)
    requires !action.Restore? && !ActsOnTabs(action)
    ensures OnlyOpens(state, action, ApplyAction(state, action).tabs, ApplyAction(state, action).activeTabId)
  {
    hide CarriesOver;
    hide Opens;
    hide Ready;
    hide RootsOk;
    hide RemoveTabsFromState;
    hide ApplyDuplicate;
    hide ApplyUseTemplate;
    hide ApplyPlace;
    hide ApplyMerge;
    hide ApplyBreakOut;
    if action.Add? || action.OpenPage? {
      AddedOnlyOpens(state, action);
    } else if action.Duplicate? {
      DuplicateOnlyOpens(state, action.sourceId, action.newId, action.split);
    } else if action.UseTemplate? {
      UseTemplateOnlyOpens(state, action.id, action.shape, action.newIds);
    } else if action.Remove? {
      var groups := RemoveTabsFromGroups(state.groups, action.ids);
      var preferred := OrElse(action.options.preferredActiveTabId,
                              FallbackTabId(state.groups, groups, state.activeTabId));
      RemoveOnlyCarriesOver(state, action.ids, action.options.(preferredActiveTabId := preferred));
    } else {
      MovesOnlyCarryOver(state, action);
      SameIdsOpenNothing(state, action);
    }
  }

  lemma ReducedShows(state: TabsState, action: TabsAction, names: seq<Tab> -> seq<string>)
    requires RootsOk(state.groups) && RootsOk(ApplyAction(state, action).groups)
    ensures var applied, r := ApplyAction(state, action), TabsReducer(state, action, names);
      Shows(r.tabs, Settle(applied).tabs, state.tabs, names) && r.activeTabId == applied.activeTabId
  {
    hide ApplyAction;
    hide Reconciled;
  }

  lemma PartOnlyOpens(state: TabsState, action: TabsAction, tabs: seq<Tab>, part: seq<Tab>, active: Option<TabId>)
    requires OnlyOpens(state, action, tabs, active) && forall tab :: tab in part ==> tab in tabs
    ensures OnlyOpens(state, action, part, active)
  {
    hide Opens;
    hide CarriedOver;
  }

  // Of all actions but those above that name tabs: a tab stays as it was but
  // for the active mark, and the tabs opened read as the action says.
  lemma OtherTabsAreCarriedOver(state: TabsState, action: TabsAction, names: seq<Tab> -> seq<string>)
    returns (tabs: seq<Tab>)
    requires Settled(state) && Allowed(state, action) && !action.Restore? && !ActsOnTabs(action)
    ensures RootsOk(state.groups) && RootsOk(ApplyAction(state, action).groups)
    ensures var r := TabsReducer(state, action, names);
      Shows(r.tabs, tabs, state.tabs, names) && OnlyOpens(state, action, tabs, r.activeTabId)
  {
    hide *;
    SettledIsReady(state);
    ReducerKeepsSettled(state, action, names);
    var applied := ApplyAction(state, action);
    ApplyActionIsReady(state, action);
    AppliedOnlyOpens(state, action);
    ReducedShows(state, action, names);
    SettleSettles(applied);
    tabs := Settle(applied).tabs;
    PartOnlyOpens(state, action, applied.tabs, tabs, applied.activeTabId);
  }

  // A restored tab reads as it was saved, but counts as connected only if it
  // is the active one or runs no session.
  predicate RestoredFrom(tab: Tab, saved: Tab, active: Option<TabId>) {
    var isActive := active == Some(saved.id);
    FillsIn(tab, saved.(isActive := isActive, hasConnected := Some(isActive)))
  }

  // Exactly the saved tabs come back, and the one that was active is.
  lemma RestoreReads(state: TabsState, saved: seq<Tab>, active: Option<TabId>, layout: SavedLayout,
          names: seq<Tab> -> seq<string>)
    returns (tabs: seq<Tab>)
    requires Settled(state) && Allowed(state, Restore(saved, active, layout))
    ensures RootsOk(state.groups) && RootsOk(ApplyAction(state, Restore(saved, active, layout)).groups)
    ensures var r := TabsReducer(state, Restore(saved, active, layout), names);
      && r.activeTabId == active && Shows(r.tabs, tabs, state.tabs, names)
      && multiset(TabIds(tabs)) == multiset(TabIds(saved))
      && forall tab :: tab in tabs ==> exists was :: was in saved && RestoredFrom(tab, was, active)
  {
    hide *;
    var action := Restore(saved, active, layout);
    SettledIsReady(state);
    ReducerKeepsSettled(state, action, names);
    var applied := ApplyAction(state, action);
    ApplyActionIsReady(state, action);
    RestoreIs(state, saved, active, layout);
    ReducedShows(state, action, names);
    SettleSettles(applied);
    RestoredTabsRead(saved, active);
    tabs := Settle(applied).tabs;
  }

  lemma RestoreIs(state: TabsState, saved: seq<Tab>, active: Option<TabId>, layout: SavedLayout)
    requires RootsOk(state.groups)
    ensures ApplyAction(state, Restore(saved, active, layout)).tabs == RestoredTabs(saved, active)
    ensures ApplyAction(state, Restore(saved, active, layout)).activeTabId == active
    ensures TabIds(RestoredTabs(saved, active)) == TabIds(saved)
  {
    hide RestoreTabGroups;
  }

  lemma RestoredTabsRead(saved: seq<Tab>, active: Option<TabId>)
    ensures forall tab :: tab in RestoredTabs(saved, active) ==>
      exists was :: was in saved && RestoredFrom(tab, was, active)
  {
    var r := RestoredTabs(saved, active);
    forall tab | tab in r ensures exists was :: was in saved && RestoredFrom(tab, was, active) {
      var i :| 0 <= i < |r| && r[i] == tab;
      var isActive := active == Some(saved[i].id);
      DefaultsFillIn(saved[i].(isActive := isActive, hasConnected := Some(isActive)));
      assert saved[i] in saved && RestoredFrom(r[i], saved[i], active);
    }
  }
}
