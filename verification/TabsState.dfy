// The reducer behind the tab bar (src/lib/tabsState.ts): its state, its actions
// and the settling pass that follows each of them.
module TabsState {
  import opened Sequences
  import opened PaneTrees
  import opened TabGroups
  import opened PaneMoves
  import opened PaneTemplates
  import opened TabGroupsPersistence
  import opened TabTitles

  datatype TabKind = Terminal | Ssh | Serial | Settings | Tunnels | Logs | RemoteFileEditor

  datatype Tab = Tab(
    id: TabId,
    kind: TabKind,
    title: string,
    isActive: bool,
    hasConnected: Option<bool>,
    sessionNonce: Option<nat>,
    duplicateBaseTitle: Option<string>,
    autoTitle: bool)

  datatype TabsState = TabsState(tabs: seq<Tab>, activeTabId: Option<TabId>, groups: seq<TabGroup>, groupCount: nat)

  datatype RemoveOptions = RemoveOptions(preferredActiveTabId: Option<TabId>, activatePreferred: bool)

  datatype TabsAction =
    | Restore(tabs: seq<Tab>, activeTabId: Option<TabId>, layout: SavedLayout)
    | Add(tab: Tab)
    | OpenPage(tab: Tab)
    | RenamePage(kind: TabKind, title: string)
    | Remove(ids: set<TabId>, options: RemoveOptions)
    | SetActive(id: TabId)
    | Move(fromIndex: int, toIndex: int)
    | Duplicate(sourceId: TabId, newId: TabId, split: Option<Direction>)
    | Rename(id: TabId, title: string)
    | Update(id: TabId, updater: Tab -> Tab)
    | PlaceBeside(id: TabId, targetId: TabId, direction: Direction)
    | Merge(id: TabId, targetId: TabId, direction: Direction)
    | BreakOut(id: TabId, index: Option<int>)
    | Ungroup(id: TabId)
    | Zoom(id: TabId)
    | Resize(groupId: nat, path: seq<int>, sizes: seq<real>)
    | UseTemplate(id: TabId, shape: LayoutShape, newIds: seq<TabId>)

  function TabIds(tabs: seq<Tab>): (r: seq<TabId>)
    ensures |r| == |tabs|
    ensures forall i :: 0 <= i < |tabs| ==> r[i] == tabs[i].id
  {
    seq(|tabs|, i requires 0 <= i < |tabs| => tabs[i].id)
  }

  predicate IsPageTab(tab: Tab) {
    tab.kind.Settings? || tab.kind.Tunnels? || tab.kind.Logs?
  }

  // A page, or the editor of a remote file, runs no session to copy.
  predicate CanCopy(tab: Tab) {
    !IsPageTab(tab) && !tab.kind.RemoteFileEditor?
  }

  function EnsureTabDefaults(tab: Tab): Tab {
    if !CanCopy(tab) then tab.(hasConnected := Some(true), sessionNonce := Some(0))
    else tab.(hasConnected := if tab.hasConnected.Some? then tab.hasConnected else Some(tab.isActive),
              sessionNonce := if tab.sessionNonce.Some? then tab.sessionNonce else Some(0))
  }

  // tabs.findIndex((tab) => tab.id === id)
  function TabIndex(tabs: seq<Tab>, id: TabId): (i: int)
    ensures -1 <= i < |tabs|
    ensures i >= 0 ==> tabs[i].id == id
    ensures i == -1 <==> id !in TabIds(tabs)
  {
    IndexOf(TabIds(tabs), id)
  }

  function KindIndex(tabs: seq<Tab>, kind: TabKind): (i: int)
    ensures -1 <= i < |tabs|
  {
    if tabs == [] then -1
    else if tabs[0].kind == kind then 0
    else
      var rest := KindIndex(tabs[1..], kind);
      if rest == -1 then -1 else rest + 1
  }

  // Every tab active or not as `active` says.
  function MarkedActive(tabs: seq<Tab>, active: Option<TabId>): (r: seq<Tab>)
    ensures |r| == |tabs| && TabIds(r) == TabIds(tabs)
    ensures forall i :: 0 <= i < |r| ==> (r[i].isActive <==> active == Some(r[i].id))
  {
    var r := seq(|tabs|, i requires 0 <= i < |tabs| =>
      var isActive := active == Some(tabs[i].id);
      tabs[i].(isActive := isActive, hasConnected := if isActive then Some(true) else tabs[i].hasConnected));
    assert TabIds(r) == TabIds(tabs);
    r
  }

  function AllInactive(tabs: seq<Tab>): (r: seq<Tab>)
    ensures |r| == |tabs| && TabIds(r) == TabIds(tabs)
    ensures forall i :: 0 <= i < |r| ==> !r[i].isActive
  {
    var r := seq(|tabs|, i requires 0 <= i < |tabs| => tabs[i].(isActive := false));
    assert TabIds(r) == TabIds(tabs);
    r
  }

  function Activate(state: TabsState, id: TabId): TabsState {
    if id !in TabIds(state.tabs) then state
    else state.(activeTabId := Some(id), tabs := MarkedActive(state.tabs, Some(id)))
  }

  // ----- removing tabs -----

  function TabsWithout(tabs: seq<Tab>, ids: set<TabId>): seq<Tab> {
    if tabs == [] then []
    else (if tabs[0].id in ids then [] else [tabs[0]]) + TabsWithout(tabs[1..], ids)
  }

  // The id, if it is one of the tabs'.
  function Among(tabs: seq<Tab>, id: Option<TabId>): (r: Option<TabId>)
    ensures r.Some? ==> r.value in TabIds(tabs)
  {
    if id.Some? && id.value in TabIds(tabs) then id else None
  }

  function OrElse(a: Option<TabId>, b: Option<TabId>): Option<TabId> {
    if a.Some? then a else b
  }

  function RemoveTabsFromState(state: TabsState, ids: set<TabId>, options: RemoveOptions): TabsState {
    var remaining := TabsWithout(state.tabs, ids);
    if forall id :: id in TabIds(state.tabs) ==> id !in ids then state
    else if remaining == [] then state.(tabs := [], activeTabId := None)
    else
      var activeIndex := if state.activeTabId.Some? then TabIndex(state.tabs, state.activeTabId.value) else -1;
      var preferred := Among(remaining, options.preferredActiveTabId);
      var current := Among(remaining, state.activeTabId);
      var fallback := Some(remaining[Clamp(activeIndex, 0, |remaining| - 1)].id);
      var next := OrElse(OrElse(OrElse(if options.activatePreferred then preferred else current, preferred),
                                current), fallback);
      state.(tabs := MarkedActive(remaining, next), activeTabId := next)
  }

  // The first of `groups` that is still there in `next`.
  function FirstSurvivor(groups: seq<TabGroup>, next: seq<TabGroup>): Option<TabGroup> {
    if groups == [] then None
    else if GroupIndex(next, groups[0].id) >= 0 then Some(groups[0])
    else FirstSurvivor(groups[1..], next)
  }

  // Where the focus falls when `activeTabId` is closed. `previous` are the
  // groups before, `next` those after.
  function FallbackTabId(previous: seq<TabGroup>, next: seq<TabGroup>, activeTabId: Option<TabId>): Option<TabId> {
    if next == [] || activeTabId.None? then None
    else
      var index := FindGroup(previous, activeTabId.value);
      if index == -1 then None
      else
        var survivor := GroupIndex(next, previous[index].id);
        if survivor >= 0 then Some(next[survivor].activeTabId)
        else
          match FirstSurvivor(previous[index + 1..], next)
          case Some(after) => Some(after.activeTabId)
          case None => Some(next[|next| - 1].activeTabId)
  }

  // ----- copying tabs -----

  // (nonce + 1) >>> 0
  function NextSessionNonce(nonce: Option<nat>): nat {
    ((if nonce.Some? then nonce.value else 0) + 1) % 0x1_0000_0000
  }

  function Titles(tabs: seq<Tab>): set<string> {
    set tab | tab in tabs :: tab.title
  }

  // The copy runs apart from the original: its session number is another one.
  function DuplicateTabData(source: Tab, newId: TabId, tabs: seq<Tab>): (r: Tab)
    ensures r.id == newId && r.isActive
  {
    // With no base title to count from, a retitling pass numbers it.
    var baseTitle := if source.autoTitle then None
                     else if source.duplicateBaseTitle.Some? then source.duplicateBaseTitle
                     else Some(source.title);
    EnsureTabDefaults(source.(
      id := newId,
      sessionNonce := Some(NextSessionNonce(source.sessionNonce)),
      title := if baseTitle.None? then source.title else DuplicateTitle(baseTitle.value, Titles(tabs)),
      duplicateBaseTitle := baseTitle,
      isActive := true,
      hasConnected := Some(true)))
  }

  function Copies(source: Tab, newIds: seq<TabId>, tabs: seq<Tab>): (r: seq<Tab>)
    ensures |r| == |newIds| && TabIds(r) == newIds
    ensures forall i :: 0 <= i < |r| ==> !r[i].isActive
    decreases |newIds|
  {
    if newIds == [] then []
    else
      var copy := DuplicateTabData(source, newIds[0], tabs).(isActive := false);
      [copy] + Copies(source, newIds[1..], tabs + [copy])
  }

  // The source's loop, which pushes one copy after the other.
  method PushCopies(source: Tab, newIds: seq<TabId>, tabs: seq<Tab>) returns (newTabs: seq<Tab>)
    ensures newTabs == Copies(source, newIds, tabs)
  {
    newTabs := [];
    assert tabs + newTabs == tabs && newIds[0..] == newIds;
    for k := 0 to |newIds|
      invariant newTabs + Copies(source, newIds[k..], tabs + newTabs) == Copies(source, newIds, tabs)
    {
      var copy := DuplicateTabData(source, newIds[k], tabs + newTabs).(isActive := false);
      CopiesStep(source, newIds[k..], tabs + newTabs, copy);
      assert newIds[k..][1..] == newIds[k + 1..];
      Associates(tabs, newTabs, [copy]);
      Associates(newTabs, [copy], Copies(source, newIds[k + 1..], tabs + newTabs + [copy]));
      newTabs := newTabs + [copy];
    }
  }

  lemma CopiesStep(source: Tab, newIds: seq<TabId>, tabs: seq<Tab>, copy: Tab)
    requires newIds != [] && copy == DuplicateTabData(source, newIds[0], tabs).(isActive := false)
    ensures Copies(source, newIds, tabs) == [copy] + Copies(source, newIds[1..], tabs + [copy])
  {
  }

  lemma TitlesWith(tabs: seq<Tab>, tab: Tab)
    ensures Titles(tabs + [tab]) == Titles(tabs) + {tab.title}
  {
    assert tab in tabs + [tab];
    assert forall t :: t in tabs ==> t in tabs + [tab];
  }

  // Titles that none of the others has, and no two alike.
  ghost predicate HaveFreshTitles(tabs: seq<Tab>, titles: set<string>) {
    && (forall i :: 0 <= i < |tabs| ==> tabs[i].title !in titles)
    && (forall i, j :: 0 <= i < j < |tabs| ==> tabs[i].title != tabs[j].title)
  }

  lemma FreshTitlesFirst(tab: Tab, rest: seq<Tab>, titles: set<string>)
    requires tab.title !in titles && HaveFreshTitles(rest, titles + {tab.title})
    ensures HaveFreshTitles([tab] + rest, titles)
  {
  }

  lemma DuplicateHasFreshTitle(source: Tab, newId: TabId, tabs: seq<Tab>)
    requires !source.autoTitle
    ensures DuplicateTabData(source, newId, tabs).title !in Titles(tabs)
  {
    DuplicateTitleIsFree(if source.duplicateBaseTitle.Some? then source.duplicateBaseTitle.value
                         else source.title, Titles(tabs));
  }

  // Copies of a tab the user named get titles no other tab has.
  lemma {:induction false} CopiesHaveFreshTitles(source: Tab, newIds: seq<TabId>, tabs: seq<Tab>)
    requires !source.autoTitle
    ensures HaveFreshTitles(Copies(source, newIds, tabs), Titles(tabs))
    decreases |newIds|
  {
    if newIds != [] {
      var copy := DuplicateTabData(source, newIds[0], tabs).(isActive := false);
      DuplicateHasFreshTitle(source, newIds[0], tabs);
      TitlesWith(tabs, copy);
      CopiesHaveFreshTitles(source, newIds[1..], tabs + [copy]);
      FreshTitlesFirst(copy, Copies(source, newIds[1..], tabs + [copy]), Titles(tabs));
    }
  }

  // ----- one action -----

  function Numbered(groups: seq<RestoredGroup>, from: nat): (r: seq<TabGroup>)
    ensures |r| == |groups|
  {
    if groups == [] then []
    else
      [TabGroup(from, groups[0].root, groups[0].activeTabId, groups[0].zoomedTabId)]
      + Numbered(groups[1..], from + 1)
  }

  function RestoredTabs(tabs: seq<Tab>, active: Option<TabId>): (r: seq<Tab>)
    ensures |r| == |tabs| && TabIds(r) == TabIds(tabs)
    ensures forall i :: 0 <= i < |r| ==> (r[i].isActive <==> active == Some(r[i].id))
  {
    var r := seq(|tabs|, i requires 0 <= i < |tabs| =>
      var isActive := active == Some(tabs[i].id);
      EnsureTabDefaults(tabs[i].(isActive := isActive, hasConnected := Some(isActive))));
    assert TabIds(r) == TabIds(tabs);
    r
  }

  function ResizedGroups(groups: seq<TabGroup>, groupId: nat, path: seq<int>, sizes: seq<real>): (r: seq<TabGroup>)
    ensures |r| == |groups|
  {
    seq(|groups|, i requires 0 <= i < |groups| =>
      if groups[i].id == groupId then groups[i].(root := ResizeSplit(groups[i].root, path, sizes)) else groups[i])
  }

  function MapTabs(tabs: seq<Tab>, f: Tab -> Tab): (r: seq<Tab>)
    ensures |r| == |tabs|
    ensures forall i :: 0 <= i < |tabs| ==> r[i] == f(tabs[i])
  {
    seq(|tabs|, i requires 0 <= i < |tabs| => f(tabs[i]))
  }

  function ApplyRestore(tabs: seq<Tab>, activeTabId: Option<TabId>, layout: SavedLayout): TabsState {
    var groups := Numbered(RestoreTabGroups(layout, TabIds(tabs)), 1);
    TabsState(RestoredTabs(tabs, activeTabId), activeTabId, groups, |groups|)
  }

  function ApplyAdd(state: TabsState, tab: Tab): TabsState {
    state.(activeTabId := Some(tab.id), tabs := AllInactive(state.tabs) + [tab])
  }

  function ApplyRemove(state: TabsState, ids: set<TabId>, options: RemoveOptions): TabsState
    requires RootsOk(state.groups)
  {
    var groups := RemoveTabsFromGroups(state.groups, ids);
    var preferred := OrElse(options.preferredActiveTabId, FallbackTabId(state.groups, groups, state.activeTabId));
    RemoveTabsFromState(state, ids, options.(preferredActiveTabId := preferred)).(groups := groups)
  }

  function ApplyDuplicate(state: TabsState, sourceId: TabId, newId: TabId, split: Option<Direction>): TabsState
    requires RootsOk(state.groups)
  {
    var source := TabIndex(state.tabs, sourceId);
    if source == -1 || !CanCopy(state.tabs[source]) then state
    else
      var newTab := DuplicateTabData(state.tabs[source], newId, state.tabs);
      var index := FindGroup(state.groups, sourceId);
      var groups :=
        if split.None? || index == -1 then state.groups
        else
          var group := state.groups[index];
          state.groups[index :=
            group.(root := InsertNextTo(group.root, sourceId, Pane(newId), split.value), zoomedTabId := None)];
      TabsState(AllInactive(state.tabs) + [newTab], Some(newId), groups, state.groupCount)
  }

  function ApplyMerge(state: TabsState, id: TabId, targetId: TabId, direction: Direction): TabsState
    requires RootsOk(state.groups)
  {
    match MergeGroup(state.groups, id, targetId, direction)
    case None => state
    case Some(groups) =>
      var merged := FindGroup(groups, targetId);
      if merged == -1 then state else Activate(state.(groups := groups), groups[merged].activeTabId)
  }

  function ApplyPlace(state: TabsState, id: TabId, targetId: TabId, direction: Direction): TabsState
    requires RootsOk(state.groups)
  {
    Activate(state.(groups := PlacePane(state.groups, id, targetId, direction)), id)
  }

  function ApplyBreakOut(state: TabsState, id: TabId, index: Option<int>): TabsState
    requires RootsOk(state.groups)
  {
    match BreakOutPane(state.groups, id, state.groupCount + 1, index)
    case None => state
    case Some(groups) => Activate(state.(groups := groups, groupCount := state.groupCount + 1), id)
  }

  // Applies a template to the group of `id`. Copies of that tab stand in for
  // panes it lacks, if it can be copied.
  function ApplyUseTemplate(state: TabsState, id: TabId, shape: LayoutShape, newIds: seq<TabId>): TabsState {
    var source := TabIndex(state.tabs, id);
    if source == -1 then state
    else
      var more := if CanCopy(state.tabs[source]) then newIds else [];
      match ApplyTemplate(state.groups, id, shape, more, state.groupCount)
      case None => state
      case Some(laidOut) =>
        var newTabs := Copies(state.tabs[source], more, state.tabs);
        Activate(TabsState(state.tabs + newTabs, state.activeTabId, laidOut.groups, laidOut.groupCount), id)
  }

  function ApplyAction(state: TabsState, action: TabsAction): TabsState
    requires RootsOk(state.groups)
  {
    match action
    case Restore(tabs, activeTabId, layout) => ApplyRestore(tabs, activeTabId, layout)
    case Add(tab) => ApplyAdd(state, tab.(isActive := true, hasConnected := Some(true)))
    case OpenPage(tab) =>
      var existing := KindIndex(state.tabs, tab.kind);
      if existing >= 0 then Activate(state, state.tabs[existing].id) else ApplyAdd(state, tab.(isActive := true))
    case RenamePage(kind, title) =>
      state.(tabs := MapTabs(state.tabs, (tab: Tab) => if tab.kind == kind then tab.(title := title) else tab))
    case Remove(ids, options) => ApplyRemove(state, ids, options)
    case SetActive(id) => Activate(state, id)
    case Move(fromIndex, toIndex) => state.(groups := MoveGroup(state.groups, fromIndex, toIndex))
    case Duplicate(sourceId, newId, split) => ApplyDuplicate(state, sourceId, newId, split)
    case Rename(id, title) =>
      state.(tabs := MapTabs(state.tabs, (tab: Tab) =>
        if tab.id == id then tab.(title := title, duplicateBaseTitle := None, autoTitle := false) else tab))
    case Update(id, updater) =>
      state.(tabs := MapTabs(state.tabs, (tab: Tab) =>
        if tab.id != id then tab
        else
          var updated := EnsureTabDefaults(updater(tab));
          updated.(isActive := Some(updated.id) == state.activeTabId)))
    case PlaceBeside(id, targetId, direction) => ApplyPlace(state, id, targetId, direction)
    case Merge(id, targetId, direction) => ApplyMerge(state, id, targetId, direction)
    case BreakOut(id, index) => ApplyBreakOut(state, id, index)
    case Ungroup(id) =>
      var ungrouped := UngroupPanes(state.groups, id, state.groupCount);
      state.(groups := ungrouped.groups, groupCount := ungrouped.groupCount)
    case Zoom(id) => Activate(state.(groups := ToggleZoom(state.groups, id)), id)
    case Resize(groupId, path, sizes) => state.(groups := ResizedGroups(state.groups, groupId, path, sizes))
    case UseTemplate(id, shape, newIds) => ApplyUseTemplate(state, id, shape, newIds)
  }

  // ----- settling -----

  function TabsInOrder(order: seq<TabId>, tabs: seq<Tab>): seq<Tab> {
    if order == [] then []
    else
      var index := TabIndex(tabs, order[0]);
      (if index == -1 then [] else [tabs[index]]) + TabsInOrder(order[1..], tabs)
  }

  // Runs after every action: reconciles the groups with the tabs, focuses the
  // active one and sorts the tabs as the groups have them.
  function Settle(state: TabsState): TabsState
    requires RootsOk(state.groups)
  {
    var reconciled := Reconciled(state.groups, TabIds(state.tabs), state.groupCount);
    var groups := if state.activeTabId.Some? then FocusPane(reconciled.groups, state.activeTabId.value)
        else reconciled.groups;
    var order := Order(groups);
    var inOrder := order <= TabIds(state.tabs);
    TabsState(if inOrder then state.tabs
              else TabsInOrder(order, state.tabs), state.activeTabId, groups, reconciled.groupCount)
  }

  // Titles of their own for the tabs named automatically; nothing else changes.
  function Retitled(tabs: seq<Tab>, names: seq<Tab> -> seq<string>): (r: seq<Tab>)
    ensures |r| == |tabs|
    ensures forall i :: 0 <= i < |r| ==> r[i] == tabs[i].(title := r[i].title)
  {
    var titles := names(tabs);
    seq(|tabs|, i requires 0 <= i < |tabs| => if i < |titles| then tabs[i].(title := titles[i]) else tabs[i])
  }

  function TabsReducer(state: TabsState, action: TabsAction, names: seq<Tab> -> seq<string>): TabsState
    requires RootsOk(state.groups) && RootsOk(ApplyAction(state, action).groups)
  {
    var next := Settle(ApplyAction(state, action));
    if next.tabs == state.tabs then next else next.(tabs := Retitled(next.tabs, names))
  }
}
