// What the actions of the reducer do, besides keeping the workspace settled:
// which tabs there are, in which order, and under which group ids
// (src/lib/tabsState.ts).
module TabsStateEffects {
  import opened Sequences
  import opened PaneTrees
  import opened PaneGeometry
  import opened TabGroups
  import opened PaneMoves
  import opened PaneTemplates
  import opened TabGroupsPersistence
  import opened TabsState
  import opened TabsStateProofs

  // ----- which tabs there are -----

  // The template has a pane for each copy, and each pane of the bar's tab a place.
  predicate TemplateFits(state: TabsState, id: TabId, shape: LayoutShape, more: seq<TabId>) {
    var index := FindGroup(state.groups, id);
    index >= 0 && |Panes(state.groups[index])| + |more| >= CountPanes(shape)
  }

  // The copies a template opens: of a session tab, and only when it fits.
  function TemplateAdds(state: TabsState, id: TabId, shape: LayoutShape, newIds: seq<TabId>): seq<TabId> {
    var source := TabIndex(state.tabs, id);
    if source >= 0 && CanCopy(state.tabs[source]) && TemplateFits(state, id, shape, newIds) then newIds else []
  }

  ghost function TabsAfter(state: TabsState, action: TabsAction): multiset<TabId> {
    var tabs := multiset(TabIds(state.tabs));
    match action
    case Restore(restored, _, _) => multiset(TabIds(restored))
    case Add(tab) => tabs + multiset{tab.id}
    case OpenPage(tab) => if exists t :: t in state.tabs && t.kind == tab.kind then tabs else tabs + multiset{tab.id}
    case Remove(ids, _) => multiset(Without(TabIds(state.tabs), ids))
    case Duplicate(sourceId, newId, _) =>
      var source := TabIndex(state.tabs, sourceId);
      if source >= 0 && CanCopy(state.tabs[source]) then tabs + multiset{newId} else tabs
    case UseTemplate(id, shape, newIds) => tabs + multiset(TemplateAdds(state, id, shape, newIds))
    case _ => tabs
  }

  lemma {:induction false} KindIndexFinds(tabs: seq<Tab>, kind: TabKind)
    ensures KindIndex(tabs, kind) >= 0 <==> exists t :: t in tabs && t.kind == kind
  {
    if tabs != [] {
      KindIndexFinds(tabs[1..], kind);
      assert tabs == [tabs[0]] + tabs[1..];
      assert tabs[0] in tabs;
    }
  }

  lemma TemplateAppliesWhenItFits(state: TabsState, id: TabId, shape: LayoutShape, more: seq<TabId>)
    requires Settled(state) && ShapeHasPanes(shape) && id in TabIds(state.tabs)
    ensures ApplyTemplate(state.groups, id, shape, more, state.groupCount).Some?
            <==> TemplateFits(state, id, shape, more)
  {
    hide KeptPanes;
    hide LaidOut;
    SettledPanes(state, id);
    hide Settled;
    ShapeHoldsAPane(shape);
    KeptPanesFill(Panes(state.groups[FindGroup(state.groups, id)]), id, CountPanes(shape));
  }

  lemma SettledPanes(state: TabsState, id: TabId)
    requires Settled(state) && id in TabIds(state.tabs)
    ensures var index := FindGroup(state.groups, id);
      index >= 0 && Distinct(Panes(state.groups[index])) && id in Panes(state.groups[index])
  {
    PanesAreInOrder(state.groups, FindGroup(state.groups, id));
  }

  lemma OpenedPageTabs(state: TabsState, tab: Tab)
    requires Settled(state) && RootsOk(state.groups) && tab.id !in TabIds(state.tabs)
    ensures multiset(TabIds(ApplyAction(state, OpenPage(tab)).tabs)) == TabsAfter(state, OpenPage(tab))
  {
    hide GroupsOk;
    hide RootsOk;
    hide Order;
    hide FindGroup;
    hide KindIndex;
    hide TabIds;
    KindIndexFinds(state.tabs, tab.kind);
    var existing := KindIndex(state.tabs, tab.kind);
    if existing < 0 {
      ApplyAddIsReady(state, tab.(isActive := true));
    } else {
      ActivateKeepsTabs(state, state.tabs[existing].id);
    }
  }

  lemma ActivateKeepsTabs(state: TabsState, id: TabId)
    ensures TabIds(Activate(state, id).tabs) == TabIds(state.tabs)
    ensures Activate(state, id).groups == state.groups && Activate(state, id).groupCount == state.groupCount
  {
  }

  lemma TemplateTabs(state: TabsState, id: TabId, shape: LayoutShape, newIds: seq<TabId>, more: seq<TabId>)
    requires Settled(state) && ShapeHasPanes(shape) && id in TabIds(state.tabs)
    requires more == if CanCopy(state.tabs[TabIndex(state.tabs, id)]) then newIds else []
    ensures TabIds(ApplyUseTemplate(state, id, shape, newIds).tabs)
         == TabIds(state.tabs) + if TemplateFits(state, id, shape, more) then more else []
  {
    hide Settled;
    hide ShapeHasPanes;
    hide ApplyTemplate;
    hide TemplateFits;
    hide Activate;
    var source := TabIndex(state.tabs, id);
    TemplateAppliesWhenItFits(state, id, shape, more);
    var template := ApplyTemplate(state.groups, id, shape, more, state.groupCount);
    if template.Some? {
      var copies := Copies(state.tabs[source], more, state.tabs);
      TabIdsAppend(state.tabs, copies);
      ActivateKeepsTabs(TabsState(state.tabs + copies, state.activeTabId, template.value.groups,
                                  template.value.groupCount), id);
    }
  }

  lemma CopiedTabs(state: TabsState, id: TabId, shape: LayoutShape, newIds: seq<TabId>)
    requires Settled(state) && ShapeHasPanes(shape)
    ensures TabIds(ApplyUseTemplate(state, id, shape, newIds).tabs)
            == TabIds(state.tabs) + TemplateAdds(state, id, shape, newIds)
  {
    var source := TabIndex(state.tabs, id);
    if source >= 0 {
      TemplateTabs(state, id, shape, newIds, if CanCopy(state.tabs[source]) then newIds else []);
    }
  }

  lemma PlacingKeepsTabs(state: TabsState, id: TabId, targetId: TabId, direction: Direction)
    requires RootsOk(state.groups)
    ensures TabIds(ApplyPlace(state, id, targetId, direction).tabs) == TabIds(state.tabs)
  {
    hide PlacePane;
    ActivateKeepsTabs(state.(groups := PlacePane(state.groups, id, targetId, direction)), id);
  }

  lemma MergingKeepsTabs(state: TabsState, id: TabId, targetId: TabId, direction: Direction)
    requires RootsOk(state.groups)
    ensures TabIds(ApplyMerge(state, id, targetId, direction).tabs) == TabIds(state.tabs)
  {
    hide MergeGroup;
    hide FindGroup;
    hide Activate;
    var merged := MergeGroup(state.groups, id, targetId, direction);
    if merged.Some? {
      var index := FindGroup(merged.value, targetId);
      if index != -1 {
        ActivateKeepsTabs(state.(groups := merged.value), merged.value[index].activeTabId);
      }
    }
  }

  lemma BreakingOutKeepsTabs(state: TabsState, id: TabId, index: Option<int>)
    requires RootsOk(state.groups)
    ensures TabIds(ApplyBreakOut(state, id, index).tabs) == TabIds(state.tabs)
  {
    hide BreakOutPane;
    hide Activate;
    var broken := BreakOutPane(state.groups, id, state.groupCount + 1, index);
    if broken.Some? {
      ActivateKeepsTabs(state.(groups := broken.value, groupCount := state.groupCount + 1), id);
    }
  }

  predicate MovesPanes(action: TabsAction) {
    || action.PlaceBeside? || action.Merge? || action.BreakOut?
    || action.Move? || action.Ungroup? || action.Zoom? || action.Resize?
  }

  // The actions that move panes about leave the tabs alone.
  lemma MovesKeepTabs(state: TabsState, action: TabsAction)
    requires RootsOk(state.groups) && MovesPanes(action)
    ensures TabIds(ApplyAction(state, action).tabs) == TabIds(state.tabs)
  {
    hide RootsOk;
    hide ApplyPlace;
    hide ApplyMerge;
    hide ApplyBreakOut;
    hide Activate;
    hide TabIds;
    match action {
      case PlaceBeside(id, targetId, direction) => PlacingKeepsTabs(state, id, targetId, direction);
      case Merge(id, targetId, direction) => MergingKeepsTabs(state, id, targetId, direction);
      case BreakOut(id, index) => BreakingOutKeepsTabs(state, id, index);
      case Zoom(id) => ActivateKeepsTabs(state.(groups := ToggleZoom(state.groups, id)), id);
      case _ =>
    }
  }

  lemma RestoredOrNewTabs(state: TabsState, action: TabsAction)
    requires Settled(state) && RootsOk(state.groups) && Allowed(state, action)
    requires action.Restore? || action.Add? || action.OpenPage?
    ensures multiset(TabIds(ApplyAction(state, action).tabs)) == TabsAfter(state, action)
  {
    match action {
      case Restore(tabs, activeTabId, layout) => ApplyRestoreIsReady(tabs, activeTabId, layout);
      case Add(tab) => ApplyAddIsReady(state, tab.(isActive := true, hasConnected := Some(true)));
      case OpenPage(tab) => OpenedPageTabs(state, tab);
    }
  }

  lemma RemovedOrCopiedTabs(state: TabsState, action: TabsAction)
    requires Settled(state) && RootsOk(state.groups) && Allowed(state, action)
    requires action.Remove? || action.Duplicate? || action.UseTemplate?
    ensures multiset(TabIds(ApplyAction(state, action).tabs)) == TabsAfter(state, action)
  {
    hide Settled;
    hide RootsOk;
    hide ApplyRemove;
    hide ApplyDuplicate;
    hide ApplyUseTemplate;
    hide TabIds;
    match action {
      case Remove(ids, options) => ApplyRemoveIsReady(state, ids, options);
      case Duplicate(sourceId, newId, split) => ApplyDuplicateIsReady(state, sourceId, newId, split);
      case UseTemplate(id, shape, newIds) => CopiedTabs(state, id, shape, newIds);
    }
  }

  lemma AppliedTabs(state: TabsState, action: TabsAction)
    requires Settled(state) && RootsOk(state.groups) && Allowed(state, action)
    ensures multiset(TabIds(ApplyAction(state, action).tabs)) == TabsAfter(state, action)
  {
    if action.Restore? || action.Add? || action.OpenPage? {
      RestoredOrNewTabs(state, action);
    } else if action.Remove? || action.Duplicate? || action.UseTemplate? {
      RemovedOrCopiedTabs(state, action);
    } else if action.RenamePage? || action.Rename? || action.Update? {
      ApplyToTabsIsReady(state, action);
    } else if action.SetActive? {
      ActivateKeepsTabs(state, action.id);
    } else {
      MovesKeepTabs(state, action);
    }
  }

  // No action loses a tab or makes one up: exactly the tabs it is meant to
  // add or remove come or go.
  lemma ReducerKeepsTabs(state: TabsState, action: TabsAction, names: seq<Tab> -> seq<string>)
    requires Settled(state) && Allowed(state, action)
    ensures RootsOk(state.groups) && RootsOk(ApplyAction(state, action).groups)
    ensures multiset(TabIds(TabsReducer(state, action, names).tabs)) == TabsAfter(state, action)
  {
    ReducerKeepsSettled(state, action, names);
    AppliedTabs(state, action);
  }

  // ----- in which order -----

  lemma ReducedOrder(state: TabsState, action: TabsAction, names: seq<Tab> -> seq<string>)
    requires Settled(state) && Allowed(state, action)
    requires RootsOk(state.groups) && RootsOk(ApplyAction(state, action).groups)
    requires var applied := ApplyAction(state, action);
      multiset(Order(applied.groups)) == multiset(TabIds(applied.tabs))
    ensures TabIds(TabsReducer(state, action, names).tabs) == Order(ApplyAction(state, action).groups)
    ensures TabsReducer(state, action, names).groupCount == ApplyAction(state, action).groupCount
    ensures TabsReducer(state, action, names).activeTabId == ApplyAction(state, action).activeTabId
  {
    ApplyActionIsReady(state, action);
    SettleKeepsMatching(ApplyAction(state, action));
    RetitledKeepsIds(Settle(ApplyAction(state, action)).tabs, names);
  }

  lemma RetitledKeepsIds(tabs: seq<Tab>, names: seq<Tab> -> seq<string>)
    ensures TabIds(Retitled(tabs, names)) == TabIds(tabs)
  {
  }

  // A pane placed beside another is listed right next to it, is focused, and
  // changes no other tab's place.
  lemma PlaceBesideMovesOneTab(state: TabsState, id: TabId, targetId: TabId, direction: Direction,
          names: seq<Tab> -> seq<string>)
    requires Settled(state) && id in TabIds(state.tabs) && targetId in TabIds(state.tabs) && id != targetId
    ensures RootsOk(state.groups) && RootsOk(ApplyAction(state, PlaceBeside(id, targetId, direction)).groups)
    ensures var r := TabsReducer(state, PlaceBeside(id, targetId, direction), names);
      && TabIds(r.tabs) == SplicedIds(Without(TabIds(state.tabs), {id}), targetId, [id], IsBefore(direction))
      && r.activeTabId == Some(id)
  {
    var action := PlaceBeside(id, targetId, direction);
    ReducerKeepsSettled(state, action, names);
    ApplyPlaceIsReady(state, id, targetId, direction);
    PlacePaneMovesOnePane(state.groups, state.groupCount, id, targetId, direction);
    ReducedOrder(state, action, names);
  }

  // A tab of the bar merged into another takes its panes along in their order.
  lemma MergeMovesOneGroup(state: TabsState, id: TabId, targetId: TabId, direction: Direction,
          names: seq<Tab> -> seq<string>)
    requires Settled(state) && id in TabIds(state.tabs) && targetId in TabIds(state.tabs)
    requires FindGroup(state.groups, id) != FindGroup(state.groups, targetId)
    ensures RootsOk(state.groups) && RootsOk(ApplyAction(state, Merge(id, targetId, direction)).groups)
    ensures var r := TabsReducer(state, Merge(id, targetId, direction), names);
      var moved := Panes(state.groups[FindGroup(state.groups, id)]);
      TabIds(r.tabs) == SplicedIds(Without(TabIds(state.tabs), ToSet(moved)), targetId, moved, IsBefore(direction))
  {
    var action := Merge(id, targetId, direction);
    ReducerKeepsSettled(state, action, names);
    MergedOrder(state, id, targetId, direction);
    ReducedOrder(state, action, names);
  }

  lemma MergedOrder(state: TabsState, id: TabId, targetId: TabId, direction: Direction)
    requires Settled(state) && RootsOk(state.groups) && id in TabIds(state.tabs) && targetId in TabIds(state.tabs)
    requires FindGroup(state.groups, id) != FindGroup(state.groups, targetId)
    ensures var applied := ApplyMerge(state, id, targetId, direction);
      var moved := Panes(state.groups[FindGroup(state.groups, id)]);
      && Order(applied.groups)
         == SplicedIds(Without(TabIds(state.tabs), ToSet(moved)), targetId, moved, IsBefore(direction))
      && multiset(Order(applied.groups)) == multiset(TabIds(applied.tabs))
  {
    MergeGroupMovesOneGroup(state.groups, state.groupCount, id, targetId, direction);
    var merged := MergeGroup(state.groups, id, targetId, direction).value;
    SameValues(Order(merged), Order(state.groups));
    assert targetId in ToSet(Order(merged));
    var index := FindGroup(merged, targetId);
    ActivateKeepsTabs(state.(groups := merged), merged[index].activeTabId);
  }

  // A pane broken out is listed right after the panes of the group it leaves,
  // or where the bar's tabs up to the index asked for end; it is focused, and
  // no other tab changes places. A lone pane stays where it is.
  lemma BreakOutMovesOneTab(state: TabsState, id: TabId, index: Option<int>, names: seq<Tab> -> seq<string>)
    requires Settled(state) && id in TabIds(state.tabs)
    ensures RootsOk(state.groups) && RootsOk(ApplyAction(state, BreakOut(id, index)).groups)
    ensures FindGroup(state.groups, id) >= 0
    ensures var r, groups, source := TabsReducer(state, BreakOut(id, index), names), state.groups,
            FindGroup(state.groups, id);
      var at := if index.None? then source + 1 else Clamp(index.value, 0, |groups|);
      if |Panes(groups[source])| < 2 then TabIds(r.tabs) == TabIds(state.tabs) && r.activeTabId == state.activeTabId
      else
        && TabIds(r.tabs) == Without(Order(groups[..at]), {id}) + [id] + Without(Order(groups[at..]), {id})
        && r.activeTabId == Some(id)
  {
    hide ApplyBreakOut;
    hide BreakOutPane;
    hide Without;
    hide GroupsOk;
    ReadyHasRootsOk(state);
    var action := BreakOut(id, index);
    var groups, applied := state.groups, ApplyBreakOut(state, id, index);
    ReducerKeepsSettled(state, action, names);
    BrokenOutState(state, id, index);
    BrokenOutHasTheTabs(state, id, index);
    ReducedOrder(state, action, names);
    if |Panes(groups[FindGroup(groups, id)])| >= 2 {
      BrokenOutOrder(state, id, index);
    }
  }

  lemma BrokenOutOrder(state: TabsState, id: TabId, index: Option<int>)
    requires Settled(state) && RootsOk(state.groups) && id in TabIds(state.tabs)
    requires FindGroup(state.groups, id) >= 0 && |Panes(state.groups[FindGroup(state.groups, id)])| >= 2
    ensures var groups := state.groups;
      var at := if index.None? then FindGroup(groups, id) + 1 else Clamp(index.value, 0, |groups|);
      Order(ApplyBreakOut(state, id, index).groups)
          == Without(Order(groups[..at]), {id}) + [id] + Without(Order(groups[at..]), {id})
  {
    hide ApplyBreakOut;
    hide BreakOutPane;
    hide Without;
    hide GroupsOk;
    hide RootsOk;
    BrokenOutState(state, id, index);
    BreakOutPaneOrder(state.groups, state.groupCount, id, index);
  }

  lemma BrokenOutHasTheTabs(state: TabsState, id: TabId, index: Option<int>)
    requires Settled(state) && RootsOk(state.groups) && id in TabIds(state.tabs)
    ensures multiset(Order(ApplyBreakOut(state, id, index).groups))
            == multiset(TabIds(ApplyBreakOut(state, id, index).tabs))
  {
    hide ApplyBreakOut;
    hide BreakOutPane;
    hide GroupsOk;
    hide RootsOk;
    BrokenOutState(state, id, index);
    BreakingOutKeepsTabs(state, id, index);
    if |Panes(state.groups[FindGroup(state.groups, id)])| >= 2 {
      BreakOutPaneKeepsPanes(state.groups, state.groupCount, id, index);
    }
  }

  lemma BrokenOutState(state: TabsState, id: TabId, index: Option<int>)
    requires RootsOk(state.groups) && id in TabIds(state.tabs) && FindGroup(state.groups, id) >= 0
    ensures var applied, broken := ApplyBreakOut(state, id, index),
            BreakOutPane(state.groups, id, state.groupCount + 1, index);
      if |Panes(state.groups[FindGroup(state.groups, id)])| < 2 then applied == state
      else broken.Some? && applied.groups == broken.value && applied.activeTabId == Some(id)
  {
    hide BrokenOut;
    hide RemoveTabsFromGroups;
  }

  // A tab of the bar moved along it takes its panes along; no other tab of
  // the bar changes places among the rest, and the focus stays.
  lemma MoveMovesOneGroup(state: TabsState, fromIndex: nat, toIndex: nat, names: seq<Tab> -> seq<string>)
    requires Settled(state) && fromIndex < |state.groups| && toIndex < |state.groups|
    ensures RootsOk(state.groups) && RootsOk(ApplyAction(state, Move(fromIndex, toIndex)).groups)
    ensures var r := TabsReducer(state, Move(fromIndex, toIndex), names);
      var rest := state.groups[..fromIndex] + state.groups[fromIndex + 1..];
      && TabIds(r.tabs) == Order(rest[..toIndex]) + Panes(state.groups[fromIndex]) + Order(rest[toIndex..])
      && r.activeTabId == state.activeTabId
  {
    var action := Move(fromIndex, toIndex);
    ReducerKeepsSettled(state, action, names);
    MoveGroupKeepsPanes(state.groups, state.groupCount, fromIndex, toIndex);
    ReducedOrder(state, action, names);
    MovedOrder(state.groups, fromIndex, toIndex);
  }

  lemma MovedOrder(groups: seq<TabGroup>, fromIndex: nat, toIndex: nat)
    requires fromIndex < |groups| && toIndex < |groups|
    ensures var rest := groups[..fromIndex] + groups[fromIndex + 1..];
      Order(MoveGroup(groups, fromIndex, toIndex))
          == Order(rest[..toIndex]) + Panes(groups[fromIndex]) + Order(rest[toIndex..])
  {
    var rest := groups[..fromIndex] + groups[fromIndex + 1..];
    if fromIndex == toIndex {
      assert rest[..toIndex] + [groups[fromIndex]] + rest[toIndex..] == groups;
    }
    OrderOfThree(rest[..toIndex], groups[fromIndex], rest[toIndex..]);
  }

  lemma AppliedKeepsOrder(state: TabsState, action: TabsAction)
    requires Settled(state) && RootsOk(state.groups) && Allowed(state, action)
    requires action.Ungroup? || action.Zoom? || action.Resize? || action.RenamePage? || action.Rename?
             || action.Update? || action.SetActive?
    ensures Order(ApplyAction(state, action).groups) == TabIds(state.tabs) == TabIds(ApplyAction(state, action).tabs)
  {
    hide RootsOk;
    hide GroupsOk;
    hide Order;
    hide TabIds;
    hide Activate;
    hide ToggleZoom;
    hide UngroupPanes;
    match action {
      case Ungroup(id) => UngroupPanesKeepsOrder(state.groups, state.groupCount, id);
      case Zoom(id) =>
        ToggleZoomKeepsPanes(state.groups, state.groupCount, id);
        ActivateKeepsTabs(state.(groups := ToggleZoom(state.groups, id)), id);
      case Resize(groupId, path, sizes) => ResizedGroupsKeepPanes(state.groups, state.groupCount, groupId, path, sizes);
      case SetActive(id) => ActivateIsReady(state, id);
      case _ => ApplyToTabsIsReady(state, action);
    }
  }

  // Ungrouping, zooming, resizing, renaming and focusing reorder nothing.
  lemma OtherActionsKeepTheOrder(state: TabsState, action: TabsAction, names: seq<Tab> -> seq<string>)
    requires Settled(state) && Allowed(state, action)
    requires action.Ungroup? || action.Zoom? || action.Resize? || action.RenamePage? || action.Rename?
             || action.Update? || action.SetActive?
    ensures RootsOk(state.groups) && RootsOk(ApplyAction(state, action).groups)
    ensures TabIds(TabsReducer(state, action, names).tabs) == TabIds(state.tabs)
  {
    ReducerKeepsSettled(state, action, names);
    AppliedKeepsOrder(state, action);
    ReducedOrder(state, action, names);
  }

  // ----- under which group ids -----

  // Every group has an id in use before, or one never handed out.
  ghost predicate KeepsIds(groups: seq<TabGroup>, groupCount: nat, result: seq<TabGroup>) {
    forall g :: g in result ==> g.id in GroupIds(groups) || g.id > groupCount
  }

  lemma KeepsIdsThrough(groups: seq<TabGroup>, groupCount: nat, middle: seq<TabGroup>, middleCount: nat,
          result: seq<TabGroup>)
    requires KeepsIds(groups, groupCount, middle) && groupCount <= middleCount && KeepsIds(middle, middleCount, result)
    ensures KeepsIds(groups, groupCount, result)
  {
    forall g | g in result ensures g.id in GroupIds(groups) || g.id > groupCount {
      if g.id in GroupIds(middle) {
        var m :| m in middle && m.id == g.id;
      }
    }
  }

  lemma UpdateKeepsIds(groups: seq<TabGroup>, groupCount: nat, index: nat, group: TabGroup)
    requires index < |groups| && group.id == groups[index].id
    ensures KeepsIds(groups, groupCount, groups[index := group])
  {
    SameIdsAfterUpdate(groups, index, group);
  }

  lemma SinglesHaveNewIds(tabIds: seq<TabId>, groupCount: nat)
    ensures forall g :: g in Singles(tabIds, groupCount) ==> g.id > groupCount
  {
    SinglesAreOk(tabIds, groupCount);
  }

  lemma SettleKeepsIds(state: TabsState)
    requires Ready(state) && RootsOk(state.groups)
    ensures KeepsIds(state.groups, state.groupCount, Settle(state).groups)
  {
    var ids := TabIds(state.tabs);
    var stale := StaleIds(Order(state.groups), ToSet(ids), {});
    var kept := if stale != {} then RemoveTabsFromGroups(state.groups, stale) else state.groups;
    RemoveTabsKeepsTheRest(state.groups, stale, state.groupCount);
    SinglesHaveNewIds(Without(ids, ToSet(Order(kept))), state.groupCount);
    var reconciled := Reconciled(state.groups, ids, state.groupCount);
    assert KeepsIds(state.groups, state.groupCount, reconciled.groups);
    if state.activeTabId.Some? {
      var index := FindGroup(reconciled.groups, state.activeTabId.value);
      if index >= 0 {
        UpdateKeepsIds(reconciled.groups, state.groupCount, index,
                       FocusPane(reconciled.groups, state.activeTabId.value)[index]);
      }
      KeepsIdsThrough(state.groups, state.groupCount, reconciled.groups, state.groupCount, Settle(state).groups);
    }
  }

  lemma {:induction false} UngroupedIds(panes: seq<TabId>, active: TabId, id: nat, groupCount: nat)
    ensures var r := UngroupedPanes(panes, active, id, groupCount);
      && r.groupCount >= groupCount
      && forall g :: g in r.groups ==> g.id == id || g.id > groupCount
  {
    if panes != [] {
      UngroupedIds(panes[1..], active, id, if panes[0] == active then groupCount else groupCount + 1);
    }
  }

  lemma PartsKeepIds(groups: seq<TabGroup>, groupCount: nat, index: nat, more: seq<TabGroup>)
    requires index < |groups| && forall g :: g in more ==> g.id == groups[index].id || g.id > groupCount
    ensures KeepsIds(groups, groupCount, groups[..index] + more + groups[index + 1..])
  {
    assert groups[index] in groups;
  }

  lemma PlaceKeepsIds(groups: seq<TabGroup>, groupCount: nat, tabId: TabId, target: TabId, direction: Direction)
    requires GroupsOk(groups, groupCount) && RootsOk(groups)
    ensures KeepsIds(groups, groupCount, PlacePane(groups, tabId, target, direction))
  {
    if tabId != target && FindGroup(groups, target) >= 0 {
      RemoveTabsKeepsTheRest(groups, {tabId}, groupCount);
      RemoveTabsKeepsCanonical(groups, {tabId});
      var without := RemoveTabsFromGroups(groups, {tabId});
      var placed := PlaceInEach(without, tabId, target, direction);
      forall i | 0 <= i < |placed| ensures placed[i].id in GroupIds(groups) {
        assert without[i] in without && without[i].id in GroupIds(without);
      }
    }
  }

  lemma MergeKeepsIds(groups: seq<TabGroup>, groupCount: nat, tabId: TabId, target: TabId, direction: Direction)
    requires RootsOk(groups) && MergeGroup(groups, tabId, target, direction).Some?
    ensures KeepsIds(groups, groupCount, MergeGroup(groups, tabId, target, direction).value)
  {
    var source, at := FindGroup(groups, tabId), FindGroup(groups, target);
    var merged := WithBeside(groups[at], target, groups[source].root, direction, groups[source].activeTabId);
    UpdateKeepsIds(groups, groupCount, at, merged);
  }

  lemma UngroupKeepsIds(groups: seq<TabGroup>, groupCount: nat, id: TabId)
    ensures KeepsIds(groups, groupCount, UngroupPanes(groups, id, groupCount).groups)
    ensures UngroupPanes(groups, id, groupCount).groupCount >= groupCount
  {
    var index := FindGroup(groups, id);
    if index >= 0 {
      var group := groups[index];
      UngroupedIds(Panes(group), group.activeTabId, group.id, groupCount);
      PartsKeepIds(groups, groupCount, index,
                   UngroupedPanes(Panes(group), group.activeTabId, group.id, groupCount).groups);
    }
  }

  lemma ResizeKeepsIds(groups: seq<TabGroup>, groupCount: nat, groupId: nat, path: seq<int>, sizes: seq<real>)
    ensures KeepsIds(groups, groupCount, ResizedGroups(groups, groupId, path, sizes))
  {
    var resized := ResizedGroups(groups, groupId, path, sizes);
    forall i | 0 <= i < |resized| ensures resized[i].id in GroupIds(groups) {
      assert groups[i] in groups;
    }
  }

  lemma ZoomKeepsIds(groups: seq<TabGroup>, groupCount: nat, id: TabId)
    ensures KeepsIds(groups, groupCount, ToggleZoom(groups, id))
  {
    var index := FindGroup(groups, id);
    if index >= 0 && groups[index].root.Split? {
      UpdateKeepsIds(groups, groupCount, index, ToggleZoom(groups, id)[index]);
    }
  }

  lemma LaidOutKeepsIds(groups: seq<TabGroup>, groupCount: nat, id: TabId, shape: LayoutShape, more: seq<TabId>)
    requires ApplyTemplate(groups, id, shape, more, groupCount).Some?
    ensures var r := ApplyTemplate(groups, id, shape, more, groupCount).value;
      KeepsIds(groups, groupCount, r.groups) && r.groupCount >= groupCount
  {
    var index := FindGroup(groups, id);
    var kept := KeptPanes(Panes(groups[index]), id, CountPanes(shape));
    var leftOver := Without(Panes(groups[index]), ToSet(kept));
    SinglesHaveNewIds(leftOver, groupCount);
    var laidOut := ApplyTemplate(groups, id, shape, more, groupCount).value.groups[index];
    PartsKeepIds(groups, groupCount, index, [laidOut] + Singles(leftOver, groupCount));
  }

  lemma UseTemplateKeepsIds(state: TabsState, id: TabId, shape: LayoutShape, newIds: seq<TabId>)
    ensures KeepsIds(state.groups, state.groupCount, ApplyUseTemplate(state, id, shape, newIds).groups)
    ensures ApplyUseTemplate(state, id, shape, newIds).groupCount >= state.groupCount
  {
    hide ApplyTemplate;
    hide Copies;
    var source := TabIndex(state.tabs, id);
    if source >= 0 {
      var more := if CanCopy(state.tabs[source]) then newIds else [];
      if ApplyTemplate(state.groups, id, shape, more, state.groupCount).Some? {
        LaidOutKeepsIds(state.groups, state.groupCount, id, shape, more);
      }
    }
  }

  lemma RemoveKeepsIds(state: TabsState, ids: set<TabId>, options: RemoveOptions)
    requires Settled(state) && RootsOk(state.groups)
    ensures KeepsIds(state.groups, state.groupCount, ApplyRemove(state, ids, options).groups)
    ensures ApplyRemove(state, ids, options).groupCount == state.groupCount
  {
    RemoveTabsKeepsTheRest(state.groups, ids, state.groupCount);
    var r := RemoveTabsFromGroups(state.groups, ids);
    forall g | g in r ensures g.id in GroupIds(state.groups) {
      assert g.id in GroupIds(r);
    }
    var preferred := OrElse(options.preferredActiveTabId, FallbackTabId(state.groups, r, state.activeTabId));
    RemoveTabsIsReady(state, ids, options.(preferredActiveTabId := preferred));
  }

  lemma BreakOutKeepsIds(state: TabsState, id: TabId, index: Option<int>)
    requires Settled(state) && RootsOk(state.groups)
    ensures KeepsIds(state.groups, state.groupCount, ApplyBreakOut(state, id, index).groups)
    ensures ApplyBreakOut(state, id, index).groupCount >= state.groupCount
  {
    hide BreakOutPane;
    hide GroupsOk;
    hide RootsOk;
    var broken := BreakOutPane(state.groups, id, state.groupCount + 1, index);
    if broken.Some? {
      BreakOutPaneAddsOneGroup(state.groups, state.groupCount, id, index);
      forall g | g in broken.value ensures g.id in GroupIds(state.groups) || g.id > state.groupCount {
        assert g.id in GroupIds(broken.value);
      }
    }
  }

  lemma PlacingKeepsIds(state: TabsState, id: TabId, targetId: TabId, direction: Direction)
    requires Settled(state) && RootsOk(state.groups)
    ensures KeepsIds(state.groups, state.groupCount, ApplyPlace(state, id, targetId, direction).groups)
    ensures ApplyPlace(state, id, targetId, direction).groupCount == state.groupCount
  {
    hide PlacePane;
    hide Activate;
    var placed := PlacePane(state.groups, id, targetId, direction);
    ActivateKeepsTabs(state.(groups := placed), id);
    PlaceKeepsIds(state.groups, state.groupCount, id, targetId, direction);
  }

  lemma MergingKeepsIds(state: TabsState, id: TabId, targetId: TabId, direction: Direction)
    requires RootsOk(state.groups)
    ensures KeepsIds(state.groups, state.groupCount, ApplyMerge(state, id, targetId, direction).groups)
    ensures ApplyMerge(state, id, targetId, direction).groupCount == state.groupCount
  {
    hide MergeGroup;
    hide FindGroup;
    hide Activate;
    hide RootsOk;
    var merged := MergeGroup(state.groups, id, targetId, direction);
    if merged.Some? {
      MergeKeepsIds(state.groups, state.groupCount, id, targetId, direction);
      var index := FindGroup(merged.value, targetId);
      if index != -1 {
        ActivateKeepsTabs(state.(groups := merged.value), merged.value[index].activeTabId);
      }
    }
  }

  lemma MovesKeepIds(state: TabsState, action: TabsAction)
    requires Settled(state) && RootsOk(state.groups)
    requires action.PlaceBeside? || action.Merge? || action.BreakOut?
    ensures KeepsIds(state.groups, state.groupCount, ApplyAction(state, action).groups)
    ensures ApplyAction(state, action).groupCount >= state.groupCount
  {
    hide Settled;
    hide RootsOk;
    hide KeepsIds;
    hide ApplyPlace;
    hide ApplyMerge;
    hide ApplyBreakOut;
    match action {
      case PlaceBeside(id, targetId, direction) => PlacingKeepsIds(state, id, targetId, direction);
      case Merge(id, targetId, direction) => MergingKeepsIds(state, id, targetId, direction);
      case BreakOut(id, index) => BreakOutKeepsIds(state, id, index);
    }
  }

  lemma ChangesKeepIds(state: TabsState, action: TabsAction)
    requires Settled(state) && RootsOk(state.groups) && Allowed(state, action)
    requires action.Remove? || action.Duplicate? || action.UseTemplate?
    ensures KeepsIds(state.groups, state.groupCount, ApplyAction(state, action).groups)
    ensures ApplyAction(state, action).groupCount >= state.groupCount
  {
    hide RootsOk;
    hide ApplyRemove;
    hide ApplyDuplicate;
    hide ApplyUseTemplate;
    match action {
      case Remove(ids, options) => RemoveKeepsIds(state, ids, options);
      case Duplicate(sourceId, newId, split) => ApplyDuplicateIsReady(state, sourceId, newId, split);
      case UseTemplate(id, shape, newIds) => UseTemplateKeepsIds(state, id, shape, newIds);
    }
  }

  lemma ApplyKeepsIds(state: TabsState, action: TabsAction)
    requires Settled(state) && RootsOk(state.groups) && Allowed(state, action) && !action.Restore?
    ensures KeepsIds(state.groups, state.groupCount, ApplyAction(state, action).groups)
    ensures ApplyAction(state, action).groupCount >= state.groupCount
  {
    hide Settled;
    hide RootsOk;
    hide ApplyPlace;
    hide ApplyMerge;
    hide ApplyBreakOut;
    hide ApplyRemove;
    hide ApplyDuplicate;
    hide ApplyUseTemplate;
    if action.PlaceBeside? || action.Merge? || action.BreakOut? {
      MovesKeepIds(state, action);
    } else if action.Remove? || action.Duplicate? || action.UseTemplate? {
      ChangesKeepIds(state, action);
    } else {
      match action {
        case Ungroup(id) => UngroupKeepsIds(state.groups, state.groupCount, id);
        case Zoom(id) => ZoomKeepsIds(state.groups, state.groupCount, id);
        case Resize(groupId, path, sizes) => ResizeKeepsIds(state.groups, state.groupCount, groupId, path, sizes);
        case _ =>
      }
    }
  }

  // A group id is never handed out twice: a group after an action has an id
  // it had before or one past all those handed out so far. (Restoring a
  // session starts over.)
  lemma GroupIdsAreNeverReused(state: TabsState, action: TabsAction, names: seq<Tab> -> seq<string>)
    requires Settled(state) && Allowed(state, action) && !action.Restore?
    ensures RootsOk(state.groups) && RootsOk(ApplyAction(state, action).groups)
    ensures var r := TabsReducer(state, action, names);
      && r.groupCount >= state.groupCount
      && KeepsIds(state.groups, state.groupCount, r.groups)
  {
    ReducerKeepsSettled(state, action, names);
    var applied := ApplyAction(state, action);
    ApplyActionIsReady(state, action);
    ApplyKeepsIds(state, action);
    SettleKeepsIds(applied);
    SettleSettles(applied);
    KeepsIdsThrough(state.groups, state.groupCount, applied.groups, applied.groupCount, Settle(applied).groups);
  }

  // ----- saving a session and restoring it -----

  lemma {:induction false} NumberedOrder(groups: seq<RestoredGroup>, from: nat)
    ensures Order(Numbered(groups, from)) == OrderOf(groups)
  {
    if groups != [] {
      NumberedOrder(groups[1..], from + 1);
    }
  }

  lemma {:induction false} SavedOrder(groups: seq<TabGroup>, groupCount: nat, saved: set<TabId>)
    requires GroupsOk(groups, groupCount) && RootsOk(groups)
    ensures OrderOf(SavedGroups(groups, saved)) == Without(Order(groups), ToSet(Order(groups)) - saved)
  {
    if groups != [] {
      var ids, rest := Panes(groups[0]), Order(groups[1..]);
      assert GroupOk(groups[0]);
      SavedGroupIsOk(groups[0], saved);
      SavedOrder(groups[1..], groupCount, saved);
      OrderOfAppend(SavedGroup(groups[0], saved), SavedGroups(groups[1..], saved));
      WithoutAppend(ids, rest, ToSet(ids + rest) - saved);
      WithoutSame(ids, ToSet(ids) - saved, ToSet(ids + rest) - saved);
      WithoutSame(rest, ToSet(rest) - saved, ToSet(ids + rest) - saved);
    }
  }

  lemma {:induction false} WithoutSame(ids: seq<TabId>, gone: set<TabId>, other: set<TabId>)
    requires forall id :: id in ids ==> (id in gone <==> id in other)
    ensures Without(ids, gone) == Without(ids, other)
  {
    if ids != [] {
      WithoutSame(ids[1..], gone, other);
    }
  }

  // The workspace restored from a session that saved only some of the tabs:
  // the trees that were saved, under new group ids, with the tabs listed in
  // the order they had.
  lemma RestoredSession(state: TabsState, saved: set<TabId>, tabs: seq<Tab>, activeTabId: Option<TabId>,
          before: TabsState, names: seq<Tab> -> seq<string>)
    requires Settled(state) && Settled(before)
    requires RootsOk(state.groups)
    requires TabIds(tabs) == Without(TabIds(state.tabs), ToSet(TabIds(state.tabs)) - saved)
    requires activeTabId.Some? ==> activeTabId.value in TabIds(tabs)
    ensures var action := Restore(tabs, activeTabId, SerializeTabGroups(state.groups, saved));
      var groups := Numbered(SavedGroups(state.groups, saved), 1);
      && RootsOk(before.groups) && RootsOk(ApplyAction(before, action).groups)
      && var r := TabsReducer(before, action, names);
         && r.groups == (if activeTabId.Some? then FocusPane(groups, activeTabId.value) else groups)
         && TabIds(r.tabs) == TabIds(tabs)
         && r.groupCount == |groups|
  {
    var action := Restore(tabs, activeTabId, SerializeTabGroups(state.groups, saved));
    WithoutMembers(TabIds(state.tabs), ToSet(TabIds(state.tabs)) - saved);
    WithoutDistinct(TabIds(state.tabs), ToSet(TabIds(state.tabs)) - saved);
    RestoreOfSerialized(state.groups, state.groupCount, saved, TabIds(tabs));
    NumberedOrder(SavedGroups(state.groups, saved), 1);
    SavedOrder(state.groups, state.groupCount, saved);
    ReducerKeepsSettled(before, action, names);
    ReducedOrder(before, action, names);
    ApplyRestoreIsReady(tabs, activeTabId, action.layout);
    SettleKeepsMatching(ApplyAction(before, action));
  }

  // With every tab saved, restoring gives back the same workspace: the same
  // tabs in the same order, the same trees with the same panes focused and zoomed.
  lemma RestoredWholeSession(state: TabsState, tabs: seq<Tab>, before: TabsState, names: seq<Tab> -> seq<string>)
    requires Settled(state) && Settled(before) && RootsOk(state.groups)
    requires TabIds(tabs) == TabIds(state.tabs)
    ensures var action := Restore(tabs, state.activeTabId, SerializeTabGroups(state.groups, ToSet(TabIds(state.tabs))));
      && RootsOk(before.groups) && RootsOk(ApplyAction(before, action).groups)
      && var r := TabsReducer(before, action, names);
         && Unnumbered(r.groups) == Unnumbered(state.groups)
         && TabIds(r.tabs) == TabIds(state.tabs)
         && r.activeTabId == state.activeTabId
  {
    var saved := ToSet(TabIds(state.tabs));
    WithoutNothing(TabIds(state.tabs), saved - saved);
    RestoredSession(state, saved, tabs, state.activeTabId, before, names);
    SavedGroupsWhole(state.groups, state.groupCount, saved);
    RenumberedStaysFocused(state);
  }

  lemma RenumberedStaysFocused(state: TabsState)
    requires Settled(state)
    ensures var groups := Numbered(Unnumbered(state.groups), 1);
      && Unnumbered(groups) == Unnumbered(state.groups)
      && (state.activeTabId.Some? ==> FocusPane(groups, state.activeTabId.value) == groups)
  {
    RenumberedKeepsGroups(state.groups, 1);
    if state.activeTabId.Some? {
      FocusedStaysFocused(state.groups, Numbered(Unnumbered(state.groups), 1), state.activeTabId.value);
    }
  }

  lemma {:induction false} RenumberedKeepsGroups(groups: seq<TabGroup>, from: nat)
    ensures var r := Numbered(Unnumbered(groups), from);
      && Unnumbered(r) == Unnumbered(groups)
      && |r| == |groups|
      && forall i :: 0 <= i < |r| ==> r[i] == groups[i].(id := from + i)
  {
    if groups != [] {
      RenumberedKeepsGroups(groups[1..], from + 1);
      var r := Numbered(Unnumbered(groups), from);
      assert r[1..] == Numbered(Unnumbered(groups[1..]), from + 1);
    }
  }

  lemma {:induction false} FindGroupOfSamePanes(groups: seq<TabGroup>, other: seq<TabGroup>, tabId: TabId)
    requires |groups| == |other| && forall i :: 0 <= i < |groups| ==> Panes(groups[i]) == Panes(other[i])
    ensures FindGroup(groups, tabId) == FindGroup(other, tabId)
  {
    if groups != [] {
      FindGroupOfSamePanes(groups[1..], other[1..], tabId);
    }
  }

  lemma FocusedStaysFocused(groups: seq<TabGroup>, other: seq<TabGroup>, active: TabId)
    requires |groups| == |other| && forall i :: 0 <= i < |groups| ==> other[i] == groups[i].(id := other[i].id)
    requires FindGroup(groups, active) >= 0
    requires groups[FindGroup(groups, active)].activeTabId == active && active in VisiblePaneIds(groups, Some(active))
    ensures FocusPane(other, active) == other
  {
    FindGroupOfSamePanes(groups, other, active);
    var index := FindGroup(groups, active);
    assert other[index := other[index]] == other;
  }
}
