// The workspace stays settled, whatever is done to it: what every action of
// the reducer in src/lib/tabsState.ts keeps.
module TabsStateProofs {
  import opened Sequences
  import opened PaneTrees
  import opened PaneGeometry
  import opened TabGroups
  import opened PaneMoves
  import opened PaneTemplates
  import opened TabGroupsPersistence
  import opened TabsState

  // The active flag is on the active tab and on no other.
  ghost predicate MarksActive(tabs: seq<Tab>, activeTabId: Option<TabId>) {
    forall i :: 0 <= i < |tabs| ==> (tabs[i].isActive <==> activeTabId == Some(tabs[i].id))
  }

  // What every action leaves for the settling pass to finish.
  ghost predicate Ready(state: TabsState) {
    && Distinct(TabIds(state.tabs))
    && GroupsOk(state.groups, state.groupCount)
    && MarksActive(state.tabs, state.activeTabId)
    && (state.activeTabId.Some? ==> state.activeTabId.value in TabIds(state.tabs))
  }

  // Each tab sits in exactly one pane of one group, the tabs are listed in
  // bar order, the groups are in good shape under ids handed out once each,
  // and the active tab is the one marked, is focused in its group and in sight.
  ghost predicate Settled(state: TabsState) {
    && Ready(state)
    && Order(state.groups) == TabIds(state.tabs)
    && (state.activeTabId.Some? ==>
          && FindGroup(state.groups, state.activeTabId.value) >= 0
          && state.groups[FindGroup(state.groups, state.activeTabId.value)].activeTabId == state.activeTabId.value
          && state.activeTabId.value in VisiblePaneIds(state.groups, state.activeTabId))
  }

  // What the callers of the reducer see to: new tabs come with new ids, and
  // an updater keeps the id.
  ghost predicate Allowed(state: TabsState, action: TabsAction) {
    match action
    case Restore(tabs, activeTabId, _) =>
      Distinct(TabIds(tabs)) && (activeTabId.Some? ==> activeTabId.value in TabIds(tabs))
    case Add(tab) => tab.id !in TabIds(state.tabs)
    case OpenPage(tab) => tab.id !in TabIds(state.tabs)
    case Duplicate(_, newId, _) => newId !in TabIds(state.tabs)
    case Update(_, updater) => forall tab :: updater(tab).id == tab.id
    case UseTemplate(_, shape, newIds) =>
      ShapeHasPanes(shape) && Distinct(newIds) && forall id :: id in newIds ==> id !in TabIds(state.tabs)
    case _ => true
  }

  // ----- settling -----

  lemma {:induction false} TabsInOrderFollow(order: seq<TabId>, tabs: seq<Tab>)
    requires forall id :: id in order ==> id in TabIds(tabs)
    ensures TabIds(TabsInOrder(order, tabs)) == order
    ensures forall tab :: tab in TabsInOrder(order, tabs) ==> tab in tabs
  {
    if order != [] {
      TabsInOrderFollow(order[1..], tabs);
      var rest := TabsInOrder(order[1..], tabs);
      var index := TabIndex(tabs, order[0]);
      assert TabIds([tabs[index]] + rest) == [order[0]] + TabIds(rest);
      assert order == [order[0]] + order[1..];
    }
  }

  lemma ReadyHasRootsOk(state: TabsState)
    requires Ready(state)
    ensures RootsOk(state.groups)
  {
    GroupsOkHaveRootsOk(state.groups, state.groupCount);
  }

  lemma ActiveIsInSight(groups: seq<TabGroup>, active: TabId)
    requires active in Order(groups)
    ensures var r := FocusPane(groups, active);
      && FindGroup(r, active) >= 0
      && r[FindGroup(r, active)].activeTabId == active
      && active in VisiblePaneIds(r, Some(active))
  {
    var index := FindGroup(groups, active);
    FindGroupAfterUpdate(groups, index, FocusPane(groups, active)[index], active);
  }

  // The settling pass puts any groups in step with any tabs.
  lemma SettleSettles(state: TabsState)
    requires Ready(state) && RootsOk(state.groups)
    ensures Settled(Settle(state))
    ensures multiset(TabIds(Settle(state).tabs)) == multiset(TabIds(state.tabs))
    ensures Settle(state).groupCount >= state.groupCount && Settle(state).activeTabId == state.activeTabId
    ensures forall tab :: tab in Settle(state).tabs ==> tab in state.tabs
  {
    var ids := TabIds(state.tabs);
    var reconciled := Reconciled(state.groups, ids, state.groupCount);
    ReconciledHoldsEachTabOnce(state.groups, ids, state.groupCount);
    SameValues(Order(reconciled.groups), ids);
    assert forall id :: id in Order(reconciled.groups) <==> id in ToSet(ids);
    if state.activeTabId.Some? {
      FocusPaneKeepsPanes(reconciled.groups, reconciled.groupCount, state.activeTabId.value);
      ActiveIsInSight(reconciled.groups, state.activeTabId.value);
    }
    var order := Order(Settle(state).groups);
    TabsInOrderFollow(order, state.tabs);
    assert |order| == |ids|;
    assert order <= ids ==> order == ids;
    SettledTabsAreMarked(state, Settle(state));
  }

  lemma SettledTabsAreMarked(state: TabsState, settled: TabsState)
    requires MarksActive(state.tabs, state.activeTabId) && settled.activeTabId == state.activeTabId
    requires forall tab :: tab in settled.tabs ==> tab in state.tabs
    ensures MarksActive(settled.tabs, settled.activeTabId)
  {
    forall i | 0 <= i < |settled.tabs|
      ensures settled.tabs[i].isActive <==> settled.activeTabId == Some(settled.tabs[i].id)
    {
      assert settled.tabs[i] in state.tabs;
    }
  }

  // When an action left every tab in one group already, settling only
  // focuses the active pane and lists the tabs in the new order.
  lemma SettleKeepsMatching(state: TabsState)
    requires Ready(state) && RootsOk(state.groups)
    requires multiset(Order(state.groups)) == multiset(TabIds(state.tabs))
    ensures Settle(state).groups
         == if state.activeTabId.Some? then FocusPane(state.groups, state.activeTabId.value) else state.groups
    ensures Settle(state).groupCount == state.groupCount
    ensures TabIds(Settle(state).tabs) == Order(state.groups)
  {
    ReconciledKeepsMatching(state.groups, TabIds(state.tabs), state.groupCount);
    SettleSettles(state);
    if state.activeTabId.Some? {
      FocusPaneKeepsPanes(state.groups, state.groupCount, state.activeTabId.value);
    }
  }

  // A settled workspace is left exactly as it is.
  lemma SettleKeepsSettled(state: TabsState)
    requires Settled(state) && RootsOk(state.groups)
    ensures Settle(state) == state
  {
    SettleKeepsMatching(state);
    if state.activeTabId.Some? {
      var index := FindGroup(state.groups, state.activeTabId.value);
      var group := state.groups[index];
      assert group.zoomedTabId.Some? ==> group.zoomedTabId == state.activeTabId;
      assert state.groups[index := group] == state.groups;
    }
  }

  // ----- every action leaves the workspace ready to settle -----

  lemma ActivateIsReady(state: TabsState, id: TabId)
    requires Distinct(TabIds(state.tabs)) && GroupsOk(state.groups, state.groupCount)
    requires id in TabIds(state.tabs) || Ready(state)
    ensures Ready(Activate(state, id)) && Activate(state, id).groups == state.groups
    ensures TabIds(Activate(state, id).tabs) == TabIds(state.tabs)
  {
  }

  lemma TabIdsAppend(a: seq<Tab>, b: seq<Tab>)
    ensures TabIds(a + b) == TabIds(a) + TabIds(b)
  {
  }

  lemma ApplyAddIsReady(state: TabsState, tab: Tab)
    requires Ready(state) && tab.isActive && tab.id !in TabIds(state.tabs)
    ensures Ready(ApplyAdd(state, tab))
    ensures TabIds(ApplyAdd(state, tab).tabs) == TabIds(state.tabs) + [tab.id]
  {
    var tabs := AllInactive(state.tabs);
    TabIdsAppend(tabs, [tab]);
    DistinctAppend(TabIds(state.tabs), [tab.id]);
    assert TabIds(tabs + [tab])[|tabs|] == tab.id;
    forall i | 0 <= i < |tabs| ensures tabs[i].id != tab.id {
      assert TabIds(tabs)[i] in TabIds(state.tabs);
    }
  }

  lemma {:induction false} NumberedGroupsAreOk(groups: seq<RestoredGroup>, from: nat)
    requires from >= 1 && forall g :: g in groups ==> RestoredOk(g)
    ensures var r := Numbered(groups, from);
      && GroupsOk(r, from + |groups|)
      && (forall i :: 0 <= i < |r| ==>
            r[i] == TabGroup(from + i, groups[i].root, groups[i].activeTabId, groups[i].zoomedTabId))
  {
    if groups != [] {
      NumberedGroupsAreOk(groups[1..], from + 1);
      assert RestoredOk(groups[0]);
    }
  }

  // Any saved layout, the Dockview ones included.
  lemma ApplyRestoreIsReady(tabs: seq<Tab>, activeTabId: Option<TabId>, layout: SavedLayout)
    requires Distinct(TabIds(tabs)) && (activeTabId.Some? ==> activeTabId.value in TabIds(tabs))
    ensures Ready(ApplyRestore(tabs, activeTabId, layout))
    ensures TabIds(ApplyRestore(tabs, activeTabId, layout).tabs) == TabIds(tabs)
  {
    var groups := RestoreTabGroups(layout, TabIds(tabs));
    RestoredGroupsAreOk(layout, TabIds(tabs));
    NumberedGroupsAreOk(groups, 1);
    var numbered := Numbered(groups, 1);
    assert forall i :: 0 <= i < |numbered| ==> numbered[i].id <= |numbered|;
  }

  lemma {:induction false} TabsWithoutMembers(tabs: seq<Tab>, ids: set<TabId>)
    ensures forall tab :: tab in TabsWithout(tabs, ids) <==> tab in tabs && tab.id !in ids
  {
    if tabs != [] {
      TabsWithoutMembers(tabs[1..], ids);
      assert tabs == [tabs[0]] + tabs[1..];
    }
  }

  lemma {:induction false} TabsWithoutIds(tabs: seq<Tab>, ids: set<TabId>)
    ensures TabIds(TabsWithout(tabs, ids)) == Without(TabIds(tabs), ids)
    ensures forall tab :: tab in TabsWithout(tabs, ids) <==> tab in tabs && tab.id !in ids
  {
    TabsWithoutMembers(tabs, ids);
    if tabs != [] {
      TabsWithoutIds(tabs[1..], ids);
      assert TabIds(tabs)[1..] == TabIds(tabs[1..]);
      TabIdsAppend(if tabs[0].id in ids then [] else [tabs[0]], TabsWithout(tabs[1..], ids));
    }
  }

  lemma RemoveTabsIsReady(state: TabsState, ids: set<TabId>, options: RemoveOptions)
    requires Ready(state)
    ensures Ready(RemoveTabsFromState(state, ids, options))
    ensures TabIds(RemoveTabsFromState(state, ids, options).tabs) == Without(TabIds(state.tabs), ids)
    ensures RemoveTabsFromState(state, ids, options).groupCount == state.groupCount
  {
    hide GroupsOk;
    hide TabsWithout;
    hide Without;
    hide Among;
    TabsWithoutIds(state.tabs, ids);
    WithoutDistinct(TabIds(state.tabs), ids);
    if forall id :: id in TabIds(state.tabs) ==> id !in ids {
      WithoutNothing(TabIds(state.tabs), ids);
      return;
    }
    var remaining := TabsWithout(state.tabs, ids);
    if remaining != [] {
      assert forall i :: 0 <= i < |remaining| ==> remaining[i].id in TabIds(remaining);
    }
  }

  lemma MapTabsKeepsIds(tabs: seq<Tab>, f: Tab -> Tab)
    requires forall i :: 0 <= i < |tabs| ==> f(tabs[i]).id == tabs[i].id
    ensures TabIds(MapTabs(tabs, f)) == TabIds(tabs)
  {
  }

  lemma ResizedGroupsKeepPanes(groups: seq<TabGroup>, groupCount: nat, groupId: nat, path: seq<int>, sizes: seq<real>)
    requires GroupsOk(groups, groupCount)
    ensures GroupsOk(ResizedGroups(groups, groupId, path, sizes), groupCount)
    ensures Order(ResizedGroups(groups, groupId, path, sizes)) == Order(groups)
  {
    var r := ResizedGroups(groups, groupId, path, sizes);
    forall i | 0 <= i < |groups| ensures GroupOk(r[i]) && Panes(r[i]) == Panes(groups[i]) && r[i].id == groups[i].id {
      assert GroupOk(groups[i]);
      ResizeSplitKeepsPanes(groups[i].root, path, sizes);
    }
    SamePanesEachSameOrder(groups, r);
  }

  lemma {:induction false} SamePanesEachSameOrder(groups: seq<TabGroup>, other: seq<TabGroup>)
    requires |groups| == |other| && forall i :: 0 <= i < |groups| ==> Panes(groups[i]) == Panes(other[i])
    ensures Order(groups) == Order(other)
  {
    if groups != [] {
      SamePanesEachSameOrder(groups[1..], other[1..]);
    }
  }

  lemma ApplyDuplicateIsReady(state: TabsState, sourceId: TabId, newId: TabId, split: Option<Direction>)
    requires Settled(state) && RootsOk(state.groups) && newId !in TabIds(state.tabs)
    ensures Ready(ApplyDuplicate(state, sourceId, newId, split))
    ensures var source := TabIndex(state.tabs, sourceId);
      TabIds(ApplyDuplicate(state, sourceId, newId, split).tabs)
      == TabIds(state.tabs) + if source >= 0 && CanCopy(state.tabs[source]) then [newId] else []
    ensures ApplyDuplicate(state, sourceId, newId, split).groupCount == state.groupCount
    ensures GroupIds(ApplyDuplicate(state, sourceId, newId, split).groups) == GroupIds(state.groups)
  {
    var source := TabIndex(state.tabs, sourceId);
    if source >= 0 && CanCopy(state.tabs[source]) {
      ApplyAddIsReady(state, DuplicateTabData(state.tabs[source], newId, state.tabs));
      var index := FindGroup(state.groups, sourceId);
      if split.Some? {
        var group := state.groups[index];
        var wide := group.(root := InsertNextTo(group.root, sourceId, Pane(newId), split.value), zoomedTabId := None);
        SplitGroupIsOk(state.groups, state.groupCount, index, sourceId, newId, split.value);
        UpdatedGroupIsOk(state.groups, state.groupCount, index, wide);
        SameIdsAfterUpdate(state.groups, index, wide);
      }
    }
  }

  lemma SplitGroupIsOk(groups: seq<TabGroup>, groupCount: nat, index: nat, sourceId: TabId, newId: TabId,
          direction: Direction)
    requires GroupsOk(groups, groupCount) && RootsOk(groups) && Distinct(Order(groups))
    requires index < |groups| && sourceId in Panes(groups[index])
    ensures GroupOk(groups[index].(root := InsertNextTo(groups[index].root, sourceId, Pane(newId), direction),
                                   zoomedTabId := None))
  {
    var group := groups[index];
    assert GroupOk(group);
    PanesAreInOrder(groups, index);
    InsertNextToSplicesTheOrder(group.root, sourceId, Pane(newId), direction);
    SplicedIdsCount(Panes(group), sourceId, [newId], IsBefore(direction));
    var panes := PaneIds(InsertNextTo(group.root, sourceId, Pane(newId), direction));
    assert group.activeTabId in multiset(Panes(group));
    assert group.activeTabId in multiset(panes);
  }

  lemma SameIdsAfterUpdate(groups: seq<TabGroup>, index: nat, group: TabGroup)
    requires index < |groups| && group.id == groups[index].id
    ensures GroupIds(groups[index := group]) == GroupIds(groups)
  {
    var updated := groups[index := group];
    forall id | id in GroupIds(groups) ensures id in GroupIds(updated) {
      var k :| 0 <= k < |groups| && groups[k].id == id;
      assert updated[k] in updated && updated[k].id == id;
    }
  }

  lemma CopiesAreReady(state: TabsState, source: Tab, newIds: seq<TabId>)
    requires Ready(state) && Distinct(newIds) && forall id :: id in newIds ==> id !in TabIds(state.tabs)
    ensures Ready(state.(tabs := state.tabs + Copies(source, newIds, state.tabs)))
  {
    var copies := Copies(source, newIds, state.tabs);
    TabIdsAppend(state.tabs, copies);
    DistinctAppend(TabIds(state.tabs), newIds);
    var tabs := state.tabs + copies;
    forall i | 0 <= i < |tabs| ensures tabs[i].isActive <==> state.activeTabId == Some(tabs[i].id) {
      if i >= |state.tabs| {
        assert copies[i - |state.tabs|].id == newIds[i - |state.tabs|];
      }
    }
  }

  // The template's panes: those of the bar's tab, and copies where it needs more.
  lemma ApplyUseTemplateIsReady(state: TabsState, id: TabId, shape: LayoutShape, newIds: seq<TabId>)
    requires Settled(state) && ShapeHasPanes(shape)
    requires Distinct(newIds) && forall newId :: newId in newIds ==> newId !in TabIds(state.tabs)
    ensures Ready(ApplyUseTemplate(state, id, shape, newIds))
  {
    var source := TabIndex(state.tabs, id);
    if source >= 0 {
      var more := if CanCopy(state.tabs[source]) then newIds else [];
      var template := ApplyTemplate(state.groups, id, shape, more, state.groupCount);
      if template.Some? {
        LaidOutIsReady(state, state.tabs[source], id, shape, more);
      }
    }
  }

  lemma LaidOutIsReady(state: TabsState, source: Tab, id: TabId, shape: LayoutShape, more: seq<TabId>)
    requires Settled(state) && ShapeHasPanes(shape) && id in TabIds(state.tabs)
    requires Distinct(more) && forall newId :: newId in more ==> newId !in TabIds(state.tabs)
    requires ApplyTemplate(state.groups, id, shape, more, state.groupCount).Some?
    ensures var laidOut := ApplyTemplate(state.groups, id, shape, more, state.groupCount).value;
      var tabs := state.tabs + Copies(source, more, state.tabs);
      Ready(Activate(TabsState(tabs, state.activeTabId, laidOut.groups, laidOut.groupCount), id))
  {
    var laidOut := ApplyTemplate(state.groups, id, shape, more, state.groupCount).value;
    var tabs := state.tabs + Copies(source, more, state.tabs);
    ApplyTemplateLosesNoPane(state.groups, state.groupCount, id, shape, more);
    CopiesAreReady(state, source, more);
    TabIdsAppend(state.tabs, Copies(source, more, state.tabs));
    ActivateIsReady(TabsState(tabs, state.activeTabId, laidOut.groups, laidOut.groupCount), id);
  }

  lemma MergedIsReady(state: TabsState, groups: seq<TabGroup>, targetId: TabId)
    requires Settled(state) && GroupsOk(groups, state.groupCount)
             && multiset(Order(groups)) == multiset(Order(state.groups))
    requires targetId in Order(groups)
    ensures var after := Activate(state.(groups := groups), groups[FindGroup(groups, targetId)].activeTabId);
      Ready(after) && TabIds(after.tabs) == TabIds(state.tabs)
  {
    var index := FindGroup(groups, targetId);
    var active := groups[index].activeTabId;
    SameValues(Order(groups), Order(state.groups));
    assert GroupOk(groups[index]);
    PanesAreInOrder(groups, index);
    assert active in ToSet(Order(groups));
    ActivateIsReady(state.(groups := groups), active);
  }

  lemma SettledIsReady(state: TabsState)
    requires Settled(state)
    ensures Ready(state) && GroupsOk(state.groups, state.groupCount) && Distinct(Order(state.groups))
  {
  }

  lemma MergeIsApplied(state: TabsState, id: TabId, targetId: TabId, direction: Direction)
    requires RootsOk(state.groups)
    ensures ApplyMerge(state, id, targetId, direction)
         == match MergeGroup(state.groups, id, targetId, direction)
            case None => state
            case Some(groups) =>
              if targetId !in Order(groups) then state
              else Activate(state.(groups := groups), groups[FindGroup(groups, targetId)].activeTabId)
  {
    hide MergeGroup;
    hide RootsOk;
    hide Activate;
  }

  lemma ApplyMergeIsReady(state: TabsState, id: TabId, targetId: TabId, direction: Direction)
    requires Settled(state) && RootsOk(state.groups)
    ensures Ready(ApplyMerge(state, id, targetId, direction))
    ensures TabIds(ApplyMerge(state, id, targetId, direction).tabs) == TabIds(state.tabs)
  {
    hide *;
    SettledIsReady(state);
    MergeIsApplied(state, id, targetId, direction);
    var merged := MergeGroup(state.groups, id, targetId, direction);
    if merged.Some? {
      MergeGroupMovesOneGroup(state.groups, state.groupCount, id, targetId, direction);
      if targetId in Order(merged.value) {
        MergedIsReady(state, merged.value, targetId);
      }
    }
  }

  lemma ApplyPlaceIsReady(state: TabsState, id: TabId, targetId: TabId, direction: Direction)
    requires Settled(state) && RootsOk(state.groups)
    ensures Ready(ApplyPlace(state, id, targetId, direction))
    ensures TabIds(ApplyPlace(state, id, targetId, direction).tabs) == TabIds(state.tabs)
  {
    if id != targetId && targetId in Order(state.groups) {
      PlacePaneMovesOnePane(state.groups, state.groupCount, id, targetId, direction);
    }
    ActivateIsReady(state.(groups := PlacePane(state.groups, id, targetId, direction)), id);
  }

  lemma RegroupedIsReady(state: TabsState, groups: seq<TabGroup>, groupCount: nat, id: TabId)
    requires Ready(state) && GroupsOk(groups, groupCount)
    ensures Ready(Activate(state.(groups := groups, groupCount := groupCount), id))
    ensures TabIds(Activate(state.(groups := groups, groupCount := groupCount), id).tabs) == TabIds(state.tabs)
  {
    ActivateIsReady(state.(groups := groups, groupCount := groupCount), id);
  }

  lemma ApplyBreakOutIsReady(state: TabsState, id: TabId, index: Option<int>)
    requires Settled(state) && RootsOk(state.groups)
    ensures Ready(ApplyBreakOut(state, id, index))
    ensures TabIds(ApplyBreakOut(state, id, index).tabs) == TabIds(state.tabs)
  {
    hide BreakOutPane;
    hide GroupsOk;
    hide RootsOk;
    var broken := BreakOutPane(state.groups, id, state.groupCount + 1, index);
    if broken.Some? {
      BreakOutPaneIsOk(state.groups, state.groupCount, id, index);
      RegroupedIsReady(state, broken.value, state.groupCount + 1, id);
    }
  }

  lemma ApplyRemoveIsReady(state: TabsState, ids: set<TabId>, options: RemoveOptions)
    requires Settled(state) && RootsOk(state.groups)
    ensures Ready(ApplyRemove(state, ids, options))
    ensures TabIds(ApplyRemove(state, ids, options).tabs) == Without(TabIds(state.tabs), ids)
  {
    RemoveTabsKeepsTheRest(state.groups, ids, state.groupCount);
    var groups := RemoveTabsFromGroups(state.groups, ids);
    var preferred := OrElse(options.preferredActiveTabId, FallbackTabId(state.groups, groups, state.activeTabId));
    RemoveTabsIsReady(state, ids, options.(preferredActiveTabId := preferred));
  }

  lemma MappedTabsAreReady(state: TabsState, f: Tab -> Tab)
    requires Ready(state)
    requires forall tab :: tab in state.tabs ==>
               f(tab).id == tab.id && (f(tab).isActive <==> state.activeTabId == Some(tab.id))
    ensures Ready(state.(tabs := MapTabs(state.tabs, f)))
    ensures TabIds(MapTabs(state.tabs, f)) == TabIds(state.tabs)
  {
    MapTabsKeepsIds(state.tabs, f);
  }

  lemma ApplyToTabsIsReady(state: TabsState, action: TabsAction)
    requires Settled(state) && RootsOk(state.groups) && Allowed(state, action)
    requires action.RenamePage? || action.Rename? || action.Update?
    ensures Ready(ApplyAction(state, action))
    ensures TabIds(ApplyAction(state, action).tabs) == TabIds(state.tabs)
    ensures ApplyAction(state, action).groups == state.groups
  {
    match action
    case RenamePage(kind, title) =>
      MappedTabsAreReady(state, (tab: Tab) => if tab.kind == kind then tab.(title := title) else tab);
    case Rename(id, title) =>
      MappedTabsAreReady(state, (tab: Tab) =>
        if tab.id == id then tab.(title := title, duplicateBaseTitle := None, autoTitle := false) else tab);
    case Update(id, updater) =>
      MappedTabsAreReady(state, (tab: Tab) =>
        if tab.id != id then tab
        else
          var updated := EnsureTabDefaults(updater(tab));
          updated.(isActive := Some(updated.id) == state.activeTabId));
  }

  lemma ApplyActionIsReady(state: TabsState, action: TabsAction)
    requires Settled(state) && RootsOk(state.groups) && Allowed(state, action)
    ensures Ready(ApplyAction(state, action))
  {
    match action
    case Restore(tabs, activeTabId, layout) => ApplyRestoreIsReady(tabs, activeTabId, layout);
    case Add(tab) => ApplyAddIsReady(state, tab.(isActive := true, hasConnected := Some(true)));
    case OpenPage(tab) =>
      if KindIndex(state.tabs, tab.kind) < 0 {
        ApplyAddIsReady(state, tab.(isActive := true));
      }
    case RenamePage(_, _) => ApplyToTabsIsReady(state, action);
    case Remove(ids, options) => ApplyRemoveIsReady(state, ids, options);
    case SetActive(id) =>
    case Move(fromIndex, toIndex) => MoveGroupKeepsPanes(state.groups, state.groupCount, fromIndex, toIndex);
    case Duplicate(sourceId, newId, split) => ApplyDuplicateIsReady(state, sourceId, newId, split);
    case Rename(_, _) => ApplyToTabsIsReady(state, action);
    case Update(_, _) => ApplyToTabsIsReady(state, action);
    case PlaceBeside(id, targetId, direction) => ApplyPlaceIsReady(state, id, targetId, direction);
    case Merge(id, targetId, direction) => ApplyMergeIsReady(state, id, targetId, direction);
    case BreakOut(id, index) => ApplyBreakOutIsReady(state, id, index);
    case Ungroup(id) => UngroupPanesKeepsOrder(state.groups, state.groupCount, id);
    case Zoom(id) =>
      ToggleZoomKeepsPanes(state.groups, state.groupCount, id);
      ActivateIsReady(state.(groups := ToggleZoom(state.groups, id)), id);
    case Resize(groupId, path, sizes) => ResizedGroupsKeepPanes(state.groups, state.groupCount, groupId, path, sizes);
    case UseTemplate(id, shape, newIds) => ApplyUseTemplateIsReady(state, id, shape, newIds);
  }

  // ----- the reducer -----

  lemma RetitledStaysSettled(state: TabsState, names: seq<Tab> -> seq<string>)
    requires Settled(state)
    ensures Settled(state.(tabs := Retitled(state.tabs, names)))
    ensures TabIds(Retitled(state.tabs, names)) == TabIds(state.tabs)
  {
  }

  // One action of any kind, whatever it is given, keeps the workspace settled.
  lemma ReducerKeepsSettled(state: TabsState, action: TabsAction, names: seq<Tab> -> seq<string>)
    requires Settled(state) && Allowed(state, action)
    ensures RootsOk(state.groups) && RootsOk(ApplyAction(state, action).groups)
    ensures Settled(TabsReducer(state, action, names))
    ensures multiset(TabIds(TabsReducer(state, action, names).tabs))
            == multiset(TabIds(ApplyAction(state, action).tabs))
  {
    ReadyHasRootsOk(state);
    ApplyActionIsReady(state, action);
    var applied := ApplyAction(state, action);
    ReadyHasRootsOk(applied);
    SettleSettles(applied);
    RetitledStaysSettled(Settle(applied), names);
  }

  // The workspace after a list of actions, each allowed where it happens.
  ghost predicate RunReaches(start: TabsState, actions: seq<TabsAction>, names: seq<Tab> -> seq<string>, end: TabsState)
    decreases |actions|
  {
    if actions == [] then end == start
    else
      && RootsOk(start.groups)
      && RootsOk(ApplyAction(start, actions[0]).groups)
      && Allowed(start, actions[0])
      && RunReaches(TabsReducer(start, actions[0], names), actions[1..], names, end)
  }

  const EMPTY_STATE := TabsState([], None, [], 0)

  lemma EmptyStateIsSettled()
    ensures Settled(EMPTY_STATE)
  {
    assert Order(EMPTY_STATE.groups) == [];
  }

  lemma {:induction false} RunKeepsSettled(start: TabsState, actions: seq<TabsAction>, names: seq<Tab> -> seq<string>,
          end: TabsState)
    requires Settled(start) && RunReaches(start, actions, names, end)
    ensures Settled(end)
    decreases |actions|
  {
    if actions != [] {
      ReducerKeepsSettled(start, actions[0], names);
      RunKeepsSettled(TabsReducer(start, actions[0], names), actions[1..], names, end);
    }
  }

  // Every workspace the app can reach is settled.
  lemma ReachableIsSettled(actions: seq<TabsAction>, names: seq<Tab> -> seq<string>, end: TabsState)
    requires RunReaches(EMPTY_STATE, actions, names, end)
    ensures Settled(end)
  {
    EmptyStateIsSettled();
    RunKeepsSettled(EMPTY_STATE, actions, names, end);
  }

  // ----- a tab is active as long as there is one -----

  predicate HasActive(state: TabsState) {
    state.activeTabId.Some? <==> state.tabs != []
  }

  // What restores a session names the tab to be active, if there is one.
  predicate NamesActive(action: TabsAction) {
    action.Restore? && action.tabs != [] ==> action.activeTabId.Some?
  }

  lemma ActivateKeepsActive(state: TabsState, id: TabId)
    requires HasActive(state)
    ensures HasActive(Activate(state, id))
  {
  }

  lemma RemoveKeepsActive(state: TabsState, ids: set<TabId>, options: RemoveOptions)
    requires HasActive(state)
    ensures HasActive(RemoveTabsFromState(state, ids, options))
  {
    hide TabsWithout;
    hide Among;
  }

  lemma DuplicateKeepsActive(state: TabsState, sourceId: TabId, newId: TabId, split: Option<Direction>)
    requires HasActive(state) && RootsOk(state.groups)
    ensures HasActive(ApplyDuplicate(state, sourceId, newId, split))
  {
    hide InsertNextTo;
    hide RootsOk;
    hide FindGroup;
  }

  lemma UseTemplateKeepsActive(state: TabsState, id: TabId, shape: LayoutShape, newIds: seq<TabId>)
    requires HasActive(state)
    ensures HasActive(ApplyUseTemplate(state, id, shape, newIds))
  {
    hide ApplyTemplate;
    hide Activate;
    var source := TabIndex(state.tabs, id);
    if source >= 0 {
      var more := if CanCopy(state.tabs[source]) then newIds else [];
      var template := ApplyTemplate(state.groups, id, shape, more, state.groupCount);
      if template.Some? {
        var tabs := state.tabs + Copies(state.tabs[source], more, state.tabs);
        ActivateKeepsActive(TabsState(tabs, state.activeTabId, template.value.groups, template.value.groupCount), id);
      }
    }
  }

  lemma RegroupingKeepsActive(state: TabsState, action: TabsAction)
    requires HasActive(state) && RootsOk(state.groups)
    requires action.PlaceBeside? || action.Merge? || action.BreakOut?
    ensures HasActive(ApplyAction(state, action))
  {
    hide PlacePane;
    hide MergeGroup;
    hide BreakOutPane;
    hide RootsOk;
    hide FindGroup;
  }

  lemma ApplyActionKeepsActive(state: TabsState, action: TabsAction)
    requires Ready(state) && HasActive(state) && RootsOk(state.groups) && NamesActive(action)
    requires action.Restore? && action.activeTabId.Some? ==> action.activeTabId.value in TabIds(action.tabs)
    ensures HasActive(ApplyAction(state, action))
  {
    hide Ready;
    hide RootsOk;
    hide Activate;
    hide ApplyPlace;
    hide ApplyMerge;
    hide ApplyBreakOut;
    hide RemoveTabsFromState;
    match action
    case OpenPage(tab) =>
      var existing := KindIndex(state.tabs, tab.kind);
      if existing >= 0 {
        ActivateKeepsActive(state, state.tabs[existing].id);
      }
    case Remove(ids, options) =>
      var groups := RemoveTabsFromGroups(state.groups, ids);
      var preferred := OrElse(options.preferredActiveTabId, FallbackTabId(state.groups, groups, state.activeTabId));
      RemoveKeepsActive(state, ids, options.(preferredActiveTabId := preferred));
    case SetActive(id) => ActivateKeepsActive(state, id);
    case Duplicate(sourceId, newId, split) => DuplicateKeepsActive(state, sourceId, newId, split);
    case PlaceBeside(_, _, _) => RegroupingKeepsActive(state, action);
    case Merge(_, _, _) => RegroupingKeepsActive(state, action);
    case BreakOut(_, _) => RegroupingKeepsActive(state, action);
    case Zoom(id) => ActivateKeepsActive(state.(groups := ToggleZoom(state.groups, id)), id);
    case UseTemplate(id, shape, newIds) => UseTemplateKeepsActive(state, id, shape, newIds);
    case _ =>
  }

  lemma ReducerKeepsActive(state: TabsState, action: TabsAction, names: seq<Tab> -> seq<string>)
    requires Settled(state) && Allowed(state, action) && HasActive(state) && NamesActive(action)
    ensures RootsOk(state.groups) && RootsOk(ApplyAction(state, action).groups)
    ensures HasActive(TabsReducer(state, action, names))
  {
    ReducerKeepsSettled(state, action, names);
    ApplyActionIsReady(state, action);
    ApplyActionKeepsActive(state, action);
    var applied, r := ApplyAction(state, action), TabsReducer(state, action, names);
    SettleSettles(applied);
    SameLength(TabIds(r.tabs), TabIds(applied.tabs));
    hide ApplyAction;
    hide Settle;
    hide Ready;
    hide Settled;
  }

  lemma SameLength(a: seq<TabId>, b: seq<TabId>)
    requires multiset(a) == multiset(b)
    ensures |a| == |b|
  {
    SameValues(a, b);
  }

  lemma {:induction false} RunKeepsActive(start: TabsState, actions: seq<TabsAction>, names: seq<Tab> -> seq<string>,
          end: TabsState)
    requires Settled(start) && HasActive(start) && RunReaches(start, actions, names, end)
    requires forall action :: action in actions ==> NamesActive(action)
    ensures HasActive(end)
    decreases |actions|
  {
    if actions != [] {
      hide Settled;
      hide Allowed;
      hide HasActive;
      hide NamesActive;
      hide RootsOk;
      hide TabsReducer;
      hide ApplyAction;
      ReducerKeepsSettled(start, actions[0], names);
      ReducerKeepsActive(start, actions[0], names);
      RunKeepsActive(TabsReducer(start, actions[0], names), actions[1..], names, end);
    }
  }

  // In every run whose restored sessions name their active tab, a tab is
  // active exactly when there is a tab.
  lemma ReachableHasActive(actions: seq<TabsAction>, names: seq<Tab> -> seq<string>, end: TabsState)
    requires RunReaches(EMPTY_STATE, actions, names, end)
    requires forall action :: action in actions ==> NamesActive(action)
    ensures end.activeTabId.Some? <==> end.tabs != []
  {
    EmptyStateIsSettled();
    RunKeepsActive(EMPTY_STATE, actions, names, end);
  }
}
