// What each action makes of the groups of the bar, and where their panes are
// then (src/lib/tabsState.ts).
module TabsGroups {
  import opened Sequences
  import opened PaneTrees
  import opened PaneGeometry
  import opened PaneShares
  import opened TabGroups
  import opened PaneMoves
  import opened PanePlaces
  import opened PaneTemplates
  import opened TabsState
  import opened TabsStateProofs
  import opened TabsStateEffects
  import opened TabsOrder
  import opened TabsActions

  // ----- groups focused already -----

  // Wherever `id` is a pane, it is focused and no other pane is zoomed.
  predicate FocusedOn(groups: seq<TabGroup>, id: TabId) {
    forall group :: group in groups && id in Panes(group) ==>
      group.activeTabId == id && (group.zoomedTabId == None || group.zoomedTabId == Some(id))
  }

  lemma FocusedOnIsFocused(groups: seq<TabGroup>, id: TabId)
    requires FocusedOn(groups, id)
    ensures FocusPane(groups, id) == groups
  {
    hide Panes;
    var at := FindGroup(groups, id);
    if at >= 0 {
      var group := groups[at];
      assert group in groups;
      assert groups[at := group] == groups;
    }
  }

  lemma SettledIsFocusedOn(state: TabsState)
    requires Settled(state)
    ensures state.activeTabId.Some? ==> FocusedOn(state.groups, state.activeTabId.value)
  {
    if state.activeTabId.Some? {
      var id := state.activeTabId.value;
      forall group | group in state.groups && id in Panes(group)
        ensures group.activeTabId == id && (group.zoomedTabId == None || group.zoomedTabId == Some(id))
      {
        var i :| 0 <= i < |state.groups| && state.groups[i] == group;
        FindGroupIsUnique(state.groups, id, i);
      }
    }
  }

  // An action that puts every tab in one group is settled by focusing only.
  lemma ReducedMatching(state: TabsState, action: TabsAction, names: seq<Tab> -> seq<string>)
    requires Settled(state) && Allowed(state, action)
    requires RootsOk(state.groups) && RootsOk(ApplyAction(state, action).groups)
    requires multiset(Order(ApplyAction(state, action).groups)) == multiset(TabIds(ApplyAction(state, action).tabs))
    ensures var applied, r := ApplyAction(state, action), TabsReducer(state, action, names);
      && r.activeTabId == applied.activeTabId && r.groupCount == applied.groupCount
      && r.groups == if r.activeTabId.Some? then FocusPane(applied.groups, r.activeTabId.value) else applied.groups
  {
    ApplyActionIsReady(state, action);
    SettleKeepsMatching(ApplyAction(state, action));
    hide ApplyAction;
    hide Reconciled;
    hide Ready;
    hide Settled;
  }

  lemma ReducedAsApplied(state: TabsState, action: TabsAction, names: seq<Tab> -> seq<string>)
    requires Settled(state) && Allowed(state, action)
    requires RootsOk(state.groups) && RootsOk(ApplyAction(state, action).groups)
    requires multiset(Order(ApplyAction(state, action).groups)) == multiset(TabIds(ApplyAction(state, action).tabs))
    requires var applied := ApplyAction(state, action);
      applied.activeTabId.Some? ==> FocusedOn(applied.groups, applied.activeTabId.value)
    ensures var applied, r := ApplyAction(state, action), TabsReducer(state, action, names);
      r.activeTabId == applied.activeTabId && r.groupCount == applied.groupCount && r.groups == applied.groups
  {
    hide *;
    ReducedMatching(state, action, names);
    var applied := ApplyAction(state, action);
    if applied.activeTabId.Some? {
      FocusedOnIsFocused(applied.groups, applied.activeTabId.value);
    }
  }

  // ----- a pane placed beside another -----

  lemma PlacingMatches(state: TabsState, id: TabId, targetId: TabId, direction: Direction)
    requires Settled(state) && RootsOk(state.groups)
    requires id in TabIds(state.tabs) && targetId in TabIds(state.tabs) && id != targetId
    ensures var applied := ApplyPlace(state, id, targetId, direction);
      && applied.groups == PlacePane(state.groups, id, targetId, direction)
      && applied.activeTabId == Some(id) && applied.groupCount == state.groupCount
      && multiset(Order(applied.groups)) == multiset(TabIds(applied.tabs))
  {
    PlacePaneMovesOnePane(state.groups, state.groupCount, id, targetId, direction);
    hide PlacePane;
    hide RootsOk;
    hide GroupsOk;
    PlacingKeepsTabs(state, id, targetId, direction);
  }

  lemma PlacedIsFocused(after: TabGroup, group: TabGroup, tabId: TabId, target: TabId, direction: Direction, box: Rect)
    requires Sized(group.root) && IsAfterPlacing(after, group, tabId, target, direction, box)
    ensures tabId in Panes(after) ==> after.activeTabId == tabId && after.zoomedTabId == None
  {
    hide Place;
    hide Beside;
    if target !in Panes(group) {
      RemovePanesKeepsTheRest(group.root, {tabId});
      WithoutMembers(Panes(group), {tabId});
    }
  }

  // A pane placed beside another shares its room, is focused and ends any
  // zoom there; the group it comes from goes on without it, or is gone; every
  // other group is as it was.
  lemma PlaceBesidePlaces(state: TabsState, id: TabId, targetId: TabId, direction: Direction,
          names: seq<Tab> -> seq<string>, box: Rect)
    requires Settled(state) && id in TabIds(state.tabs) && targetId in TabIds(state.tabs) && id != targetId
    ensures RootsOk(state.groups) && RootsOk(ApplyAction(state, PlaceBeside(id, targetId, direction)).groups)
    ensures var r, left := TabsReducer(state, PlaceBeside(id, targetId, direction), names),
                           Remaining(state.groups, {id});
      && RootsOk(left) && |r.groups| == |left| && r.activeTabId == Some(id) && r.groupCount == state.groupCount
      && forall i :: 0 <= i < |left| ==> IsAfterPlacing(r.groups[i], left[i], id, targetId, direction, box)
  {
    hide *;
    var action := PlaceBeside(id, targetId, direction);
    SettledIsReady(state);
    PlacingIsAllowed(state, action);
    ReducerKeepsSettled(state, action, names);
    IdsInOrder(state);
    PlacingMatches(state, id, targetId, direction);
    PlacePanePlaces(state.groups, state.groupCount, id, targetId, direction, box);
    var placed, left := PlacePane(state.groups, id, targetId, direction), Remaining(state.groups, {id});
    RootsAreSized(left);
    PlacedAreFocused(placed, left, id, targetId, direction, box);
    PlaceBesideIsApplied(state, id, targetId, direction);
    ReducedAsApplied(state, action, names);
  }

  lemma PlacingIsAllowed(state: TabsState, action: TabsAction)
    requires action.PlaceBeside? || action.Merge? || action.BreakOut? || action.Ungroup? || action.Move?
             || action.Remove?
    ensures Allowed(state, action)
  {
  }

  lemma PlaceBesideIsApplied(state: TabsState, id: TabId, targetId: TabId, direction: Direction)
    requires RootsOk(state.groups)
    ensures ApplyAction(state, PlaceBeside(id, targetId, direction)) == ApplyPlace(state, id, targetId, direction)
  {
    hide ApplyPlace;
  }

  lemma RootsAreSized(groups: seq<TabGroup>)
    requires RootsOk(groups)
    ensures forall i :: 0 <= i < |groups| ==> Sized(groups[i].root)
  {
    hide Sized;
    hide Canonical;
  }

  lemma PlacedAreFocused(placed: seq<TabGroup>, left: seq<TabGroup>, id: TabId, targetId: TabId, direction: Direction,
          box: Rect)
    requires RootsOk(left) && |placed| == |left|
    requires forall i :: 0 <= i < |left| ==>
      Sized(left[i].root) && IsAfterPlacing(placed[i], left[i], id, targetId, direction, box)
    ensures FocusedOn(placed, id)
  {
    hide IsAfterPlacing;
    hide Panes;
    hide Sized;
    hide RootsOk;
    forall group | group in placed && id in Panes(group) ensures group.activeTabId == id && group.zoomedTabId == None {
      var i :| 0 <= i < |placed| && placed[i] == group;
      PlacedIsFocused(placed[i], left[i], id, targetId, direction, box);
    }
  }

  // Placed beside itself, or beside a tab that is not there, a pane is only
  // focused.
  lemma PlacedNowhere(state: TabsState, id: TabId, targetId: TabId, direction: Direction,
          names: seq<Tab> -> seq<string>)
    requires Settled(state) && (id == targetId || targetId !in TabIds(state.tabs))
    ensures RootsOk(state.groups) && RootsOk(ApplyAction(state, PlaceBeside(id, targetId, direction)).groups)
    ensures RootsOk(ApplyAction(state, SetActive(id)).groups)
    ensures TabsReducer(state, PlaceBeside(id, targetId, direction), names) == TabsReducer(state, SetActive(id), names)
  {
    hide *;
    SettledIsReady(state);
    ReadyHasRootsOk(state);
    PlacedNowhereApplied(state, id, targetId, direction);
    SameReduced(state, PlaceBeside(id, targetId, direction), SetActive(id), names);
  }

  lemma PlacedNowhereApplied(state: TabsState, id: TabId, targetId: TabId, direction: Direction)
    requires Settled(state) && RootsOk(state.groups) && (id == targetId || targetId !in TabIds(state.tabs))
    ensures ApplyAction(state, PlaceBeside(id, targetId, direction)) == ApplyAction(state, SetActive(id))
    ensures RootsOk(ApplyAction(state, SetActive(id)).groups)
  {
    IdsInOrder(state);
    hide RootsOk;
    hide Settled;
    hide Activate;
    ActivateKeepsTabs(state, id);
    assert state.(groups := state.groups) == state;
  }

  lemma SameReduced(state: TabsState, action: TabsAction, other: TabsAction, names: seq<Tab> -> seq<string>)
    requires RootsOk(state.groups) && RootsOk(ApplyAction(state, action).groups)
    requires ApplyAction(state, action) == ApplyAction(state, other)
    ensures TabsReducer(state, action, names) == TabsReducer(state, other, names)
  {
    hide ApplyAction;
    hide Settle;
    hide Retitled;
  }

  // ----- a group merged into another -----

  // The tab of the bar that is merged shares the target's room as a whole and
  // keeps its focus; every other group is as it was.
  lemma MergePlaces(state: TabsState, id: TabId, targetId: TabId, direction: Direction,
          names: seq<Tab> -> seq<string>, box: Rect)
    requires Settled(state) && id in TabIds(state.tabs) && targetId in TabIds(state.tabs)
    requires FindGroup(state.groups, id) != FindGroup(state.groups, targetId)
    ensures RootsOk(state.groups) && RootsOk(ApplyAction(state, Merge(id, targetId, direction)).groups)
    ensures FindGroup(state.groups, id) >= 0
    ensures var r, source := TabsReducer(state, Merge(id, targetId, direction), names), FindGroup(state.groups, id);
      var group, left := state.groups[source], TakenOut(state.groups, source);
      && r.activeTabId == Some(group.activeTabId) && r.groupCount == state.groupCount && |r.groups| == |left|
      && forall i :: 0 <= i < |left| ==>
           if targetId in Panes(left[i])
           then Gains(r.groups[i], left[i].id, left[i].root, targetId, group.root, direction, group.activeTabId, box)
           else r.groups[i] == left[i]
  {
    hide *;
    var action := Merge(id, targetId, direction);
    SettledIsReady(state);
    PlacingIsAllowed(state, action);
    ReducerKeepsSettled(state, action, names);
    IdsInOrder(state);
    MergeIsDone(state, id, targetId, direction);
    MergeGroupPlaces(state.groups, state.groupCount, id, targetId, direction, box);
    var source := FindGroup(state.groups, id);
    FocusIsOfTheGroup(state.groups, state.groupCount, source);
    MergedHoldsTarget(state.groups, state.groupCount, id, targetId, direction);
    MergedActive(state, id, targetId, direction, TakenOut(state.groups, source), state.groups[source], box);
    MergedOrder(state, id, targetId, direction);
    MergedAreFocused(state.groups, source, MergeGroup(state.groups, id, targetId, direction).value, targetId, direction,
                     box);
    ReducedAsApplied(state, action, names);
  }

  lemma MergeIsDone(state: TabsState, id: TabId, targetId: TabId, direction: Direction)
    requires RootsOk(state.groups) && id in Order(state.groups) && targetId in Order(state.groups)
    requires FindGroup(state.groups, id) != FindGroup(state.groups, targetId)
    ensures MergeGroup(state.groups, id, targetId, direction).Some?
    ensures ApplyAction(state, Merge(id, targetId, direction)) == ApplyMerge(state, id, targetId, direction)
  {
    hide WithBeside;
    hide ApplyMerge;
  }

  lemma FocusIsOfTheGroup(groups: seq<TabGroup>, groupCount: nat, index: nat)
    requires GroupsOk(groups, groupCount) && index < |groups|
    ensures groups[index].activeTabId in Panes(groups[index]) && groups[index].activeTabId in Order(groups)
  {
    assert GroupOk(groups[index]);
    PanesAreInOrder(groups, index);
  }

  lemma MergedHoldsTarget(groups: seq<TabGroup>, groupCount: nat, id: TabId, targetId: TabId, direction: Direction)
    requires GroupsOk(groups, groupCount) && Distinct(Order(groups)) && RootsOk(groups)
    requires MergeGroup(groups, id, targetId, direction).Some?
    ensures targetId in Order(MergeGroup(groups, id, targetId, direction).value)
  {
    MergeGroupMovesOneGroup(groups, groupCount, id, targetId, direction);
    assert targetId in multiset(Order(groups));
  }

  lemma MergedActive(state: TabsState, id: TabId, targetId: TabId, direction: Direction, left: seq<TabGroup>,
          group: TabGroup, box: Rect)
    requires RootsOk(state.groups) && MergeGroup(state.groups, id, targetId, direction).Some?
    requires group.activeTabId in TabIds(state.tabs)
    requires var merged := MergeGroup(state.groups, id, targetId, direction).value;
      && targetId in Order(merged) && |merged| == |left|
      && forall i :: 0 <= i < |left| ==>
           if targetId in Panes(left[i])
           then Gains(merged[i], left[i].id, left[i].root, targetId, group.root, direction, group.activeTabId, box)
           else merged[i] == left[i]
    ensures var applied := ApplyMerge(state, id, targetId, direction);
      && applied.groups == MergeGroup(state.groups, id, targetId, direction).value
      && applied.activeTabId == Some(group.activeTabId) && applied.groupCount == state.groupCount
  {
    hide MergeGroup;
    hide Place;
    hide Beside;
    hide Panes;
    hide Order;
    var merged := MergeGroup(state.groups, id, targetId, direction).value;
    assert merged[FindGroup(merged, targetId)].activeTabId == group.activeTabId;
  }

  lemma MergedAreFocused(groups: seq<TabGroup>, source: nat, merged: seq<TabGroup>, targetId: TabId,
          direction: Direction, box: Rect)
    requires Distinct(Order(groups)) && source < |groups| && groups[source].activeTabId in Panes(groups[source])
    requires var left, group := TakenOut(groups, source), groups[source];
      && |merged| == |left|
      && forall i :: 0 <= i < |left| ==>
           if targetId in Panes(left[i])
           then Gains(merged[i], left[i].id, left[i].root, targetId, group.root, direction, group.activeTabId, box)
           else merged[i] == left[i]
    ensures FocusedOn(merged, groups[source].activeTabId)
  {
    var id, left := groups[source].activeTabId, TakenOut(groups, source);
    OnlyOneHolds(groups, source, id);
    hide Place;
    hide Beside;
    hide Panes;
    hide Order;
    assert forall i :: 0 <= i < |left| ==> left[i] == groups[if i < source then i else i + 1];
    forall group | group in merged && id in Panes(group) ensures group.activeTabId == id && group.zoomedTabId == None {
      var i :| 0 <= i < |merged| && merged[i] == group;
    }
  }

  // Merging what is in one tab of the bar already, or is not there, does nothing.
  lemma MergedNowhere(state: TabsState, id: TabId, targetId: TabId, direction: Direction,
          names: seq<Tab> -> seq<string>)
    requires Settled(state)
    requires id !in TabIds(state.tabs) || targetId !in TabIds(state.tabs)
             || FindGroup(state.groups, id) == FindGroup(state.groups, targetId)
    ensures RootsOk(state.groups) && RootsOk(ApplyAction(state, Merge(id, targetId, direction)).groups)
    ensures TabsReducer(state, Merge(id, targetId, direction), names) == state
  {
    hide *;
    SettledIsReady(state);
    ReadyHasRootsOk(state);
    IdsInOrder(state);
    SettleKeepsSettled(state);
    MergedNowhereApplied(state, id, targetId, direction);
    UnchangedReduced(state, Merge(id, targetId, direction), names);
  }

  lemma MergedNowhereApplied(state: TabsState, id: TabId, targetId: TabId, direction: Direction)
    requires RootsOk(state.groups)
    requires id !in Order(state.groups) || targetId !in Order(state.groups)
             || FindGroup(state.groups, id) == FindGroup(state.groups, targetId)
    ensures ApplyAction(state, Merge(id, targetId, direction)) == state
  {
    hide RootsOk;
    hide WithBeside;
  }

  lemma UnchangedReduced(state: TabsState, action: TabsAction, names: seq<Tab> -> seq<string>)
    requires RootsOk(state.groups) && ApplyAction(state, action) == state && Settle(state) == state
    ensures TabsReducer(state, action, names) == state
  {
    hide ApplyAction;
    hide Settle;
  }

  // ----- a tab copied beside itself -----

  // The group of the pane shares its room with the copy, which is focused;
  // every other group is as it was.
  lemma DuplicatePlaces(state: TabsState, sourceId: TabId, newId: TabId, direction: Direction,
          names: seq<Tab> -> seq<string>, box: Rect)
    requires Settled(state) && newId !in TabIds(state.tabs)
    requires exists tab :: tab in state.tabs && tab.id == sourceId && RunsSession(tab.kind)
    ensures RootsOk(state.groups)
    ensures RootsOk(ApplyAction(state, Duplicate(sourceId, newId, Some(direction))).groups)
    ensures var r, groups := TabsReducer(state, Duplicate(sourceId, newId, Some(direction)), names), state.groups;
      && r.activeTabId == Some(newId) && r.groupCount == state.groupCount && |r.groups| == |groups|
      && forall i :: 0 <= i < |groups| ==>
           if sourceId in Panes(groups[i])
           then Gains(r.groups[i], groups[i].id, groups[i].root, sourceId, Pane(newId), direction, newId, box)
           else r.groups[i] == groups[i]
  {
    hide *;
    var action := Duplicate(sourceId, newId, Some(direction));
    SettledIsReady(state);
    DuplicatingIsAllowed(state, sourceId, newId, Some(direction));
    ReducerKeepsSettled(state, action, names);
    IdsInOrder(state);
    SessionCanBeCopied(state, sourceId);
    var at := FindGroup(state.groups, sourceId);
    CopyApplied(state, sourceId, newId, direction);
    ReducedMatching(state, action, names);
    CopyIsFocused(state.groups, at, sourceId, newId, direction);
    CopyGains(state.groups, at, sourceId, newId, direction, box);
  }

  lemma DuplicatingIsAllowed(state: TabsState, sourceId: TabId, newId: TabId, split: Option<Direction>)
    requires newId !in TabIds(state.tabs)
    ensures Allowed(state, Duplicate(sourceId, newId, split))
  {
  }

  lemma SessionCanBeCopied(state: TabsState, sourceId: TabId)
    requires Ready(state) && exists tab :: tab in state.tabs && tab.id == sourceId && RunsSession(tab.kind)
    ensures OpensCopy(state, sourceId) && sourceId in TabIds(state.tabs)
  {
    var tab :| tab in state.tabs && tab.id == sourceId && RunsSession(tab.kind);
    IdInTabs(state.tabs, tab);
    SameTab(state.tabs, tab, state.tabs[TabIndex(state.tabs, sourceId)]);
  }

  // The group with the copy beside the original, before it is focused.
  function WithCopy(group: TabGroup, sourceId: TabId, newId: TabId, direction: Direction): TabGroup
    requires Canonical(group.root)
  {
    group.(root := InsertNextTo(group.root, sourceId, Pane(newId), direction), zoomedTabId := None)
  }

  lemma CopyApplied(state: TabsState, sourceId: TabId, newId: TabId, direction: Direction)
    requires Settled(state) && RootsOk(state.groups) && newId !in TabIds(state.tabs) && OpensCopy(state, sourceId)
    ensures var at, applied := FindGroup(state.groups, sourceId),
                               ApplyAction(state, Duplicate(sourceId, newId, Some(direction)));
      && at >= 0 && Canonical(state.groups[at].root)
      && applied.groups == state.groups[at := WithCopy(state.groups[at], sourceId, newId, direction)]
      && applied.activeTabId == Some(newId) && applied.groupCount == state.groupCount
      && multiset(Order(applied.groups)) == multiset(TabIds(applied.tabs)) && Distinct(Order(applied.groups))
  {
    hide *;
    CopyIs(state, sourceId, newId, direction);
    SplitCopy(state, sourceId, newId, direction);
    ApplyDuplicateIsReady(state, sourceId, newId, Some(direction));
    CopySource(state, sourceId);
    SplicedIdsCount(TabIds(state.tabs), sourceId, [newId], IsBefore(direction));
  }

  lemma CopySource(state: TabsState, sourceId: TabId)
    requires OpensCopy(state, sourceId)
    ensures TabIndex(state.tabs, sourceId) >= 0 && CanCopy(state.tabs[TabIndex(state.tabs, sourceId)])
    ensures sourceId in TabIds(state.tabs)
  {
  }

  lemma CopyIs(state: TabsState, sourceId: TabId, newId: TabId, direction: Direction)
    requires Settled(state) && RootsOk(state.groups) && newId !in TabIds(state.tabs) && OpensCopy(state, sourceId)
    ensures var at, applied := FindGroup(state.groups, sourceId),
            ApplyDuplicate(state, sourceId, newId, Some(direction));
      && ApplyAction(state, Duplicate(sourceId, newId, Some(direction))) == applied
      && at >= 0 && Canonical(state.groups[at].root)
      && applied.groups == state.groups[at := WithCopy(state.groups[at], sourceId, newId, direction)]
      && applied.activeTabId == Some(newId) && applied.groupCount == state.groupCount
  {
    IdsInOrder(state);
    hide Settled;
    hide InsertNextTo;
    hide DuplicateTabData;
    RootOk(state.groups, FindGroup(state.groups, sourceId));
  }

  lemma WithCopyIs(group: TabGroup, sourceId: TabId, newId: TabId, direction: Direction, box: Rect)
    requires Canonical(group.root) && Distinct(Panes(group)) && sourceId in Panes(group)
    ensures var copied := WithCopy(group, sourceId, newId, direction);
      && newId in Panes(copied)
      && Gains(copied.(activeTabId := newId), group.id, group.root, sourceId, Pane(newId), direction, newId, box)
  {
    hide Place;
    hide Beside;
    InsertNextToSplicesTheOrder(group.root, sourceId, Pane(newId), direction);
    SplicedIdsCount(Panes(group), sourceId, [newId], IsBefore(direction));
    assert newId in multiset(Panes(WithCopy(group, sourceId, newId, direction)));
    InsertNextToHalvesTheTarget(group.root, sourceId, Pane(newId), direction, box);
  }

  lemma CopyIsFocused(groups: seq<TabGroup>, at: nat, sourceId: TabId, newId: TabId, direction: Direction)
    requires Distinct(Order(groups)) && at < |groups| && sourceId in Panes(groups[at]) && Canonical(groups[at].root)
    requires Distinct(Order(groups[at := WithCopy(groups[at], sourceId, newId, direction)]))
    ensures var copied := WithCopy(groups[at], sourceId, newId, direction);
      FocusPane(groups[at := copied], newId) == groups[at := copied.(activeTabId := newId)]
  {
    hide *;
    var copied := WithCopy(groups[at], sourceId, newId, direction);
    PanesAreInOrder(groups, at);
    WithCopyIs(groups[at], sourceId, newId, direction, Rect(0.0, 0.0, 0.0, 0.0));
    WithCopyIsNotZoomed(groups[at], sourceId, newId, direction);
    FindGroupIsUnique(groups[at := copied], newId, at);
    FocusUpdates(groups[at := copied], at, newId);
    assert groups[at := copied][at := copied.(activeTabId := newId)] == groups[at := copied.(activeTabId := newId)];
  }

  lemma WithCopyIsNotZoomed(group: TabGroup, sourceId: TabId, newId: TabId, direction: Direction)
    requires Canonical(group.root)
    ensures WithCopy(group, sourceId, newId, direction).zoomedTabId == None
  {
  }

  lemma FocusUpdates(groups: seq<TabGroup>, at: nat, id: TabId)
    requires at < |groups| && FindGroup(groups, id) == at && groups[at].zoomedTabId == None
    ensures FocusPane(groups, id) == groups[at := groups[at].(activeTabId := id)]
  {
  }

  lemma CopyGains(groups: seq<TabGroup>, at: nat, sourceId: TabId, newId: TabId, direction: Direction, box: Rect)
    requires Distinct(Order(groups)) && at < |groups| && sourceId in Panes(groups[at]) && Canonical(groups[at].root)
    ensures var r := groups[at := WithCopy(groups[at], sourceId, newId, direction).(activeTabId := newId)];
      forall i :: 0 <= i < |groups| ==>
        if sourceId in Panes(groups[i])
        then Gains(r[i], groups[i].id, groups[i].root, sourceId, Pane(newId), direction, newId, box)
        else r[i] == groups[i]
  {
    hide *;
    PanesAreInOrder(groups, at);
    WithCopyIs(groups[at], sourceId, newId, direction, box);
    OnlyOneHolds(groups, at, sourceId);
  }

  // ----- a tab with a group of its own -----

  // A tab that no group holds gets one of its own at the end of the bar.
  lemma ReconciledWithOneMore(groups: seq<TabGroup>, tabIds: seq<TabId>, id: TabId, groupCount: nat)
    requires RootsOk(groups) && Distinct(Order(groups)) && Order(groups) == tabIds && id !in tabIds
    ensures Reconciled(groups, tabIds + [id], groupCount)
         == Counted(groups + [TabGroup(groupCount + 1, Pane(id), id, None)], groupCount + 1)
  {
    NothingStale(tabIds, ToSet(tabIds + [id]), {});
    DistinctAppend(tabIds, [id]);
    WithoutThoseListed(tabIds, [id]);
    SinglesInOrder([id], groupCount);
  }

  lemma SettledWithOneMore(state: TabsState, ids: seq<TabId>, id: TabId)
    requires RootsOk(state.groups) && Distinct(Order(state.groups)) && Order(state.groups) == ids && id !in ids
    requires TabIds(state.tabs) == ids + [id] && state.activeTabId == Some(id)
    ensures Settle(state).groups == state.groups + [TabGroup(state.groupCount + 1, Pane(id), id, None)]
    ensures Settle(state).groupCount == state.groupCount + 1
  {
    hide *;
    var single := TabGroup(state.groupCount + 1, Pane(id), id, None);
    ReconciledWithOneMore(state.groups, ids, id, state.groupCount);
    NoneHolds(state.groups, id);
    SingleIsFocused(state.groups, |state.groups|, single, id);
    assert state.groups[..|state.groups|] == state.groups && state.groups[|state.groups|..] == [];
    assert state.groups + [single] + [] == state.groups + [single];
    FocusedOnIsFocused(state.groups + [single], id);
    SettleIs(state, id);
  }

  lemma SettleIs(state: TabsState, id: TabId)
    requires RootsOk(state.groups) && state.activeTabId == Some(id)
    ensures var reconciled := Reconciled(state.groups, TabIds(state.tabs), state.groupCount);
      Settle(state).groups == FocusPane(reconciled.groups, id) && Settle(state).groupCount == reconciled.groupCount
  {
    hide Reconciled;
    hide FocusPane;
    hide RootsOk;
  }

  lemma NoneHolds(groups: seq<TabGroup>, id: TabId)
    requires id !in Order(groups)
    ensures forall k :: 0 <= k < |groups| ==> id !in Panes(groups[k])
  {
    forall k | 0 <= k < |groups| ensures id !in Panes(groups[k]) {
      PanesAreInOrder(groups, k);
    }
  }

  lemma ReducedAsSettled(state: TabsState, action: TabsAction, names: seq<Tab> -> seq<string>)
    requires RootsOk(state.groups) && RootsOk(ApplyAction(state, action).groups)
    ensures var r, settled := TabsReducer(state, action, names), Settle(ApplyAction(state, action));
      r.groups == settled.groups && r.groupCount == settled.groupCount && r.activeTabId == settled.activeTabId
  {
    hide ApplyAction;
    hide Settle;
  }

  // The action opens a tab of that id with a group of its own.
  ghost predicate OpensAlone(state: TabsState, action: TabsAction, id: TabId) {
    || (action.Add? && action.tab.id == id)
    || (action.OpenPage? && action.tab.id == id && forall tab :: tab in state.tabs ==> tab.kind != action.tab.kind)
    || (action.Duplicate? && action.newId == id && action.split.None?
        && exists tab :: tab in state.tabs && tab.id == action.sourceId && RunsSession(tab.kind))
  }

  lemma OpensAloneApplied(state: TabsState, action: TabsAction, id: TabId)
    requires Settled(state) && RootsOk(state.groups) && Allowed(state, action) && OpensAlone(state, action, id)
    ensures id !in TabIds(state.tabs)
    ensures var applied := ApplyAction(state, action);
      && applied.groups == state.groups && applied.groupCount == state.groupCount
      && applied.activeTabId == Some(id) && TabIds(applied.tabs) == TabIds(state.tabs) + [id]
  {
    hide GroupsOk;
    hide RootsOk;
    hide DuplicateTabData;
    match action {
      case Add(tab) => ApplyAddIsReady(state, tab.(isActive := true, hasConnected := Some(true)));
      case OpenPage(tab) =>
        KindIndexFinds(state.tabs, tab.kind);
        ApplyAddIsReady(state, tab.(isActive := true));
      case Duplicate(sourceId, newId, _) =>
        SessionCanBeCopied(state, sourceId);
        ApplyDuplicateIsReady(state, sourceId, newId, None);
      case _ =>
    }
  }

  // A tab opened or copied without a split is a tab of the bar of its own,
  // the last one, under a new id; every other group is as it was.
  lemma OpenedAlone(state: TabsState, action: TabsAction, id: TabId, names: seq<Tab> -> seq<string>)
    requires Settled(state) && Allowed(state, action) && OpensAlone(state, action, id)
    ensures RootsOk(state.groups) && RootsOk(ApplyAction(state, action).groups)
    ensures var r := TabsReducer(state, action, names);
      && r.groups == state.groups + [TabGroup(state.groupCount + 1, Pane(id), id, None)]
      && r.groupCount == state.groupCount + 1 && r.activeTabId == Some(id)
  {
    hide *;
    SettledIsReady(state);
    IdsInOrder(state);
    ReducerKeepsSettled(state, action, names);
    OpensAloneApplied(state, action, id);
    SettledWithOneMore(ApplyAction(state, action), TabIds(state.tabs), id);
    ReducedShows(state, action, names);
    ReducedAsSettled(state, action, names);
  }

  // ----- a pane broken out, panes ungrouped, a group moved -----

  // A pane broken out has a group of its own, under a new id, where it is
  // put; the group it leaves goes on without it; every other is as it was.
  lemma BreakOutPlaces(state: TabsState, id: TabId, index: Option<int>, names: seq<Tab> -> seq<string>)
    returns (trimmed: TabGroup, at: nat)
    requires Settled(state) && id in TabIds(state.tabs) && FindGroup(state.groups, id) >= 0
    requires |Panes(state.groups[FindGroup(state.groups, id)])| >= 2
    ensures RootsOk(state.groups) && RootsOk(ApplyAction(state, BreakOut(id, index)).groups)
    ensures var source, r := FindGroup(state.groups, id), TabsReducer(state, BreakOut(id, index), names);
      var left := state.groups[source := trimmed];
      && Sized(state.groups[source].root) && IsTrimmed(trimmed, state.groups[source], {id})
      && at == (if index.None? then source + 1 else Clamp(index.value, 0, |state.groups|)) && at <= |left|
      && r.groups == left[..at] + [TabGroup(state.groupCount + 1, Pane(id), id, None)] + left[at..]
      && r.groupCount == state.groupCount + 1 && r.activeTabId == Some(id)
  {
    hide *;
    var action := BreakOut(id, index);
    SettledIsReady(state);
    ReadyHasRootsOk(state);
    PlacingIsAllowed(state, action);
    ReducerKeepsSettled(state, action, names);
    BrokenOutIs(state, id, index);
    trimmed, at := BreakOutPanePlaces(state.groups, state.groupCount, id, index);
    BrokenOutHasTheTabs(state, id, index);
    BrokenOutIsFocused(state.groups, FindGroup(state.groups, id), trimmed, at, state.groupCount + 1, id);
    ReducedAsApplied(state, action, names);
  }

  lemma BrokenOutIs(state: TabsState, id: TabId, index: Option<int>)
    requires RootsOk(state.groups) && id in TabIds(state.tabs) && FindGroup(state.groups, id) >= 0
    requires |Panes(state.groups[FindGroup(state.groups, id)])| >= 2
    ensures var broken, applied := BreakOutPane(state.groups, id, state.groupCount + 1, index),
                                   ApplyAction(state, BreakOut(id, index));
      && applied == ApplyBreakOut(state, id, index)
      && broken.Some? && applied.groups == broken.value && applied.groupCount == state.groupCount + 1
      && applied.activeTabId == Some(id)
  {
    hide BrokenOut;
    hide RemoveTabsFromGroups;
  }

  lemma BrokenOutIsFocused(groups: seq<TabGroup>, source: nat, trimmed: TabGroup, at: nat, newGroupId: nat, id: TabId)
    requires Distinct(Order(groups)) && source < |groups| && at <= |groups| && id in Panes(groups[source])
    requires Sized(groups[source].root) && IsTrimmed(trimmed, groups[source], {id})
    ensures var left := groups[source := trimmed];
      FocusedOn(left[..at] + [TabGroup(newGroupId, Pane(id), id, None)] + left[at..], id)
  {
    hide *;
    TrimmedLacks(trimmed, groups[source], id);
    OnlyOneHolds(groups, source, id);
    var left, single := groups[source := trimmed], TabGroup(newGroupId, Pane(id), id, None);
    assert forall k :: 0 <= k < |left| ==> id !in Panes(left[k]);
    SingleIsFocused(left, at, single, id);
  }

  lemma SingleIsFocused(left: seq<TabGroup>, at: nat, single: TabGroup, id: TabId)
    requires at <= |left| && forall k :: 0 <= k < |left| ==> id !in Panes(left[k])
    requires single.activeTabId == id && single.zoomedTabId == None
    ensures FocusedOn(left[..at] + [single] + left[at..], id)
  {
    hide Panes;
    var r := left[..at] + [single] + left[at..];
    assert forall i :: 0 <= i < |r| ==> r[i] == if i < at then left[i] else if i == at then single else left[i - 1];
    forall group | group in r && id in Panes(group) ensures group == single {
      var i :| 0 <= i < |r| && r[i] == group;
    }
  }

  lemma OnlyOneHolds(groups: seq<TabGroup>, index: nat, id: TabId)
    requires Distinct(Order(groups)) && index < |groups| && id in Panes(groups[index])
    ensures forall k :: 0 <= k < |groups| && id in Panes(groups[k]) ==> k == index
  {
    FindGroupIsUnique(groups, id, index);
    forall k | 0 <= k < |groups| && id in Panes(groups[k]) ensures k == index {
      FindGroupIsUnique(groups, id, k);
    }
  }

  lemma TrimmedLacks(trimmed: TabGroup, group: TabGroup, id: TabId)
    requires Sized(group.root) && IsTrimmed(trimmed, group, {id})
    ensures id !in Panes(trimmed)
  {
    RemovePanesKeepsTheRest(group.root, {id});
    WithoutMembers(Panes(group), {id});
  }

  // Ungrouping changes neither tabs nor focus: each pane has a group of its
  // own in the group's place, the active one under the group's id.
  lemma UngroupPlaces(state: TabsState, id: TabId, names: seq<Tab> -> seq<string>) returns (singles: seq<TabGroup>)
    requires Settled(state) && FindGroup(state.groups, id) >= 0
    requires state.groups[FindGroup(state.groups, id)].root.Split?
    ensures RootsOk(state.groups) && RootsOk(ApplyAction(state, Ungroup(id)).groups)
    ensures var index, r := FindGroup(state.groups, id), TabsReducer(state, Ungroup(id), names);
      var group := state.groups[index];
      && AreSingles(singles, Panes(group), group.activeTabId, group.id, state.groupCount)
      && r.groups == state.groups[..index] + singles + state.groups[index + 1..]
      && r.activeTabId == state.activeTabId && r.tabs == state.tabs
  {
    hide *;
    var action := Ungroup(id);
    SettledIsReady(state);
    IdsInOrder(state);
    ReadyHasRootsOk(state);
    PlacingIsAllowed(state, action);
    ReducerKeepsSettled(state, action, names);
    UngroupIs(state, id);
    UngroupPanesKeepsOrder(state.groups, state.groupCount, id);
    singles := UngroupPanesSplitsTheGroup(state.groups, state.groupCount, id);
    if state.activeTabId.Some? {
      SettledIsFocusedOn(state);
      var index := FindGroup(state.groups, id);
      var group := state.groups[index];
      SinglesAreFocused(state.groups, index, singles, state.activeTabId.value, group.activeTabId, group.id,
                        state.groupCount);
    }
    ReducedAsApplied(state, action, names);
    ReducedInOrder(state, action, names);
    SameTabsShown(TabsReducer(state, action, names).tabs, state.tabs, names);
  }

  lemma UngroupIs(state: TabsState, id: TabId)
    requires RootsOk(state.groups)
    ensures var ungrouped, applied := UngroupPanes(state.groups, id, state.groupCount), ApplyAction(state, Ungroup(id));
      && applied.groups == ungrouped.groups && applied.groupCount == ungrouped.groupCount
      && applied.tabs == state.tabs && applied.activeTabId == state.activeTabId
  {
  }

  lemma SinglesAreFocused(groups: seq<TabGroup>, index: nat, singles: seq<TabGroup>, focused: TabId, active: TabId,
          id: nat, groupCount: nat)
    requires index < |groups| && AreSingles(singles, Panes(groups[index]), active, id, groupCount)
    requires FocusedOn(groups, focused)
    ensures FocusedOn(groups[..index] + singles + groups[index + 1..], focused)
  {
    var r := groups[..index] + singles + groups[index + 1..];
    forall group | group in r && focused in Panes(group)
      ensures group.activeTabId == focused && (group.zoomedTabId == None || group.zoomedTabId == Some(focused))
    {
      assert group in groups || group in singles;
    }
  }

  // A tab of the bar moved along it stays as it is, and so does every other.
  lemma MovePlaces(state: TabsState, fromIndex: nat, toIndex: nat, names: seq<Tab> -> seq<string>)
    requires Settled(state) && fromIndex < |state.groups| && toIndex < |state.groups|
    ensures RootsOk(state.groups) && RootsOk(ApplyAction(state, Move(fromIndex, toIndex)).groups)
    ensures var r, groups := TabsReducer(state, Move(fromIndex, toIndex), names).groups, state.groups;
      && |r| == |groups| && r[toIndex] == groups[fromIndex]
      && r[..toIndex] + r[toIndex + 1..] == groups[..fromIndex] + groups[fromIndex + 1..]
  {
    hide *;
    var action := Move(fromIndex, toIndex);
    SettledIsReady(state);
    IdsInOrder(state);
    ReadyHasRootsOk(state);
    PlacingIsAllowed(state, action);
    ReducerKeepsSettled(state, action, names);
    MoveIs(state, fromIndex, toIndex);
    MoveGroupKeepsPanes(state.groups, state.groupCount, fromIndex, toIndex);
    MoveGroupMovesOne(state.groups, fromIndex, toIndex);
    if state.activeTabId.Some? {
      SettledIsFocusedOn(state);
      MovedIsFocused(state.groups, fromIndex, toIndex, state.activeTabId.value);
    }
    ReducedAsApplied(state, action, names);
  }

  lemma MoveIs(state: TabsState, fromIndex: int, toIndex: int)
    requires RootsOk(state.groups)
    ensures ApplyAction(state, Move(fromIndex, toIndex))
         == state.(groups := MoveGroup(state.groups, fromIndex, toIndex))
  {
  }

  lemma MovedIsFocused(groups: seq<TabGroup>, fromIndex: int, toIndex: int, focused: TabId)
    requires FocusedOn(groups, focused)
    ensures FocusedOn(MoveGroup(groups, fromIndex, toIndex), focused)
  {
    assert forall group :: group in MoveGroup(groups, fromIndex, toIndex) ==> group in groups;
  }

  // ----- tabs closed -----

  // Closing tabs leaves the tabs of the bar that keep a pane, each without
  // the panes closed; then only the pane that is active is focused.
  lemma RemovePlaces(state: TabsState, ids: set<TabId>, options: RemoveOptions, names: seq<Tab> -> seq<string>)
    returns (trimmed: seq<TabGroup>)
    requires Settled(state)
    ensures RootsOk(state.groups) && RootsOk(ApplyAction(state, Remove(ids, options)).groups)
    ensures RootsOk(Remaining(state.groups, ids)) && AreTrimmed(trimmed, Remaining(state.groups, ids), ids)
    ensures var r := TabsReducer(state, Remove(ids, options), names);
      && r.groupCount == state.groupCount
      && if r.activeTabId.Some? then FocusesOnly(r.groups, trimmed, r.activeTabId.value) else r.groups == trimmed
  {
    hide *;
    var action := Remove(ids, options);
    SettledIsReady(state);
    IdsInOrder(state);
    ReadyHasRootsOk(state);
    PlacingIsAllowed(state, action);
    ReducerKeepsSettled(state, action, names);
    GroupsAreOk(state.groups, state.groupCount);
    RemoveTabsTrims(state.groups, ids);
    RemoveTabsKeepsTheRest(state.groups, ids, state.groupCount);
    ApplyRemoveIsReady(state, ids, options);
    RemoveIs(state, ids, options);
    ReducedMatching(state, action, names);
    trimmed := RemoveTabsFromGroups(state.groups, ids);
    WithoutDistinct(Order(state.groups), ids);
    ReadyHasActive(ApplyAction(state, action));
    if ApplyAction(state, action).activeTabId.Some? {
      FocusPaneFocusesOnly(trimmed, ApplyAction(state, action).activeTabId.value);
    }
  }

  lemma RemoveIs(state: TabsState, ids: set<TabId>, options: RemoveOptions)
    requires RootsOk(state.groups)
    ensures var applied := ApplyRemove(state, ids, options);
      && ApplyAction(state, Remove(ids, options)) == applied && applied.groupCount == state.groupCount
      && applied.groups == RemoveTabsFromGroups(state.groups, ids)
  {
    hide RemoveTabsFromGroups;
    hide FallbackTabId;
    hide Among;
    hide TabsWithout;
  }

  lemma ReadyHasActive(state: TabsState)
    requires Ready(state)
    ensures state.activeTabId.Some? ==> state.activeTabId.value in TabIds(state.tabs)
  {
  }

  // ----- a tab of the bar laid out as a template -----

  // A filled shape places its panes as a tree of that very shape that holds
  // them in their order.
  lemma FillShapePlaces(shape: LayoutShape, tabIds: seq<TabId>, box: Rect) returns (tree: PaneNode)
    requires ShapeHasPanes(shape) && |tabIds| == CountPanes(shape)
    ensures ShapeOfTree(tree) == shape && PaneIds(tree) == tabIds
    ensures Place(FillShape(shape, tabIds), box) == Place(tree, box)
  {
    assert tabIds[..CountPanes(shape)] == tabIds;
    tree := Filled(shape, tabIds);
    FilledKeepsIds(shape, tabIds);
    ShapeOfFilled(shape, tabIds);
    NormalizedKeepsPlaces(tree, box);
  }

  lemma {:induction false} ShapeOfFilled(shape: LayoutShape, tabIds: seq<TabId>)
    requires |tabIds| == CountPanes(shape)
    ensures ShapeOfTree(Filled(shape, tabIds)) == shape
    decreases shape, 1
  {
    if shape.ShapeSplit? {
      ShapesOfFilled(shape.children, tabIds);
    }
  }

  lemma {:induction false} ShapesOfFilled(children: seq<LayoutShape>, tabIds: seq<TabId>)
    requires |tabIds| == CountPanesOf(children)
    ensures ShapesOfTrees(FilledAll(children, tabIds)) == children
    decreases children, 0
  {
    if children != [] {
      var count := CountPanes(children[0]);
      ShapeOfFilled(children[0], tabIds[..count]);
      ShapesOfFilled(children[1..], tabIds[count..]);
      assert [children[0]] + children[1..] == children;
    }
  }

  lemma TemplateRoot(groups: seq<TabGroup>, id: TabId, shape: LayoutShape, more: seq<TabId>, groupCount: nat,
          index: nat)
    requires Distinct(Order(groups)) && ShapeHasPanes(shape) && index < |groups| && index == FindGroup(groups, id)
    requires ApplyTemplate(groups, id, shape, more, groupCount).Some?
    ensures var r, slots := ApplyTemplate(groups, id, shape, more, groupCount).value, CountPanes(shape);
      var kept := KeptPanes(Panes(groups[index]), id, slots);
      && |kept| <= slots <= |kept| + |more| && index < |r.groups|
      && r.groups[index].root == FillShape(shape, kept + more[..slots - |kept|])
  {
    hide *;
    var at, kept, filled := PaneTemplates.TemplateApplied(groups, id, shape, more, groupCount);
    LaidOutRoot(groups, index, FillShape(shape, filled), id, Without(Panes(groups[index]), ToSet(kept)), groupCount);
  }

  lemma LaidOutRoot(groups: seq<TabGroup>, index: nat, root: PaneNode, active: TabId, leftOver: seq<TabId>,
          groupCount: nat)
    requires index < |groups|
    ensures var r := LaidOut(groups, index, root, active, leftOver, groupCount).groups;
      index < |r| && r[index].root == root
  {
  }

  // Copies a template has no place for get groups of their own at the end.
  lemma SettledWithMore(state: TabsState, id: TabId, rest: seq<TabId>)
    requires RootsOk(state.groups) && Distinct(Order(state.groups)) && state.activeTabId == Some(id)
    requires forall tab :: tab in Order(state.groups) ==> tab in TabIds(state.tabs)
    requires Without(TabIds(state.tabs), ToSet(Order(state.groups))) == rest
    requires FocusedOn(state.groups, id) && id !in rest
    ensures Settle(state).groups == state.groups + Singles(rest, state.groupCount)
  {
    hide *;
    NothingIsStale(state.groups, TabIds(state.tabs));
    ReconciledIs(state.groups, TabIds(state.tabs), state.groupCount);
    SettleIs(state, id);
    SinglesInOrder(rest, state.groupCount);
    SinglesFocusedOn(state.groups, Singles(rest, state.groupCount), rest, id);
    FocusedOnIsFocused(state.groups + Singles(rest, state.groupCount), id);
  }

  lemma NothingIsStale(groups: seq<TabGroup>, tabIds: seq<TabId>)
    requires Distinct(Order(groups)) && forall id :: id in Order(groups) ==> id in tabIds
    ensures StaleIds(Order(groups), ToSet(tabIds), {}) == {}
  {
    NothingStale(Order(groups), ToSet(tabIds), {});
  }

  lemma ReconciledIs(groups: seq<TabGroup>, tabIds: seq<TabId>, groupCount: nat)
    requires RootsOk(groups) && StaleIds(Order(groups), ToSet(tabIds), {}) == {}
    ensures Reconciled(groups, tabIds, groupCount).groups
         == groups + Singles(Without(tabIds, ToSet(Order(groups))), groupCount)
  {
    hide StaleIds;
    hide Without;
  }

  lemma SinglesFocusedOn(groups: seq<TabGroup>, singles: seq<TabGroup>, rest: seq<TabId>, id: TabId)
    requires FocusedOn(groups, id) && id !in rest && |singles| == |rest|
    requires forall k :: 0 <= k < |rest| ==> singles[k].root == Pane(rest[k])
    ensures FocusedOn(groups + singles, id)
  {
    forall k | 0 <= k < |rest| ensures id !in Panes(singles[k]) {
      assert Panes(singles[k]) == [rest[k]];
    }
    hide Panes;
    assert forall group :: group in singles ==> id !in Panes(group);
  }

  lemma LaysOutFocused(groups: seq<TabGroup>, index: nat, result: seq<TabGroup>, active: TabId, panes: seq<TabId>,
          leftOver: seq<TabId>)
    requires index < |groups| && LaysOut(groups, index, result, active, panes, leftOver)
    requires Distinct(Order(result)) && active in panes
    ensures FocusedOn(result, active)
  {
    OnlyOneHolds(result, index, active);
    hide Order;
    hide Panes;
    forall group | group in result && active in Panes(group) ensures group == result[index] {
      var i :| 0 <= i < |result| && result[i] == group;
    }
  }

  // Group `index` laid out as the shape, in any box as a tree of that shape:
  // the panes it keeps, then copies. Panes left over follow in groups of
  // their own, copies left over come last; every other group is as it was.
  ghost predicate TakesTheShape(r: seq<TabGroup>, groups: seq<TabGroup>, index: nat, id: TabId, shape: LayoutShape,
          more: seq<TabId>, laid: seq<TabGroup>, tree: PaneNode, box: Rect)
    requires index < |groups|
  {
    var existing, slots := Panes(groups[index]), CountPanes(shape);
    var kept := KeptPanes(existing, id, slots);
    && |kept| <= slots <= |kept| + |more|
    && var copies, rest := more[..slots - |kept|], more[slots - |kept|..];
       && LaysOut(groups, index, laid, id, kept + copies, Without(existing, ToSet(kept)))
       && index < |laid| && ShapeOfTree(tree) == shape && PaneIds(tree) == kept + copies
       && Place(laid[index].root, box) == Place(tree, box)
       && |r| == |laid| + |rest| && r[..|laid|] == laid
       && forall k :: 0 <= k < |rest| ==>
            r[|laid| + k] == TabGroup(r[|laid| + k].id, Pane(rest[k]), rest[k], None)
  }

  // A template that fits the tab of the bar lays it out so.
  lemma TemplatePlaces(state: TabsState, id: TabId, shape: LayoutShape, newIds: seq<TabId>, more: seq<TabId>,
          names: seq<Tab> -> seq<string>, box: Rect) returns (tree: PaneNode, laid: seq<TabGroup>)
    requires Settled(state) && Allowed(state, UseTemplate(id, shape, newIds)) && id in TabIds(state.tabs)
    requires more == if CanCopy(state.tabs[TabIndex(state.tabs, id)]) then newIds else []
    requires TemplateFits(state, id, shape, more)
    ensures RootsOk(state.groups) && RootsOk(ApplyAction(state, UseTemplate(id, shape, newIds)).groups)
    ensures FindGroup(state.groups, id) >= 0
    ensures TakesTheShape(TabsReducer(state, UseTemplate(id, shape, newIds), names).groups, state.groups,
                          FindGroup(state.groups, id), id, shape, more, laid, tree, box)
  {
    hide *;
    var action, groups, index := UseTemplate(id, shape, newIds), state.groups, FindGroup(state.groups, id);
    SettledIsReady(state);
    IdsInOrder(state);
    ReadyHasRootsOk(state);
    ReducerKeepsSettled(state, action, names);
    MoreIsNew(state, id, shape, newIds, more);
    TemplateAppliesWhenItFits(state, id, shape, more);
    TemplateLists(state, id, shape, newIds, more);
    TabsOrder.TemplateApplied(state, id, shape, newIds, more);
    UseTemplateIs(state, id, shape, newIds);
    ApplyTemplateLosesNoPane(groups, state.groupCount, id, shape, more);
    TemplateRoot(groups, id, shape, more, state.groupCount, index);
    var existing, slots := Panes(groups[index]), CountPanes(shape);
    var kept := KeptPanes(existing, id, slots);
    InPlaceIs(existing, id, slots, more);
    var copies, rest := more[..slots - |kept|], more[slots - |kept|..];
    laid := ApplyTemplate(groups, id, shape, more, state.groupCount).value.groups;
    tree := FillShapePlaces(shape, kept + copies, box);
    LaysOutFocused(groups, index, laid, id, kept + copies, Without(existing, ToSet(kept)));
    NotAmongNew(TabIds(state.tabs), more, id);
    SettledWithMore(ApplyAction(state, action), id, rest);
    ReducedAsSettled(state, action, names);
    SinglesInOrder(rest, ApplyAction(state, action).groupCount);
    ItTakesTheShape(TabsReducer(state, action, names).groups, groups, index, id, shape, more, laid, tree, box, kept,
                    Singles(rest, ApplyAction(state, action).groupCount));
  }

  lemma ItTakesTheShape(r: seq<TabGroup>, groups: seq<TabGroup>, index: nat, id: TabId, shape: LayoutShape,
          more: seq<TabId>, laid: seq<TabGroup>, tree: PaneNode, box: Rect, kept: seq<TabId>, singles: seq<TabGroup>)
    requires index < |groups| && kept == KeptPanes(Panes(groups[index]), id, CountPanes(shape))
    requires |kept| <= CountPanes(shape) <= |kept| + |more|
    requires var copies, rest := more[..CountPanes(shape) - |kept|], more[CountPanes(shape) - |kept|..];
      && LaysOut(groups, index, laid, id, kept + copies, Without(Panes(groups[index]), ToSet(kept)))
      && index < |laid| && ShapeOfTree(tree) == shape && PaneIds(tree) == kept + copies
      && Place(laid[index].root, box) == Place(tree, box)
      && r == laid + singles && |singles| == |rest|
      && forall k :: 0 <= k < |rest| ==> singles[k] == TabGroup(singles[k].id, Pane(rest[k]), rest[k], None)
    ensures TakesTheShape(r, groups, index, id, shape, more, laid, tree, box)
  {
    hide Place;
    hide KeptPanes;
    hide LaysOut;
    hide Without;
    hide Panes;
    hide CountPanes;
    hide ShapeOfTree;
  }

  lemma UseTemplateIs(state: TabsState, id: TabId, shape: LayoutShape, newIds: seq<TabId>)
    requires RootsOk(state.groups)
    ensures ApplyAction(state, UseTemplate(id, shape, newIds)) == ApplyUseTemplate(state, id, shape, newIds)
  {
    hide ApplyUseTemplate;
  }

  lemma NotAmongNew(ids: seq<TabId>, more: seq<TabId>, id: TabId)
    requires Distinct(ids + more) && id in ids
    ensures id !in more
  {
    DistinctAppend(ids, more);
  }
}
