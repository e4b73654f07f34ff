// The tabs of the tab bar, each a group of panes, and the moves between them
// (src/lib/tabGroups.ts).
module TabGroups {
  import opened Sequences
  import opened PaneTrees
  import opened PaneGeometry

  // `id` is the n of the source's `group-n`.
  datatype TabGroup = TabGroup(id: nat, root: PaneNode, activeTabId: TabId, zoomedTabId: Option<TabId>)

  function Panes(group: TabGroup): seq<TabId> {
    PaneIds(group.root)
  }

  // The panes of all groups, in bar order.
  function Order(groups: seq<TabGroup>): seq<TabId> {
    if groups == [] then [] else Panes(groups[0]) + Order(groups[1..])
  }

  // A group in good shape by itself.
  predicate GroupOk(group: TabGroup) {
    && Canonical(group.root)
    && group.activeTabId in Panes(group)
    && (group.zoomedTabId.Some? ==> group.zoomedTabId.value in Panes(group))
  }

  // Every group's tree is canonical, and so every split has its sizes.
  ghost predicate RootsOk(groups: seq<TabGroup>) {
    forall group :: group in groups ==> Canonical(group.root) && Sized(group.root)
  }

  // Groups in good shape one by one, under ids handed out once each. Their
  // panes may still be wrong: unknown tabs, or a tab twice.
  ghost predicate GroupsOk(groups: seq<TabGroup>, groupCount: nat) {
    && (forall i :: 0 <= i < |groups| ==> GroupOk(groups[i]) && 1 <= groups[i].id <= groupCount)
    && (forall i, j :: 0 <= i < j < |groups| ==> groups[i].id != groups[j].id)
  }

  // groups.findIndex((group) => getPaneIds(group.root).includes(tabId))
  function FindGroup(groups: seq<TabGroup>, tabId: TabId): (i: int)
    ensures -1 <= i < |groups|
    ensures i >= 0 ==> tabId in Panes(groups[i])
    ensures i == -1 <==> tabId !in Order(groups)
  {
    if groups == [] then -1
    else if tabId in Panes(groups[0]) then 0
    else
      var rest := FindGroup(groups[1..], tabId);
      if rest == -1 then -1 else rest + 1
  }

  // ----- orders -----

  lemma {:induction false} OrderAppend(a: seq<TabGroup>, b: seq<TabGroup>)
    ensures Order(a + b) == Order(a) + Order(b)
  {
    if a == [] {
      assert a + b == b;
    } else {
      OrderAppend(a[1..], b);
      assert (a + b)[1..] == a[1..] + b;
      Associates(Panes(a[0]), Order(a[1..]), Order(b));
    }
  }

  lemma OrderOfOne(group: TabGroup)
    ensures Order([group]) == Panes(group)
  {
    assert [group][1..] == [];
  }

  // The order around group `index`.
  lemma OrderAround(groups: seq<TabGroup>, index: nat)
    requires index < |groups|
    ensures Order(groups) == Order(groups[..index]) + Panes(groups[index]) + Order(groups[index + 1..])
  {
    SplitAround(groups, index);
    OrderOfThree(groups[..index], groups[index], groups[index + 1..]);
  }

  lemma OrderOfThree(before: seq<TabGroup>, group: TabGroup, after: seq<TabGroup>)
    ensures Order(before + [group] + after) == Order(before) + Panes(group) + Order(after)
  {
    OrderOfOne(group);
    OrderAppend(before, [group]);
    OrderAppend(before + [group], after);
  }

  lemma OrderUpdated(groups: seq<TabGroup>, index: nat, group: TabGroup)
    requires index < |groups|
    ensures Order(groups[index := group]) == Order(groups[..index]) + Panes(group) + Order(groups[index + 1..])
  {
    var updated := groups[index := group];
    OrderAround(updated, index);
    assert updated[..index] == groups[..index] && updated[index + 1..] == groups[index + 1..];
  }

  lemma {:induction false} PanesAreInOrder(groups: seq<TabGroup>, index: nat)
    requires index < |groups|
    ensures forall id :: id in Panes(groups[index]) ==> id in Order(groups)
    ensures Distinct(Order(groups)) ==> Distinct(Panes(groups[index]))
  {
    OrderAround(groups, index);
    DistinctAppend(Order(groups[..index]) + Panes(groups[index]), Order(groups[index + 1..]));
    DistinctAppend(Order(groups[..index]), Panes(groups[index]));
  }

  // With every tab in one place, the group a pane is found in is its only one.
  lemma {:induction false} FindGroupIsUnique(groups: seq<TabGroup>, tabId: TabId, index: nat)
    requires Distinct(Order(groups)) && index < |groups| && tabId in Panes(groups[index])
    ensures FindGroup(groups, tabId) == index
  {
    DistinctAppend(Panes(groups[0]), Order(groups[1..]));
    if index > 0 {
      PanesAreInOrder(groups[1..], index - 1);
      FindGroupIsUnique(groups[1..], tabId, index - 1);
    }
  }

  // ----- the pane to focus when the focused one goes -----

  // Looks `offset` steps to the right, then to the left, and then further out.
  function NearestFrom(order: seq<TabId>, index: int, offset: nat, remaining: seq<TabId>): (r: TabId)
    requires remaining != []
    ensures r in remaining
    decreases |order| - offset
  {
    if offset >= |order| then remaining[0]
    else if 0 <= index + offset < |order| && order[index + offset] in remaining then order[index + offset]
    else if 0 <= index - offset < |order| && order[index - offset] in remaining then order[index - offset]
    else NearestFrom(order, index, offset + 1, remaining)
  }

  function NearestPane(order: seq<TabId>, tabId: TabId, remaining: seq<TabId>): (r: TabId)
    requires remaining != []
    ensures r in remaining
  {
    NearestFrom(order, IndexOf(order, tabId), 1, remaining)
  }

  method FindNearestPane(order: seq<TabId>, tabId: TabId, remaining: seq<TabId>) returns (r: TabId)
    requires remaining != []
    ensures r == NearestPane(order, tabId, remaining)
  {
    var index := IndexOf(order, tabId);
    var kept := ToSet(remaining);
    var offset := 1;
    while offset < |order|
      invariant NearestFrom(order, index, offset, remaining) == NearestPane(order, tabId, remaining)
    {
      if 0 <= index + offset < |order| && order[index + offset] in kept {
        return order[index + offset];
      }
      if 0 <= index - offset < |order| && order[index - offset] in kept {
        return order[index - offset];
      }
      offset := offset + 1;
    }
    return remaining[0];
  }

  function Distance(a: int, b: int): nat {
    if a <= b then b - a else a - b
  }

  lemma {:induction false} NearestFromIsNearest(order: seq<TabId>, index: int, offset: nat, remaining: seq<TabId>)
    returns (at: nat)
    requires 0 <= index < |order| && remaining != [] && offset >= 1
    requires forall id :: id in remaining ==> id in order
    requires forall j :: 0 <= j < |order| && order[j] in remaining ==> Distance(index, j) >= offset
    ensures at < |order| && order[at] == NearestFrom(order, index, offset, remaining)
    ensures forall j :: 0 <= j < |order| && order[j] in remaining ==>
      Distance(index, j) > Distance(index, at) || (Distance(index, j) == Distance(index, at) && j <= at)
    decreases |order| - offset
  {
    assert remaining[0] in order;
    var j :| 0 <= j < |order| && order[j] == remaining[0];
    if offset >= |order| {
      assert false;
    } else if index + offset < |order| && order[index + offset] in remaining {
      at := index + offset;
    } else if index - offset >= 0 && order[index - offset] in remaining {
      at := index - offset;
    } else {
      at := NearestFromIsNearest(order, index, offset + 1, remaining);
    }
  }

  // No pane left is closer to where the focused pane was, and of two as
  // close the later one is taken.
  lemma NearestPaneIsNearest(order: seq<TabId>, tabId: TabId, remaining: seq<TabId>) returns (index: nat, at: nat)
    requires tabId in order && tabId !in remaining && remaining != [] && Distinct(order)
    requires forall id :: id in remaining ==> id in order
    ensures index < |order| && order[index] == tabId
    ensures at < |order| && order[at] == NearestPane(order, tabId, remaining)
    ensures forall j :: 0 <= j < |order| && order[j] in remaining ==>
      Distance(index, j) > Distance(index, at) || (Distance(index, j) == Distance(index, at) && j <= at)
  {
    index := IndexOf(order, tabId);
    at := NearestFromIsNearest(order, index, 1, remaining);
  }

  // ----- removing tabs -----

  predicate HoldsAny(group: TabGroup, gone: set<TabId>) {
    exists id :: id in Panes(group) && id in gone
  }

  // A group without the given panes: itself, or nothing when no pane is left.
  function WithoutTabs(group: TabGroup, gone: set<TabId>): seq<TabGroup>
    requires Sized(group.root)
  {
    if !HoldsAny(group, gone) then [group]
    else
      RemovePanesKeepsTheRest(group.root, gone);
      match RemovePanes(group.root, gone)
      case None => []
      case Some(root) =>
        var remaining := PaneIds(root);
        [TabGroup(
           group.id,
           root,
           if group.activeTabId in remaining then group.activeTabId
           else NearestPane(Panes(group), group.activeTabId, remaining),
           if group.zoomedTabId.Some? && group.zoomedTabId.value in remaining then group.zoomedTabId else None)]
  }

  // `WithoutTabs` of each group, the empty ones dropped by it.
  function RemoveTabsFromGroups(groups: seq<TabGroup>, gone: set<TabId>): seq<TabGroup>
    requires RootsOk(groups)
  {
    if groups == [] then [] else WithoutTabs(groups[0], gone) + RemoveTabsFromGroups(groups[1..], gone)
  }

  lemma WithoutTabsKeepsTheRest(group: TabGroup, gone: set<TabId>)
    requires GroupOk(group) && Sized(group.root)
    ensures var r := WithoutTabs(group, gone);
      && |r| <= 1
      && (r != [] ==>
            && GroupOk(r[0]) && r[0].id == group.id
            && (r[0].activeTabId == group.activeTabId || group.activeTabId in gone))
      && Order(r) == Without(Panes(group), gone)
  {
    RemovePanesKeepsTheRest(group.root, gone);
    if !HoldsAny(group, gone) {
      WithoutNothing(Panes(group), gone);
      OrderOfOne(group);
    } else {
      WithoutMembers(Panes(group), gone);
      var r := WithoutTabs(group, gone);
      if r != [] {
        OrderOfOne(r[0]);
      }
    }
  }

  // Which group id a list holds.
  function GroupIds(groups: seq<TabGroup>): set<nat> {
    set group | group in groups :: group.id
  }

  lemma GroupsOkHaveRootsOk(groups: seq<TabGroup>, groupCount: nat)
    requires GroupsOk(groups, groupCount)
    ensures RootsOk(groups)
  {
    forall group | group in groups ensures Canonical(group.root) && Sized(group.root) {
      assert GroupOk(group);
      CanonicalIsSized(group.root);
    }
  }

  lemma GroupsOkAppend(a: seq<TabGroup>, b: seq<TabGroup>, groupCount: nat)
    requires GroupsOk(a, groupCount) && GroupsOk(b, groupCount) && GroupIds(a) !! GroupIds(b)
    ensures GroupsOk(a + b, groupCount)
  {
    var s := a + b;
    forall i, j | 0 <= i < j < |s| ensures s[i].id != s[j].id {
      if i < |a| <= j {
        assert a[i] in a && b[j - |a|] in b;
        assert s[i].id in GroupIds(a) && s[j].id in GroupIds(b);
      }
    }
  }

  lemma GroupIdsApart(first: TabGroup, rest: seq<TabGroup>)
    ensures GroupIds([first] + rest) == {first.id} + GroupIds(rest)
  {
    var s := [first] + rest;
    assert s[0] == first;
    forall group | group in rest ensures group in s {
      var i :| 0 <= i < |rest| && rest[i] == group;
      assert s[i + 1] == group;
    }
  }

  lemma GroupsOkApart(first: TabGroup, rest: seq<TabGroup>, groupCount: nat)
    ensures GroupsOk([first] + rest, groupCount)
       <==> GroupOk(first) && 1 <= first.id <= groupCount && GroupsOk(rest, groupCount) && first.id !in GroupIds(rest)
    ensures GroupIds([first] + rest) == {first.id} + GroupIds(rest)
  {
    GroupIdsApart(first, rest);
    var s := [first] + rest;
    assert s[0] == first && forall i :: 0 <= i < |rest| ==> s[i + 1] == rest[i];
    if GroupsOk(s, groupCount) {
      forall i | 0 <= i < |rest| ensures rest[i].id != first.id {
        assert s[i + 1].id != s[0].id;
      }
    }
    if GroupsOk(rest, groupCount) && first.id !in GroupIds(rest) {
      forall i | 0 <= i < |rest| ensures rest[i].id != first.id {
        assert rest[i] in rest;
      }
    }
  }

  lemma {:induction false} RemoveTabsKeepsTheRest(groups: seq<TabGroup>, gone: set<TabId>, groupCount: nat)
    requires GroupsOk(groups, groupCount)
    requires RootsOk(groups)
    ensures var r := RemoveTabsFromGroups(groups, gone);
      && GroupsOk(r, groupCount)
      && GroupIds(r) <= GroupIds(groups)
      && Order(r) == Without(Order(groups), gone)
  {
    if groups != [] {
      var first, rest := WithoutTabs(groups[0], gone), RemoveTabsFromGroups(groups[1..], gone);
      assert groups == [groups[0]] + groups[1..];
      GroupsOkApart(groups[0], groups[1..], groupCount);
      WithoutTabsKeepsTheRest(groups[0], gone);
      RemoveTabsKeepsTheRest(groups[1..], gone, groupCount);
      OrderAppend(first, rest);
      WithoutAppend(Panes(groups[0]), Order(groups[1..]), gone);
      if first == [] {
        assert first + rest == rest;
      } else {
        assert first == [first[0]];
        GroupsOkApart(first[0], rest, groupCount);
      }
    }
  }

  // ----- keeping groups and tabs in step -----

  // The ids in `ids` that are unknown or were listed before.
  function StaleIds(ids: seq<TabId>, known: set<TabId>, seen: set<TabId>): set<TabId> {
    if ids == [] then {}
    else (if ids[0] !in known || ids[0] in seen then {ids[0]} else {}) + StaleIds(ids[1..], known, seen + {ids[0]})
  }

  // A group of its own for each tab, under new ids.
  function Singles(tabIds: seq<TabId>, groupCount: nat): (r: seq<TabGroup>)
    ensures |r| == |tabIds|
  {
    if tabIds == [] then []
    else [TabGroup(groupCount + 1, Pane(tabIds[0]), tabIds[0], None)] + Singles(tabIds[1..], groupCount + 1)
  }

  datatype Counted = Counted(groups: seq<TabGroup>, groupCount: nat)

  // First the panes without a tab, or seen before, go; then each tab that has no
  // pane gets one.
  function Reconciled(groups: seq<TabGroup>, tabIds: seq<TabId>, groupCount: nat): Counted
    requires RootsOk(groups)
  {
    var stale := StaleIds(Order(groups), ToSet(tabIds), {});
    var kept := if stale != {} then RemoveTabsFromGroups(groups, stale) else groups;
    var missing := Without(tabIds, ToSet(Order(kept)));
    Counted(kept + Singles(missing, groupCount), groupCount + |missing|)
  }

  method CollectStale(groups: seq<TabGroup>, known: set<TabId>) returns (stale: seq<TabId>)
    ensures ToSet(stale) == StaleIds(Order(groups), known, {})
  {
    var seen: set<TabId> := {};
    stale := [];
    for k := 0 to |groups|
      invariant ToSet(stale) + StaleIds(Order(groups[k..]), known, seen) == StaleIds(Order(groups), known, {})
    {
      assert groups[k..][1..] == groups[k + 1..];
      stale, seen := CollectStaleOf(Panes(groups[k]), known, stale, seen, Order(groups[k + 1..]));
    }
  }

  // The loop over one group's panes, with the panes of the groups after it.
  method CollectStaleOf(ids: seq<TabId>, known: set<TabId>, stale0: seq<TabId>, seen0: set<TabId>,
          ghost later: seq<TabId>)
    returns (stale: seq<TabId>, seen: set<TabId>)
    ensures ToSet(stale) + StaleIds(later, known, seen) == ToSet(stale0) + StaleIds(ids + later, known, seen0)
  {
    stale, seen := stale0, seen0;
    for i := 0 to |ids|
      invariant ToSet(stale) + StaleIds(ids[i..] + later, known, seen)
                == ToSet(stale0) + StaleIds(ids + later, known, seen0)
    {
      assert (ids[i..] + later)[1..] == ids[i + 1..] + later;
      if ids[i] !in known || ids[i] in seen {
        ToSetGrows(stale, ids[i]);
        stale := stale + [ids[i]];
      }
      seen := seen + {ids[i]};
    }
    assert ids[|ids|..] + later == later;
  }

  method ReconcileGroups(groups: seq<TabGroup>, tabIds: seq<TabId>, groupCount: nat) returns (r: Counted)
    requires RootsOk(groups)
    ensures r == Reconciled(groups, tabIds, groupCount)
  {
    var stale := CollectStale(groups, ToSet(tabIds));
    assert stale != [] ==> stale[0] in ToSet(stale);
    var result := if |stale| > 0 then RemoveTabsFromGroups(groups, ToSet(stale)) else groups;
    // Ids that were repeated have no pane now, and count as missing.
    var placed := ToSet(Order(result));
    var missing := Without(tabIds, placed);
    r := Counted(result + Singles(missing, groupCount), groupCount + |missing|);
  }

  lemma {:induction false} StaleIdsLeaveEachOnce(ids: seq<TabId>, known: set<TabId>, seen: set<TabId>, gone: set<TabId>)
    requires StaleIds(ids, known, seen) <= gone
    ensures Distinct(Without(ids, gone))
    ensures forall id :: id in Without(ids, gone) ==> id in known && id !in seen
  {
    if ids != [] {
      StaleIdsLeaveEachOnce(ids[1..], known, seen + {ids[0]}, gone);
      DistinctAppend([ids[0]], Without(ids[1..], gone));
    }
  }

  lemma {:induction false} NothingStale(ids: seq<TabId>, known: set<TabId>, seen: set<TabId>)
    requires Distinct(ids) && forall id :: id in ids ==> id in known && id !in seen
    ensures StaleIds(ids, known, seen) == {}
  {
    if ids != [] {
      assert ids == [ids[0]] + ids[1..];
      DistinctAppend([ids[0]], ids[1..]);
      assert ids[0] in [ids[0]];
      NothingStale(ids[1..], known, seen + {ids[0]});
    }
  }

  lemma {:induction false} SinglesInOrder(tabIds: seq<TabId>, groupCount: nat)
    ensures var r := Singles(tabIds, groupCount);
      && (forall i :: 0 <= i < |r| ==> r[i] == TabGroup(groupCount + 1 + i, Pane(tabIds[i]), tabIds[i], None))
      && Order(r) == tabIds
  {
    if tabIds != [] {
      SinglesInOrder(tabIds[1..], groupCount + 1);
      assert tabIds == [tabIds[0]] + tabIds[1..];
    }
  }

  lemma SinglesAreOk(tabIds: seq<TabId>, groupCount: nat)
    ensures var r := Singles(tabIds, groupCount);
      && GroupsOk(r, groupCount + |tabIds|)
      && (forall i :: 0 <= i < |r| ==> r[i] == TabGroup(groupCount + 1 + i, Pane(tabIds[i]), tabIds[i], None))
      && Order(r) == tabIds
  {
    SinglesInOrder(tabIds, groupCount);
  }

  lemma GroupsOkUpTo(groups: seq<TabGroup>, groupCount: nat, more: nat)
    requires GroupsOk(groups, groupCount) && groupCount <= more
    ensures GroupsOk(groups, more)
  {
  }

  // Groups in use and groups under new ids never share an id.
  lemma WithNewGroups(groups: seq<TabGroup>, more: seq<TabGroup>, groupCount: nat, newCount: nat)
    requires GroupsOk(groups, groupCount) && GroupsOk(more, newCount) && groupCount <= newCount
    requires forall i :: 0 <= i < |more| ==> more[i].id > groupCount
    ensures GroupsOk(groups + more, newCount)
  {
    GroupsOkAppend(groups, more, newCount);
  }

  // Whatever panes the groups held, afterwards each tab has one pane, and no
  // other pane is left.
  lemma ReconciledHoldsEachTabOnce(groups: seq<TabGroup>, tabIds: seq<TabId>, groupCount: nat)
    requires GroupsOk(groups, groupCount) && Distinct(tabIds)
    requires RootsOk(groups)
    ensures var r := Reconciled(groups, tabIds, groupCount);
      && GroupsOk(r.groups, r.groupCount)
      && r.groupCount >= groupCount
      && multiset(Order(r.groups)) == multiset(tabIds)
  {
    var known := ToSet(tabIds);
    var stale := StaleIds(Order(groups), known, {});
    var kept := if stale != {} then RemoveTabsFromGroups(groups, stale) else groups;
    if stale != {} {
      RemoveTabsKeepsTheRest(groups, stale, groupCount);
    } else {
      WithoutNothing(Order(groups), stale);
    }
    assert Order(kept) == Without(Order(groups), stale);
    StaleIdsLeaveEachOnce(Order(groups), known, {}, stale);
    var missing := Without(tabIds, ToSet(Order(kept)));
    SinglesAreOk(missing, groupCount);
    WithNewGroups(kept, Singles(missing, groupCount), groupCount, groupCount + |missing|);
    OrderAppend(kept, Singles(missing, groupCount));
    WithoutAPart(tabIds, Order(kept));
  }

  // Groups that already match the tabs are left alone.
  lemma ReconciledKeepsMatching(groups: seq<TabGroup>, tabIds: seq<TabId>, groupCount: nat)
    requires Distinct(tabIds) && multiset(Order(groups)) == multiset(tabIds)
    requires RootsOk(groups)
    ensures Reconciled(groups, tabIds, groupCount) == Counted(groups, groupCount)
  {
    SameValues(Order(groups), tabIds);
    var known, placed := ToSet(tabIds), ToSet(Order(groups));
    assert forall id :: id in Order(groups) <==> id in placed;
    assert forall id :: id in tabIds <==> id in known;
    NothingStale(Order(groups), known, {});
    WithoutAll(tabIds, placed);
    assert groups + [] == groups;
  }

  // ----- focusing, zooming and moving -----

  // The group of `tabId` with that pane focused. A zoom on any other pane of it
  // is over.
  function FocusPane(groups: seq<TabGroup>, tabId: TabId): seq<TabGroup> {
    var index := FindGroup(groups, tabId);
    if index == -1 then groups
    else
      var group := groups[index];
      groups[index := group.(activeTabId := tabId,
                             zoomedTabId := if group.zoomedTabId == Some(tabId) then group.zoomedTabId else None)]
  }

  // Focuses the pane and turns its zoom on or off. Without a split there is
  // nothing to do.
  function ToggleZoom(groups: seq<TabGroup>, tabId: TabId): seq<TabGroup> {
    var index := FindGroup(groups, tabId);
    if index == -1 || groups[index].root.Pane? then groups
    else
      var group := groups[index];
      groups[index := group.(activeTabId := tabId,
                             zoomedTabId := if group.zoomedTabId == Some(tabId) then None else Some(tabId))]
  }

  function MoveGroup(groups: seq<TabGroup>, fromIndex: int, toIndex: int): seq<TabGroup> {
    if fromIndex < 0 || fromIndex >= |groups| || toIndex < 0 || toIndex >= |groups| || fromIndex == toIndex then groups
    else
      var rest := groups[..fromIndex] + groups[fromIndex + 1..];
      rest[..toIndex] + [groups[fromIndex]] + rest[toIndex..]
  }

  // What the window draws while `activeTabId` is the active tab.
  function VisiblePaneIds(groups: seq<TabGroup>, activeTabId: Option<TabId>): seq<TabId> {
    if activeTabId.None? then []
    else
      var index := FindGroup(groups, activeTabId.value);
      if index == -1 then []
      else if groups[index].zoomedTabId.Some? then [groups[index].zoomedTabId.value]
      else Panes(groups[index])
  }

  lemma UpdatedGroupIsOk(groups: seq<TabGroup>, groupCount: nat, index: nat, group: TabGroup)
    requires GroupsOk(groups, groupCount) && index < |groups| && GroupOk(group) && group.id == groups[index].id
    ensures GroupsOk(groups[index := group], groupCount)
  {
  }

  lemma SamePanesSameOrder(groups: seq<TabGroup>, index: nat, group: TabGroup)
    requires index < |groups| && Panes(group) == Panes(groups[index])
    ensures Order(groups[index := group]) == Order(groups)
  {
    OrderAround(groups, index);
    OrderUpdated(groups, index, group);
  }

  // The group a pane is found in, changed but for its panes.
  lemma GroupChanged(groups: seq<TabGroup>, groupCount: nat, index: nat, group: TabGroup)
    requires GroupsOk(groups, groupCount) && index < |groups|
    requires GroupOk(group) && group.id == groups[index].id && Panes(group) == Panes(groups[index])
    ensures GroupsOk(groups[index := group], groupCount)
    ensures Order(groups[index := group]) == Order(groups)
  {
    UpdatedGroupIsOk(groups, groupCount, index, group);
    SamePanesSameOrder(groups, index, group);
  }

  lemma FocusPaneKeepsPanes(groups: seq<TabGroup>, groupCount: nat, tabId: TabId)
    requires GroupsOk(groups, groupCount)
    ensures GroupsOk(FocusPane(groups, tabId), groupCount)
    ensures Order(FocusPane(groups, tabId)) == Order(groups)
    ensures tabId in Order(groups) ==>
      && tabId in VisiblePaneIds(FocusPane(groups, tabId), Some(tabId))
      && FocusPane(FocusPane(groups, tabId), tabId) == FocusPane(groups, tabId)
  {
    hide Order;
    hide Canonical;
    var index := FindGroup(groups, tabId);
    if index >= 0 {
      var group := FocusPane(groups, tabId)[index];
      assert GroupOk(groups[index]);
      GroupChanged(groups, groupCount, index, group);
      hide GroupsOk;
      FindGroupAfterUpdate(groups, index, group, tabId);
    }
  }

  // A group that keeps its panes is found as before.
  lemma {:induction false} FindGroupAfterUpdate(groups: seq<TabGroup>, index: nat, group: TabGroup, tabId: TabId)
    requires index < |groups| && Panes(group) == Panes(groups[index])
    ensures FindGroup(groups[index := group], tabId) == FindGroup(groups, tabId)
  {
    if index > 0 {
      FindGroupAfterUpdate(groups[1..], index - 1, group, tabId);
      assert groups[index := group][1..] == groups[1..][index - 1 := group];
    } else {
      assert groups[0 := group][1..] == groups[1..];
    }
  }

  lemma ToggleZoomKeepsPanes(groups: seq<TabGroup>, groupCount: nat, tabId: TabId)
    requires GroupsOk(groups, groupCount)
    ensures GroupsOk(ToggleZoom(groups, tabId), groupCount)
    ensures Order(ToggleZoom(groups, tabId)) == Order(groups)
  {
    var index := FindGroup(groups, tabId);
    if index >= 0 && groups[index].root.Split? {
      assert GroupOk(groups[index]);
      GroupChanged(groups, groupCount, index, ToggleZoom(groups, tabId)[index]);
    }
  }

  lemma LonePaneIsFocused(groups: seq<TabGroup>, index: nat, tabId: TabId)
    requires index < |groups| && index == FindGroup(groups, tabId)
    requires GroupOk(groups[index]) && groups[index].root.Pane?
    ensures Panes(groups[index]) == [tabId] && groups[index].activeTabId == tabId
    ensures groups[index].zoomedTabId.Some? ==> groups[index].zoomedTabId.value == tabId
    ensures FocusPane(groups, tabId) == groups
  {
    hide Order;
    var group := groups[index];
    assert Panes(group) == [group.root.tabId];
    assert groups[index := group] == groups;
  }

  // Toggling shows the pane alone, or the whole group again when it was the
  // zoomed one or has no other pane; toggling twice only focuses the pane, as
  // clicking it would.
  lemma ToggleZoomShows(groups: seq<TabGroup>, groupCount: nat, tabId: TabId)
    requires GroupsOk(groups, groupCount) && tabId in Order(groups)
    ensures var group, after := groups[FindGroup(groups, tabId)], ToggleZoom(groups, tabId);
      && VisiblePaneIds(after, Some(tabId))
         == (if group.zoomedTabId == Some(tabId) || group.root.Pane? then Panes(group) else [tabId])
      && after[FindGroup(groups, tabId)].activeTabId == tabId
      && (forall i :: 0 <= i < |groups| && i != FindGroup(groups, tabId) ==> after[i] == groups[i])
      && ToggleZoom(after, tabId) == FocusPane(groups, tabId)
  {
    var index := FindGroup(groups, tabId);
    assert GroupOk(groups[index]);
    hide GroupsOk;
    hide Canonical;
    hide Order;
    if groups[index].root.Pane? {
      LonePaneIsFocused(groups, index, tabId);
    } else {
      FindGroupAfterUpdate(groups, index, ToggleZoom(groups, tabId)[index], tabId);
    }
  }

  lemma GroupsOkPart(groups: seq<TabGroup>, groupCount: nat, index: nat)
    requires GroupsOk(groups, groupCount) && index < |groups|
    ensures var rest := groups[..index] + groups[index + 1..];
      GroupsOk(rest, groupCount) && groups[index].id !in GroupIds(rest)
  {
    var rest := groups[..index] + groups[index + 1..];
    forall i | 0 <= i < |rest| ensures rest[i] == groups[if i < index then i else i + 1] {
    }
  }

  // A group put in anywhere among others.
  lemma GroupPutInIsOk(groups: seq<TabGroup>, groupCount: nat, at: nat, group: TabGroup)
    requires GroupsOk(groups, groupCount) && at <= |groups|
    requires GroupOk(group) && 1 <= group.id <= groupCount && group.id !in GroupIds(groups)
    ensures GroupsOk(groups[..at] + [group] + groups[at..], groupCount)
  {
    var r := groups[..at] + [group] + groups[at..];
    forall k | 0 <= k < |groups| ensures groups[k].id != group.id {
      assert groups[k] in groups;
    }
    forall i | 0 <= i < |r| ensures r[i] == if i < at then groups[i] else if i == at then group else groups[i - 1] {
    }
  }

  lemma GroupPutInPanes(groups: seq<TabGroup>, at: nat, group: TabGroup)
    requires at <= |groups|
    ensures multiset(Order(groups[..at] + [group] + groups[at..])) == multiset(Order(groups)) + multiset(Panes(group))
  {
    OrderOfThree(groups[..at], group, groups[at..]);
    OrderAppend(groups[..at], groups[at..]);
    assert groups[..at] + groups[at..] == groups;
  }

  lemma GroupTakenOutPanes(groups: seq<TabGroup>, index: nat)
    requires index < |groups|
    ensures multiset(Order(groups))
            == multiset(Order(groups[..index] + groups[index + 1..])) + multiset(Panes(groups[index]))
  {
    OrderAround(groups, index);
    OrderAppend(groups[..index], groups[index + 1..]);
  }

  // Moving a group along the bar takes it to its place and keeps the others in their order.
  lemma MoveGroupKeepsPanes(groups: seq<TabGroup>, groupCount: nat, fromIndex: int, toIndex: int)
    requires GroupsOk(groups, groupCount)
    ensures var r := MoveGroup(groups, fromIndex, toIndex);
      GroupsOk(r, groupCount) && multiset(Order(r)) == multiset(Order(groups))
  {
    if 0 <= fromIndex < |groups| && 0 <= toIndex < |groups| && fromIndex != toIndex {
      var rest := groups[..fromIndex] + groups[fromIndex + 1..];
      GroupsOkPart(groups, groupCount, fromIndex);
      GroupPutInIsOk(rest, groupCount, toIndex, groups[fromIndex]);
      GroupPutInPanes(rest, toIndex, groups[fromIndex]);
      GroupTakenOutPanes(groups, fromIndex);
    }
  }

  lemma MoveGroupMovesOne(groups: seq<TabGroup>, fromIndex: nat, toIndex: nat)
    requires fromIndex < |groups| && toIndex < |groups|
    ensures var r := MoveGroup(groups, fromIndex, toIndex);
      && |r| == |groups|
      && r[toIndex] == groups[fromIndex]
      && r[..toIndex] + r[toIndex + 1..] == groups[..fromIndex] + groups[fromIndex + 1..]
  {
    if fromIndex != toIndex {
      var rest, r := groups[..fromIndex] + groups[fromIndex + 1..], MoveGroup(groups, fromIndex, toIndex);
      assert r[..toIndex] == rest[..toIndex] && r[toIndex + 1..] == rest[toIndex..];
    }
  }

  // Groups put in place of group `index`, under its id or new ones.
  lemma SpliceGroupsIsOk(groups: seq<TabGroup>, groupCount: nat, index: nat, more: seq<TabGroup>, newCount: nat)
    requires GroupsOk(groups, groupCount) && index < |groups| && GroupsOk(more, newCount) && newCount >= groupCount
    requires forall g :: g in more ==> g.id > groupCount || g.id == groups[index].id
    ensures GroupsOk(groups[..index] + more + groups[index + 1..], newCount)
  {
    var before, after := groups[..index], groups[index + 1..];
    GroupsOkUpTo(groups, groupCount, newCount);
    assert forall g :: g in before ==> g.id <= groupCount && g.id != groups[index].id;
    assert forall g :: g in after ==> g.id <= groupCount && g.id != groups[index].id;
    GroupsOkAppend(before, more, newCount);
    assert GroupIds(before + more) !! GroupIds(after) by {
      forall g, h | g in before && h in after ensures g.id != h.id {
      }
    }
    GroupsOkAppend(before + more, after, newCount);
  }
}
