// Moving panes between groups: beside another pane, out into a group of
// their own, or a whole group at once (src/lib/tabGroups.ts).
module PaneMoves {
  import opened Sequences
  import opened PaneTrees
  import opened PaneGeometry
  import opened TabGroups

  // ----- the order around one id -----

  lemma {:induction false} SplicedIdsAbsent(ids: seq<TabId>, target: TabId, inserted: seq<TabId>, before: bool)
    requires target !in ids
    ensures SplicedIds(ids, target, inserted, before) == ids
  {
    if ids != [] {
      SplicedIdsAbsent(ids[1..], target, inserted, before);
    }
  }

  lemma {:induction false} SplicedIdsWithin(a: seq<TabId>, b: seq<TabId>, c: seq<TabId>, target: TabId,
                                            inserted: seq<TabId>, before: bool)
    requires target !in a && target in b
    ensures SplicedIds(a + b + c, target, inserted, before) == a + SplicedIds(b, target, inserted, before) + c
  {
    if a != [] {
      assert (a + b + c)[1..] == a[1..] + b + c;
      SplicedIdsWithin(a[1..], b, c, target, inserted, before);
      assert [a[0]] + (a[1..] + SplicedIds(b, target, inserted, before) + c)
             == a + SplicedIds(b, target, inserted, before) + c;
    } else if b[0] == target {
      assert a + b + c == b + c;
      assert (b + c)[1..] == b[1..] + c;
    } else {
      assert a + b + c == b + c;
      assert [] + b[1..] + c == (b + c)[1..];
      SplicedIdsWithin([], b[1..], c, target, inserted, before);
    }
  }

  lemma {:induction false} SplicedIdsCount(ids: seq<TabId>, target: TabId, inserted: seq<TabId>, before: bool)
    requires target in ids
    ensures multiset(SplicedIds(ids, target, inserted, before)) == multiset(ids) + multiset(inserted)
  {
    assert ids == [ids[0]] + ids[1..];
    if ids[0] != target {
      SplicedIdsCount(ids[1..], target, inserted, before);
    }
  }

  // ----- a pane beside another -----

  // A group with `tree` put beside its pane `target`, and `active` focused.
  function WithBeside(group: TabGroup, target: TabId, tree: PaneNode, direction: Direction, active: TabId): TabGroup
    requires Canonical(group.root)
  {
    TabGroup(group.id, InsertNextTo(group.root, target, tree, direction), active, None)
  }

  // `tabId` goes beside `target`: first out of where it is, groups it was alone
  // in included, then into the group that holds the target.
  function PlacePane(groups: seq<TabGroup>, tabId: TabId, target: TabId, direction: Direction): seq<TabGroup>
    requires RootsOk(groups)
  {
    if tabId == target || FindGroup(groups, target) == -1 then groups
    else
      RemoveTabsKeepsCanonical(groups, {tabId});
      PlaceInEach(RemoveTabsFromGroups(groups, {tabId}), tabId, target, direction)
  }

  lemma {:induction false} RemoveTabsKeepsCanonical(groups: seq<TabGroup>, gone: set<TabId>)
    requires RootsOk(groups)
    ensures RootsOk(RemoveTabsFromGroups(groups, gone))
  {
    if groups != [] {
      RemovePanesKeepsTheRest(groups[0].root, gone);
      match RemovePanes(groups[0].root, gone)
      case None =>
      case Some(root) => CanonicalIsSized(root);
    }
    if groups != [] {
      RemoveTabsKeepsCanonical(groups[1..], gone);
    }
  }

  function PlaceInEach(groups: seq<TabGroup>, tabId: TabId, target: TabId, direction: Direction): (r: seq<TabGroup>)
    requires RootsOk(groups)
    ensures |r| == |groups|
  {
    seq(|groups|, i requires 0 <= i < |groups| =>
      if target in Panes(groups[i])
      then WithBeside(groups[i], target, Pane(tabId), direction, tabId)
      else groups[i])
  }

  // The whole tree that holds `tabId` becomes a part of the target's, on the
  // asked side.
  function MergeGroup(groups: seq<TabGroup>, tabId: TabId, target: TabId, direction: Direction): Option<seq<TabGroup>>
    requires RootsOk(groups)
  {
    var source, at := FindGroup(groups, tabId), FindGroup(groups, target);
    if source == -1 || at == -1 || source == at then None
    else
      var merged := WithBeside(groups[at], target, groups[source].root, direction, groups[source].activeTabId);
      var updated := groups[at := merged];
      Some(updated[..source] + updated[source + 1..])
  }

  lemma WithBesideIsOk(group: TabGroup, target: TabId, tree: PaneNode, direction: Direction, active: TabId)
    requires GroupOk(group) && Distinct(Panes(group)) && target in Panes(group)
    requires Canonical(tree) && active in PaneIds(tree)
    ensures var r := WithBeside(group, target, tree, direction, active);
      && GroupOk(r)
      && Panes(r) == SplicedIds(Panes(group), target, PaneIds(tree), IsBefore(direction))
  {
    CanonicalHasPanes(tree);
    InsertNextToSplicesTheOrder(group.root, target, tree, direction);
    SplicedIdsCount(Panes(group), target, PaneIds(tree), IsBefore(direction));
    var r := WithBeside(group, target, tree, direction, active);
    assert active in multiset(Panes(r)) by {
      assert active in multiset(PaneIds(tree));
    }
  }

  // The bar's order after one group had a tree put in beside `target`.
  lemma OrderWithBeside(groups: seq<TabGroup>, at: nat, group: TabGroup, target: TabId, inserted: seq<TabId>,
          before: bool)
    requires Distinct(Order(groups)) && at < |groups| && target in Panes(groups[at])
    requires Panes(group) == SplicedIds(Panes(groups[at]), target, inserted, before)
    ensures Order(groups[at := group]) == SplicedIds(Order(groups), target, inserted, before)
  {
    OrderAround(groups, at);
    OrderUpdated(groups, at, group);
    DistinctAppend(Order(groups[..at]) + Panes(groups[at]), Order(groups[at + 1..]));
    DistinctAppend(Order(groups[..at]), Panes(groups[at]));
    SplicedIdsWithin(Order(groups[..at]), Panes(groups[at]), Order(groups[at + 1..]), target, inserted, before);
  }

  lemma PlaceInEachIsOnce(groups: seq<TabGroup>, groupCount: nat, tabId: TabId, target: TabId, direction: Direction)
    requires GroupsOk(groups, groupCount) && Distinct(Order(groups)) && target in Order(groups)
    requires RootsOk(groups)
    ensures var at := FindGroup(groups, target);
      PlaceInEach(groups, tabId, target, direction)
      == groups[at := WithBeside(groups[at], target, Pane(tabId), direction, tabId)]
  {
    var at := FindGroup(groups, target);
    forall i | 0 <= i < |groups| && i != at ensures target !in Panes(groups[i]) {
      if target in Panes(groups[i]) {
        FindGroupIsUnique(groups, target, i);
      }
    }
  }

  // A tree put beside a pane of group `at`.
  lemma BesideInGroups(groups: seq<TabGroup>, groupCount: nat, at: nat, target: TabId, tree: PaneNode,
          direction: Direction, active: TabId)
    requires GroupsOk(groups, groupCount) && Distinct(Order(groups))
    requires at < |groups| && target in Panes(groups[at]) && Canonical(groups[at].root)
    requires Canonical(tree) && active in PaneIds(tree)
    ensures var r := groups[at := WithBeside(groups[at], target, tree, direction, active)];
      && GroupsOk(r, groupCount)
      && Order(r) == SplicedIds(Order(groups), target, PaneIds(tree), IsBefore(direction))
      && multiset(Order(r)) == multiset(Order(groups)) + multiset(PaneIds(tree))
  {
    var placed := WithBeside(groups[at], target, tree, direction, active);
    assert GroupOk(groups[at]);
    PanesAreInOrder(groups, at);
    WithBesideIsOk(groups[at], target, tree, direction, active);
    UpdatedGroupIsOk(groups, groupCount, at, placed);
    OrderWithBeside(groups, at, placed, target, PaneIds(tree), IsBefore(direction));
    SplicedIdsCount(Order(groups), target, PaneIds(tree), IsBefore(direction));
  }

  lemma PlaceInEachPutsItOnce(groups: seq<TabGroup>, groupCount: nat, tabId: TabId, target: TabId, direction: Direction)
    requires GroupsOk(groups, groupCount) && Distinct(Order(groups)) && target in Order(groups) && RootsOk(groups)
    ensures var r := PlaceInEach(groups, tabId, target, direction);
      && GroupsOk(r, groupCount)
      && Order(r) == SplicedIds(Order(groups), target, [tabId], IsBefore(direction))
      && multiset(Order(r)) == multiset(Order(groups)) + multiset{tabId}
  {
    PlaceInEachIsOnce(groups, groupCount, tabId, target, direction);
    BesideInGroups(groups, groupCount, FindGroup(groups, target), target, Pane(tabId), direction, tabId);
  }

  // The moved pane leaves its place in the order for the one beside the
  // target; no other pane changes places, and none is lost.
  lemma PlacePaneMovesOnePane(groups: seq<TabGroup>, groupCount: nat, tabId: TabId, target: TabId, direction: Direction)
    requires GroupsOk(groups, groupCount) && Distinct(Order(groups)) && RootsOk(groups)
    requires tabId != target && target in Order(groups)
    ensures var r := PlacePane(groups, tabId, target, direction);
      && GroupsOk(r, groupCount)
      && Order(r) == SplicedIds(Without(Order(groups), {tabId}), target, [tabId], IsBefore(direction))
      && (tabId in Order(groups) ==> multiset(Order(r)) == multiset(Order(groups)))
  {
    hide RemoveTabsFromGroups;
    hide GroupsOk;
    hide SplicedIds;
    var without := RemoveTabsFromGroups(groups, {tabId});
    RemoveTabsKeepsTheRest(groups, {tabId}, groupCount);
    RemoveTabsKeepsCanonical(groups, {tabId});
    WithoutDistinct(Order(groups), {tabId});
    WithoutMembers(Order(groups), {tabId});
    PlaceInEachPutsItOnce(without, groupCount, tabId, target, direction);
    if tabId in Order(groups) {
      OnePaneApart(Order(groups), tabId);
    }
  }

  lemma OnePaneApart(ids: seq<TabId>, id: TabId)
    requires Distinct(ids) && id in ids
    ensures multiset(Without(ids, {id})) + multiset{id} == multiset(ids)
  {
    assert ToSet([id]) == {id};
    WithoutAPart(ids, [id]);
  }

  lemma TakenOutOrder(groups: seq<TabGroup>, source: nat)
    requires Distinct(Order(groups)) && source < |groups|
    ensures Order(groups[..source] + groups[source + 1..]) == Without(Order(groups), ToSet(Panes(groups[source])))
  {
    OrderAround(groups, source);
    OrderAppend(groups[..source], groups[source + 1..]);
    WithoutMiddle(Order(groups[..source]), Panes(groups[source]), Order(groups[source + 1..]));
  }

  // Group `at` updated and group `source` gone, in either order.
  lemma UpdateThenTakeOut(groups: seq<TabGroup>, at: nat, group: TabGroup, source: nat) returns (restAt: nat)
    requires at < |groups| && source < |groups| && at != source
    ensures var rest := groups[..source] + groups[source + 1..];
      && restAt < |rest|
      && rest[restAt] == groups[at]
      && groups[at := group][..source] + groups[at := group][source + 1..] == rest[restAt := group]
  {
    restAt := if at < source then at else at - 1;
  }

  // The whole group moves beside the target, its panes in their order; no
  // other pane changes places, and none is lost.
  lemma MergeGroupMovesOneGroup(groups: seq<TabGroup>, groupCount: nat, tabId: TabId, target: TabId,
          direction: Direction)
    requires GroupsOk(groups, groupCount) && Distinct(Order(groups))
    requires RootsOk(groups)
    requires MergeGroup(groups, tabId, target, direction).Some?
    ensures var r, source := MergeGroup(groups, tabId, target, direction).value, groups[FindGroup(groups, tabId)];
      && GroupsOk(r, groupCount)
      && Order(r) == SplicedIds(Without(Order(groups), ToSet(Panes(source))), target, Panes(source),
                                IsBefore(direction))
      && multiset(Order(r)) == multiset(Order(groups))
  {
    var source, at := FindGroup(groups, tabId), FindGroup(groups, target);
    var group := groups[source];
    var rest := groups[..source] + groups[source + 1..];
    var merged := WithBeside(groups[at], target, group.root, direction, group.activeTabId);
    var restAt := UpdateThenTakeOut(groups, at, merged, source);
    assert GroupOk(group);
    GroupsOkPart(groups, groupCount, source);
    TakenOutOrder(groups, source);
    PanesAreInOrder(groups, source);
    WithoutDistinct(Order(groups), ToSet(Panes(group)));
    BesideInGroups(rest, groupCount, restAt, target, group.root, direction, group.activeTabId);
    WithoutAPart(Order(groups), Panes(group));
  }

  // ----- out into groups of their own -----

  function Clamp(x: int, low: int, high: int): int
    requires low <= high
  {
    if x < low then low else if x > high then high else x
  }

  // groups.findIndex((group) => group.id === id)
  function GroupIndex(groups: seq<TabGroup>, id: nat): (i: int)
    ensures -1 <= i < |groups|
    ensures i >= 0 ==> groups[i].id == id
  {
    if groups == [] then -1
    else if groups[0].id == id then 0
    else
      var rest := GroupIndex(groups[1..], id);
      if rest == -1 then -1 else rest + 1
  }

  // One pane of several becomes a group by itself, at `index` or behind its old
  // group. None for a pane that is alone already.
  function BreakOutPane(groups: seq<TabGroup>, tabId: TabId, newGroupId: nat, index: Option<int>): Option<seq<TabGroup>>
    requires RootsOk(groups)
  {
    var source := FindGroup(groups, tabId);
    if source == -1 || |Panes(groups[source])| < 2 then None
    else
      Some(BrokenOut(RemoveTabsFromGroups(groups, {tabId}), groups[source].id, tabId, newGroupId, index))
  }

  // The pane on its own, among the groups without it.
  function BrokenOut(without: seq<TabGroup>, sourceId: nat, tabId: TabId, newGroupId: nat,
          index: Option<int>): seq<TabGroup> {
    PutIn(without,
          if index.Some? then index.value else GroupIndex(without, sourceId) + 1,
          TabGroup(newGroupId, Pane(tabId), tabId, None))
  }

  // result.splice(Math.min(Math.max(wanted, 0), result.length), 0, group)
  function PutIn(groups: seq<TabGroup>, wanted: int, group: TabGroup): seq<TabGroup> {
    var at := Clamp(wanted, 0, |groups|);
    groups[..at] + [group] + groups[at..]
  }

  lemma BrokenOutOf(groups: seq<TabGroup>, tabId: TabId, newGroupId: nat, index: Option<int>)
    returns (without: seq<TabGroup>, wanted: int)
    requires RootsOk(groups) && BreakOutPane(groups, tabId, newGroupId, index).Some?
    ensures tabId in Order(groups) && without == RemoveTabsFromGroups(groups, {tabId})
    ensures BreakOutPane(groups, tabId, newGroupId, index).value
            == PutIn(without, wanted, TabGroup(newGroupId, Pane(tabId), tabId, None))
  {
    without := RemoveTabsFromGroups(groups, {tabId});
    wanted := if index.Some? then index.value else GroupIndex(without, groups[FindGroup(groups, tabId)].id) + 1;
  }

  lemma BreakOutPaneKeepsPanes(groups: seq<TabGroup>, groupCount: nat, tabId: TabId, index: Option<int>)
    requires GroupsOk(groups, groupCount) && Distinct(Order(groups))
    requires RootsOk(groups)
    requires BreakOutPane(groups, tabId, groupCount + 1, index).Some?
    ensures var r := BreakOutPane(groups, tabId, groupCount + 1, index).value;
      && GroupsOk(r, groupCount + 1)
      && multiset(Order(r)) == multiset(Order(groups))
  {
    hide GroupsOk;
    hide BreakOutPane;
    hide PutIn;
    var without, wanted := BrokenOutOf(groups, tabId, groupCount + 1, index);
    RemoveTabsKeepsTheRest(groups, {tabId}, groupCount);
    NewSinglePutIn(without, groupCount, wanted, tabId);
    OnePaneApart(Order(groups), tabId);
  }

  lemma BreakOutPaneIsOk(groups: seq<TabGroup>, groupCount: nat, tabId: TabId, index: Option<int>)
    requires GroupsOk(groups, groupCount) && RootsOk(groups)
    requires BreakOutPane(groups, tabId, groupCount + 1, index).Some?
    ensures GroupsOk(BreakOutPane(groups, tabId, groupCount + 1, index).value, groupCount + 1)
  {
    hide GroupsOk;
    hide BreakOutPane;
    hide PutIn;
    var without, wanted := BrokenOutOf(groups, tabId, groupCount + 1, index);
    RemoveTabsKeepsTheRest(groups, {tabId}, groupCount);
    NewSinglePutIn(without, groupCount, wanted, tabId);
  }

  lemma NewSinglePutIn(groups: seq<TabGroup>, groupCount: nat, wanted: int, tabId: TabId)
    requires GroupsOk(groups, groupCount)
    ensures var r := PutIn(groups, wanted, TabGroup(groupCount + 1, Pane(tabId), tabId, None));
      && GroupsOk(r, groupCount + 1)
      && multiset(Order(r)) == multiset(Order(groups)) + multiset{tabId}
  {
    var single := TabGroup(groupCount + 1, Pane(tabId), tabId, None);
    var at := Clamp(wanted, 0, |groups|);
    assert forall group :: group in groups ==> group.id <= groupCount;
    GroupsOkUpTo(groups, groupCount, groupCount + 1);
    GroupPutInIsOk(groups, groupCount + 1, at, single);
    GroupPutInPanes(groups, at, single);
  }

  // Groups that hold none of the panes stay as they are.
  lemma {:induction false} NothingRemoved(groups: seq<TabGroup>, gone: set<TabId>)
    requires RootsOk(groups) && forall id :: id in Order(groups) ==> id !in gone
    ensures RemoveTabsFromGroups(groups, gone) == groups
  {
    if groups != [] {
      NothingRemoved(groups[1..], gone);
      assert groups == [groups[0]] + groups[1..];
    }
  }

  // Only the pane's group is changed by taking the pane out.
  lemma {:induction false} OneGroupTrimmed(groups: seq<TabGroup>, index: nat, tabId: TabId)
    requires RootsOk(groups) && Distinct(Order(groups)) && index < |groups| && tabId in Panes(groups[index])
    requires |WithoutTabs(groups[index], {tabId})| == 1
    ensures RemoveTabsFromGroups(groups, {tabId}) == groups[index := WithoutTabs(groups[index], {tabId})[0]]
  {
    hide RemovePanes;
    hide NearestPane;
    hide Canonical;
    DistinctAppend(Panes(groups[0]), Order(groups[1..]));
    var trimmed := WithoutTabs(groups[index], {tabId})[0];
    if index == 0 {
      NothingRemoved(groups[1..], {tabId});
      assert groups[0 := trimmed] == [trimmed] + groups[1..];
    } else {
      PanesAreInOrder(groups[1..], index - 1);
      OneGroupTrimmed(groups[1..], index - 1, tabId);
      assert !HoldsAny(groups[0], {tabId});
      assert groups[index := trimmed] == [groups[0]] + groups[1..][index - 1 := trimmed];
    }
  }

  lemma TrimmedGroup(group: TabGroup, tabId: TabId) returns (trimmed: TabGroup)
    requires GroupOk(group) && Sized(group.root) && |Panes(group)| >= 2 && Distinct(Panes(group))
             && tabId in Panes(group)
    ensures WithoutTabs(group, {tabId}) == [trimmed]
    ensures trimmed.id == group.id && Panes(trimmed) == Without(Panes(group), {tabId})
    ensures group.activeTabId != tabId ==> trimmed.activeTabId == group.activeTabId
  {
    WithoutTabsKeepsTheRest(group, {tabId});
    OnePaneApart(Panes(group), tabId);
    assert |multiset(Panes(group))| == |Panes(group)|;
    var r := WithoutTabs(group, {tabId});
    trimmed := r[0];
    OrderOfOne(trimmed);
  }

  lemma {:induction false} GroupIndexIs(groups: seq<TabGroup>, index: nat)
    requires index < |groups| && forall i, j :: 0 <= i < j < |groups| ==> groups[i].id != groups[j].id
    ensures GroupIndex(groups, groups[index].id) == index
  {
    if index > 0 {
      assert groups[0].id != groups[index].id;
      GroupIndexIs(groups[1..], index - 1);
    }
  }

  // The pane lands in a group of its own right after the one it leaves, or
  // at the index asked for, counted without it and kept within the bar; the
  // group it leaves keeps its other panes, and every other group is as before.
  lemma BreakOutPaneLands(groups: seq<TabGroup>, groupCount: nat, tabId: TabId, index: Option<int>)
    returns (trimmed: TabGroup, at: nat)
    requires GroupsOk(groups, groupCount) && RootsOk(groups) && Distinct(Order(groups))
    requires BreakOutPane(groups, tabId, groupCount + 1, index).Some?
    ensures var source := FindGroup(groups, tabId);
      var left := groups[source := trimmed];
      && source >= 0 && trimmed.id == groups[source].id && Panes(trimmed) == Without(Panes(groups[source]), {tabId})
      && Sized(groups[source].root) && WithoutTabs(groups[source], {tabId}) == [trimmed]
      && (groups[source].activeTabId != tabId ==> trimmed.activeTabId == groups[source].activeTabId)
      && at == (if index.None? then source + 1 else Clamp(index.value, 0, |groups|))
      && at <= |groups|
      && BreakOutPane(groups, tabId, groupCount + 1, index).value
         == left[..at] + [TabGroup(groupCount + 1, Pane(tabId), tabId, None)] + left[at..]
  {
    var source := FindGroup(groups, tabId);
    assert GroupOk(groups[source]) && groups[source] in groups;
    PanesAreInOrder(groups, source);
    trimmed := TrimmedGroup(groups[source], tabId);
    OneGroupTrimmed(groups, source, tabId);
    hide Order;
    hide Panes;
    hide RootsOk;
    hide RemoveTabsFromGroups;
    hide WithoutTabs;
    hide GroupOk;
    GroupIndexIs(groups[source := trimmed], source);
    at := if index.None? then source + 1 else Clamp(index.value, 0, |groups|);
  }

  lemma TrimmedOrder(groups: seq<TabGroup>, index: nat, trimmed: TabGroup, tabId: TabId)
    requires Distinct(Order(groups)) && index < |groups| && tabId in Panes(groups[index])
    requires Panes(trimmed) == Without(Panes(groups[index]), {tabId})
    ensures Order(groups[index := trimmed]) == Without(Order(groups), {tabId})
  {
    var before, own, after := Order(groups[..index]), Panes(groups[index]), Order(groups[index + 1..]);
    OrderAround(groups, index);
    OrderUpdated(groups, index, trimmed);
    DistinctParts(before, own, after);
    WithoutAppend(before + own, after, {tabId});
    WithoutAppend(before, own, {tabId});
    WithoutNothing(before, {tabId});
    WithoutNothing(after, {tabId});
  }

  lemma OrderApart(groups: seq<TabGroup>, at: nat)
    requires at <= |groups|
    ensures Order(groups) == Order(groups[..at]) + Order(groups[at..])
  {
    assert groups == groups[..at] + groups[at..];
    OrderAppend(groups[..at], groups[at..]);
  }

  // The order on both sides of a place, once a pane on one of them is gone.
  lemma TrimmedSides(groups: seq<TabGroup>, index: nat, trimmed: TabGroup, tabId: TabId, at: nat)
    requires Distinct(Order(groups)) && index < |groups| && at <= |groups| && tabId in Panes(groups[index])
    requires Panes(trimmed) == Without(Panes(groups[index]), {tabId})
    ensures var left := groups[index := trimmed];
      && Order(left[..at]) == Without(Order(groups[..at]), {tabId})
      && Order(left[at..]) == Without(Order(groups[at..]), {tabId})
  {
    hide Without;
    var left, before, after := groups[index := trimmed], groups[..at], groups[at..];
    OrderApart(groups, at);
    DistinctAppend(Order(before), Order(after));
    if index < at {
      assert left[..at] == before[index := trimmed] && left[at..] == after;
      TrimmedOrder(before, index, trimmed, tabId);
      PanesAreInOrder(before, index);
      WithoutNothing(Order(after), {tabId});
    } else {
      assert left[..at] == before && left[at..] == after[index - at := trimmed];
      TrimmedOrder(after, index - at, trimmed, tabId);
      PanesAreInOrder(after, index - at);
      WithoutNothing(Order(before), {tabId});
    }
  }

  // So the pane is listed where its new group is put, and no other pane changes places.
  lemma BreakOutPaneOrder(groups: seq<TabGroup>, groupCount: nat, tabId: TabId, index: Option<int>)
    requires GroupsOk(groups, groupCount) && RootsOk(groups) && Distinct(Order(groups))
    requires BreakOutPane(groups, tabId, groupCount + 1, index).Some?
    ensures FindGroup(groups, tabId) >= 0
    ensures var at := if index.None? then FindGroup(groups, tabId) + 1 else Clamp(index.value, 0, |groups|);
      Order(BreakOutPane(groups, tabId, groupCount + 1, index).value)
      == Without(Order(groups[..at]), {tabId}) + [tabId] + Without(Order(groups[at..]), {tabId})
  {
    hide BreakOutPane;
    hide GroupsOk;
    hide RootsOk;
    hide Without;
    var trimmed, at := BreakOutPaneLands(groups, groupCount, tabId, index);
    var source := FindGroup(groups, tabId);
    TrimmedSides(groups, source, trimmed, tabId, at);
    var left, single := groups[source := trimmed], TabGroup(groupCount + 1, Pane(tabId), tabId, None);
    OrderOfThree(left[..at], single, left[at..]);
  }

  lemma GroupIdsAppend(a: seq<TabGroup>, b: seq<TabGroup>)
    ensures GroupIds(a + b) == GroupIds(a) + GroupIds(b)
  {
  }

  lemma PutInIds(groups: seq<TabGroup>, wanted: int, group: TabGroup)
    ensures GroupIds(PutIn(groups, wanted, group)) == GroupIds(groups) + {group.id}
  {
    var at := Clamp(wanted, 0, |groups|);
    GroupIdsAppend(groups[..at], groups[at..]);
    assert groups == groups[..at] + groups[at..];
    GroupIdsAppend(groups[..at], [group]);
    GroupIdsAppend(groups[..at] + [group], groups[at..]);
  }

  lemma BrokenOutAddsOneGroup(without: seq<TabGroup>, sourceId: nat, tabId: TabId, newGroupId: nat, index: Option<int>)
    ensures GroupIds(BrokenOut(without, sourceId, tabId, newGroupId, index)) == GroupIds(without) + {newGroupId}
  {
    PutInIds(without, if index.Some? then index.value else GroupIndex(without, sourceId) + 1,
             TabGroup(newGroupId, Pane(tabId), tabId, None));
  }

  // The pane broken out has a group to itself under the new id; every other
  // group keeps its id.
  lemma BreakOutPaneAddsOneGroup(groups: seq<TabGroup>, groupCount: nat, tabId: TabId, index: Option<int>)
    requires GroupsOk(groups, groupCount) && RootsOk(groups)
    requires BreakOutPane(groups, tabId, groupCount + 1, index).Some?
    ensures GroupIds(BreakOutPane(groups, tabId, groupCount + 1, index).value) <= GroupIds(groups) + {groupCount + 1}
  {
    hide RemoveTabsFromGroups;
    hide GroupsOk;
    hide RootsOk;
    hide GroupIds;
    RemoveTabsKeepsTheRest(groups, {tabId}, groupCount);
    BrokenOutAddsOneGroup(RemoveTabsFromGroups(groups, {tabId}), groups[FindGroup(groups, tabId)].id, tabId,
                          groupCount + 1, index);
  }

  // Splits a group up into one group a pane. `active` takes the old id, the
  // others count on from `groupCount`.
  function UngroupedPanes(panes: seq<TabId>, active: TabId, id: nat, groupCount: nat): Counted {
    if panes == [] then Counted([], groupCount)
    else
      var isActive := panes[0] == active;
      var count := if isActive then groupCount else groupCount + 1;
      var rest := UngroupedPanes(panes[1..], active, id, count);
      Counted([TabGroup(if isActive then id else count, Pane(panes[0]), panes[0], None)] + rest.groups, rest.groupCount)
  }

  function UngroupPanes(groups: seq<TabGroup>, tabId: TabId, groupCount: nat): Counted {
    var index := FindGroup(groups, tabId);
    if index == -1 || groups[index].root.Pane? then Counted(groups, groupCount)
    else
      var singles := UngroupedPanes(Panes(groups[index]), groups[index].activeTabId, groups[index].id, groupCount);
      Counted(groups[..index] + singles.groups + groups[index + 1..], singles.groupCount)
  }

  lemma {:induction false} UngroupedPanesAreOk(panes: seq<TabId>, active: TabId, id: nat, groupCount: nat)
    requires Distinct(panes) && 1 <= id <= groupCount
    ensures var r := UngroupedPanes(panes, active, id, groupCount);
      && r.groupCount >= groupCount
      && GroupsOk(r.groups, r.groupCount)
      && Order(r.groups) == panes
      && (forall g :: g in r.groups ==> g.id > groupCount || (g.id == id && active in panes))
  {
    if panes != [] {
      assert panes == [panes[0]] + panes[1..];
      DistinctAppend([panes[0]], panes[1..]);
      assert panes[0] in [panes[0]];
      var isActive := panes[0] == active;
      var count := if isActive then groupCount else groupCount + 1;
      var rest := UngroupedPanes(panes[1..], active, id, count);
      UngroupedPanesAreOk(panes[1..], active, id, count);
      var first := TabGroup(if isActive then id else count, Pane(panes[0]), panes[0], None);
      assert first.id !in GroupIds(rest.groups);
      GroupsOkApart(first, rest.groups, rest.groupCount);
    }
  }

  // A group to itself for each pane; the active one's has the given id, the
  // others' are new.
  ghost predicate AreSingles(singles: seq<TabGroup>, panes: seq<TabId>, active: TabId, id: nat, groupCount: nat) {
    && |singles| == |panes|
    && forall i :: 0 <= i < |singles| ==>
         && singles[i] == TabGroup(singles[i].id, Pane(panes[i]), panes[i], None)
         && (if panes[i] == active then singles[i].id == id else singles[i].id > groupCount)
  }

  lemma {:induction false} UngroupedPanesAreSingles(panes: seq<TabId>, active: TabId, id: nat, groupCount: nat)
    ensures AreSingles(UngroupedPanes(panes, active, id, groupCount).groups, panes, active, id, groupCount)
  {
    if panes != [] {
      UngroupedPanesAreSingles(panes[1..], active, id, if panes[0] == active then groupCount else groupCount + 1);
    }
  }

  // Every pane of the group gets a group of its own in the group's place, the
  // active one under the group's id; the other groups stay as they are.
  lemma UngroupPanesSplitsTheGroup(groups: seq<TabGroup>, groupCount: nat, tabId: TabId)
    returns (singles: seq<TabGroup>)
    requires FindGroup(groups, tabId) >= 0 && groups[FindGroup(groups, tabId)].root.Split?
    ensures var index := FindGroup(groups, tabId);
      && AreSingles(singles, Panes(groups[index]), groups[index].activeTabId, groups[index].id, groupCount)
      && UngroupPanes(groups, tabId, groupCount).groups == groups[..index] + singles + groups[index + 1..]
  {
    var group := groups[FindGroup(groups, tabId)];
    singles := UngroupedPanes(Panes(group), group.activeTabId, group.id, groupCount).groups;
    UngroupedPanesAreSingles(Panes(group), group.activeTabId, group.id, groupCount);
  }

  // Ungrouping changes no pane's place in the order.
  lemma UngroupPanesKeepsOrder(groups: seq<TabGroup>, groupCount: nat, tabId: TabId)
    requires GroupsOk(groups, groupCount) && Distinct(Order(groups))
    ensures var r := UngroupPanes(groups, tabId, groupCount);
      && r.groupCount >= groupCount
      && GroupsOk(r.groups, r.groupCount)
      && Order(r.groups) == Order(groups)
  {
    var index := FindGroup(groups, tabId);
    if index >= 0 && groups[index].root.Split? {
      var group := groups[index];
      var singles := UngroupedPanes(Panes(group), group.activeTabId, group.id, groupCount);
      PanesAreInOrder(groups, index);
      UngroupedPanesAreOk(Panes(group), group.activeTabId, group.id, groupCount);
      OrderAround(groups, index);
      OrderAppend(groups[..index], singles.groups);
      OrderAppend(groups[..index] + singles.groups, groups[index + 1..]);
      SpliceGroupsIsOk(groups, groupCount, index, singles.groups, singles.groupCount);
    }
  }
}
