// Where the panes of every group are after panes were taken out, placed
// beside others or merged (src/lib/tabGroups.ts).
module PanePlaces {
  import opened Sequences
  import opened PaneTrees
  import opened PaneGeometry
  import opened PaneShares
  import opened TabGroups
  import opened PaneMoves

  // ----- the two halves -----

  // A pane put to the right or left of another stands beside it, each half as
  // wide; one put above or below it shares its height the same way.
  lemma HalvesLie(target: Placed, pane: TabId)
    ensures var box := target.at;
      var left, right := box.(width := box.width * 0.5),
                         box.(left := box.left + box.width * 0.5, width := box.width * 0.5);
      var upper, lower := box.(height := box.height * 0.5),
                          box.(top := box.top + box.height * 0.5, height := box.height * 0.5);
      && Halves(target, Pane(pane), Right) == [Placed(target.tabId, left), Placed(pane, right)]
      && Halves(target, Pane(pane), Left) == [Placed(pane, left), Placed(target.tabId, right)]
      && Halves(target, Pane(pane), Below) == [Placed(target.tabId, upper), Placed(pane, lower)]
      && Halves(target, Pane(pane), Above) == [Placed(pane, upper), Placed(target.tabId, lower)]
  {
  }

  // ----- panes taken out of their groups -----

  lemma {:induction false} RemoveFromNothing(node: PaneNode, gone: set<TabId>)
    requires Canonical(node) && Sized(node) && forall id :: id in PaneIds(node) ==> id !in gone
    ensures RemoveFrom(node, gone) == Some(node)
    decreases node, 1
  {
    if node.Split? {
      KeptRowOfAll(node.orientation, node.children, node.sizes, gone);
      ScaleToOneKeepsShares(node.sizes);
    }
  }

  lemma {:induction false} KeptRowOfAll(orientation: Orientation, children: seq<PaneNode>, sizes: seq<real>,
          gone: set<TabId>)
    requires |children| == |sizes| && AllCanonical(orientation, children) && AllSized(children)
    requires forall id :: id in PaneIdsOf(children) ==> id !in gone
    ensures KeptRow(children, sizes, gone) == Row(children, sizes)
    decreases children, 0
  {
    if children != [] {
      RemoveFromNothing(children[0], gone);
      KeptRowOfAll(orientation, children[1..], sizes[1..], gone);
      assert [sizes[0]] + sizes[1..] == sizes;
    }
  }

  // Taking out panes a tree does not hold leaves it as it is.
  lemma RemoveNothing(root: PaneNode, gone: set<TabId>)
    requires Canonical(root) && Sized(root) && forall id :: id in PaneIds(root) ==> id !in gone
    ensures RemovePanes(root, gone) == Some(root)
  {
    RemoveFromNothing(root, gone);
    NormalizedKeepsCanonical(root);
  }

  // A group without some of its panes: its focus and its zoom stay where they
  // are as long as that pane does, and the focus goes to the nearest one left.
  predicate IsTrimmed(trimmed: TabGroup, group: TabGroup, gone: set<TabId>)
    requires Sized(group.root)
  {
    && RemovePanes(group.root, gone) == Some(trimmed.root)
    && trimmed.id == group.id
    && trimmed.zoomedTabId == (match group.zoomedTabId
                               case Some(id) => if id in gone then None else group.zoomedTabId
                               case None => None)
    && if group.activeTabId in gone
       then Panes(trimmed) != [] && trimmed.activeTabId == NearestPane(Panes(group), group.activeTabId, Panes(trimmed))
       else trimmed.activeTabId == group.activeTabId
  }

  lemma WithoutTabsTrims(group: TabGroup, gone: set<TabId>)
    requires GroupOk(group) && Sized(group.root)
    ensures if IsLeft(group.root, gone)
            then |WithoutTabs(group, gone)| == 1 && IsTrimmed(WithoutTabs(group, gone)[0], group, gone)
            else WithoutTabs(group, gone) == []
  {
    hide RemovePanes;
    RemovePanesKeepsTheRest(group.root, gone);
    WithoutMembers(Panes(group), gone);
    if !HoldsAny(group, gone) {
      RemoveNothing(group.root, gone);
      WithoutNothing(Panes(group), gone);
      CanonicalHasPanes(group.root);
    }
  }

  // A group that holds none of the panes is the same value.
  lemma TrimmedOfNothing(trimmed: TabGroup, group: TabGroup, gone: set<TabId>)
    requires GroupOk(group) && Sized(group.root) && IsTrimmed(trimmed, group, gone)
    requires forall id :: id in Panes(group) ==> id !in gone
    ensures trimmed == group
  {
    RemoveNothing(group.root, gone);
  }

  // The groups of which something is left, in their order.
  function Remaining(groups: seq<TabGroup>, gone: set<TabId>): seq<TabGroup> {
    if groups == [] then []
    else (if IsLeft(groups[0].root, gone) then [groups[0]] else []) + Remaining(groups[1..], gone)
  }

  ghost predicate AreTrimmed(trimmed: seq<TabGroup>, groups: seq<TabGroup>, gone: set<TabId>)
    requires RootsOk(groups)
  {
    |trimmed| == |groups| && forall i :: 0 <= i < |groups| ==> IsTrimmed(trimmed[i], groups[i], gone)
  }

  lemma {:induction false} RemainingAreOfTheGroups(groups: seq<TabGroup>, gone: set<TabId>)
    ensures forall group :: group in Remaining(groups, gone) <==> group in groups && IsLeft(group.root, gone)
    ensures RootsOk(groups) ==> RootsOk(Remaining(groups, gone))
  {
    if groups != [] {
      hide IsLeft;
      RemainingAreOfTheGroups(groups[1..], gone);
      assert groups == [groups[0]] + groups[1..];
    }
  }

  lemma TrimmedApart(first: TabGroup, group: TabGroup, trimmed: seq<TabGroup>, rest: seq<TabGroup>, gone: set<TabId>)
    requires RootsOk([group] + rest) && RootsOk(rest) && Sized(group.root)
    requires IsTrimmed(first, group, gone) && AreTrimmed(trimmed, rest, gone)
    ensures AreTrimmed([first] + trimmed, [group] + rest, gone)
  {
    hide IsTrimmed;
    hide RootsOk;
  }

  lemma RootsApart(groups: seq<TabGroup>)
    requires RootsOk(groups) && groups != []
    ensures Sized(groups[0].root) && RootsOk(groups[1..])
  {
    hide Sized;
    hide Canonical;
  }

  lemma NoneTrimmed(gone: set<TabId>)
    ensures RootsOk([]) && Remaining([], gone) == [] && AreTrimmed(RemoveTabsFromGroups([], gone), [], gone)
  {
  }

  lemma RemoveTabsStep(groups: seq<TabGroup>, gone: set<TabId>)
    requires RootsOk(groups) && groups != []
    ensures RootsOk(groups[1..]) && Sized(groups[0].root)
    ensures RemoveTabsFromGroups(groups, gone)
         == WithoutTabs(groups[0], gone) + RemoveTabsFromGroups(groups[1..], gone)
    ensures Remaining(groups, gone)
         == (if IsLeft(groups[0].root, gone) then [groups[0]] else []) + Remaining(groups[1..], gone)
  {
    RootsApart(groups);
    hide IsLeft;
    hide WithoutTabs;
  }

  // Closing panes leaves the groups that keep one, in their order, each
  // without those panes; a group that held none of them is as it was.
  lemma {:induction false} RemoveTabsTrims(groups: seq<TabGroup>, gone: set<TabId>)
    requires RootsOk(groups) && forall group :: group in groups ==> GroupOk(group)
    ensures RootsOk(Remaining(groups, gone))
    ensures AreTrimmed(RemoveTabsFromGroups(groups, gone), Remaining(groups, gone), gone)
  {
    hide *;
    RemainingAreOfTheGroups(groups, gone);
    if groups == [] {
      NoneTrimmed(gone);
      return;
    }
    RemoveTabsStep(groups, gone);
    RemainingAreOfTheGroups(groups[1..], gone);
    WithoutTabsTrims(groups[0], gone);
    RemoveTabsTrims(groups[1..], gone);
    var first, rest := WithoutTabs(groups[0], gone), RemoveTabsFromGroups(groups[1..], gone);
    if IsLeft(groups[0].root, gone) {
      TrimmedApart(first[0], groups[0], rest, Remaining(groups[1..], gone), gone);
      assert first == [first[0]];
    } else {
      assert [] + rest == rest && [] + Remaining(groups[1..], gone) == Remaining(groups[1..], gone);
    }
  }

  // ----- a pane placed beside another -----

  // The group with `tree` in one half of its pane `target` and every other
  // pane where `root` has it; `active` is focused and nothing is zoomed.
  predicate Gains(gained: TabGroup, id: nat, root: PaneNode, target: TabId, tree: PaneNode, direction: Direction,
          active: TabId, box: Rect) {
    && gained.id == id && gained.activeTabId == active && gained.zoomedTabId == None
    && Place(gained.root, box) == Beside(Place(root, box), target, tree, direction)
  }

  lemma WithBesideGains(group: TabGroup, target: TabId, tree: PaneNode, direction: Direction, active: TabId, box: Rect)
    requires Canonical(group.root) && Distinct(Panes(group)) && Canonical(tree)
    ensures Gains(WithBeside(group, target, tree, direction, active), group.id, group.root, target, tree, direction,
                  active, box)
  {
    hide Place;
    hide Beside;
    CanonicalHasPanes(tree);
    InsertNextToHalvesTheTarget(group.root, target, tree, direction, box);
  }

  // What becomes of a group when `tabId` is placed beside `target`.
  predicate IsAfterPlacing(after: TabGroup, group: TabGroup, tabId: TabId, target: TabId, direction: Direction,
          box: Rect)
    requires Sized(group.root)
  {
    if target in Panes(group)
    then
      && RemovePanes(group.root, {tabId}).Some?
      && Gains(after, group.id, RemovePanes(group.root, {tabId}).value, target, Pane(tabId), direction, tabId, box)
    else IsTrimmed(after, group, {tabId})
  }

  lemma PlacedIn(trimmed: TabGroup, group: TabGroup, tabId: TabId, target: TabId, direction: Direction, box: Rect)
    requires Sized(group.root) && IsTrimmed(trimmed, group, {tabId}) && Distinct(Panes(group)) && tabId != target
    ensures Canonical(trimmed.root) && (target in Panes(trimmed) <==> target in Panes(group))
    ensures var after := if target in Panes(trimmed)
                         then WithBeside(trimmed, target, Pane(tabId), direction, tabId) else trimmed;
      IsAfterPlacing(after, group, tabId, target, direction, box)
  {
    hide RemovePanes;
    hide Gains;
    RemovePanesKeepsTheRest(group.root, {tabId});
    WithoutMembers(Panes(group), {tabId});
    WithoutDistinct(Panes(group), {tabId});
    WithBesideGains(trimmed, target, Pane(tabId), direction, tabId, box);
  }

  // The groups that keep a pane stay in their order. The target's is laid out
  // as without the moved pane but for the target, which shares its room with
  // it on the side asked for; the one it comes from goes without it; every
  // other is as it was.
  lemma PlacePanePlaces(groups: seq<TabGroup>, groupCount: nat, tabId: TabId, target: TabId, direction: Direction,
          box: Rect)
    requires GroupsOk(groups, groupCount) && Distinct(Order(groups)) && RootsOk(groups)
    requires tabId != target && target in Order(groups)
    ensures var r, left := PlacePane(groups, tabId, target, direction), Remaining(groups, {tabId});
      && RootsOk(left) && |r| == |left|
      && forall i :: 0 <= i < |left| ==> IsAfterPlacing(r[i], left[i], tabId, target, direction, box)
  {
    hide *;
    GroupsAreOk(groups, groupCount);
    RemoveTabsTrims(groups, {tabId});
    RemoveTabsKeepsCanonical(groups, {tabId});
    RemainingAreOfTheGroups(groups, {tabId});
    var without, left := RemoveTabsFromGroups(groups, {tabId}), Remaining(groups, {tabId});
    PlacePaneIs(groups, tabId, target, direction);
    TrimmedAre(without, left, {tabId});
    PlacedInEach(without, tabId, target, direction);
    forall i | 0 <= i < |left|
      ensures IsAfterPlacing(PlacePane(groups, tabId, target, direction)[i], left[i], tabId, target, direction, box)
    {
      OwnPanesAreDistinct(groups, left[i]);
      RootOk(left, i);
      PlacedIn(without[i], left[i], tabId, target, direction, box);
    }
  }

  lemma GroupsAreOk(groups: seq<TabGroup>, groupCount: nat)
    requires GroupsOk(groups, groupCount)
    ensures forall group :: group in groups ==> GroupOk(group)
  {
    hide GroupOk;
  }

  lemma RootOk(groups: seq<TabGroup>, index: nat)
    requires RootsOk(groups) && index < |groups|
    ensures Canonical(groups[index].root) && Sized(groups[index].root)
  {
    assert groups[index] in groups;
  }

  lemma OwnPanesAreDistinct(groups: seq<TabGroup>, group: TabGroup)
    requires Distinct(Order(groups)) && group in groups
    ensures Distinct(Panes(group))
  {
    var i :| 0 <= i < |groups| && groups[i] == group;
    PanesAreInOrder(groups, i);
  }

  lemma TrimmedAre(trimmed: seq<TabGroup>, groups: seq<TabGroup>, gone: set<TabId>)
    requires RootsOk(groups) && AreTrimmed(trimmed, groups, gone)
    ensures |trimmed| == |groups|
    ensures forall i :: 0 <= i < |groups| ==> Sized(groups[i].root) && IsTrimmed(trimmed[i], groups[i], gone)
  {
    hide IsTrimmed;
  }

  lemma PlacePaneIs(groups: seq<TabGroup>, tabId: TabId, target: TabId, direction: Direction)
    requires RootsOk(groups) && tabId != target && target in Order(groups)
    ensures RootsOk(RemoveTabsFromGroups(groups, {tabId}))
    ensures PlacePane(groups, tabId, target, direction)
         == PlaceInEach(RemoveTabsFromGroups(groups, {tabId}), tabId, target, direction)
  {
    RemoveTabsKeepsCanonical(groups, {tabId});
  }

  lemma PlacedInEach(groups: seq<TabGroup>, tabId: TabId, target: TabId, direction: Direction)
    requires RootsOk(groups)
    ensures var r := PlaceInEach(groups, tabId, target, direction);
      && |r| == |groups|
      && forall i :: 0 <= i < |groups| ==>
           Canonical(groups[i].root)
           && r[i] == if target in Panes(groups[i])
                      then WithBeside(groups[i], target, Pane(tabId), direction, tabId) else groups[i]
  {
    hide WithBeside;
    hide Panes;
  }

  // ----- a group merged into another -----

  lemma MergeGroupIs(groups: seq<TabGroup>, tabId: TabId, target: TabId, direction: Direction)
    requires RootsOk(groups) && MergeGroup(groups, tabId, target, direction).Some?
    ensures var source, at := FindGroup(groups, tabId), FindGroup(groups, target);
      && 0 <= source < |groups| && 0 <= at < |groups| && source != at
      && Canonical(groups[at].root) && Canonical(groups[source].root)
      && MergeGroup(groups, tabId, target, direction).value
         == TakenOut(groups[at := WithBeside(groups[at], target, groups[source].root, direction,
                                             groups[source].activeTabId)], source)
  {
    hide WithBeside;
  }

  function TakenOut(groups: seq<TabGroup>, index: nat): seq<TabGroup>
    requires index < |groups|
  {
    groups[..index] + groups[index + 1..]
  }

  lemma UpdatedThenTakenOut(groups: seq<TabGroup>, at: nat, group: TabGroup, source: nat, target: TabId)
    requires Distinct(Order(groups)) && at < |groups| && source < |groups| && at != source
             && target in Panes(groups[at])
    ensures var left, r := TakenOut(groups, source), TakenOut(groups[at := group], source);
      && |r| == |left|
      && forall i :: 0 <= i < |left| ==>
           if target in Panes(left[i]) then left[i] == groups[at] && r[i] == group else r[i] == left[i]
  {
    hide Panes;
    hide Order;
    var left, r := TakenOut(groups, source), TakenOut(groups[at := group], source);
    forall i | 0 <= i < |left|
      ensures if target in Panes(left[i]) then left[i] == groups[at] && r[i] == group else r[i] == left[i]
    {
      var k := if i < source then i else i + 1;
      assert left[i] == groups[k] && r[i] == groups[at := group][k];
      if target in Panes(groups[k]) {
        FindGroupIsUnique(groups, target, k);
        FindGroupIsUnique(groups, target, at);
      }
    }
  }

  // The groups but the merged one stay in their order, and as they were but
  // for the target's, which shares the target's room with the whole merged
  // tree on the side asked for and has that group's focus.
  lemma MergeGroupPlaces(groups: seq<TabGroup>, groupCount: nat, tabId: TabId, target: TabId, direction: Direction,
          box: Rect)
    requires GroupsOk(groups, groupCount) && Distinct(Order(groups)) && RootsOk(groups)
    requires MergeGroup(groups, tabId, target, direction).Some?
    ensures var r, source := MergeGroup(groups, tabId, target, direction).value, FindGroup(groups, tabId);
      && source >= 0
      && var left := TakenOut(groups, source);
         && |r| == |left|
         && forall i :: 0 <= i < |left| ==>
              if target in Panes(left[i])
              then Gains(r[i], left[i].id, left[i].root, target, groups[source].root, direction,
                         groups[source].activeTabId, box)
              else r[i] == left[i]
  {
    hide *;
    MergeGroupIs(groups, tabId, target, direction);
    var source, at := FindGroup(groups, tabId), FindGroup(groups, target);
    var group := groups[source];
    OwnPanesAreDistinct(groups, groups[at]);
    WithBesideGains(groups[at], target, group.root, direction, group.activeTabId, box);
    UpdatedThenTakenOut(groups, at, WithBeside(groups[at], target, group.root, direction, group.activeTabId), source,
                        target);
  }

  // ----- a pane broken out -----

  // The group a pane is broken out of goes on without it, and the pane has a
  // group of its own where it is put.
  lemma BreakOutPanePlaces(groups: seq<TabGroup>, groupCount: nat, tabId: TabId, index: Option<int>)
    returns (trimmed: TabGroup, at: nat)
    requires GroupsOk(groups, groupCount) && RootsOk(groups) && Distinct(Order(groups))
    requires BreakOutPane(groups, tabId, groupCount + 1, index).Some?
    ensures var source := FindGroup(groups, tabId);
      && source >= 0 && Sized(groups[source].root) && IsTrimmed(trimmed, groups[source], {tabId})
      && at == (if index.None? then source + 1 else Clamp(index.value, 0, |groups|)) && at <= |groups|
      && var left := groups[source := trimmed];
         BreakOutPane(groups, tabId, groupCount + 1, index).value
         == left[..at] + [TabGroup(groupCount + 1, Pane(tabId), tabId, None)] + left[at..]
  {
    hide *;
    trimmed, at := BreakOutPaneLands(groups, groupCount, tabId, index);
    var source := FindGroup(groups, tabId);
    GroupsAreOk(groups, groupCount);
    WithoutTabsTrims(groups[source], {tabId});
    assert [trimmed][0] == trimmed;
  }
}
