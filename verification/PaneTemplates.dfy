// Layout templates (src/lib/paneTemplates.ts): shapes are trees with places for
// panes. They are taken from a group, checked when they are read, and filled
// with panes again.
module PaneTemplates {
  import opened Sequences
  import opened PaneTrees
  import opened PaneGeometry
  import opened TabGroups
  import opened SavedValues

  datatype LayoutShape =
    | ShapePane
    | ShapeSplit(orientation: Orientation, children: seq<LayoutShape>, sizes: seq<real>)

  const MAX_TEMPLATE_PANES: nat := 9
  const MAX_TEMPLATE_DEPTH: nat := 4

  function CountPanes(shape: LayoutShape): nat
    decreases shape, 1
  {
    match shape
    case ShapePane => 1
    case ShapeSplit(_, children, _) => CountPanesOf(children)
  }

  function CountPanesOf(children: seq<LayoutShape>): nat
    decreases children, 0
  {
    if children == [] then 0 else CountPanes(children[0]) + CountPanesOf(children[1..])
  }

  predicate ShapeHasPanes(shape: LayoutShape)
    decreases shape, 1
  {
    shape.ShapeSplit? ==> shape.children != [] && ShapesHavePanes(shape.children)
  }

  predicate ShapesHavePanes(children: seq<LayoutShape>)
    decreases children, 0
  {
    children == [] || (ShapeHasPanes(children[0]) && ShapesHavePanes(children[1..]))
  }

  // Forgets which panes a tree holds and keeps how they are split.
  function ShapeOfTree(node: PaneNode): LayoutShape
    decreases node, 1
  {
    match node
    case Pane(_) => ShapePane
    case Split(orientation, children, sizes) => ShapeSplit(orientation, ShapesOfTrees(children), sizes)
  }

  function ShapesOfTrees(children: seq<PaneNode>): (r: seq<LayoutShape>)
    ensures |r| == |children|
    decreases children, 0
  {
    if children == [] then [] else [ShapeOfTree(children[0])] + ShapesOfTrees(children[1..])
  }

  // ----- filling a shape -----

  function Filled(shape: LayoutShape, tabIds: seq<TabId>): PaneNode
    requires |tabIds| == CountPanes(shape)
    decreases shape, 1
  {
    match shape
    case ShapePane => Pane(tabIds[0])
    case ShapeSplit(orientation, children, sizes) => Split(orientation, FilledAll(children, tabIds), sizes)
  }

  function FilledAll(children: seq<LayoutShape>, tabIds: seq<TabId>): (r: seq<PaneNode>)
    requires |tabIds| == CountPanesOf(children)
    ensures |r| == |children|
    decreases children, 0
  {
    if children == [] then []
    else
      var count := CountPanes(children[0]);
      [Filled(children[0], tabIds[..count])] + FilledAll(children[1..], tabIds[count..])
  }

  // Gives the places of a shape their panes, in the order of `tabIds`.
  function FillShape(shape: LayoutShape, tabIds: seq<TabId>): PaneNode
    requires |tabIds| >= CountPanes(shape)
  {
    Normalized(Filled(shape, tabIds[..CountPanes(shape)]))
  }

  // The source's recursion, which takes the ids off one counter.
  method Fill(shape: LayoutShape, tabIds: seq<TabId>, next: nat) returns (node: PaneNode, after: nat)
    requires next + CountPanes(shape) <= |tabIds|
    ensures after == next + CountPanes(shape)
    ensures node == Filled(shape, tabIds[next..after])
    decreases shape
  {
    match shape {
      case ShapePane =>
        node, after := Pane(tabIds[next]), next + 1;
      case ShapeSplit(orientation, children, sizes) =>
        var filled: seq<PaneNode> := [];
        after := next;
        for k := 0 to |children|
          invariant after + CountPanesOf(children[k..]) == next + CountPanesOf(children) <= |tabIds|
          invariant filled + FilledAll(children[k..], tabIds[after..next + CountPanesOf(children)])
                 == FilledAll(children, tabIds[next..next + CountPanesOf(children)])
        {
          var before := after;
          ghost var stop := next + CountPanesOf(children);
          assert children[k..][0] == children[k] && children[k..][1..] == children[k + 1..];
          var child;
          child, after := Fill(children[k], tabIds, before);
          FilledAllStep(children[k..], tabIds, before, after, stop);
          Associates(filled, [child], FilledAll(children[k + 1..], tabIds[after..stop]));
          filled := filled + [child];
        }
        assert filled + [] == filled;
        node := Split(orientation, filled, sizes);
    }
  }

  lemma FilledAllStep(children: seq<LayoutShape>, tabIds: seq<TabId>, before: nat, after: nat, stop: nat)
    requires children != [] && stop <= |tabIds|
    requires after == before + CountPanes(children[0]) && stop == before + CountPanesOf(children)
    ensures FilledAll(children, tabIds[before..stop])
         == [Filled(children[0], tabIds[before..after])] + FilledAll(children[1..], tabIds[after..stop])
  {
    assert tabIds[before..stop][..CountPanes(children[0])] == tabIds[before..after];
    assert tabIds[before..stop][CountPanes(children[0])..] == tabIds[after..stop];
  }

  method FillShapeInOrder(shape: LayoutShape, tabIds: seq<TabId>) returns (node: PaneNode)
    requires CountPanes(shape) <= |tabIds|
    ensures node == FillShape(shape, tabIds)
  {
    var filled, after := Fill(shape, tabIds, 0);
    assert tabIds[0..after] == tabIds[..CountPanes(shape)];
    node := NormalizePaneTree(filled);
  }

  lemma {:induction false} FilledKeepsIds(shape: LayoutShape, tabIds: seq<TabId>)
    requires ShapeHasPanes(shape) && |tabIds| == CountPanes(shape)
    ensures HasPanes(Filled(shape, tabIds)) && PaneIds(Filled(shape, tabIds)) == tabIds
    decreases shape, 1
  {
    if shape.ShapeSplit? {
      FilledAllKeepIds(shape.children, tabIds);
    }
  }

  lemma {:induction false} FilledAllKeepIds(children: seq<LayoutShape>, tabIds: seq<TabId>)
    requires ShapesHavePanes(children) && |tabIds| == CountPanesOf(children)
    ensures AllHavePanes(FilledAll(children, tabIds)) && PaneIdsOf(FilledAll(children, tabIds)) == tabIds
    decreases children, 0
  {
    if children != [] {
      var count := CountPanes(children[0]);
      FilledKeepsIds(children[0], tabIds[..count]);
      FilledAllKeepIds(children[1..], tabIds[count..]);
      assert tabIds == tabIds[..count] + tabIds[count..];
    }
  }

  lemma FillShapeUsesTheIdsInOrder(shape: LayoutShape, tabIds: seq<TabId>)
    requires ShapeHasPanes(shape) && |tabIds| >= CountPanes(shape)
    ensures Canonical(FillShape(shape, tabIds))
    ensures PaneIds(FillShape(shape, tabIds)) == tabIds[..CountPanes(shape)]
  {
    FilledKeepsIds(shape, tabIds[..CountPanes(shape)]);
    NormalizedIsCanonical(Filled(shape, tabIds[..CountPanes(shape)]));
  }

  lemma {:induction false} ShapeOfTreeRefills(node: PaneNode)
    ensures CountPanes(ShapeOfTree(node)) == |PaneIds(node)|
    ensures Filled(ShapeOfTree(node), PaneIds(node)) == node
    decreases node, 1
  {
    if node.Split? {
      ShapesOfTreesRefill(node.children);
    }
  }

  lemma {:induction false} ShapesOfTreesRefill(children: seq<PaneNode>)
    ensures CountPanesOf(ShapesOfTrees(children)) == |PaneIdsOf(children)|
    ensures FilledAll(ShapesOfTrees(children), PaneIdsOf(children)) == children
    decreases children, 0
  {
    if children != [] {
      ShapeOfTreeRefills(children[0]);
      ShapesOfTreesRefill(children[1..]);
      var first, rest := PaneIds(children[0]), PaneIdsOf(children[1..]);
      assert (first + rest)[..|first|] == first && (first + rest)[|first|..] == rest;
    }
  }

  // A canonical tree comes back from its shape and its panes.
  lemma FillShapeOfTree(node: PaneNode)
    requires Canonical(node)
    ensures CountPanes(ShapeOfTree(node)) == |PaneIds(node)|
    ensures FillShape(ShapeOfTree(node), PaneIds(node)) == node
  {
    ShapeOfTreeRefills(node);
    NormalizedKeepsCanonical(node);
    assert PaneIds(node)[..CountPanes(ShapeOfTree(node))] == PaneIds(node);
  }

  // ----- applying a template -----

  function Least(a: nat, b: nat): nat {
    if a <= b then a else b
  }

  // The first panes the shape has room for, the active one always among
  // them, in their old order.
  function KeptPanes(existing: seq<TabId>, tabId: TabId, slots: nat): seq<TabId> {
    var preferred := [tabId] + Without(existing, {tabId});
    var chosen := ToSet(preferred[..Least(slots, |preferred|)]);
    Without(existing, ToSet(existing) - chosen)
  }

  // The group of `tabId` in a new shape. Its kept panes come first and
  // `newTabIds` fill up the rest; what does not go in is appended to the group
  // as lone panes. None when the shape would stay incomplete.
  function ApplyTemplate(groups: seq<TabGroup>, tabId: TabId, shape: LayoutShape, newTabIds: seq<TabId>,
          groupCount: nat): Option<Counted> {
    var index := FindGroup(groups, tabId);
    if index == -1 then None
    else
      var group, slots := groups[index], CountPanes(shape);
      var kept := KeptPanes(Panes(group), tabId, slots);
      var filled := (kept + newTabIds)[..Least(slots, |kept| + |newTabIds|)];
      if |filled| < slots then None
      else Some(LaidOut(groups, index, FillShape(shape, filled), tabId, Without(Panes(group), ToSet(kept)), groupCount))
  }

  // Group `index` as `root`, with the left-over panes in groups right after it.
  function LaidOut(groups: seq<TabGroup>, index: nat, root: PaneNode, active: TabId, leftOver: seq<TabId>,
          groupCount: nat): Counted
    requires index < |groups|
  {
    var laidOut := TabGroup(groups[index].id, root, active, None);
    Counted(groups[..index] + ([laidOut] + Singles(leftOver, groupCount)) + groups[index + 1..],
            groupCount + |leftOver|)
  }

  lemma {:induction false} ShapeHoldsAPane(shape: LayoutShape)
    requires ShapeHasPanes(shape)
    ensures CountPanes(shape) >= 1
    decreases shape, 1
  {
    if shape.ShapeSplit? {
      ShapeHoldsAPane(shape.children[0]);
    }
  }

  lemma PreferredHoldsAll(existing: seq<TabId>, tabId: TabId)
    requires Distinct(existing) && tabId in existing
    ensures var preferred := [tabId] + Without(existing, {tabId});
      Distinct(preferred) && |preferred| == |existing| && multiset(preferred) == multiset(existing)
  {
    var preferred := [tabId] + Without(existing, {tabId});
    assert ToSet([tabId]) == {tabId};
    WithoutAPart(existing, [tabId]);
    SameValues(preferred, existing);
  }

  // Picking panes by set keeps them in their old order, and all of them.
  lemma PickedInOrder(existing: seq<TabId>, chosen: seq<TabId>)
    requires Distinct(existing) && Distinct(chosen) && forall id :: id in chosen ==> id in existing
    ensures var kept := Without(existing, ToSet(existing) - ToSet(chosen));
      Distinct(kept) && ToSet(kept) == ToSet(chosen) && |kept| == |chosen|
  {
    var kept := Without(existing, ToSet(existing) - ToSet(chosen));
    WithoutMembers(existing, ToSet(existing) - ToSet(chosen));
    WithoutDistinct(existing, ToSet(existing) - ToSet(chosen));
    assert ToSet(kept) == ToSet(chosen);
    DistinctAsSet(kept);
    DistinctAsSet(chosen);
    SameValues(kept, chosen);
  }

  // As many panes stay as there is room for, and the active one is among them.
  lemma KeptPanesFill(existing: seq<TabId>, tabId: TabId, slots: nat)
    requires Distinct(existing) && tabId in existing && slots >= 1
    ensures var kept := KeptPanes(existing, tabId, slots);
      && tabId in kept
      && |kept| == Least(slots, |existing|)
      && multiset(kept) + multiset(Without(existing, ToSet(kept))) == multiset(existing)
  {
    var preferred := [tabId] + Without(existing, {tabId});
    var chosen := preferred[..Least(slots, |preferred|)];
    PreferredHoldsAll(existing, tabId);
    SameValues(preferred, existing);
    assert forall id :: id in chosen ==> id in ToSet(preferred);
    PickedInOrder(existing, chosen);
    var kept := KeptPanes(existing, tabId, slots);
    assert chosen[0] == tabId && tabId in ToSet(kept);
    assert forall id :: id in kept ==> id in ToSet(kept);
    WithoutAPart(existing, kept);
  }

  // Which panes stay: the first ones, or, with the active one not among
  // them, one fewer of the first and then the active one.
  lemma KeptPanesAre(before: seq<TabId>, tabId: TabId, after: seq<TabId>, slots: nat)
    requires Distinct(before + [tabId] + after) && slots >= 1
    ensures var existing := before + [tabId] + after;
      KeptPanes(existing, tabId, slots)
      == if |before| < slots then existing[..Least(slots, |existing|)] else before[..slots - 1] + [tabId]
  {
    var existing := before + [tabId] + after;
    WithoutMiddle(before, [tabId], after);
    assert ToSet([tabId]) == {tabId};
    var preferred := [tabId] + (before + after);
    var chosen := preferred[..Least(slots, |preferred|)];
    if |before| < slots {
      var n := Least(slots, |existing|) - |before| - 1;
      assert chosen == [tabId] + before + after[..n];
      assert existing[..Least(slots, |existing|)] == before + [tabId] + after[..n];
      PicksThese(existing, before + [tabId] + after[..n], after[n..], ToSet(chosen));
    } else {
      var k := slots - 1;
      assert chosen == [tabId] + before[..k];
      PicksTheseToo(existing, before[..k], before[k..], tabId, after, ToSet(chosen));
    }
  }

  lemma PicksThese(existing: seq<TabId>, first: seq<TabId>, rest: seq<TabId>, chosen: set<TabId>)
    requires existing == first + rest && Distinct(existing) && ToSet(first) == chosen
    ensures Without(existing, ToSet(existing) - chosen) == first
  {
    var gone := ToSet(existing) - chosen;
    DistinctAppend(first, rest);
    forall id | id in rest ensures id in gone {
      assert id in existing;
    }
    forall id | id in first ensures id !in gone {
      assert id in chosen;
    }
    WithoutAppend(first, rest, gone);
    WithoutNothing(first, gone);
    WithoutAll(rest, gone);
    assert first + [] == first;
  }

  lemma PicksTheseToo(existing: seq<TabId>, first: seq<TabId>, between: seq<TabId>, tabId: TabId, after: seq<TabId>,
          chosen: set<TabId>)
    requires existing == first + between + [tabId] + after && Distinct(existing)
    requires chosen == ToSet([tabId] + first)
    ensures Without(existing, ToSet(existing) - chosen) == first + [tabId]
  {
    var gone := ToSet(existing) - chosen;
    FourPartsApart(first, between, [tabId], after);
    assert forall id :: id in first || id in [tabId] ==> id in [tabId] + first;
    forall id | id in between || id in after ensures id in gone {
      assert id in existing && id !in [tabId] + first;
    }
    WithoutEveryOther(first, between, [tabId], after, gone);
  }

  lemma FourPartsApart(a: seq<TabId>, b: seq<TabId>, c: seq<TabId>, d: seq<TabId>)
    requires Distinct(a + b + c + d)
    ensures forall id :: id in b || id in d ==> id !in a && id !in c
  {
    DistinctAppend(a + b + c, d);
    DistinctAppend(a + b, c);
    DistinctAppend(a, b);
    assert forall id :: id in a || id in b || id in c ==> id in a + b + c;
    assert forall id :: id in a || id in b ==> id in a + b;
  }

  lemma WithoutEveryOther(a: seq<TabId>, b: seq<TabId>, c: seq<TabId>, d: seq<TabId>, gone: set<TabId>)
    requires (forall id :: id in a || id in c ==> id !in gone) && (forall id :: id in b || id in d ==> id in gone)
    ensures Without(a + b + c + d, gone) == a + c
  {
    WithoutAppend(a + b + c, d, gone);
    WithoutAll(d, gone);
    WithoutBetween(a, b, c, gone);
    assert (a + c) + [] == a + c;
  }

  // The laid-out group and the left-over panes take the group's place.
  lemma ApplyTemplateLosesNoPane(groups: seq<TabGroup>, groupCount: nat, tabId: TabId, shape: LayoutShape,
          newTabIds: seq<TabId>)
    requires GroupsOk(groups, groupCount) && Distinct(Order(groups)) && ShapeHasPanes(shape)
    requires ApplyTemplate(groups, tabId, shape, newTabIds, groupCount).Some?
    ensures var r, index := ApplyTemplate(groups, tabId, shape, newTabIds, groupCount).value, FindGroup(groups, tabId);
      var existing, slots := Panes(groups[index]), CountPanes(shape);
      var kept := KeptPanes(existing, tabId, slots);
      var leftOver := Without(existing, ToSet(kept));
      && GroupsOk(r.groups, r.groupCount)
      && r.groupCount == groupCount + |leftOver|
      && tabId in kept
      && multiset(kept) + multiset(leftOver) == multiset(existing)
      && |kept| <= slots <= |kept| + |newTabIds|
      && LaysOut(groups, index, r.groups, tabId, kept + newTabIds[..slots - |kept|], leftOver)
  {
    hide ApplyTemplate;
    hide LaidOut;
    hide KeptPanes;
    hide LaysOut;
    hide FillShape;
    hide GroupsOk;
    hide RootsOk;
    hide Canonical;
    hide ShapeHasPanes;
    hide Without;
    hide CountPanes;
    hide Order;
    var index, kept, filled := TemplateApplied(groups, tabId, shape, newTabIds, groupCount);
    var existing := Panes(groups[index]);
    FillShapeUsesTheIdsInOrder(shape, filled);
    TemplateLaidOut(groups, groupCount, index, FillShape(shape, filled), tabId, kept, filled,
                    Without(existing, ToSet(kept)));
  }

  lemma TemplateApplied(groups: seq<TabGroup>, tabId: TabId, shape: LayoutShape, newTabIds: seq<TabId>, groupCount: nat)
    returns (index: nat, kept: seq<TabId>, filled: seq<TabId>)
    requires Distinct(Order(groups)) && ShapeHasPanes(shape)
    requires ApplyTemplate(groups, tabId, shape, newTabIds, groupCount).Some?
    ensures index < |groups| && index == FindGroup(groups, tabId) && tabId in kept
    ensures kept == KeptPanes(Panes(groups[index]), tabId, CountPanes(shape))
            && |kept| <= CountPanes(shape) <= |kept| + |newTabIds|
    ensures filled == kept + newTabIds[..CountPanes(shape) - |kept|] && |filled| == CountPanes(shape)
            && filled[..CountPanes(shape)] == filled
    ensures multiset(kept) + multiset(Without(Panes(groups[index]), ToSet(kept))) == multiset(Panes(groups[index]))
    ensures ApplyTemplate(groups, tabId, shape, newTabIds, groupCount).value
         == LaidOut(groups, index, FillShape(shape, filled), tabId, Without(Panes(groups[index]), ToSet(kept)),
                    groupCount)
  {
    hide KeptPanes;
    hide FillShape;
    hide LaidOut;
    index := FindGroup(groups, tabId);
    var slots, existing := CountPanes(shape), Panes(groups[index]);
    kept := KeptPanes(existing, tabId, slots);
    PanesAreInOrder(groups, index);
    ShapeHoldsAPane(shape);
    KeptPanesFill(existing, tabId, slots);
    FilledByTemplate(kept, newTabIds, slots);
    filled := kept + newTabIds[..slots - |kept|];
  }

  lemma TemplateLaidOut(groups: seq<TabGroup>, groupCount: nat, index: nat, root: PaneNode, tabId: TabId,
          kept: seq<TabId>, filled: seq<TabId>, leftOver: seq<TabId>)
    requires GroupsOk(groups, groupCount) && index < |groups| && Canonical(root)
    requires tabId in kept && kept <= filled && PaneIds(root) == filled
    ensures var r := LaidOut(groups, index, root, tabId, leftOver, groupCount);
      && r.groupCount == groupCount + |leftOver|
      && GroupsOk(r.groups, r.groupCount)
      && LaysOut(groups, index, r.groups, tabId, filled, leftOver)
  {
    assert tabId in filled by {
      assert kept == filled[..|kept|];
    }
    LaidOutIsOk(groups, groupCount, index, root, tabId, leftOver);
    LaidOutPlaces(groups, groupCount, index, root, tabId, leftOver);
  }

  lemma FilledByTemplate(kept: seq<TabId>, newTabIds: seq<TabId>, slots: nat)
    requires |kept| <= slots <= |kept| + |newTabIds|
    ensures var filled := (kept + newTabIds)[..Least(slots, |kept| + |newTabIds|)];
      |filled| == slots && filled == kept + newTabIds[..slots - |kept|] && filled[..slots] == filled
  {
  }

  // Group `index` now shows `panes` with `active` focused, followed by one
  // group for each pane in `leftOver`; every other group is as it was.
  ghost predicate LaysOut(groups: seq<TabGroup>, index: nat, result: seq<TabGroup>, active: TabId, panes: seq<TabId>,
          leftOver: seq<TabId>)
    requires index < |groups|
  {
    && |result| == |groups| + |leftOver|
    && result[..index] == groups[..index]
    && result[index].id == groups[index].id
    && result[index].activeTabId == active
    && result[index].zoomedTabId.None?
    && Panes(result[index]) == panes
    && (forall k :: 0 <= k < |leftOver| ==> result[index + 1 + k].root == Pane(leftOver[k]))
    && result[index + 1 + |leftOver|..] == groups[index + 1..]
  }

  lemma LaidOutIsOk(groups: seq<TabGroup>, groupCount: nat, index: nat, root: PaneNode, active: TabId,
          leftOver: seq<TabId>)
    requires GroupsOk(groups, groupCount) && index < |groups| && Canonical(root) && active in PaneIds(root)
    ensures GroupsOk(LaidOut(groups, index, root, active, leftOver, groupCount).groups, groupCount + |leftOver|)
  {
    hide GroupsOk;
    hide Canonical;
    hide Singles;
    hide PaneIds;
    var laidOut := TabGroup(groups[index].id, root, active, None);
    var newCount := groupCount + |leftOver|;
    GroupIdIsOld(groups, groupCount, index);
    SinglesAreNew(leftOver, groupCount);
    LaidOutWithSingles(laidOut, Singles(leftOver, groupCount), groupCount, newCount);
    SpliceGroupsIsOk(groups, groupCount, index, [laidOut] + Singles(leftOver, groupCount), newCount);
  }

  lemma SinglesAreNew(leftOver: seq<TabId>, groupCount: nat)
    ensures GroupsOk(Singles(leftOver, groupCount), groupCount + |leftOver|)
    ensures forall single :: single in Singles(leftOver, groupCount) ==> single.id > groupCount
  {
    SinglesAreOk(leftOver, groupCount);
  }

  lemma GroupIdIsOld(groups: seq<TabGroup>, groupCount: nat, index: nat)
    requires GroupsOk(groups, groupCount) && index < |groups|
    ensures 1 <= groups[index].id <= groupCount
  {
  }

  lemma LaidOutWithSingles(laidOut: TabGroup, singles: seq<TabGroup>, groupCount: nat, newCount: nat)
    requires GroupOk(laidOut) && 1 <= laidOut.id <= groupCount <= newCount
    requires GroupsOk(singles, newCount) && forall single :: single in singles ==> single.id > groupCount
    ensures GroupsOk([laidOut] + singles, newCount)
    ensures forall group :: group in [laidOut] + singles ==> group.id > groupCount || group.id == laidOut.id
  {
    assert laidOut.id !in GroupIds(singles);
    GroupsOkApart(laidOut, singles, newCount);
  }

  lemma LaidOutPlaces(groups: seq<TabGroup>, groupCount: nat, index: nat, root: PaneNode, active: TabId,
          leftOver: seq<TabId>)
    requires index < |groups|
    ensures LaysOut(groups, index, LaidOut(groups, index, root, active, leftOver, groupCount).groups, active,
                    PaneIds(root), leftOver)
  {
    hide GroupsOk;
    hide Order;
    hide PaneIds;
    var r := LaidOut(groups, index, root, active, leftOver, groupCount).groups;
    SinglesAreOk(leftOver, groupCount);
    assert r[..index] == groups[..index];
    forall k | 0 <= k < |leftOver| ensures r[index + 1 + k] == Singles(leftOver, groupCount)[k] {
    }
    assert r[index + 1 + |leftOver|..] == groups[index + 1..];
  }

  // ----- reading saved templates -----

  function ReadShape(value: RawNode, depth: nat): Option<LayoutShape>
    decreases value, 1
  {
    match value
    case RawPane(_) => Some(ShapePane)
    case RawOther => None
    case RawSplit(orientation, children, sizes) =>
      if depth >= MAX_TEMPLATE_DEPTH || orientation.None? || |children| < 2 then None
      else
        match ReadShapes(children, depth + 1)
        case None => None
        case Some(shapes) =>
          var read := UsableSizes(|shapes|, if sizes.Some? then sizes.value else []);
          Some(ShapeSplit(orientation.value, shapes, ScaleToOne(read)))
  }

  function ReadShapes(values: seq<RawNode>, depth: nat): (r: Option<seq<LayoutShape>>)
    ensures r.Some? ==> |r.value| == |values|
    decreases values, 0
  {
    if values == [] then Some([])
    else
      match (ReadShape(values[0], depth), ReadShapes(values[1..], depth))
      case (Some(first), Some(rest)) => Some([first] + rest)
      case _ => None
  }

  // Reads a shape from a saved value, level by level, within the limits on depth
  // and panes.
  function NormalizeLayoutShape(value: RawNode): Option<LayoutShape> {
    match ReadShape(value, 0)
    case Some(shape) =>
      if shape.ShapePane? || CountPanes(shape) > MAX_TEMPLATE_PANES then None else Some(shape)
    case None => None
  }

  // How many splits lie on the longest way down.
  function SplitDepth(shape: LayoutShape): nat
    decreases shape, 1
  {
    if shape.ShapePane? then 0 else 1 + SplitDepthOf(shape.children)
  }

  function SplitDepthOf(children: seq<LayoutShape>): nat
    decreases children, 0
  {
    if children == [] then 0
    else
      var first, rest := SplitDepth(children[0]), SplitDepthOf(children[1..]);
      if first >= rest then first else rest
  }

  predicate WellShaped(shape: LayoutShape)
    decreases shape, 1
  {
    shape.ShapeSplit? ==>
      |shape.children| >= 2 && |shape.sizes| == |shape.children| && AreShares(shape.sizes)
          && AllWellShaped(shape.children)
  }

  predicate AllWellShaped(children: seq<LayoutShape>)
    decreases children, 0
  {
    children == [] || (WellShaped(children[0]) && AllWellShaped(children[1..]))
  }

  function RawOfShape(shape: LayoutShape): RawNode
    decreases shape, 1
  {
    match shape
    case ShapePane => RawPane(None)
    case ShapeSplit(orientation, children, sizes) =>
      RawSplit(Some(orientation), RawOfShapes(children), Some(RawSizes(sizes)))
  }

  function RawOfShapes(children: seq<LayoutShape>): (r: seq<RawNode>)
    ensures |r| == |children|
    decreases children, 0
  {
    if children == [] then [] else [RawOfShape(children[0])] + RawOfShapes(children[1..])
  }

  lemma {:induction false} ReadShapeIsWellShaped(value: RawNode, depth: nat)
    ensures match ReadShape(value, depth)
            case None => true
            case Some(shape) =>
              && WellShaped(shape)
              && (shape.ShapeSplit? ==> depth + SplitDepth(shape) <= MAX_TEMPLATE_DEPTH)
    decreases value, 1
  {
    if value.RawSplit? && ReadShape(value, depth).Some? {
      var shape := ReadShape(value, depth).value;
      ReadShapesAreWellShaped(value.children, depth + 1);
      ScaleToOneGivesShares(UsableSizes(|shape.children|, if value.sizes.Some? then value.sizes.value else []));
    }
  }

  lemma {:induction false} ReadShapesAreWellShaped(values: seq<RawNode>, depth: nat)
    requires depth <= MAX_TEMPLATE_DEPTH
    ensures match ReadShapes(values, depth)
            case None => true
            case Some(shapes) => AllWellShaped(shapes) && depth + SplitDepthOf(shapes) <= MAX_TEMPLATE_DEPTH
    decreases values, 0
  {
    if values != [] {
      ReadShapeIsWellShaped(values[0], depth);
      ReadShapesAreWellShaped(values[1..], depth);
    }
  }

  lemma {:induction false} ReadShapeOfSaved(shape: LayoutShape, depth: nat)
    requires WellShaped(shape)
    ensures ReadShape(RawOfShape(shape), depth)
         == if shape.ShapeSplit? && depth + SplitDepth(shape) > MAX_TEMPLATE_DEPTH then None else Some(shape)
    decreases shape, 1
  {
    if shape.ShapeSplit? && depth < MAX_TEMPLATE_DEPTH {
      ReadShapesOfSaved(shape.children, depth + 1);
      UsableSizesOfSaved(shape.sizes);
      ScaleToOneKeepsShares(shape.sizes);
    }
  }

  lemma {:induction false} ReadShapesOfSaved(children: seq<LayoutShape>, depth: nat)
    requires AllWellShaped(children) && depth <= MAX_TEMPLATE_DEPTH
    ensures ReadShapes(RawOfShapes(children), depth)
         == if depth + SplitDepthOf(children) > MAX_TEMPLATE_DEPTH then None else Some(children)
    decreases children, 0
  {
    if children != [] {
      ReadShapeOfSaved(children[0], depth);
      ReadShapesOfSaved(children[1..], depth);
      assert [children[0]] + children[1..] == children;
    }
  }

  // A saved template that is accepted has sound splits within the limits,
  // and reading it back once saved again changes nothing.
  lemma AcceptedTemplatesAreStable(value: RawNode)
    ensures match NormalizeLayoutShape(value)
            case None => true
            case Some(shape) =>
              && WellShaped(shape) && shape.ShapeSplit?
              && SplitDepth(shape) <= MAX_TEMPLATE_DEPTH && CountPanes(shape) <= MAX_TEMPLATE_PANES
              && NormalizeLayoutShape(RawOfShape(shape)) == Some(shape)
  {
    ReadShapeIsWellShaped(value, 0);
    match NormalizeLayoutShape(value)
    case None =>
    case Some(shape) => ReadShapeOfSaved(shape, 0);
  }

  lemma {:induction false} ShapeOfCanonicalIsWellShaped(node: PaneNode)
    requires Canonical(node)
    ensures WellShaped(ShapeOfTree(node))
    decreases node, 1
  {
    if node.Split? {
      ShapesOfCanonicalAreWellShaped(node.orientation, node.children);
    }
  }

  lemma {:induction false} ShapesOfCanonicalAreWellShaped(orientation: Orientation, children: seq<PaneNode>)
    requires AllCanonical(orientation, children)
    ensures AllWellShaped(ShapesOfTrees(children))
    decreases children, 0
  {
    if children != [] {
      ShapeOfCanonicalIsWellShaped(children[0]);
      ShapesOfCanonicalAreWellShaped(orientation, children[1..]);
    }
  }

  // The layout of a tab, saved as a template, is accepted exactly when it is
  // split, at most four splits deep and of at most nine panes; it then comes
  // back as it was and lays its panes out again as they were.
  lemma SavedLayoutComesBack(node: PaneNode)
    requires Canonical(node)
    ensures var shape := ShapeOfTree(node);
      NormalizeLayoutShape(RawOfShape(shape))
      == if node.Split? && SplitDepth(shape) <= MAX_TEMPLATE_DEPTH && |PaneIds(node)| <= MAX_TEMPLATE_PANES
         then Some(shape) else None
    ensures CountPanes(ShapeOfTree(node)) == |PaneIds(node)|
    ensures FillShape(ShapeOfTree(node), PaneIds(node)) == node
  {
    ShapeOfCanonicalIsWellShaped(node);
    ReadShapeOfSaved(ShapeOfTree(node), 0);
    FillShapeOfTree(node);
  }
}
