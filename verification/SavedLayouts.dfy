// What comes of a saved layout of any kind, whatever stands in it
// (src/lib/tabGroupsPersistence.ts).
module SavedLayouts {
  import opened Sequences
  import opened PaneTrees
  import opened PaneGeometry
  import opened PaneShares
  import opened TabGroups
  import opened PaneTemplates
  import opened SavedValues
  import opened TabGroupsPersistence

  // ----- reading a tree -----

  lemma {:induction false} ReadPaneNodesEach(values: seq<RawNode>)
    ensures ReadPaneNodes(values).Some? <==> forall i :: 0 <= i < |values| ==> ReadPaneNode(values[i]).Some?
    ensures ReadPaneNodes(values).Some? ==>
      forall i :: 0 <= i < |values| ==> ReadPaneNode(values[i]) == Some(ReadPaneNodes(values).value[i])
  {
    if values != [] {
      ReadPaneNodesEach(values[1..]);
      assert forall i :: 0 < i < |values| ==> values[i] == values[1..][i - 1];
    }
  }

  // A split is read exactly when it has an orientation, a list of sizes and
  // children that are all read; a child without a positive size gets none.
  lemma SplitIsRead(orientation: Option<Orientation>, children: seq<RawNode>, sizes: Option<seq<Option<real>>>)
    ensures var r := ReadPaneNode(RawSplit(orientation, children, sizes));
      && (r.Some? <==> orientation.Some? && sizes.Some? && children != []
                       && forall i :: 0 <= i < |children| ==> ReadPaneNode(children[i]).Some?)
      && (r.Some? ==>
            && r.value.Split? && r.value.orientation == orientation.value
            && |r.value.children| == |r.value.sizes| == |children|
            && forall i :: 0 <= i < |children| ==>
                 && ReadPaneNode(children[i]) == Some(r.value.children[i])
                 && r.value.sizes[i]
                    == match (if i < |sizes.value| then sizes.value[i] else None)
                       case Some(size) => if size > 0.0 then size else 0.0
                       case None => 0.0)
  {
    ReadPaneNodesEach(children);
  }

  // ----- restoring one group, and one after the other -----

  // The group as it comes back: with the panes whose tabs are known and sit
  // in no earlier group, laid out as it was or as without the others. What
  // was active or zoomed still is, if it is left.
  predicate ComesBack(restored: RestoredGroup, group: ReadGroup, known: set<TabId>, seen: set<TabId>, box: Rect)
    requires Sized(group.root)
  {
    var ids := PaneIds(group.root);
    var gone := ToSet(ids) - (known - seen);
    && Canonical(restored.root) && PaneIds(restored.root) == Without(ids, gone)
    && (if gone == {} then Place(restored.root, box) == Place(group.root, box)
        else RemovePanes(group.root, gone) == Some(restored.root))
    && PaneIds(restored.root) != []
    && (match group.activeTabId
        case Some(id) => restored.activeTabId == if id in PaneIds(restored.root) then id else PaneIds(restored.root)[0]
        case None => restored.activeTabId == PaneIds(restored.root)[0])
    && restored.zoomedTabId == (match group.zoomedTabId
                                case Some(id) => if id in PaneIds(restored.root) then Some(id) else None
                                case None => None)
  }

  lemma NothingDropped(ids: seq<TabId>, kept: set<TabId>)
    ensures ToSet(Without(ids, kept)) == ToSet(ids) - kept
    ensures Without(ids, kept) == [] <==> ToSet(ids) - kept == {}
  {
    WithoutMembers(ids, kept);
    assert Without(ids, kept) != [] ==> Without(ids, kept)[0] in ToSet(Without(ids, kept));
  }

  lemma RestoredFromComesBack(group: ReadGroup, known: set<TabId>, seen: set<TabId>, box: Rect)
    requires Sized(group.root)
    ensures var r := RestoredFrom(group, known, seen);
      if exists id :: id in PaneIds(group.root) && id in known && id !in seen
      then |r| == 1 && ComesBack(r[0], group, known, seen, box) else r == []
  {
    var ids := PaneIds(group.root);
    var dropped, gone := Without(ids, known - seen), ToSet(ids) - (known - seen);
    NothingDropped(ids, known - seen);
    WithoutMembers(ids, gone);
    RemovePanesKeepsTheRest(group.root, gone);
    SizedHasPanes(group.root);
    if dropped == [] {
      NormalizedIsCanonical(group.root);
      NormalizedKeepsPlaces(group.root, box);
      WithoutNothing(ids, gone);
      assert ids[0] in ToSet(ids);
    } else {
      match RemovePanes(group.root, gone)
      case None =>
      case Some(root) =>
        NormalizedKeepsCanonical(root);
        assert PaneIds(root)[0] in Without(ids, gone);
    }
  }

  // Each group in turn, those with no pane to show left out.
  ghost predicate ComeBack(restored: seq<RestoredGroup>, groups: seq<ReadGroup>, known: set<TabId>, seen: set<TabId>,
          box: Rect)
    requires forall group :: group in groups ==> Sized(group.root)
    decreases |groups|
  {
    if groups == [] then restored == []
    else if exists id :: id in PaneIds(groups[0].root) && id in known && id !in seen
    then restored != [] && ComesBack(restored[0], groups[0], known, seen, box)
         && ComeBack(restored[1..], groups[1..], known, seen + ToSet(PaneIds(restored[0].root)), box)
    else ComeBack(restored, groups[1..], known, seen, box)
  }

  lemma {:induction false} RestoredAllComeBack(groups: seq<ReadGroup>, known: set<TabId>, seen: set<TabId>, box: Rect)
    requires forall group :: group in groups ==> Sized(group.root)
    ensures ComeBack(RestoredAll(groups, known, seen), groups, known, seen, box)
    decreases |groups|
  {
    if groups != [] {
      var first := RestoredFrom(groups[0], known, seen);
      RestoredFromComesBack(groups[0], known, seen, box);
      hide ComesBack;
      hide RestoredFrom;
      RestoredAllComeBack(groups[1..], known, SeenAfter(first, seen), box);
      var rest := RestoredAll(groups[1..], known, SeenAfter(first, seen));
      assert first != [] ==> first == [first[0]] && (first + rest)[1..] == rest;
      assert first == [] ==> first + rest == rest;
    }
  }

  function IdsOf(groups: seq<ReadGroup>): seq<TabId> {
    if groups == [] then [] else PaneIds(groups[0].root) + IdsOf(groups[1..])
  }

  lemma {:induction false} RestoredIds(groups: seq<ReadGroup>, known: set<TabId>, seen: set<TabId>)
    requires forall group :: group in groups ==> Sized(group.root)
    ensures ToSet(OrderOf(RestoredAll(groups, known, seen))) == (ToSet(IdsOf(groups)) * known) - seen
    decreases |groups|
  {
    hide *;
    if groups == [] {
      NothingRestored(known, seen);
      return;
    }
    var first := RestoredFrom(groups[0], known, seen);
    RestoredFromComesBack(groups[0], known, seen, Rect(0.0, 0.0, 0.0, 0.0));
    RestoredIds(groups[1..], known, SeenAfter(first, seen));
    IdsOfFirst(first, groups[0], known, seen);
    RestoredStep(groups, known, seen);
    OrderOfFirst(first, RestoredAll(groups[1..], known, SeenAfter(first, seen)));
    ListedTogether(PaneIds(groups[0].root), IdsOf(groups[1..]), OrderOf(first),
                   OrderOf(RestoredAll(groups[1..], known, SeenAfter(first, seen))), known, seen);
  }

  lemma NothingRestored(known: set<TabId>, seen: set<TabId>)
    ensures OrderOf(RestoredAll([], known, seen)) == [] && IdsOf([]) == [] && OrderOf([]) == []
    ensures ToSet<TabId>([]) == {}
  {
  }

  lemma RestoredStep(groups: seq<ReadGroup>, known: set<TabId>, seen: set<TabId>)
    requires groups != [] && forall group :: group in groups ==> Sized(group.root)
    ensures Sized(groups[0].root)
    ensures var first := RestoredFrom(groups[0], known, seen);
      RestoredAll(groups, known, seen) == first + RestoredAll(groups[1..], known, SeenAfter(first, seen))
    ensures IdsOf(groups) == PaneIds(groups[0].root) + IdsOf(groups[1..])
  {
  }

  lemma ListedTogether(a: seq<TabId>, b: seq<TabId>, fromA: seq<TabId>, fromB: seq<TabId>, known: set<TabId>,
          seen: set<TabId>)
    requires ToSet(fromA) == (ToSet(a) * known) - seen
    requires ToSet(fromB) == (ToSet(b) * known) - (seen + ToSet(fromA))
    ensures ToSet(fromA + fromB) == (ToSet(a + b) * known) - seen
  {
    assert ToSet(a + b) == ToSet(a) + ToSet(b) && ToSet(fromA + fromB) == ToSet(fromA) + ToSet(fromB);
  }

  lemma IdsOfFirst(first: seq<RestoredGroup>, group: ReadGroup, known: set<TabId>, seen: set<TabId>)
    requires Sized(group.root)
    requires if exists id :: id in PaneIds(group.root) && id in known && id !in seen
             then |first| == 1 && ComesBack(first[0], group, known, seen, Rect(0.0, 0.0, 0.0, 0.0)) else first == []
    ensures ToSet(OrderOf(first)) == (ToSet(PaneIds(group.root)) * known) - seen
    ensures SeenAfter(first, seen) == seen + ToSet(OrderOf(first))
  {
    hide Place;
    hide Canonical;
    hide RemovePanes;
    hide Without;
    hide PaneIds;
    hide OrderOf;
    var ids := PaneIds(group.root);
    WithoutMembers(ids, ToSet(ids) - (known - seen));
    OrderOfOneRestored(first);
    assert first == [] ==> OrderOf(first) == [] by {
      NothingRestored(known, seen);
    }
  }

  lemma OrderOfOneRestored(first: seq<RestoredGroup>)
    ensures |first| == 1 ==> OrderOf(first) == PaneIds(first[0].root)
  {
    if |first| == 1 {
      assert OrderOf(first) == PaneIds(first[0].root) + OrderOf(first[1..]);
    }
  }

  lemma OrderOfFirst(first: seq<RestoredGroup>, rest: seq<RestoredGroup>)
    requires |first| <= 1
    ensures OrderOf(first + rest) == OrderOf(first) + OrderOf(rest)
  {
    if first == [] {
      assert first + rest == rest;
    } else {
      assert (first + rest)[1..] == rest;
      assert OrderOf(first) == PaneIds(first[0].root) + OrderOf(first[1..]);
    }
  }

  // Of a layout of this version, exactly the known tabs it lists come back,
  // the groups in their order, each with the panes no earlier one has.
  lemma CurrentLayoutComesBack(groups: seq<RawGroup>, tabIds: seq<TabId>, box: Rect)
    ensures var read, r := ReadSavedGroups(groups), RestoreTabGroups(CurrentLayout(groups), tabIds);
      && ComeBack(r, read, ToSet(tabIds), {}, box)
      && ToSet(OrderOf(r)) == ToSet(IdsOf(read)) * ToSet(tabIds)
  {
    RestoredAllComeBack(ReadSavedGroups(groups), ToSet(tabIds), {}, box);
    RestoredIds(ReadSavedGroups(groups), ToSet(tabIds), {});
  }

  // The groups read are those with a tree that can be read, in their order.
  lemma {:induction false} GroupsAreRead(groups: seq<RawGroup>)
    ensures var read := ReadSavedGroups(groups);
      if groups == [] then read == []
      else if groups[0].RawGroup? && ReadPaneNode(groups[0].root).Some?
      then read == [ReadGroup(ReadPaneNode(groups[0].root).value, groups[0].activeTabId, groups[0].zoomedTabId)]
                   + ReadSavedGroups(groups[1..])
      else read == ReadSavedGroups(groups[1..])
  {
  }

  // ----- what is saved of a group -----

  // A group is saved with the panes of its saved tabs, or not at all; what is
  // active or zoomed is saved if its tab is, else the first pane is active.
  lemma SavedGroupHolds(group: TabGroup, saved: set<TabId>)
    requires GroupOk(group) && Sized(group.root)
    ensures var r, unsaved := SavedGroup(group, saved), ToSet(Panes(group)) - saved;
      if forall id :: id in Panes(group) ==> id in unsaved then r == []
      else
        && |r| == 1 && PaneIds(r[0].root) == Without(Panes(group), unsaved) != []
        && Some(r[0].root) == (if unsaved == {} then Some(group.root) else RemovePanes(group.root, unsaved))
        && r[0].activeTabId == (if group.activeTabId in saved then group.activeTabId else PaneIds(r[0].root)[0])
        && r[0].zoomedTabId == match group.zoomedTabId
                               case Some(id) => if id in saved then Some(id) else None
                               case None => None
  {
    var ids, unsaved := Panes(group), ToSet(Panes(group)) - saved;
    NothingDropped(ids, saved);
    WithoutMembers(ids, unsaved);
    SavedRootKeepsSaved(group, saved);
    SavedRootIs(group, saved);
    SavedGroupIs(group, saved);
    NoneSaved(ids, unsaved);
    assert group.activeTabId in ids && (group.zoomedTabId.Some? ==> group.zoomedTabId.value in ids);
    hide *;
  }

  lemma NoneSaved(ids: seq<TabId>, unsaved: set<TabId>)
    ensures (forall id :: id in ids ==> id in unsaved) <==> Without(ids, unsaved) == []
    ensures forall id :: id in Without(ids, unsaved) <==> id in ids && id !in unsaved
  {
    WithoutMembers(ids, unsaved);
    if Without(ids, unsaved) != [] {
      assert Without(ids, unsaved)[0] in Without(ids, unsaved);
    }
  }

  lemma SavedRootIs(group: TabGroup, saved: set<TabId>)
    requires Sized(group.root)
    ensures var unsaved := ToSet(Panes(group)) - saved;
      SavedRoot(group, saved) == if unsaved == {} then Some(group.root) else RemovePanes(group.root, unsaved)
  {
    hide RemovePanes;
    NothingDropped(Panes(group), saved);
  }

  lemma SavedGroupIs(group: TabGroup, saved: set<TabId>)
    requires Sized(group.root)
    ensures match SavedRoot(group, saved)
            case None => SavedGroup(group, saved) == []
            case Some(root) =>
              && PaneIds(root) != []
              && SavedGroup(group, saved)
                 == [RestoredGroup(root, if group.activeTabId in PaneIds(root) then group.activeTabId
                                   else PaneIds(root)[0],
                                   match group.zoomedTabId
                                   case Some(id) => if id in PaneIds(root) then Some(id) else None
                                   case None => None)]
  {
    hide RemovePanes;
    RemovePanesKeepsTheRest(group.root, ToSet(Without(Panes(group), saved)));
    SizedHasPanes(group.root);
  }

  // ----- the grid of older versions -----

  // Every split of the tree runs across the one it stands in.
  predicate Alternates(node: PaneNode, orientation: Orientation)
    decreases node, 1
  {
    node.Split? ==>
      node.orientation == orientation
      && AllAlternate(node.children, if orientation == Horizontal then Vertical else Horizontal)
  }

  predicate AllAlternate(children: seq<PaneNode>, orientation: Orientation)
    decreases children, 0
  {
    children == [] || (Alternates(children[0], orientation) && AllAlternate(children[1..], orientation))
  }

  // The tab in front of each stack of the grid: the one noted, if it is there,
  // or else the first.
  function Fronts(node: GridNode): seq<TabId>
    decreases node, 1
  {
    match node
    case GridOther(_) => []
    case GridLeaf(_, views, activeView, _) =>
      if views == [] then []
      else if activeView.Some? && activeView.value in views then [activeView.value]
      else [views[0]]
    case GridBranch(children, _) => FrontsOf(children)
  }

  function FrontsOf(children: seq<GridNode>): seq<TabId>
    decreases children, 0
  {
    if children == [] then [] else Fronts(children[0]) + FrontsOf(children[1..])
  }

  // The sizes of the parts of the grid that hold a tab.
  function SizesOf(children: seq<GridNode>): seq<real> {
    if children == [] then []
    else
      (if Fronts(children[0]) == [] then []
       else
         match children[0].size
         case Some(size) => [size]
         case None => [1.0])
      + SizesOf(children[1..])
  }

  // The front of the last stack of that name, if there is one.
  function FrontOfStack(node: GridNode, name: string): Option<TabId>
    decreases node, 1
  {
    match node
    case GridOther(_) => None
    case GridLeaf(id, _, _, _) => if id == Some(name) && Fronts(node) != [] then Some(Fronts(node)[0]) else None
    case GridBranch(children, _) => FrontOfStackIn(children, name)
  }

  function FrontOfStackIn(children: seq<GridNode>, name: string): Option<TabId>
    decreases children, 0
  {
    if children == [] then None
    else
      var later := FrontOfStackIn(children[1..], name);
      if later.Some? then later else FrontOfStack(children[0], name)
  }

  // What a visit notes of the stacks by name.
  predicate Notes(after: map<string, TabId>, before: map<string, TabId>, name: string, front: Option<TabId>) {
    if front.Some? then name in after && after[name] == front.value
    else (name in after <==> name in before) && (name in before ==> after[name] == before[name])
  }

  lemma {:induction false} GridIsRead(node: GridNode, orientation: Orientation, fronts: map<string, TabId>,
          name: string)
    ensures var r := VisitGrid(node, orientation, fronts);
      && PanesOf(r.pane) == Fronts(node)
      && (r.pane.None? <==> Fronts(node) == [])
      && (r.pane.Some? ==> Alternates(r.pane.value, orientation))
      && (node.GridBranch? && r.pane.Some? ==> r.pane.value.Split? && r.pane.value.sizes == SizesOf(node.children))
      && Notes(r.fronts, fronts, name, FrontOfStack(node, name))
    decreases node, 1
  {
    match node
    case GridOther(_) =>
    case GridLeaf(_, _, _, _) =>
    case GridBranch(children, _) => GridChildrenAreRead(children, Crossed(orientation), fronts, name);
  }

  lemma {:induction false} GridChildrenAreRead(children: seq<GridNode>, orientation: Orientation,
          fronts: map<string, TabId>, name: string)
    ensures var r := VisitChildren(children, orientation, fronts);
      && PaneIdsOf(r.panes) == FrontsOf(children)
      && (r.panes == [] <==> FrontsOf(children) == [])
      && AllAlternate(r.panes, orientation)
      && r.sizes == SizesOf(children)
      && Notes(r.fronts, fronts, name, FrontOfStackIn(children, name))
    decreases children, 0
  {
    if children != [] {
      var first := VisitGrid(children[0], orientation, fronts);
      var rest := VisitChildren(children[1..], orientation, first.fronts);
      GridIsRead(children[0], orientation, fronts, name);
      GridChildrenAreRead(children[1..], orientation, first.fronts, name);
      if first.pane.Some? {
        assert ([first.pane.value] + rest.panes)[1..] == rest.panes;
      }
    }
  }

  // The grid becomes one tab of the bar, split as it was with the front of
  // each stack in its place; the front of the group that was active is
  // active, or else the first. Every other tab of a stack is one of its own.
  lemma DockviewIsRead(root: GridNode, orientation: Orientation, activeGroup: Option<string>, box: Rect)
    returns (tree: PaneNode)
    requires Fronts(root) != []
    ensures var r := ReadDockviewLayout(root, orientation, activeGroup);
      && r != [] && PaneIds(tree) == Fronts(root) && Alternates(tree, orientation)
      && (root.GridBranch? ==> tree.Split? && tree.sizes == SizesOf(root.children))
      && Canonical(r[0].root) && Place(r[0].root, box) == Place(tree, box) && r[0].zoomedTabId == None
      && r[0].activeTabId
         == (match activeGroup
             case None => Some(Fronts(root)[0])
             case Some(name) =>
               if FrontOfStack(root, name).Some? then FrontOfStack(root, name) else Some(Fronts(root)[0]))
      && forall k :: 1 <= k < |r| ==>
           r[k].root.Pane? && r[k].activeTabId == Some(r[k].root.tabId) && r[k].zoomedTabId == None
  {
    var name := if activeGroup.Some? then activeGroup.value else "";
    GridIsRead(root, orientation, map[], name);
    tree := VisitGrid(root, orientation, map[]).pane.value;
    SizedHasPanes(tree);
    NormalizedIsCanonical(tree);
    NormalizedKeepsPlaces(tree, box);
    LeavesAre(VisitGrid(root, orientation, map[]).behind);
  }

  lemma {:induction false} LeavesAre(tabIds: seq<TabId>)
    ensures |Leaves(tabIds)| == |tabIds|
    ensures forall k :: 0 <= k < |tabIds| ==> Leaves(tabIds)[k] == ReadGroup(Pane(tabIds[k]), Some(tabIds[k]), None)
  {
    if tabIds != [] {
      LeavesAre(tabIds[1..]);
    }
  }

  // The groups of a grid stand where the first of their tabs stands in the
  // list of tabs.
  lemma {:induction false} PositionIsTheFirst(ids: seq<TabId>, tabIds: seq<TabId>)
    requires ids != []
    ensures exists id :: id in ids && IndexOf(tabIds, id) == SmallestIndex(ids, tabIds)
    ensures forall id :: id in ids ==> IndexOf(tabIds, id) >= SmallestIndex(ids, tabIds)
  {
    assert ids == [ids[0]] + ids[1..];
    if |ids| > 1 {
      PositionIsTheFirst(ids[1..], tabIds);
    }
  }

  // ----- reading a template -----

  lemma {:induction false} ReadShapesEach(values: seq<RawNode>, depth: nat)
    ensures ReadShapes(values, depth).Some? <==> forall i :: 0 <= i < |values| ==> ReadShape(values[i], depth).Some?
    ensures ReadShapes(values, depth).Some? ==>
      forall i :: 0 <= i < |values| ==> ReadShape(values[i], depth) == Some(ReadShapes(values, depth).value[i])
  {
    if values != [] {
      ReadShapesEach(values[1..], depth);
      assert forall i :: 0 < i < |values| ==> values[i] == values[1..][i - 1];
    }
  }

  // A split of a template is read exactly when at most three are above it,
  // it has an orientation and two children or more, and all of those are
  // read. Its sizes become shares in the proportion of the usable ones.
  lemma ShapeIsRead(orientation: Option<Orientation>, children: seq<RawNode>, sizes: Option<seq<Option<real>>>,
          depth: nat)
    ensures var r := ReadShape(RawSplit(orientation, children, sizes), depth);
      && (r.Some? <==> depth <= 3 && orientation.Some? && |children| >= 2
                       && forall i :: 0 <= i < |children| ==> ReadShape(children[i], depth + 1).Some?)
      && (r.Some? ==>
            && r.value.ShapeSplit? && r.value.orientation == orientation.value && |r.value.children| == |children|
            && (forall i :: 0 <= i < |children| ==> ReadShape(children[i], depth + 1) == Some(r.value.children[i]))
            && exists usable: seq<real> :: InProportion(r.value.sizes, usable) && AreUsable(usable, |children|, sizes))
  {
    ReadShapesEach(children, depth + 1);
    var r := ReadShape(RawSplit(orientation, children, sizes), depth);
    if r.Some? {
      var usable := UsableSizes(|children|, if sizes.Some? then sizes.value else []);
      ScaleToOneIsInProportion(usable);
      assert AreUsable(usable, |children|, sizes);
    }
  }

  // The sizes given, but for those that are not positive numbers.
  predicate AreUsable(usable: seq<real>, count: nat, sizes: Option<seq<Option<real>>>) {
    && |usable| == count
    && forall i :: 0 <= i < count ==>
         usable[i] == if sizes.Some? && i < |sizes.value| && sizes.value[i].Some? && sizes.value[i].value > 0.0
                      then sizes.value[i].value else 0.0
  }

  // A template is one of two panes to nine.
  lemma TemplateIsAccepted(value: RawNode)
    ensures ReadShape(RawPane(None), 0) == Some(ShapePane) && ReadShape(RawOther, 0) == None
    ensures NormalizeLayoutShape(value)
         == match ReadShape(value, 0)
            case None => None
            case Some(shape) => if shape.ShapeSplit? && CountPanes(shape) <= 9 then Some(shape) else None
  {
  }
}
