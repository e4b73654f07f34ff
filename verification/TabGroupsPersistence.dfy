// Writing the groups into a session and reading them from one
// (src/lib/tabGroupsPersistence.ts), in the format of this version or the grid
// of older ones.
module TabGroupsPersistence {
  import opened Sequences
  import opened PaneTrees
  import opened TabGroups
  import opened SavedValues

  // A group before it is given an id.
  datatype RestoredGroup = RestoredGroup(root: PaneNode, activeTabId: TabId, zoomedTabId: Option<TabId>)

  datatype RawGroup = RawGroup(root: RawNode, activeTabId: Option<TabId>, zoomedTabId: Option<TabId>) | RawGroupOther

  // Dockview's grid: groups of stacked tabs, and branches that alternate
  // their orientation from level to level.
  datatype GridNode =
    | GridLeaf(id: Option<string>, views: seq<TabId>, activeView: Option<TabId>, size: Option<real>)
    | GridBranch(children: seq<GridNode>, size: Option<real>)
    | GridOther(size: Option<real>)

  datatype SavedLayout =
    | NoLayout
    | CurrentLayout(groups: seq<RawGroup>)
    | DockviewLayout(root: GridNode, orientation: Orientation, activeGroup: Option<string>)

  // ----- saving -----

  lemma {:induction false} SizedHasPanes(node: PaneNode)
    requires Sized(node)
    ensures HasPanes(node) && PaneIds(node) != []
    decreases node, 1
  {
    if node.Split? {
      AllSizedHavePanes(node.children);
    }
  }

  lemma {:induction false} AllSizedHavePanes(children: seq<PaneNode>)
    requires AllSized(children)
    ensures AllHavePanes(children) && (children != [] ==> PaneIdsOf(children) != [])
    decreases children, 0
  {
    if children != [] {
      SizedHasPanes(children[0]);
      AllSizedHavePanes(children[1..]);
    }
  }

  function RawOf(node: PaneNode): RawNode
    decreases node, 1
  {
    match node
    case Pane(id) => RawPane(Some(id))
    case Split(orientation, children, sizes) => RawSplit(Some(orientation), RawOfAll(children), Some(RawSizes(sizes)))
  }

  function RawOfAll(children: seq<PaneNode>): (r: seq<RawNode>)
    ensures |r| == |children|
    decreases children, 0
  {
    if children == [] then [] else [RawOf(children[0])] + RawOfAll(children[1..])
  }

  // A tree without the panes of tabs outside `saved`; None when none is left.
  function SavedRoot(group: TabGroup, saved: set<TabId>): Option<PaneNode>
    requires Sized(group.root)
  {
    var unsaved := Without(Panes(group), saved);
    if unsaved != [] then RemovePanes(group.root, ToSet(unsaved)) else Some(group.root)
  }

  // The group as it is saved; nothing when none of its tabs is.
  function SavedGroup(group: TabGroup, saved: set<TabId>): seq<RestoredGroup>
    requires Sized(group.root)
  {
    RemovePanesKeepsTheRest(group.root, ToSet(Without(Panes(group), saved)));
    SizedHasPanes(group.root);
    match SavedRoot(group, saved)
    case None => []
    case Some(root) =>
      var paneIds := PaneIds(root);
      [RestoredGroup(
         root,
         if group.activeTabId in paneIds then group.activeTabId else paneIds[0],
         if group.zoomedTabId.Some? && group.zoomedTabId.value in paneIds then group.zoomedTabId else None)]
  }

  function SavedGroups(groups: seq<TabGroup>, saved: set<TabId>): seq<RestoredGroup>
    requires RootsOk(groups)
  {
    if groups == [] then [] else SavedGroup(groups[0], saved) + SavedGroups(groups[1..], saved)
  }

  function Serialized(groups: seq<RestoredGroup>): seq<RawGroup> {
    if groups == [] then []
    else [RawGroup(RawOf(groups[0].root), Some(groups[0].activeTabId), groups[0].zoomedTabId)] + Serialized(groups[1..])
  }

  // What of each group goes into the session.
  function SerializeTabGroups(groups: seq<TabGroup>, saved: set<TabId>): SavedLayout
    requires RootsOk(groups)
  {
    CurrentLayout(Serialized(SavedGroups(groups, saved)))
  }

  // ----- reading the current format -----

  // Any value may stand anywhere in a saved tree; one malformed node refuses
  // the whole of it.
  function ReadPaneNode(value: RawNode): (r: Option<PaneNode>)
    ensures r.Some? ==> Sized(r.value)
    decreases value, 1
  {
    match value
    case RawOther => None
    case RawPane(id) => if id.Some? then Some(Pane(id.value)) else None
    case RawSplit(orientation, children, sizes) =>
      if orientation.None? || sizes.None? then None
      else
        match ReadPaneNodes(children)
        case None => None
        case Some(nodes) =>
          if nodes == [] then None else Some(Split(orientation.value, nodes, UsableSizes(|nodes|, sizes.value)))
  }

  function ReadPaneNodes(values: seq<RawNode>): (r: Option<seq<PaneNode>>)
    ensures r.Some? ==> |r.value| == |values| && AllSized(r.value)
    decreases values, 0
  {
    if values == [] then Some([])
    else
      match (ReadPaneNode(values[0]), ReadPaneNodes(values[1..]))
      case (Some(first), Some(rest)) => Some([first] + rest)
      case _ => None
  }

  // What a saved group says, where it can be read at all.
  datatype ReadGroup = ReadGroup(root: PaneNode, activeTabId: Option<TabId>, zoomedTabId: Option<TabId>)

  function ReadSavedGroups(values: seq<RawGroup>): (r: seq<ReadGroup>)
    ensures forall g :: g in r ==> Sized(g.root)
  {
    if values == [] then []
    else
      var rest := ReadSavedGroups(values[1..]);
      if values[0].RawGroupOther? then rest
      else
        match ReadPaneNode(values[0].root)
        case None => rest
        case Some(root) => [ReadGroup(root, values[0].activeTabId, values[0].zoomedTabId)] + rest
  }

  // ----- reading Dockview's grid -----

  datatype Visited = Visited(pane: Option<PaneNode>, behind: seq<TabId>, fronts: map<string, TabId>)

  datatype Entries = Entries(panes: seq<PaneNode>, sizes: seq<real>, behind: seq<TabId>, fronts: map<string, TabId>)

  function Crossed(orientation: Orientation): Orientation {
    if orientation.Horizontal? then Vertical else Horizontal
  }

  // The tab in front of a group's stack.
  function FrontOf(views: seq<TabId>, activeView: Option<TabId>): Option<TabId> {
    if activeView.Some? && activeView.value in views then activeView
    else if views != [] then Some(views[0])
    else None
  }

  // The grid as a split of the tabs in front, with the tabs behind them.
  function VisitGrid(node: GridNode, orientation: Orientation, fronts: map<string, TabId>): (r: Visited)
    ensures r.pane.Some? ==> Sized(r.pane.value)
    decreases node, 1
  {
    match node
    case GridOther(_) => Visited(None, [], fronts)
    case GridLeaf(id, views, activeView, _) =>
      (match FrontOf(views, activeView)
       case None => Visited(None, [], fronts)
       case Some(front) =>
         Visited(Some(Pane(front)), Without(views, {front}), if id.Some? then fronts[id.value := front] else fronts))
    case GridBranch(children, _) =>
      var entries := VisitChildren(children, Crossed(orientation), fronts);
      Visited(if entries.panes == [] then None else Some(Split(orientation, entries.panes, entries.sizes)),
              entries.behind, entries.fronts)
  }

  function VisitChildren(children: seq<GridNode>, orientation: Orientation, fronts: map<string, TabId>): (r: Entries)
    ensures |r.panes| == |r.sizes| && AllSized(r.panes)
    decreases children, 0
  {
    if children == [] then Entries([], [], [], fronts)
    else
      var first := VisitGrid(children[0], orientation, fronts);
      var rest := VisitChildren(children[1..], orientation, first.fronts);
      var size := if children[0].size.Some? then children[0].size.value else 1.0;
      if first.pane.None? then rest.(behind := first.behind + rest.behind)
      else Entries([first.pane.value] + rest.panes, [size] + rest.sizes, first.behind + rest.behind, rest.fronts)
  }

  // The source's visit, which pushes the tabs behind and notes the front of
  // each group as it comes by them.
  class DockviewReader {
    var behind: seq<TabId>
    var frontByGroupId: map<string, TabId>

    constructor ()
      ensures behind == [] && frontByGroupId == map[]
    {
      behind, frontByGroupId := [], map[];
    }

    method Visit(node: GridNode, orientation: Orientation) returns (pane: Option<PaneNode>)
      modifies this
      ensures pane == VisitGrid(node, orientation, old(frontByGroupId)).pane
      ensures behind == old(behind) + VisitGrid(node, orientation, old(frontByGroupId)).behind
      ensures frontByGroupId == VisitGrid(node, orientation, old(frontByGroupId)).fronts
      decreases node, 1
    {
      match node {
        case GridOther(_) =>
          assert behind + [] == behind;
          pane := None;
        case GridLeaf(id, views, activeView, _) =>
          var front := FrontOf(views, activeView);
          if front.None? {
            assert behind + [] == behind;
            return None;
          }
          if id.Some? {
            frontByGroupId := frontByGroupId[id.value := front.value];
          }
          behind := behind + Without(views, {front.value});
          pane := Some(Pane(front.value));
        case GridBranch(children, _) =>
          ghost var entries := VisitChildren(children, Crossed(orientation), frontByGroupId);
          assert [] + entries.panes == entries.panes && [] + entries.sizes == entries.sizes;
          var panes, sizes := VisitAll(children, Crossed(orientation));
          pane := if panes == [] then None else Some(Split(orientation, panes, sizes));
      }
    }

    method VisitAll(children: seq<GridNode>, orientation: Orientation) returns (panes: seq<PaneNode>, sizes: seq<real>)
      modifies this
      ensures Entries(panes, sizes, behind, frontByGroupId)
           == After([], [], old(behind), VisitChildren(children, orientation, old(frontByGroupId)))
      decreases children, 0
    {
      panes, sizes := [], [];
      for i := 0 to |children|
        invariant After(panes, sizes, behind, VisitChildren(children[i..], orientation, frontByGroupId))
               == After([], [], old(behind), VisitChildren(children, orientation, old(frontByGroupId)))
      {
        assert children[i..][1..] == children[i + 1..];
        AfterFirst(panes, sizes, behind, children[i..], orientation, frontByGroupId);
        var visited := Visit(children[i], orientation);
        if visited.Some? {
          panes := panes + [visited.value];
          sizes := sizes + [if children[i].size.Some? then children[i].size.value else 1.0];
        }
      }
      assert panes + [] == panes && sizes + [] == sizes && behind + [] == behind;
    }
  }

  // What was gathered before the entries, and the entries.
  function After(panes: seq<PaneNode>, sizes: seq<real>, behind: seq<TabId>, rest: Entries): Entries {
    Entries(panes + rest.panes, sizes + rest.sizes, behind + rest.behind, rest.fronts)
  }

  lemma AfterFirst(panes: seq<PaneNode>, sizes: seq<real>, behind: seq<TabId>, children: seq<GridNode>,
          orientation: Orientation, fronts: map<string, TabId>)
    requires children != []
    ensures var first := VisitGrid(children[0], orientation, fronts);
            var rest := VisitChildren(children[1..], orientation, first.fronts);
            var size := if children[0].size.Some? then children[0].size.value else 1.0;
            After(panes, sizes, behind, VisitChildren(children, orientation, fronts))
            == if first.pane.Some? then After(panes + [first.pane.value], sizes + [size], behind + first.behind, rest)
               else After(panes, sizes, behind + first.behind, rest)
  {
    var first := VisitGrid(children[0], orientation, fronts);
    var rest := VisitChildren(children[1..], orientation, first.fronts);
    Associates(behind, first.behind, rest.behind);
    if first.pane.Some? {
      Associates(panes, [first.pane.value], rest.panes);
      Associates(sizes, [if children[0].size.Some? then children[0].size.value else 1.0], rest.sizes);
    }
  }

  function Leaves(tabIds: seq<TabId>): (r: seq<ReadGroup>)
    ensures forall g :: g in r ==> Sized(g.root)
  {
    if tabIds == [] then [] else [ReadGroup(Pane(tabIds[0]), Some(tabIds[0]), None)] + Leaves(tabIds[1..])
  }

  // The front tabs of the grid make up one tree, and every other view of it a
  // group.
  function ReadDockviewLayout(root: GridNode, orientation: Orientation,
          activeGroup: Option<string>): (r: seq<ReadGroup>)
    ensures forall g :: g in r ==> Sized(g.root)
  {
    var visited := VisitGrid(root, orientation, map[]);
    match visited.pane
    case None => []
    case Some(pane) =>
      SizedHasPanes(pane);
      NormalizedIsCanonical(pane);
      var front := Normalized(pane);
      CanonicalIsSized(front);
      CanonicalHasPanes(front);
      var active := if activeGroup.Some? && activeGroup.value in visited.fronts then visited.fronts[activeGroup.value]
                    else PaneIds(front)[0];
      [ReadGroup(front, Some(active), None)] + Leaves(visited.behind)
  }

  // ----- restoring -----

  // One group without the panes whose tab was not restored or sits in an
  // earlier group already.
  function RestoredFrom(group: ReadGroup, known: set<TabId>, seen: set<TabId>): (r: seq<RestoredGroup>)
    requires Sized(group.root)
    ensures |r| <= 1
  {
    var dropped := Without(PaneIds(group.root), known - seen);
    RemovePanesKeepsTheRest(group.root, ToSet(dropped));
    SizedHasPanes(group.root);
    var kept := if dropped != [] then RemovePanes(group.root, ToSet(dropped)) else Some(group.root);
    match kept
    case None => []
    case Some(root) =>
      var paneIds := PaneIds(root);
      [RestoredGroup(
         Normalized(root),
         if group.activeTabId.Some? && group.activeTabId.value in paneIds then group.activeTabId.value else paneIds[0],
         if group.zoomedTabId.Some? && group.zoomedTabId.value in paneIds then group.zoomedTabId else None)]
  }

  function RestoredAll(groups: seq<ReadGroup>, known: set<TabId>, seen: set<TabId>): seq<RestoredGroup>
    requires forall g :: g in groups ==> Sized(g.root)
  {
    if groups == [] then []
    else
      var first := RestoredFrom(groups[0], known, seen);
      first + RestoredAll(groups[1..], known, SeenAfter(first, seen))
  }

  function SeenAfter(restored: seq<RestoredGroup>, seen: set<TabId>): set<TabId> {
    if restored == [] then seen else seen + ToSet(PaneIds(restored[0].root))
  }

  lemma RestoredAllStep(groups: seq<ReadGroup>, k: nat, known: set<TabId>, seen: set<TabId>)
    requires k < |groups| && forall g :: g in groups ==> Sized(g.root)
    ensures var first := RestoredFrom(groups[k], known, seen);
      RestoredAll(groups[k..], known, seen) == first + RestoredAll(groups[k + 1..], known, SeenAfter(first, seen))
  {
    assert groups[k..][0] == groups[k] && groups[k..][1..] == groups[k + 1..];
  }

  function SmallestIndex(ids: seq<TabId>, tabIds: seq<TabId>): int {
    if |ids| <= 1 then (if ids == [] then 0 else IndexOf(tabIds, ids[0]))
    else
      var first, rest := IndexOf(tabIds, ids[0]), SmallestIndex(ids[1..], tabIds);
      if first <= rest then first else rest
  }

  // Where in the tab list the group's first tab stands.
  function Position(group: RestoredGroup, tabIds: seq<TabId>): int {
    SmallestIndex(PaneIds(group.root), tabIds)
  }

  // Array.sort keeps groups of equal position in their order.
  function InsertByPosition(group: RestoredGroup, sorted: seq<RestoredGroup>, tabIds: seq<TabId>): seq<RestoredGroup> {
    if sorted == [] || Position(group, tabIds) <= Position(sorted[0], tabIds) then [group] + sorted
    else [sorted[0]] + InsertByPosition(group, sorted[1..], tabIds)
  }

  function SortByPosition(groups: seq<RestoredGroup>, tabIds: seq<TabId>): seq<RestoredGroup> {
    if groups == [] then [] else InsertByPosition(groups[0], SortByPosition(groups[1..], tabIds), tabIds)
  }

  // Both formats restored. Groups read from a grid are sorted as their tabs are.
  function RestoreTabGroups(layout: SavedLayout, tabIds: seq<TabId>): seq<RestoredGroup> {
    match layout
    case NoLayout => []
    case CurrentLayout(groups) => RestoredAll(ReadSavedGroups(groups), ToSet(tabIds), {})
    case DockviewLayout(root, orientation, activeGroup) =>
      SortByPosition(RestoredAll(ReadDockviewLayout(root, orientation, activeGroup), ToSet(tabIds), {}), tabIds)
  }

  // The source's loop over the saved groups, which grows the set of panes seen.
  method RestoreGroups(groups: seq<ReadGroup>, known: set<TabId>) returns (r: seq<RestoredGroup>)
    requires forall g :: g in groups ==> Sized(g.root)
    ensures r == RestoredAll(groups, known, {})
  {
    var seen: set<TabId> := {};
    r := [];
    for k := 0 to |groups|
      invariant r + RestoredAll(groups[k..], known, seen) == RestoredAll(groups, known, {})
    {
      RestoredAllStep(groups, k, known, seen);
      var restored := RestoredFrom(groups[k], known, seen);
      seen := SeenAfter(restored, seen);
      Associates(r, restored, RestoredAll(groups[k + 1..], known, seen));
      r := r + restored;
    }
    assert r + [] == r;
  }

  // ----- whatever was saved, what is restored is in good shape -----

  predicate RestoredOk(group: RestoredGroup) {
    && Canonical(group.root)
    && group.activeTabId in PaneIds(group.root)
    && (group.zoomedTabId.Some? ==> group.zoomedTabId.value in PaneIds(group.root))
  }

  lemma RestoredFromIsOk(group: ReadGroup, known: set<TabId>, seen: set<TabId>)
    requires Sized(group.root)
    ensures forall g :: g in RestoredFrom(group, known, seen) ==>
      RestoredOk(g) && forall id :: id in PaneIds(g.root) ==> id in known && id !in seen
  {
    var ids := PaneIds(group.root);
    var dropped := Without(ids, known - seen);
    RemovePanesKeepsTheRest(group.root, ToSet(dropped));
    WithoutMembers(ids, known - seen);
    WithoutMembers(ids, ToSet(dropped));
    var kept := if dropped != [] then RemovePanes(group.root, ToSet(dropped)) else Some(group.root);
    if kept.Some? {
      var root := kept.value;
      if dropped != [] {
        CanonicalHasPanes(root);
      } else {
        SizedHasPanes(root);
        assert forall id :: id in ids && id !in known - seen ==> id in dropped;
      }
      NormalizedIsCanonical(root);
    }
  }

  lemma {:induction false} RestoredAllAreOk(groups: seq<ReadGroup>, known: set<TabId>, seen: set<TabId>)
    requires forall g :: g in groups ==> Sized(g.root)
    ensures forall g :: g in RestoredAll(groups, known, seen) ==> RestoredOk(g)
  {
    if groups != [] {
      RestoredFromIsOk(groups[0], known, seen);
      var first := RestoredFrom(groups[0], known, seen);
      RestoredAllAreOk(groups[1..], known, SeenAfter(first, seen));
    }
  }

  lemma {:induction false} SortKeepsGroups(groups: seq<RestoredGroup>, tabIds: seq<TabId>)
    ensures multiset(SortByPosition(groups, tabIds)) == multiset(groups)
  {
    if groups != [] {
      SortKeepsGroups(groups[1..], tabIds);
      InsertKeepsGroups(groups[0], SortByPosition(groups[1..], tabIds), tabIds);
      assert groups == [groups[0]] + groups[1..];
    }
  }

  lemma {:induction false} InsertKeepsGroups(group: RestoredGroup, sorted: seq<RestoredGroup>, tabIds: seq<TabId>)
    ensures multiset(InsertByPosition(group, sorted, tabIds)) == multiset(sorted) + multiset{group}
  {
    if sorted != [] {
      InsertKeepsGroups(group, sorted[1..], tabIds);
      assert sorted == [sorted[0]] + sorted[1..];
    }
  }

  ghost predicate InTabOrder(groups: seq<RestoredGroup>, tabIds: seq<TabId>) {
    forall i, j :: 0 <= i < j < |groups| ==> Position(groups[i], tabIds) <= Position(groups[j], tabIds)
  }

  lemma {:induction false} InsertKeepsTabOrder(group: RestoredGroup, sorted: seq<RestoredGroup>, tabIds: seq<TabId>)
    requires InTabOrder(sorted, tabIds)
    ensures InTabOrder(InsertByPosition(group, sorted, tabIds), tabIds)
  {
    if sorted != [] && Position(group, tabIds) > Position(sorted[0], tabIds) {
      InsertKeepsTabOrder(group, sorted[1..], tabIds);
      InsertKeepsGroups(group, sorted[1..], tabIds);
      var rest := InsertByPosition(group, sorted[1..], tabIds);
      forall j | 0 <= j < |rest| ensures Position(sorted[0], tabIds) <= Position(rest[j], tabIds) {
        assert rest[j] in multiset(rest);
        assert rest[j] == group || rest[j] in multiset(sorted[1..]);
      }
    }
  }

  lemma {:induction false} SortedInTabOrder(groups: seq<RestoredGroup>, tabIds: seq<TabId>)
    ensures InTabOrder(SortByPosition(groups, tabIds), tabIds)
  {
    if groups != [] {
      SortedInTabOrder(groups[1..], tabIds);
      InsertKeepsTabOrder(groups[0], SortByPosition(groups[1..], tabIds), tabIds);
    }
  }

  // Any layout at all gives canonical trees, whose active and zoomed panes are
  // theirs; a Dockview one in the tabs' order.
  lemma RestoredGroupsAreOk(layout: SavedLayout, tabIds: seq<TabId>)
    ensures forall g :: g in RestoreTabGroups(layout, tabIds) ==> RestoredOk(g)
    ensures layout.DockviewLayout? ==> InTabOrder(RestoreTabGroups(layout, tabIds), tabIds)
  {
    match layout
    case NoLayout =>
    case CurrentLayout(groups) => RestoredAllAreOk(ReadSavedGroups(groups), ToSet(tabIds), {});
    case DockviewLayout(root, orientation, activeGroup) =>
      var read := ReadDockviewLayout(root, orientation, activeGroup);
      var restored := RestoredAll(read, ToSet(tabIds), {});
      RestoredAllAreOk(read, ToSet(tabIds), {});
      SortKeepsGroups(restored, tabIds);
      SortedInTabOrder(restored, tabIds);
      var sorted := SortByPosition(restored, tabIds);
      forall g | g in sorted ensures g in restored {
        assert g in multiset(sorted);
        assert g in multiset(restored);
      }
  }

  // ----- Dockview: every view once -----

  // Every tab of the grid, stack by stack.
  function Views(node: GridNode): seq<TabId>
    decreases node, 1
  {
    match node
    case GridOther(_) => []
    case GridLeaf(_, views, _, _) => views
    case GridBranch(children, _) => ViewsOf(children)
  }

  function ViewsOf(children: seq<GridNode>): seq<TabId>
    decreases children, 0
  {
    if children == [] then [] else Views(children[0]) + ViewsOf(children[1..])
  }

  function PanesOf(pane: Option<PaneNode>): seq<TabId> {
    if pane.Some? then PaneIds(pane.value) else []
  }

  lemma {:induction false} VisitGridKeepsViews(node: GridNode, orientation: Orientation, fronts: map<string, TabId>)
    requires Distinct(Views(node))
    ensures var r := VisitGrid(node, orientation, fronts);
      multiset(PanesOf(r.pane)) + multiset(r.behind) == multiset(Views(node))
    decreases node, 1
  {
    match node
    case GridOther(_) =>
    case GridLeaf(_, views, activeView, _) =>
      var front := FrontOf(views, activeView);
      if front.Some? {
        assert ToSet([front.value]) == {front.value};
        WithoutAPart(views, [front.value]);
      }
    case GridBranch(children, _) =>
      VisitChildrenKeepViews(children, Crossed(orientation), fronts);
  }

  lemma {:induction false} VisitChildrenKeepViews(children: seq<GridNode>, orientation: Orientation,
          fronts: map<string, TabId>)
    requires Distinct(ViewsOf(children))
    ensures var r := VisitChildren(children, orientation, fronts);
      multiset(PaneIdsOf(r.panes)) + multiset(r.behind) == multiset(ViewsOf(children))
    decreases children, 0
  {
    if children != [] {
      DistinctAppend(Views(children[0]), ViewsOf(children[1..]));
      var first := VisitGrid(children[0], orientation, fronts);
      VisitGridKeepsViews(children[0], orientation, fronts);
      VisitChildrenKeepViews(children[1..], orientation, first.fronts);
    }
  }

  // The tabs of a grid whose stacks share none come out once each, in the
  // split or in groups of their own.
  lemma DockviewLosesNoTab(root: GridNode, orientation: Orientation, activeGroup: Option<string>)
    requires Distinct(Views(root)) && VisitGrid(root, orientation, map[]).pane.Some?
    ensures var r := ReadDockviewLayout(root, orientation, activeGroup);
      && r != []
      && Canonical(r[0].root)
      && multiset(PaneIds(r[0].root)) + multiset(LeafIds(r[1..])) == multiset(Views(root))
      && (forall g :: g in r[1..] ==> g.root.Pane?)
  {
    var visited := VisitGrid(root, orientation, map[]);
    VisitGridKeepsViews(root, orientation, map[]);
    SizedHasPanes(visited.pane.value);
    NormalizedIsCanonical(visited.pane.value);
    LeafIdsOfLeaves(visited.behind);
    var r := ReadDockviewLayout(root, orientation, activeGroup);
    assert r[1..] == Leaves(visited.behind);
  }

  function LeafIds(groups: seq<ReadGroup>): seq<TabId> {
    if groups == [] then [] else PaneIds(groups[0].root) + LeafIds(groups[1..])
  }

  lemma {:induction false} LeafIdsOfLeaves(tabIds: seq<TabId>)
    ensures LeafIds(Leaves(tabIds)) == tabIds
    ensures forall g :: g in Leaves(tabIds) ==> g.root.Pane?
  {
    if tabIds != [] {
      LeafIdsOfLeaves(tabIds[1..]);
      assert [tabIds[0]] + tabIds[1..] == tabIds;
    }
  }

  // ----- saving and restoring undo each other -----

  lemma {:induction false} ReadOfSaved(node: PaneNode)
    requires Canonical(node)
    ensures ReadPaneNode(RawOf(node)) == Some(node)
    decreases node, 1
  {
    if node.Split? {
      ReadAllOfSaved(node.orientation, node.children);
      UsableSizesOfSaved(node.sizes);
    }
  }

  lemma {:induction false} ReadAllOfSaved(orientation: Orientation, children: seq<PaneNode>)
    requires AllCanonical(orientation, children)
    ensures ReadPaneNodes(RawOfAll(children)) == Some(children)
    decreases children, 0
  {
    if children != [] {
      ReadOfSaved(children[0]);
      ReadAllOfSaved(orientation, children[1..]);
      assert [children[0]] + children[1..] == children;
    }
  }

  function AsRead(groups: seq<RestoredGroup>): (r: seq<ReadGroup>)
    ensures |r| == |groups|
  {
    if groups == [] then []
    else [ReadGroup(groups[0].root, Some(groups[0].activeTabId), groups[0].zoomedTabId)] + AsRead(groups[1..])
  }

  lemma {:induction false} ReadGroupsOfSaved(groups: seq<RestoredGroup>)
    requires forall g :: g in groups ==> Canonical(g.root)
    ensures ReadSavedGroups(Serialized(groups)) == AsRead(groups)
  {
    if groups != [] {
      ReadOfSaved(groups[0].root);
      ReadGroupsOfSaved(groups[1..]);
      assert Serialized(groups)[1..] == Serialized(groups[1..]);
    }
  }

  function OrderOf(groups: seq<RestoredGroup>): seq<TabId> {
    if groups == [] then [] else PaneIds(groups[0].root) + OrderOf(groups[1..])
  }

  // Groups that share no tab and hold only known ones are restored as they are.
  lemma {:induction false} RestoredAsRead(groups: seq<RestoredGroup>, known: set<TabId>, seen: set<TabId>)
    requires forall g :: g in groups ==> RestoredOk(g)
    requires Distinct(OrderOf(groups)) && forall id :: id in OrderOf(groups) ==> id in known && id !in seen
    ensures (forall g :: g in AsRead(groups) ==> Sized(g.root))
    ensures RestoredAll(AsRead(groups), known, seen) == groups
  {
    if groups != [] {
      var first := groups[0];
      var ids := PaneIds(first.root);
      assert RestoredOk(first);
      CanonicalIsSized(first.root);
      DistinctAppend(ids, OrderOf(groups[1..]));
      WithoutAll(ids, known - seen);
      NormalizedKeepsCanonical(first.root);
      RestoredAsRead(groups[1..], known, seen + ToSet(ids));
      assert RestoredFrom(AsRead(groups)[0], known, seen) == [first];
      assert groups == [first] + groups[1..];
    }
  }

  lemma SavedRootKeepsSaved(group: TabGroup, saved: set<TabId>)
    requires GroupOk(group) && Sized(group.root)
    ensures var kept := Without(Panes(group), ToSet(Panes(group)) - saved);
      match SavedRoot(group, saved)
      case None => kept == []
      case Some(root) => Canonical(root) && PaneIds(root) == kept
  {
    var ids := Panes(group);
    var unsaved := Without(ids, saved);
    WithoutMembers(ids, saved);
    if unsaved == [] {
      assert forall id :: id in ids && id !in saved ==> id in unsaved;
      WithoutNothing(ids, ToSet(ids) - saved);
    } else {
      RemovePanesKeepsTheRest(group.root, ToSet(unsaved));
      assert ToSet(unsaved) == ToSet(ids) - saved;
    }
  }

  lemma SavedGroupIsOk(group: TabGroup, saved: set<TabId>)
    requires GroupOk(group) && Sized(group.root)
    ensures var r := SavedGroup(group, saved);
      && (forall g :: g in r ==> RestoredOk(g))
      && OrderOf(r) == Without(Panes(group), ToSet(Panes(group)) - saved)
  {
    SavedRootKeepsSaved(group, saved);
    SizedHasPanes(group.root);
    RemovePanesKeepsTheRest(group.root, ToSet(Without(Panes(group), saved)));
    var r := SavedGroup(group, saved);
    if r != [] {
      assert r[1..] == [] && OrderOf(r) == PaneIds(r[0].root) + [];
    }
  }

  lemma {:induction false} OrderOfAppend(a: seq<RestoredGroup>, b: seq<RestoredGroup>)
    ensures OrderOf(a + b) == OrderOf(a) + OrderOf(b)
  {
    if a == [] {
      assert a + b == b;
    } else {
      OrderOfAppend(a[1..], b);
      assert (a + b)[1..] == a[1..] + b;
      Associates(PaneIds(a[0].root), OrderOf(a[1..]), OrderOf(b));
    }
  }

  lemma {:induction false} SavedGroupsAreOk(groups: seq<TabGroup>, groupCount: nat, saved: set<TabId>)
    requires GroupsOk(groups, groupCount) && RootsOk(groups) && Distinct(Order(groups))
    ensures var r := SavedGroups(groups, saved);
      && (forall g :: g in r ==> RestoredOk(g))
      && Distinct(OrderOf(r))
      && forall id :: id in OrderOf(r) <==> id in Order(groups) && id in saved
  {
    if groups != [] {
      var ids, rest := Panes(groups[0]), SavedGroups(groups[1..], saved);
      assert groups == [groups[0]] + groups[1..];
      GroupsOkApart(groups[0], groups[1..], groupCount);
      DistinctAppend(ids, Order(groups[1..]));
      SavedGroupIsOk(groups[0], saved);
      SavedGroupsAreOk(groups[1..], groupCount, saved);
      OrderOfAppend(SavedGroup(groups[0], saved), rest);
      WithoutDistinct(ids, ToSet(ids) - saved);
      WithoutMembers(ids, ToSet(ids) - saved);
      DistinctAppend(Without(ids, ToSet(ids) - saved), OrderOf(rest));
    }
  }

  // Restoring what was saved, for the tabs saved with it, gives exactly the
  // groups that were saved: trees, active panes and zooms.
  lemma RestoreOfSerialized(groups: seq<TabGroup>, groupCount: nat, saved: set<TabId>, tabIds: seq<TabId>)
    requires GroupsOk(groups, groupCount) && RootsOk(groups) && Distinct(Order(groups))
    requires forall id :: id in Order(groups) && id in saved ==> id in tabIds
    ensures RestoreTabGroups(SerializeTabGroups(groups, saved), tabIds) == SavedGroups(groups, saved)
  {
    var kept := SavedGroups(groups, saved);
    SavedGroupsAreOk(groups, groupCount, saved);
    ReadGroupsOfSaved(kept);
    RestoredAsRead(kept, ToSet(tabIds), {});
  }

  function Unnumbered(groups: seq<TabGroup>): (r: seq<RestoredGroup>)
    ensures |r| == |groups|
  {
    if groups == [] then []
    else [RestoredGroup(groups[0].root, groups[0].activeTabId, groups[0].zoomedTabId)] + Unnumbered(groups[1..])
  }

  // With every tab saved, nothing is left out.
  lemma {:induction false} SavedGroupsWhole(groups: seq<TabGroup>, groupCount: nat, saved: set<TabId>)
    requires GroupsOk(groups, groupCount) && RootsOk(groups)
    requires forall id :: id in Order(groups) ==> id in saved
    ensures SavedGroups(groups, saved) == Unnumbered(groups)
  {
    if groups != [] {
      assert GroupOk(groups[0]);
      CanonicalHasPanes(groups[0].root);
      WithoutAll(Panes(groups[0]), saved);
      SavedGroupsWhole(groups[1..], groupCount, saved);
    }
  }
}
