// Moving the focus to a neighbouring pane by keyboard
// (src/lib/paneNavigation.ts).
module PaneNavigation {
  import opened Sequences
  import opened PaneTrees
  import opened PaneLayout
  import opened PanePixels

  datatype PaneDirection = GoLeft | GoRight | GoUp | GoDown

  // A rectangle on screen that stands for one pane.
  datatype PaneRect = PaneRect(id: TabId, left: int, top: int, right: int, bottom: int)

  const EDGE_TOLERANCE := 2

  predicate IsVisible(pane: PaneRect) {
    pane.right > pane.left && pane.bottom > pane.top
  }

  // How far `pane` lies beyond `active` in `direction`; it is on that side
  // when this is at least -EDGE_TOLERANCE.
  function DistanceBeyond(active: PaneRect, pane: PaneRect, direction: PaneDirection): int {
    match direction
    case GoLeft => active.left - pane.right
    case GoRight => pane.left - active.right
    case GoUp => active.top - pane.bottom
    case GoDown => pane.top - active.bottom
  }

  function Smaller(a: int, b: int): int {
    if a <= b then a else b
  }

  function Larger(a: int, b: int): int {
    if a >= b then a else b
  }

  // The length of the overlap of two panes, seen along `direction`.
  function SharedEdge(active: PaneRect, pane: PaneRect, direction: PaneDirection): int {
    if direction.GoLeft? || direction.GoRight?
    then Smaller(active.bottom, pane.bottom) - Larger(active.top, pane.top)
    else Smaller(active.right, pane.right) - Larger(active.left, pane.left)
  }

  datatype Candidate = Candidate(id: TabId, distance: int, shared: int)

  predicate IsCandidate(active: PaneRect, pane: PaneRect, direction: PaneDirection) {
    && IsVisible(pane)
    && pane.id != active.id
    && DistanceBeyond(active, pane, direction) >= -EDGE_TOLERANCE
    && SharedEdge(active, pane, direction) > 0
  }

  function AsCandidate(active: PaneRect, pane: PaneRect, direction: PaneDirection): Candidate {
    Candidate(pane.id, DistanceBeyond(active, pane, direction), SharedEdge(active, pane, direction))
  }

  function Candidates(panes: seq<PaneRect>, active: PaneRect, direction: PaneDirection): seq<Candidate> {
    if panes == [] then []
    else
      (if IsCandidate(active, panes[0], direction) then [AsCandidate(active, panes[0], direction)] else [])
      + Candidates(panes[1..], active, direction)
  }

  function Nearest(candidates: seq<Candidate>): int
    requires candidates != []
  {
    if |candidates| == 1 then candidates[0].distance
    else Smaller(candidates[0].distance, Nearest(candidates[1..]))
  }

  function CloseOnes(candidates: seq<Candidate>, nearest: int): seq<Candidate> {
    if candidates == [] then []
    else
      (if candidates[0].distance - nearest <= EDGE_TOLERANCE then [candidates[0]] else [])
      + CloseOnes(candidates[1..], nearest)
  }

  // The place among the recent ids; the length of the list for one not in it.
  function Recency(recentIds: seq<TabId>, id: TabId): nat {
    var index := IndexOf(recentIds, id);
    if index == -1 then |recentIds| else index
  }

  // Sorted before: sharing more of the edge, then used more recently.
  predicate Before(a: Candidate, b: Candidate, recentIds: seq<TabId>) {
    a.shared > b.shared || (a.shared == b.shared && Recency(recentIds, a.id) < Recency(recentIds, b.id))
  }

  // The first candidate of a stable sort.
  function First(candidates: seq<Candidate>, recentIds: seq<TabId>): Candidate
    requires candidates != []
  {
    if |candidates| == 1 then candidates[0]
    else
      var rest := First(candidates[1..], recentIds);
      if Before(rest, candidates[0], recentIds) then rest else candidates[0]
  }

  // panes.filter(isVisible).find((pane) => pane.id === id)
  function VisiblePane(panes: seq<PaneRect>, id: TabId): (r: Option<PaneRect>)
    ensures r.Some? ==> r.value in panes && IsVisible(r.value) && r.value.id == id
    ensures r.None? ==> forall pane :: pane in panes && IsVisible(pane) ==> pane.id != id
  {
    if panes == [] then None
    else if IsVisible(panes[0]) && panes[0].id == id then Some(panes[0])
    else VisiblePane(panes[1..], id)
  }

  lemma {:induction false} CandidateFor(panes: seq<PaneRect>, active: PaneRect, direction: PaneDirection,
          pane: PaneRect)
    requires pane in panes && IsCandidate(active, pane, direction)
    ensures AsCandidate(active, pane, direction) in Candidates(panes, active, direction)
  {
    if panes[0] != pane {
      CandidateFor(panes[1..], active, direction, pane);
    }
  }

  lemma {:induction false} PaneFor(panes: seq<PaneRect>, active: PaneRect, direction: PaneDirection, c: Candidate)
    returns (pane: PaneRect)
    requires c in Candidates(panes, active, direction)
    ensures pane in panes && IsCandidate(active, pane, direction) && c == AsCandidate(active, pane, direction)
  {
    if IsCandidate(active, panes[0], direction) && c == AsCandidate(active, panes[0], direction) {
      pane := panes[0];
    } else {
      pane := PaneFor(panes[1..], active, direction, c);
    }
  }

  lemma {:induction false} NearestIsLeast(candidates: seq<Candidate>)
    requires candidates != []
    ensures forall c :: c in candidates ==> Nearest(candidates) <= c.distance
    ensures exists c :: c in candidates && c.distance == Nearest(candidates)
  {
    assert candidates[0] in candidates;
    if |candidates| > 1 {
      NearestIsLeast(candidates[1..]);
      assert candidates == [candidates[0]] + candidates[1..];
    }
  }

  lemma {:induction false} CloseOnesAre(candidates: seq<Candidate>, nearest: int)
    ensures forall c :: c in CloseOnes(candidates, nearest) <==>
              c in candidates && c.distance - nearest <= EDGE_TOLERANCE
  {
    if candidates != [] {
      CloseOnesAre(candidates[1..], nearest);
      assert candidates == [candidates[0]] + candidates[1..];
    }
  }

  lemma {:induction false} FirstIsBest(candidates: seq<Candidate>, recentIds: seq<TabId>)
    requires candidates != []
    ensures First(candidates, recentIds) in candidates
    ensures forall c :: c in candidates ==> !Before(c, First(candidates, recentIds), recentIds)
  {
    if |candidates| > 1 {
      FirstIsBest(candidates[1..], recentIds);
      assert candidates == [candidates[0]] + candidates[1..];
    }
  }

  // The best of all candidates on that side, or none at the edge.
  function FindPaneInDirection(panes: seq<PaneRect>, activeId: Option<TabId>, direction: PaneDirection,
          recentIds: seq<TabId>): Option<TabId> {
    if activeId.None? then None
    else
      match VisiblePane(panes, activeId.value)
      case None => None
      case Some(active) =>
        var candidates := Candidates(panes, active, direction);
        if candidates == [] then None
        else
          CloseOnesExist(candidates);
          Some(First(CloseOnes(candidates, Nearest(candidates)), recentIds).id)
  }

  lemma CloseOnesExist(candidates: seq<Candidate>)
    requires candidates != []
    ensures CloseOnes(candidates, Nearest(candidates)) != []
  {
    NearestIsLeast(candidates);
    CloseOnesAre(candidates, Nearest(candidates));
    var least :| least in candidates && least.distance == Nearest(candidates);
    assert least in CloseOnes(candidates, Nearest(candidates));
  }

  // On that side, sharing the edge; and of those about as near as the
  // nearest, none shares more of the edge, and none that shares as much was
  // used more recently.
  ghost predicate IsBest(panes: seq<PaneRect>, active: PaneRect, direction: PaneDirection, recentIds: seq<TabId>,
          found: PaneRect) {
    && IsCandidate(active, found, direction)
    && IsNear(panes, active, direction, found)
    && forall pane ::
         pane in panes && IsCandidate(active, pane, direction) && IsNear(panes, active, direction, pane)
         ==> !Before(AsCandidate(active, pane, direction), AsCandidate(active, found, direction), recentIds)
  }

  // No candidate is nearer by more than the tolerance.
  ghost predicate IsNear(panes: seq<PaneRect>, active: PaneRect, direction: PaneDirection, pane: PaneRect) {
    forall other :: other in panes && IsCandidate(active, other, direction) ==>
      DistanceBeyond(active, pane, direction) <= DistanceBeyond(active, other, direction) + EDGE_TOLERANCE
  }

  lemma CloseMeansNear(panes: seq<PaneRect>, active: PaneRect, direction: PaneDirection, pane: PaneRect)
    requires pane in panes && IsCandidate(active, pane, direction)
    ensures var candidates := Candidates(panes, active, direction);
      && candidates != []
      && (AsCandidate(active, pane, direction) in CloseOnes(candidates, Nearest(candidates))
          <==> IsNear(panes, active, direction, pane))
  {
    var candidates := Candidates(panes, active, direction);
    var nearest := Nearest(candidates);
    CandidateFor(panes, active, direction, pane);
    NearestIsLeast(candidates);
    CloseOnesAre(candidates, nearest);
    var least :| least in candidates && least.distance == nearest;
    var leastPane := PaneFor(panes, active, direction, least);
    forall other | other in panes && IsCandidate(active, other, direction)
      ensures nearest <= DistanceBeyond(active, other, direction)
    {
      CandidateFor(panes, active, direction, other);
    }
  }

  // The best of the panes on that side is found, if there is one.
  lemma FoundPaneIsBest(panes: seq<PaneRect>, active: PaneRect, direction: PaneDirection, recentIds: seq<TabId>)
    requires VisiblePane(panes, active.id) == Some(active)
    ensures match FindPaneInDirection(panes, Some(active.id), direction, recentIds)
            case None => forall pane :: pane in panes ==> !IsCandidate(active, pane, direction)
            case Some(id) =>
              exists found ::
                && found in panes && found.id == id
                && IsBest(panes, active, direction, recentIds, found)
  {
    var candidates := Candidates(panes, active, direction);
    if candidates == [] {
      forall pane | pane in panes ensures !IsCandidate(active, pane, direction) {
        if IsCandidate(active, pane, direction) {
          CandidateFor(panes, active, direction, pane);
        }
      }
    } else {
      var found := BestPane(panes, active, direction, recentIds);
    }
  }

  lemma BestPane(panes: seq<PaneRect>, active: PaneRect, direction: PaneDirection, recentIds: seq<TabId>)
    returns (found: PaneRect)
    requires Candidates(panes, active, direction) != []
    ensures var candidates := Candidates(panes, active, direction);
      && CloseOnes(candidates, Nearest(candidates)) != []
      && found.id == First(CloseOnes(candidates, Nearest(candidates)), recentIds).id
    ensures found in panes && IsBest(panes, active, direction, recentIds, found)
  {
    var candidates := Candidates(panes, active, direction);
    var close := CloseOnes(candidates, Nearest(candidates));
    CloseOnesExist(candidates);
    CloseOnesAre(candidates, Nearest(candidates));
    FirstIsBest(close, recentIds);
    found := PaneFor(panes, active, direction, First(close, recentIds));
    CloseMeansNear(panes, active, direction, found);
    forall pane | pane in panes && IsCandidate(active, pane, direction) && IsNear(panes, active, direction, pane)
      ensures !Before(AsCandidate(active, pane, direction), AsCandidate(active, found, direction), recentIds)
    {
      CloseMeansNear(panes, active, direction, pane);
    }
  }

  // A pane counts as on a side when it starts at most two pixels before the
  // active one ends there and the two meet along that edge.
  lemma CandidatesAre(active: PaneRect, pane: PaneRect)
    ensures var shown := pane.left < pane.right && pane.top < pane.bottom && pane.id != active.id;
      var sameRows := pane.top < active.bottom && active.top < pane.bottom && active.top < active.bottom;
      var sameColumns := pane.left < active.right && active.left < pane.right && active.left < active.right;
      && (IsCandidate(active, pane, GoLeft) <==> shown && sameRows && pane.right <= active.left + 2)
      && (IsCandidate(active, pane, GoRight) <==> shown && sameRows && pane.left >= active.right - 2)
      && (IsCandidate(active, pane, GoUp) <==> shown && sameColumns && pane.bottom <= active.top + 2)
      && (IsCandidate(active, pane, GoDown) <==> shown && sameColumns && pane.top >= active.bottom - 2)
  {
  }

  // Both panes have the row, or the column, `k`.
  predicate BothHave(active: PaneRect, pane: PaneRect, direction: PaneDirection, k: int) {
    if direction == GoLeft || direction == GoRight
    then active.top <= k < active.bottom && pane.top <= k < pane.bottom
    else active.left <= k < active.right && pane.left <= k < pane.right
  }

  // The length two panes share is that of the rows, or columns, both have.
  lemma SharedEdgeIs(active: PaneRect, pane: PaneRect, direction: PaneDirection) returns (from: int)
    requires IsCandidate(active, pane, direction)
    ensures var length := SharedEdge(active, pane, direction);
      forall k :: BothHave(active, pane, direction, k) <==> from <= k < from + length
  {
    from := if direction == GoLeft || direction == GoRight then Larger(active.top, pane.top)
      else Larger(active.left, pane.left);
  }

  // ----- on a laid-out tree -----

  function RectOf(placed: PlacedBox): PaneRect {
    PaneRect(placed.tabId, placed.box.left, placed.box.top, placed.box.left + placed.box.width,
             placed.box.top + placed.box.height)
  }

  function RectsOf(placed: seq<PlacedBox>): (r: seq<PaneRect>)
    ensures |r| == |placed|
    ensures forall i :: 0 <= i < |placed| ==> r[i] == RectOf(placed[i])
  {
    seq(|placed|, i requires 0 <= i < |placed| => RectOf(placed[i]))
  }

  // Every pane is wider and higher than the gap and the tolerance.
  ghost predicate AllAmple(placed: seq<PlacedBox>, gap: nat) {
    forall i :: 0 <= i < |placed| ==>
      placed[i].box.width > gap && placed[i].box.width > EDGE_TOLERANCE && placed[i].box.height > gap
          && placed[i].box.height > EDGE_TOLERANCE
  }

  function AxisOf(direction: PaneDirection): Orientation {
    if direction.GoLeft? || direction.GoRight? then Horizontal else Vertical
  }

  predicate IsFar(direction: PaneDirection) {
    direction.GoRight? || direction.GoDown?
  }

  function Across(orientation: Orientation): Orientation {
    if orientation.Horizontal? then Vertical else Horizontal
  }

  // The box reaches the edge of the area in that direction.
  predicate Touches(box: PaneBox, area: PaneBox, axis: Orientation, far: bool) {
    if far then Limit(axis, box) == Limit(axis, area) else Start(axis, box) == Start(axis, area)
  }

  // The box has a pixel in the lines from `low` up to `high` across the axis.
  predicate Meets(box: PaneBox, axis: Orientation, low: int, high: int) {
    Start(Across(axis), box) < high && low < Limit(Across(axis), box)
  }

  lemma AmpleAppend(a: seq<PlacedBox>, b: seq<PlacedBox>, gap: nat)
    requires AllAmple(a + b, gap)
    ensures AllAmple(a, gap) && AllAmple(b, gap)
  {
    forall i | 0 <= i < |a| ensures a[i] == (a + b)[i] {
    }
    forall i | 0 <= i < |b| ensures b[i] == (a + b)[|a| + i] {
    }
  }

  // A stretch of lines too long for a gap, or at an end of the area.
  predicate Reaches(axis: Orientation, start: int, limit: int, gap: nat, low: int, high: int) {
    start <= low < high <= limit && (high - low > gap || low == start || high == limit)
  }

  lemma {:induction false} NeedsOne(node: PaneNode, orientation: Orientation, gap: nat)
    requires HasPanes(node)
    ensures MinimumExtent(node, orientation, PaneMinimum(1, 1), gap) >= 1
    decreases node, 1
  {
    if node.Split? {
      RowNeedsOne(node.children, orientation, gap);
    }
  }

  lemma {:induction false} RowNeedsOne(children: seq<PaneNode>, orientation: Orientation, gap: nat)
    requires children != [] && AllHavePanes(children)
    ensures TotalExtent(children, orientation, PaneMinimum(1, 1), gap) >= 1
    ensures WidestExtent(children, orientation, PaneMinimum(1, 1), gap) >= 1
    decreases children, 0
  {
    NeedsOne(children[0], orientation, gap);
    if |children| > 1 {
      RowNeedsOne(children[1..], orientation, gap);
    }
  }

  // With ample panes no child is empty.
  lemma AmpleIsNotEmpty(node: PaneNode, area: PaneBox, gap: nat, path: seq<int>)
    requires Sized(node) && HasPanes(node) && AllAmple(Layout(node, area, gap, path).panes, gap)
    ensures area.width >= 1 && area.height >= 1
  {
    MinimumExtentIsNeeded(node, Horizontal, PaneMinimum(1, 1), area, gap, path);
    MinimumExtentIsNeeded(node, Vertical, PaneMinimum(1, 1), area, gap, path);
    NeedsOne(node, Horizontal, gap);
    NeedsOne(node, Vertical, gap);
  }

  // Some pane at that edge of the area meets any stretch of lines that reaches.
  lemma {:induction false} PaneAtEdge(node: PaneNode, area: PaneBox, gap: nat, path: seq<int>, axis: Orientation,
          far: bool, low: int, high: int)
    returns (k: nat)
    requires Canonical(node) && Sized(node) && HasPanes(node) && HasRoom(node, area, gap)
    requires AllAmple(Layout(node, area, gap, path).panes, gap)
    requires Reaches(axis, Start(Across(axis), area), Limit(Across(axis), area), gap, low, high)
    ensures k < |Layout(node, area, gap, path).panes|
    ensures Touches(Layout(node, area, gap, path).panes[k].box, area, axis, far)
    ensures Meets(Layout(node, area, gap, path).panes[k].box, axis, low, high)
    decreases node, 1
  {
    if node.Pane? {
      k := 0;
    } else {
      var row := SplitRow(node.orientation, area, gap, |node.children|, path);
      var ends := RowIsReady(node, row);
      if node.orientation == axis {
        k := PaneAtRowEnd(row, node.children, ends, 0, Start(node.orientation, area), axis, far, low, high);
      } else {
        k := PaneAcrossRow(row, node.children, ends, 0, Start(node.orientation, area), axis, far, low, high);
      }
    }
  }

  // Along the axis: the first child, or the last one, is at the edge.
  lemma {:induction false} PaneAtRowEnd(row: SplitRow, children: seq<PaneNode>, ends: seq<int>, index: nat, edge: int,
                                        axis: Orientation, far: bool, low: int, high: int)
    returns (k: nat)
    requires |children| == |ends| && AllSized(children) && AllHavePanes(children)
             && AllCanonical(row.orientation, children)
    requires row.orientation == axis && InOrder(row, ends, edge) && ChildrenHaveRoom(row, children, ends, edge)
    requires AllAmple(LayoutRow(row, children, ends, index, edge).panes, row.gap)
    requires Reaches(axis, Start(Across(axis), row.area), Limit(Across(axis), row.area), row.gap, low, high)
    ensures var panes := LayoutRow(row, children, ends, index, edge).panes;
      && k < |panes| && Meets(panes[k].box, axis, low, high)
      && (if far then Limit(axis, panes[k].box) == Limit(axis, row.area) else Start(axis, panes[k].box) == edge)
    decreases children, 0
  {
    var area := Region(row.orientation, row.area, edge, ends[0] - edge);
    var first := Layout(children[0], area, row.gap, row.path + [index]);
    var rest := LayoutRow(row, children[1..], ends[1..], index + 1, ends[0] + row.gap);
    AmpleAppend(first.panes, rest.panes, row.gap);
    if far && |children| > 1 {
      k := PaneAtRowEnd(row, children[1..], ends[1..], index + 1, ends[0] + row.gap, axis, far, low, high);
      k := k + |first.panes|;
    } else {
      k := PaneAtEdge(children[0], area, row.gap, row.path + [index], axis, far, low, high);
    }
  }

  // Across the axis: one of the children meets the lines and reaches the edge.
  lemma {:induction false} PaneAcrossRow(row: SplitRow, children: seq<PaneNode>, ends: seq<int>, index: nat, edge: int,
                                         axis: Orientation, far: bool, low: int, high: int)
    returns (k: nat)
    requires |children| == |ends| && AllSized(children) && AllHavePanes(children)
             && AllCanonical(row.orientation, children)
    requires row.orientation == Across(axis) && InOrder(row, ends, edge) && ChildrenHaveRoom(row, children, ends, edge)
    requires AllAmple(LayoutRow(row, children, ends, index, edge).panes, row.gap)
    requires Reaches(axis, edge, Limit(row.orientation, row.area), row.gap, low, high)
    ensures var panes := LayoutRow(row, children, ends, index, edge).panes;
      && k < |panes| && Meets(panes[k].box, axis, low, high) && Touches(panes[k].box, row.area, axis, far)
    decreases children, 0
  {
    hide Layout;
    hide Canonical;
    hide HasRoom;
    var area := Region(row.orientation, row.area, edge, ends[0] - edge);
    var first := Layout(children[0], area, row.gap, row.path + [index]);
    var rest := LayoutRow(row, children[1..], ends[1..], index + 1, ends[0] + row.gap);
    AmpleAppend(first.panes, rest.panes, row.gap);
    FirstIsNotEmpty(row, children, ends, index, edge);
    if low < ends[0] {
      k := PaneAtEdge(children[0], area, row.gap, row.path + [index], axis, far, low, Smaller(high, ends[0]));
    } else {
      assert |children| > 1;
      FirstIsNotEmpty(row, children[1..], ends[1..], index + 1, ends[0] + row.gap);
      k := PaneAcrossRow(row, children[1..], ends[1..], index + 1, ends[0] + row.gap, axis, far,
                         Larger(low, ends[0] + row.gap), high);
      k := k + |first.panes|;
    }
  }

  lemma FirstIsNotEmpty(row: SplitRow, children: seq<PaneNode>, ends: seq<int>, index: nat, edge: int)
    requires children != [] && |children| == |ends| && AllSized(children) && AllHavePanes(children)
    requires AllAmple(LayoutRow(row, children, ends, index, edge).panes, row.gap)
    ensures edge < ends[0]
  {
    var area := Region(row.orientation, row.area, edge, ends[0] - edge);
    var first := Layout(children[0], area, row.gap, row.path + [index]);
    var rest := LayoutRow(row, children[1..], ends[1..], index + 1, ends[0] + row.gap);
    AmpleAppend(first.panes, rest.panes, row.gap);
    AmpleIsNotEmpty(children[0], area, row.gap, row.path + [index]);
  }

  // ----- the navigation theorem -----

  // The distance and the shared edge, in terms of the axis travelled along.
  lemma AlongTheAxis(active: PlacedBox, pane: PlacedBox, direction: PaneDirection)
    ensures var axis := AxisOf(direction);
      && DistanceBeyond(RectOf(active), RectOf(pane), direction)
         == (if IsFar(direction) then Start(axis, pane.box) - Limit(axis, active.box)
             else Start(axis, active.box) - Limit(axis, pane.box))
      && SharedEdge(RectOf(active), RectOf(pane), direction)
         == Smaller(Limit(Across(axis), active.box), Limit(Across(axis), pane.box))
            - Larger(Start(Across(axis), active.box), Start(Across(axis), pane.box))
  {
  }

  // Two boxes with a line in common and no pixel in common lie one after the other.
  lemma ApartMeansBeside(a: PaneBox, b: PaneBox, axis: Orientation)
    requires a.width > 0 && a.height > 0 && b.width > 0 && b.height > 0
    requires forall x, y :: Inside(a, x, y) ==> !Inside(b, x, y)
    requires Meets(b, axis, Start(Across(axis), a), Limit(Across(axis), a))
    ensures Limit(axis, a) <= Start(axis, b) || Limit(axis, b) <= Start(axis, a)
  {
    var along := Larger(Start(axis, a), Start(axis, b));
    var across := Larger(Start(Across(axis), a), Start(Across(axis), b));
    var x, y := if axis.Horizontal? then along else across, if axis.Horizontal? then across else along;
    if !(Limit(axis, a) <= Start(axis, b) || Limit(axis, b) <= Start(axis, a)) {
      assert Inside(a, x, y) && Inside(b, x, y);
    }
  }

  // A tree laid out with ample panes.
  ghost predicate LaidOutAmply(node: PaneNode, area: PaneBox, gap: nat) {
    && Canonical(node) && Sized(node) && HasPanes(node) && Distinct(PaneIds(node)) && HasRoom(node, area, gap)
    && AllAmple(Layout(node, area, gap, []).panes, gap)
  }

  lemma PanesHaveDistinctIds(node: PaneNode, area: PaneBox, gap: nat, i: nat, j: nat)
    requires LaidOutAmply(node, area, gap)
    requires i < |Layout(node, area, gap, []).panes| && j < |Layout(node, area, gap, []).panes| && i != j
    ensures Layout(node, area, gap, []).panes[i].tabId != Layout(node, area, gap, []).panes[j].tabId
  {
    LayoutKeepsOrder(node, area, gap, []);
    var ids := LaidIds(Layout(node, area, gap, []).panes);
    assert ids[i] != ids[j];
  }

  lemma ActiveIsFound(node: PaneNode, area: PaneBox, gap: nat, k: nat)
    requires LaidOutAmply(node, area, gap) && k < |Layout(node, area, gap, []).panes|
    ensures var panes := Layout(node, area, gap, []).panes;
      VisiblePane(RectsOf(panes), panes[k].tabId) == Some(RectOf(panes[k]))
  {
    var panes := Layout(node, area, gap, []).panes;
    var rects := RectsOf(panes);
    assert rects[k] in rects && IsVisible(rects[k]);
    var found := VisiblePane(rects, panes[k].tabId);
    var j :| 0 <= j < |rects| && rects[j] == found.value;
    if j != k {
      PanesHaveDistinctIds(node, area, gap, j, k);
    }
  }

  // A pane at the edge has no pane beyond it.
  lemma NothingBeyondTheEdge(node: PaneNode, area: PaneBox, gap: nat, k: nat, j: nat, direction: PaneDirection)
    requires LaidOutAmply(node, area, gap)
    requires k < |Layout(node, area, gap, []).panes| && j < |Layout(node, area, gap, []).panes|
    requires Touches(Layout(node, area, gap, []).panes[k].box, area, AxisOf(direction), IsFar(direction))
    ensures var panes := Layout(node, area, gap, []).panes;
      !IsCandidate(RectOf(panes[k]), RectOf(panes[j]), direction)
  {
    var panes := Layout(node, area, gap, []).panes;
    PanesAreWithin(node, area, gap, j);
    AlongTheAxis(panes[k], panes[j], direction);
  }

  // A pane that is not at the edge has one beyond it.
  lemma SomethingBeyond(node: PaneNode, area: PaneBox, gap: nat, k: nat, direction: PaneDirection) returns (j: nat)
    requires LaidOutAmply(node, area, gap) && k < |Layout(node, area, gap, []).panes|
    requires !Touches(Layout(node, area, gap, []).panes[k].box, area, AxisOf(direction), IsFar(direction))
    ensures j < |Layout(node, area, gap, []).panes|
    ensures var panes := Layout(node, area, gap, []).panes;
      IsCandidate(RectOf(panes[k]), RectOf(panes[j]), direction)
  {
    var panes, axis, far := Layout(node, area, gap, []).panes, AxisOf(direction), IsFar(direction);
    var active := panes[k].box;
    var low, high := Start(Across(axis), active), Limit(Across(axis), active);
    PanesAreWithin(node, area, gap, k);
    j := PaneAtEdge(node, area, gap, [], axis, far, low, high);
    PanesAreWithin(node, area, gap, j);
    forall x, y | Inside(active, x, y) ensures !Inside(panes[j].box, x, y) {
      PanesAreApart(node, area, gap, k, j, x, y);
    }
    ApartMeansBeside(active, panes[j].box, axis);
    PanesHaveDistinctIds(node, area, gap, k, j);
    AlongTheAxis(panes[k], panes[j], direction);
  }

  // The focus moves to another pane exactly when the active one is not at
  // the edge of the workspace on that side.
  lemma NavigationStopsAtTheEdge(node: PaneNode, area: PaneBox, gap: nat, k: nat, direction: PaneDirection,
          recentIds: seq<TabId>)
    requires LaidOutAmply(node, area, gap) && k < |Layout(node, area, gap, []).panes|
    ensures var panes := Layout(node, area, gap, []).panes;
      FindPaneInDirection(RectsOf(panes), Some(panes[k].tabId), direction, recentIds).Some?
      <==> !Touches(panes[k].box, area, AxisOf(direction), IsFar(direction))
  {
    var panes := Layout(node, area, gap, []).panes;
    var rects, active := RectsOf(panes), RectOf(panes[k]);
    ActiveIsFound(node, area, gap, k);
    FoundPaneIsBest(rects, active, direction, recentIds);
    if !Touches(panes[k].box, area, AxisOf(direction), IsFar(direction)) {
      var j := SomethingBeyond(node, area, gap, k, direction);
      assert rects[j] in rects;
    } else {
      forall pane | pane in rects ensures !IsCandidate(active, pane, direction) {
        var j :| 0 <= j < |rects| && rects[j] == pane;
        NothingBeyondTheEdge(node, area, gap, k, j, direction);
      }
    }
  }
}
