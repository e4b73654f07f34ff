// How the pixel boxes of src/lib/paneLayout.ts relate to each other and to
// the exact rectangles of the tree.
module PanePixels {
  import opened Sequences
  import opened PaneTrees
  import opened PaneGeometry
  import opened PaneLayout

  // ----- panes lie inside the area, and apart -----

  lemma {:induction false} OneAt(placed: seq<PlacedBox>, i: nat, x: int, y: int)
    requires i < |placed| && Inside(placed[i].box, x, y)
    ensures PanesAt(placed, x, y) >= 1
  {
    if i > 0 {
      OneAt(placed[1..], i - 1, x, y);
    }
  }

  lemma {:induction false} TwoAt(placed: seq<PlacedBox>, i: nat, j: nat, x: int, y: int)
    requires i < j < |placed| && Inside(placed[i].box, x, y) && Inside(placed[j].box, x, y)
    ensures PanesAt(placed, x, y) >= 2
  {
    if i == 0 {
      OneAt(placed[1..], j - 1, x, y);
    } else {
      TwoAt(placed[1..], i - 1, j - 1, x, y);
    }
  }

  // No pixel belongs to two panes.
  lemma PanesAreApart(node: PaneNode, area: PaneBox, gap: nat, i: nat, j: nat, x: int, y: int)
    requires Canonical(node) && Sized(node) && HasRoom(node, area, gap)
    requires var panes := Layout(node, area, gap, []).panes;
      i < |panes| && j < |panes| && i != j && Inside(panes[i].box, x, y)
    ensures !Inside(Layout(node, area, gap, []).panes[j].box, x, y)
  {
    var panes := Layout(node, area, gap, []).panes;
    LayoutTiles(node, area, gap, [], x, y);
    if Inside(panes[j].box, x, y) {
      TwoAt(panes, if i < j then i else j, if i < j then j else i, x, y);
    }
  }

  predicate Within(box: PaneBox, area: PaneBox) {
    && area.left <= box.left && box.left + box.width <= area.left + area.width
    && area.top <= box.top && box.top + box.height <= area.top + area.height
  }

  lemma PanesAreWithin(node: PaneNode, area: PaneBox, gap: nat, i: nat)
    requires Canonical(node) && Sized(node) && HasRoom(node, area, gap)
    requires var panes := Layout(node, area, gap, []).panes;
      i < |panes| && panes[i].box.width > 0 && panes[i].box.height > 0
    ensures Within(Layout(node, area, gap, []).panes[i].box, area)
  {
    var panes := Layout(node, area, gap, []).panes;
    var box := panes[i].box;
    var right, bottom := box.left + box.width - 1, box.top + box.height - 1;
    LayoutTiles(node, area, gap, [], box.left, box.top);
    LayoutTiles(node, area, gap, [], right, bottom);
    OneAt(panes, i, box.left, box.top);
    OneAt(panes, i, right, bottom);
  }

  // The panes are laid out in the tree's order.
  lemma {:induction false} LayoutKeepsOrder(node: PaneNode, area: PaneBox, gap: nat, path: seq<int>)
    requires Sized(node)
    ensures LaidIds(Layout(node, area, gap, path).panes) == PaneIds(node)
    decreases node, 1
  {
    if node.Split? {
      var row := SplitRow(node.orientation, area, gap, |node.children|, path);
      LayoutRowKeepsOrder(row, node.children, Ends(row, node.sizes, 0, 0.0), 0, Start(node.orientation, area));
    }
  }

  lemma {:induction false} LayoutRowKeepsOrder(row: SplitRow, children: seq<PaneNode>, ends: seq<int>, index: nat,
          edge: int)
    requires |children| == |ends| && AllSized(children)
    ensures LaidIds(LayoutRow(row, children, ends, index, edge).panes) == PaneIdsOf(children)
    decreases children, 0
  {
    if children != [] {
      var area := Region(row.orientation, row.area, edge, ends[0] - edge);
      LayoutKeepsOrder(children[0], area, row.gap, row.path + [index]);
      LayoutRowKeepsOrder(row, children[1..], ends[1..], index + 1, ends[0] + row.gap);
      LaidIdsAppend(Layout(children[0], area, row.gap, row.path + [index]).panes,
                    LayoutRow(row, children[1..], ends[1..], index + 1, ends[0] + row.gap).panes);
    }
  }

  lemma LaidIdsAppend(a: seq<PlacedBox>, b: seq<PlacedBox>)
    ensures LaidIds(a + b) == LaidIds(a) + LaidIds(b)
  {
  }

  // The map the source returns gives each pane of the tree its box.
  lemma LayoutMapHoldsEachPane(root: PaneNode, box: PaneBox, gap: nat)
    requires Sized(root) && Distinct(PaneIds(root))
    ensures var placed, panes := Layout(root, box, gap, []).panes, Recorded(map[], Layout(root, box, gap, []).panes);
      && panes.Keys == ToSet(PaneIds(root))
      && forall i :: 0 <= i < |placed| ==> placed[i].tabId in panes && panes[placed[i].tabId] == placed[i].box
  {
    var placed := Layout(root, box, gap, []).panes;
    LayoutKeepsOrder(root, box, gap, []);
    assert forall i :: 0 <= i < |placed| ==> LaidIds(placed)[i] == placed[i].tabId;
    RecordedHoldsEach(map[], placed);
  }

  // ----- rounding stays close to the exact rectangles -----

  function Distance(a: real, b: real): real {
    if a >= b then a - b else b - a
  }

  // No edge of the box is further than `error` pixels from the rectangle's.
  predicate Near(box: PaneBox, rect: Rect, error: real) {
    && Distance(box.left as real, rect.left) <= error
    && Distance((box.left + box.width) as real, rect.left + rect.width) <= error
    && Distance(box.top as real, rect.top) <= error
    && Distance((box.top + box.height) as real, rect.top + rect.height) <= error
  }

  ghost predicate AllNear(placed: seq<PlacedBox>, exact: seq<Placed>, error: real) {
    && |placed| == |exact|
    && forall i :: 0 <= i < |placed| ==> placed[i].tabId == exact[i].tabId && Near(placed[i].box, exact[i].at, error)
  }

  // How many splits lie on the longest way down.
  function Depth(node: PaneNode): nat
    decreases node, 1
  {
    if node.Pane? then 0 else 1 + DepthOf(node.children)
  }

  function DepthOf(children: seq<PaneNode>): nat
    decreases children, 0
  {
    if children == [] then 0
    else
      var first, rest := Depth(children[0]), DepthOf(children[1..]);
      if first >= rest then first else rest
  }

  lemma PartIsLess(whole: real, share: real) returns (part: real)
    requires whole >= 0.0 && 0.0 <= share <= 1.0
    ensures part == whole * share && 0.0 <= part <= whole
  {
    part := whole * share;
    assert whole - part == whole * (1.0 - share);
    assert whole * (1.0 - share) >= 0.0;
  }

  lemma MixIsBounded(d: real, e: real, share: real, error: real)
    requires -error <= d <= error && -error <= e <= error && 0.0 <= share <= 1.0
    ensures -error <= d + (e - d) * share <= error
  {
    if e >= d {
      var part := PartIsLess(e - d, share);
      assert (e - d) * share == part;
    } else {
      var part := PartIsLess(d - e, share);
      assert (e - d) * share == -part;
    }
  }

  // A point part of the way between two ends is no further off than they are.
  lemma BetweenIsNear(start: real, length: real, exactStart: real, exactLength: real, share: real, error: real)
    requires Distance(start, exactStart) <= error && Distance(start + length, exactStart + exactLength) <= error
             && 0.0 <= share <= 1.0
    ensures Distance(start + length * share, exactStart + exactLength * share) <= error
  {
    var d, e := start - exactStart, (start + length) - (exactStart + exactLength);
    MixIsBounded(d, e, share, error);
    assert (e - d) * share == length * share - exactLength * share;
  }

  lemma RoundIsNear(x: real)
    ensures Distance(Round(x) as real, x) <= 0.5
  {
  }

  function ExactStart(orientation: Orientation, rect: Rect): real {
    if orientation.Horizontal? then rect.left else rect.top
  }

  function ExactAlong(orientation: Orientation, rect: Rect): real {
    if orientation.Horizontal? then rect.width else rect.height
  }

  // A split of exact rectangles, `gap` apart.
  datatype ExactRow = ExactRow(orientation: Orientation, rect: Rect, gap: nat, count: nat)

  // What the sizes of the split are shares of, exactly.
  function ExactRoom(row: ExactRow): real {
    ExactAlong(row.orientation, row.rect) - (row.gap * (row.count - 1)) as real
  }

  // The place `share` of the room and `gaps` gaps into the split.
  function ExactEdge(row: ExactRow, gaps: nat, share: real): real {
    ExactStart(row.orientation, row.rect) + ExactRoom(row) * share + (row.gap * gaps) as real
  }

  function ExactRegion(orientation: Orientation, rect: Rect, edge: real, length: real): Rect {
    if orientation.Horizontal?
    then Rect(edge, rect.top, length, rect.height)
    else Rect(rect.left, edge, rect.width, length)
  }

  // The part for a child of share `size`, which `gaps` gaps and other children with `share` come before.
  function SpacedSlice(row: ExactRow, gaps: nat, share: real, size: real): Rect {
    var edge := ExactEdge(row, gaps, share);
    ExactRegion(row.orientation, row.rect, edge, ExactEdge(row, gaps, share + size) - edge)
  }

  // The panes of a tree laid out `gap` apart without any rounding.
  function PlaceSpaced(node: PaneNode, rect: Rect, gap: nat): seq<Placed>
    requires Sized(node)
    decreases node, 1
  {
    match node
    case Pane(id) => [Placed(id, rect)]
    case Split(orientation, children, sizes) =>
      PlaceSpacedRow(ExactRow(orientation, rect, gap, |children|), children, sizes, 0, 0.0)
  }

  function PlaceSpacedRow(row: ExactRow, children: seq<PaneNode>, sizes: seq<real>, index: nat,
          share: real): seq<Placed>
    requires |children| == |sizes| && AllSized(children)
    decreases children, 0
  {
    if children == [] then []
    else
      PlaceSpaced(children[0], SpacedSlice(row, index, share, sizes[0]), row.gap)
      + PlaceSpacedRow(row, children[1..], sizes[1..], index + 1, share + sizes[0])
  }

  // Without gaps these are the rectangles the tree means.
  lemma {:induction false} UnspacedIsPlace(node: PaneNode, rect: Rect)
    requires Canonical(node) && Sized(node)
    ensures PlaceSpaced(node, rect, 0) == Place(node, rect)
    decreases node, 1
  {
    if node.Split? {
      PlaceCanonical(node, rect);
      UnspacedRowIsPlaceRow(ExactRow(node.orientation, rect, 0, |node.children|), node.children, node.sizes, 0, 0.0);
    }
  }

  lemma UnspacedSlice(row: ExactRow, index: nat, share: real, size: real)
    requires row.gap == 0
    ensures SpacedSlice(row, index, share, size) == Slice(row.orientation, row.rect, share, size)
  {
    assert row.gap * index == 0 && row.gap * (row.count - 1) == 0;
    Spread(ExactRoom(row), share, size);
  }

  lemma {:induction false} UnspacedRowIsPlaceRow(row: ExactRow, children: seq<PaneNode>, sizes: seq<real>, index: nat,
          share: real)
    requires |children| == |sizes| && AllSized(children) && AllCanonical(row.orientation, children) && row.gap == 0
    ensures PlaceSpacedRow(row, children, sizes, index, share)
            == PlaceRow(row.orientation, children, sizes, share, row.rect)
    decreases children, 0
  {
    if children != [] {
      var slice := Slice(row.orientation, row.rect, share, sizes[0]);
      UnspacedSlice(row, index, share, sizes[0]);
      UnspacedIsPlace(children[0], slice);
      UnspacedRowIsPlaceRow(row, children[1..], sizes[1..], index + 1, share + sizes[0]);
    }
  }

  lemma NearAlong(orientation: Orientation, area: PaneBox, rect: Rect, error: real)
    requires Near(area, rect, error)
    ensures Distance(Start(orientation, area) as real, ExactStart(orientation, rect)) <= error
    ensures Distance(Limit(orientation, area) as real,
                     ExactStart(orientation, rect) + ExactAlong(orientation, rect)) <= error
  {
  }

  // The row laid out in pixels is that of the exact rectangle.
  predicate Matches(row: SplitRow, exact: ExactRow) {
    row.orientation == exact.orientation && row.gap == exact.gap && row.count == exact.count
  }

  lemma SameShape(row: SplitRow, exact: ExactRow)
    requires Matches(row, exact)
    ensures row.orientation == exact.orientation && row.gap == exact.gap && row.count == exact.count
  {
  }

  lemma RoomIsNear(row: SplitRow, exact: ExactRow, error: real)
    requires Matches(row, exact) && Near(row.area, exact.rect, error) && row.count > 0
    requires Along(row.orientation, row.area) >= row.gap * (row.count - 1)
    ensures var start, room := Start(row.orientation, row.area), Room(row.orientation, row.area, row.gap, row.count);
      && Distance(start as real, ExactStart(row.orientation, exact.rect)) <= error
      && Distance((start + room) as real, ExactStart(row.orientation, exact.rect) + ExactRoom(exact)) <= error
  {
    hide Near;
    NearAlong(row.orientation, row.area, exact.rect, error);
  }

  lemma EdgeIsNear(row: SplitRow, exact: ExactRow, edge: int, gaps: nat, share: real, error: real)
    requires Matches(row, exact) && Near(row.area, exact.rect, error) && row.count > 0 && 0.0 <= share <= 1.0
    requires Along(row.orientation, row.area) >= row.gap * (row.count - 1)
    requires edge == Start(row.orientation, row.area) + row.gap * gaps
                     + Round(Room(row.orientation, row.area, row.gap, row.count) as real * share)
    ensures Distance(edge as real, ExactEdge(exact, gaps, share)) <= error + 0.5
  {
    hide Near;
    hide Room;
    hide ExactRoom;
    var start, room := Start(row.orientation, row.area), Room(row.orientation, row.area, row.gap, row.count);
    var exactStart, offset := ExactStart(row.orientation, exact.rect), row.gap * gaps;
    RoomIsNear(row, exact, error);
    RoundedIsNear(start, room, exactStart, ExactRoom(exact), share, error, edge - offset,
                  exactStart + ExactRoom(exact) * share);
  }

  lemma RoundedIsNear(start: int, room: int, exactStart: real, exactLength: real, share: real, error: real, edge: int,
          exactEdge: real)
    requires Distance(start as real, exactStart) <= error
             && Distance((start + room) as real, exactStart + exactLength) <= error
    requires 0.0 <= share <= 1.0
    requires edge == start + Round(room as real * share) && exactEdge == exactStart + exactLength * share
    ensures Distance(edge as real, exactEdge) <= error + 0.5
  {
    var shift := room as real * share;
    var point := start as real + shift;
    assert Distance(point, exactEdge) <= error by {
      BetweenIsNear(start as real, room as real, exactStart, exactLength, share, error);
    }
    RoundIsNear(shift);
    assert edge as real - point == Round(shift) as real - shift;
  }

  lemma AllNearAppend(a: seq<PlacedBox>, exactA: seq<Placed>, b: seq<PlacedBox>, exactB: seq<Placed>, error: real)
    requires AllNear(a, exactA, error) && AllNear(b, exactB, error)
    ensures AllNear(a + b, exactA + exactB, error)
  {
  }

  lemma AllNearWithin(a: seq<PlacedBox>, exactA: seq<Placed>, error: real, more: real)
    requires AllNear(a, exactA, error) && error <= more
    ensures AllNear(a, exactA, more)
  {
  }

  lemma Spread(factor: real, a: real, b: real)
    ensures factor * (a + b) == factor * a + factor * b
  {
  }

  // A part of the area whose ends are near those of a part of the rectangle.
  lemma RegionIsNear(orientation: Orientation, area: PaneBox, rect: Rect, edge: int, end: int, exactEdge: real,
          exactLength: real, error: real)
    requires Near(area, rect, error)
    requires Distance(edge as real, exactEdge) <= error && Distance(end as real, exactEdge + exactLength) <= error
    ensures Near(Region(orientation, area, edge, end - edge), ExactRegion(orientation, rect, exactEdge, exactLength),
                 error)
  {
  }

  lemma SliceIsNear(row: SplitRow, exact: ExactRow, edge: int, end: int, gaps: nat, share: real, size: real,
          error: real)
    requires row.orientation == exact.orientation && Near(row.area, exact.rect, error)
    requires Distance(edge as real, ExactEdge(exact, gaps, share)) <= error + 0.5
    requires Distance(end as real, ExactEdge(exact, gaps, share + size)) <= error + 0.5
    ensures Near(Region(row.orientation, row.area, edge, end - edge), SpacedSlice(exact, gaps, share, size),
                 error + 0.5)
  {
    hide ExactEdge;
    hide Near;
    hide Distance;
    NearWithin(row.area, exact.rect, error, error + 0.5);
    var exactEdge := ExactEdge(exact, gaps, share);
    RegionIsNear(row.orientation, row.area, exact.rect, edge, end, exactEdge,
                 ExactEdge(exact, gaps, share + size) - exactEdge,
                 error + 0.5);
  }

  lemma NearWithin(box: PaneBox, rect: Rect, error: real, more: real)
    requires Near(box, rect, error) && error <= more
    ensures Near(box, rect, more)
  {
  }

  // Every child of the row ends close to its exact end.
  predicate NearEnds(exact: ExactRow, ends: seq<int>, sizes: seq<real>, index: nat, share: real, error: real)
    requires |ends| == |sizes|
  {
    ends == [] ||
    (Distance(ends[0] as real, ExactEdge(exact, index, share + sizes[0])) <= error
     && NearEnds(exact, ends[1..], sizes[1..], index + 1, share + sizes[0], error))
  }

  lemma {:induction false} EndsAreNear(row: SplitRow, exact: ExactRow, sizes: seq<real>, index: nat, share: real,
          error: real)
    requires sizes != [] && index + |sizes| == row.count && Matches(row, exact) && Near(row.area, exact.rect, error)
    requires Along(row.orientation, row.area) >= row.gap * (row.count - 1)
    requires 0.0 <= share && (forall i :: 0 <= i < |sizes| ==> sizes[i] >= 0.0) && share + Sum(sizes) == 1.0
    ensures NearEnds(exact, Ends(row, sizes, index, share), sizes, index, share, error + 0.5)
  {
    hide EndEdge;
    hide ExactEdge;
    hide Near;
    hide Distance;
    var taken := share + sizes[0];
    SumNonNegative(sizes[1..]);
    if |sizes| > 1 {
      InnerEndIsNear(row, exact, index, taken, error);
      EndsAreNear(row, exact, sizes[1..], index + 1, taken, error);
    } else {
      assert sizes[1..] == [] && taken == 1.0;
      LastEndIsNear(row, exact, error);
    }
  }

  lemma LastEndIsNear(row: SplitRow, exact: ExactRow, error: real)
    requires row.count > 0 && Matches(row, exact) && Near(row.area, exact.rect, error)
    ensures Distance(EndEdge(row, row.count - 1, 1.0) as real, ExactEdge(exact, row.count - 1, 1.0)) <= error + 0.5
  {
    NearAlong(row.orientation, row.area, exact.rect, error);
  }

  lemma InnerEndIsNear(row: SplitRow, exact: ExactRow, index: nat, share: real, error: real)
    requires index < row.count - 1 && Matches(row, exact) && Near(row.area, exact.rect, error) && 0.0 <= share <= 1.0
    requires Along(row.orientation, row.area) >= row.gap * (row.count - 1)
    ensures Distance(EndEdge(row, index, share) as real, ExactEdge(exact, index, share)) <= error + 0.5
  {
    RoundedEdge(Start(row.orientation, row.area), Room(row.orientation, row.area, row.gap, row.count), share,
                row.gap * index);
    EdgeIsNear(row, exact, EndEdge(row, index, share), index, share, error);
  }

  // Rounding moves no edge by more than half a pixel for each split it is
  // nested in, whatever the gap.
  lemma {:induction false} LayoutIsNearPlace(node: PaneNode, area: PaneBox, gap: nat, rect: Rect, path: seq<int>,
          error: real)
    requires Canonical(node) && Sized(node) && HasRoom(node, area, gap) && Near(area, rect, error)
    ensures AllNear(Layout(node, area, gap, path).panes, PlaceSpaced(node, rect, gap),
                    error + 0.5 * Depth(node) as real)
    decreases node, 1
  {
    if node.Split? {
      hide Near;
      hide AllNear;
      hide Distance;
      hide ExactEdge;
      hide InOrder;
      hide Ends;
      var row := SplitRow(node.orientation, area, gap, |node.children|, path);
      var exact := ExactRow(node.orientation, rect, gap, |node.children|);
      var ends := RowIsReady(node, row);
      EndsAreNear(row, exact, node.sizes, 0, 0.0, error);
      FirstEdgeIsNear(row, exact, error);
      RowIsNearPlace(row, exact, node.children, ends, node.sizes, 0, 0.0, Start(node.orientation, area), error);
      AllNearWithin(Layout(node, area, gap, path).panes, PlaceSpaced(node, rect, gap),
                    error + 0.5 + 0.5 * DepthOf(node.children) as real, error + 0.5 * Depth(node) as real);
    }
  }

  lemma FirstEdgeIsNear(row: SplitRow, exact: ExactRow, error: real)
    requires Matches(row, exact) && Near(row.area, exact.rect, error)
    ensures Distance(Start(row.orientation, row.area) as real, ExactEdge(exact, 0, 0.0)) <= error + 0.5
  {
    NearAlong(row.orientation, row.area, exact.rect, error);
  }

  // After a child's end comes a gap, and then the next child.
  lemma NextEdgeIsNear(exact: ExactRow, end: int, index: nat, share: real, error: real)
    requires Distance(end as real, ExactEdge(exact, index, share)) <= error
    ensures Distance((end + exact.gap) as real, ExactEdge(exact, index + 1, share)) <= error
  {
    hide ExactRoom;
    assert exact.gap * (index + 1) == exact.gap * index + exact.gap;
  }

  lemma FirstEndIsNear(exact: ExactRow, ends: seq<int>, sizes: seq<real>, index: nat, share: real, error: real)
    requires |ends| == |sizes| && ends != [] && NearEnds(exact, ends, sizes, index, share, error)
    ensures Distance(ends[0] as real, ExactEdge(exact, index, share + sizes[0])) <= error
    ensures NearEnds(exact, ends[1..], sizes[1..], index + 1, share + sizes[0], error)
  {
  }

  lemma FirstChildIsReady(row: SplitRow, children: seq<PaneNode>, ends: seq<int>, edge: int)
    requires |children| == |ends| && children != [] && AllSized(children) && AllCanonical(row.orientation, children)
    requires ChildrenHaveRoom(row, children, ends, edge)
    ensures Sized(children[0]) && Canonical(children[0])
    ensures HasRoom(children[0], Region(row.orientation, row.area, edge, ends[0] - edge), row.gap)
    ensures AllSized(children[1..]) && AllCanonical(row.orientation, children[1..])
    ensures ChildrenHaveRoom(row, children[1..], ends[1..], ends[0] + row.gap)
  {
  }

  lemma NothingIsNear(row: SplitRow, exact: ExactRow, children: seq<PaneNode>, ends: seq<int>, sizes: seq<real>,
          index: nat, share: real, edge: int, error: real)
    requires |children| == |ends| == |sizes| && children == []
    ensures AllNear(LayoutRow(row, children, ends, index, edge).panes,
                    PlaceSpacedRow(exact, children, sizes, index, share), error + 0.5 * DepthOf(children) as real)
  {
  }

  lemma {:induction false} ChildIsNearPlace(row: SplitRow, exact: ExactRow, child: PaneNode, edge: int, end: int,
          index: nat, share: real, size: real, error: real)
    requires Sized(child) && Canonical(child) && Matches(row, exact) && Near(row.area, exact.rect, error)
    requires HasRoom(child, Region(row.orientation, row.area, edge, end - edge), row.gap)
    requires Distance(edge as real, ExactEdge(exact, index, share)) <= error + 0.5
    requires Distance(end as real, ExactEdge(exact, index, share + size)) <= error + 0.5
    ensures AllNear(Layout(child, Region(row.orientation, row.area, edge, end - edge), row.gap,
                           row.path + [index]).panes,
                    PlaceSpaced(child, SpacedSlice(exact, index, share, size), row.gap),
                    error + 0.5 + 0.5 * Depth(child) as real)
    decreases child, 2
  {
    hide Near;
    hide Distance;
    SliceIsNear(row, exact, edge, end, index, share, size, error);
    LayoutIsNearPlace(child, Region(row.orientation, row.area, edge, end - edge), row.gap,
                      SpacedSlice(exact, index, share, size), row.path + [index], error + 0.5);
  }

  lemma {:induction false} RowIsNearPlace(row: SplitRow, exact: ExactRow, children: seq<PaneNode>, ends: seq<int>,
          sizes: seq<real>, index: nat, share: real, edge: int, error: real)
    requires |children| == |ends| == |sizes| && AllSized(children) && AllCanonical(row.orientation, children)
    requires Matches(row, exact) && Near(row.area, exact.rect, error)
    requires NearEnds(exact, ends, sizes, index, share, error + 0.5)
    requires Distance(edge as real, ExactEdge(exact, index, share)) <= error + 0.5
    requires ChildrenHaveRoom(row, children, ends, edge)
    ensures AllNear(LayoutRow(row, children, ends, index, edge).panes,
                    PlaceSpacedRow(exact, children, sizes, index, share),
                    error + 0.5 + 0.5 * DepthOf(children) as real)
    decreases children, 0
  {
    hide *;
    SameShape(row, exact);
    if children == [] {
      NothingIsNear(row, exact, children, ends, sizes, index, share, edge, error + 0.5);
      return;
    }
    FirstChildIsReady(row, children, ends, edge);
    FirstEndIsNear(exact, ends, sizes, index, share, error + 0.5);
    ChildIsNearPlace(row, exact, children[0], edge, ends[0], index, share, sizes[0], error);
    NextEdgeIsNear(exact, ends[0], index, share + sizes[0], error + 0.5);
    RowIsNearPlace(row, exact, children[1..], ends[1..], sizes[1..], index + 1, share + sizes[0], ends[0] + row.gap,
                   error);
    ChildNearTheRest(row, exact, children, ends, sizes, index, share, edge, error + 0.5);
  }

  // The first child's panes and those of the others make the row's.
  lemma ChildNearTheRest(row: SplitRow, exact: ExactRow, children: seq<PaneNode>, ends: seq<int>, sizes: seq<real>,
          index: nat, share: real, edge: int, error: real)
    requires |children| == |ends| == |sizes| && children != [] && AllSized(children)
    requires row.gap == exact.gap
    requires var area := Region(row.orientation, row.area, edge, ends[0] - edge);
      var slice := SpacedSlice(exact, index, share, sizes[0]);
      && AllNear(Layout(children[0], area, row.gap, row.path + [index]).panes, PlaceSpaced(children[0], slice, row.gap),
                 error + 0.5 * Depth(children[0]) as real)
      && AllNear(LayoutRow(row, children[1..], ends[1..], index + 1, ends[0] + row.gap).panes,
                 PlaceSpacedRow(exact, children[1..], sizes[1..], index + 1, share + sizes[0]),
                 error + 0.5 * DepthOf(children[1..]) as real)
    ensures AllNear(LayoutRow(row, children, ends, index, edge).panes,
                    PlaceSpacedRow(exact, children, sizes, index, share),
                    error + 0.5 * DepthOf(children) as real)
  {
    hide AllNear;
    hide Region;
    hide SpacedSlice;
    hide SashAfter;
    var slice := SpacedSlice(exact, index, share, sizes[0]);
    var first := Layout(children[0], Region(row.orientation, row.area, edge, ends[0] - edge), row.gap,
                        row.path + [index]).panes;
    var rest := LayoutRow(row, children[1..], ends[1..], index + 1, ends[0] + row.gap).panes;
    assert LayoutRow(row, children, ends, index, edge).panes == first + rest;
    NearTogether(first, PlaceSpaced(children[0], slice, row.gap), Depth(children[0]), rest,
                 PlaceSpacedRow(exact, children[1..], sizes[1..], index + 1, share + sizes[0]), DepthOf(children[1..]),
                 error, DepthOf(children));
  }

  lemma NearTogether(a: seq<PlacedBox>, exactA: seq<Placed>, depthA: nat, b: seq<PlacedBox>, exactB: seq<Placed>,
          depthB: nat, error: real, depth: nat)
    requires AllNear(a, exactA, error + 0.5 * depthA as real) && AllNear(b, exactB, error + 0.5 * depthB as real)
    requires depthA <= depth && depthB <= depth
    ensures AllNear(a + b, exactA + exactB, error + 0.5 * depth as real)
  {
    AllNearWithin(a, exactA, error + 0.5 * depthA as real, error + 0.5 * depth as real);
    AllNearWithin(b, exactB, error + 0.5 * depthB as real, error + 0.5 * depth as real);
    AllNearAppend(a, exactA, b, exactB, error + 0.5 * depth as real);
  }
}
