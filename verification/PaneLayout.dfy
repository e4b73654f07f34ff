// Boxes of whole pixels for the panes of a tree and for the dividers among them,
// and the sizes that dragging a divider gives (src/lib/paneLayout.ts).
module PaneLayout {
  import opened Sequences
  import opened PaneTrees

  datatype PaneBox = PaneBox(left: int, top: int, width: int, height: int)

  datatype PlacedBox = PlacedBox(tabId: TabId, box: PaneBox)

  // `path` leads to a split, and the divider comes after its child `index`.
  datatype SashBox = SashBox(box: PaneBox, path: seq<int>, index: nat, orientation: Orientation, room: int)

  datatype Laid = Laid(panes: seq<PlacedBox>, sashes: seq<SashBox>)

  // Math.round
  function Round(x: real): int {
    (x + 0.5).Floor
  }

  function Along(orientation: Orientation, box: PaneBox): int {
    if orientation.Horizontal? then box.width else box.height
  }

  function Start(orientation: Orientation, box: PaneBox): int {
    if orientation.Horizontal? then box.left else box.top
  }

  function Limit(orientation: Orientation, box: PaneBox): int {
    Start(orientation, box) + Along(orientation, box)
  }

  // The part of `area` from `edge` on, `length` pixels long.
  function Region(orientation: Orientation, area: PaneBox, edge: int, length: int): PaneBox {
    if orientation.Horizontal?
    then PaneBox(edge, area.top, length, area.height)
    else PaneBox(area.left, edge, area.width, length)
  }

  // What the sizes of a split of `count` children are shares of.
  function Room(orientation: Orientation, area: PaneBox, gap: nat, count: nat): int {
    var room := Along(orientation, area) - gap * (count - 1);
    if room < 0 then 0 else room
  }

  // ----- laying a tree out -----

  // The boxes of the panes and dividers of a tree in `area`, with `gap` pixels for each divider.
  function Layout(node: PaneNode, area: PaneBox, gap: nat, path: seq<int>): Laid
    requires Sized(node)
    decreases node, 1
  {
    match node
    case Pane(id) => Laid([PlacedBox(id, area)], [])
    case Split(orientation, children, sizes) =>
      var row := SplitRow(orientation, area, gap, |children|, path);
      LayoutRow(row, children, Ends(row, sizes, 0, 0.0), 0, Start(orientation, area))
  }

  // What stays the same along the children of one split.
  datatype SplitRow = SplitRow(orientation: Orientation, area: PaneBox, gap: nat, count: nat, path: seq<int>)

  // Where child `index`, up to which the children have `share`, ends.
  function EndEdge(row: SplitRow, index: nat, share: real): int {
    if index == row.count - 1 then Limit(row.orientation, row.area)
    else
      var room := Room(row.orientation, row.area, row.gap, row.count);
      Round(Start(row.orientation, row.area) as real + room as real * share + (row.gap * index) as real)
  }

  // Where the children from `index` on end, once those before have `share`.
  function Ends(row: SplitRow, sizes: seq<real>, index: nat, share: real): (r: seq<int>)
    ensures |r| == |sizes|
  {
    if sizes == [] then []
    else [EndEdge(row, index, share + sizes[0])] + Ends(row, sizes[1..], index + 1, share + sizes[0])
  }

  // Child `index`, which starts at `edge`, and those after it.
  function LayoutRow(row: SplitRow, children: seq<PaneNode>, ends: seq<int>, index: nat, edge: int): Laid
    requires |children| == |ends| && AllSized(children)
    decreases children, 0
  {
    if children == [] then Laid([], [])
    else
      var first := Layout(children[0], Region(row.orientation, row.area, edge, ends[0] - edge), row.gap,
                          row.path + [index]);
      var rest := LayoutRow(row, children[1..], ends[1..], index + 1, ends[0] + row.gap);
      Laid(first.panes + rest.panes, first.sashes + SashAfter(row, index, ends[0]) + rest.sashes)
  }

  function SashAfter(row: SplitRow, index: nat, end: int): seq<SashBox> {
    if index == row.count - 1 then []
    else [SashBox(Region(row.orientation, row.area, end, row.gap), row.path, index, row.orientation,
                  Room(row.orientation, row.area, row.gap, row.count))]
  }

  // ----- the object the source fills while visiting the tree -----

  function Recorded(panes: map<TabId, PaneBox>, placed: seq<PlacedBox>): map<TabId, PaneBox>
    decreases |placed|
  {
    if placed == [] then panes else Recorded(panes[placed[0].tabId := placed[0].box], placed[1..])
  }

  lemma {:induction false} RecordedAppend(panes: map<TabId, PaneBox>, a: seq<PlacedBox>, b: seq<PlacedBox>)
    ensures Recorded(panes, a + b) == Recorded(Recorded(panes, a), b)
    decreases |a|
  {
    if a == [] {
      assert a + b == b;
    } else {
      assert (a + b)[1..] == a[1..] + b;
      RecordedAppend(panes[a[0].tabId := a[0].box], a[1..], b);
    }
  }

  class LayoutBuilder {
    var panes: map<TabId, PaneBox>
    var sashes: seq<SashBox>

    constructor ()
      ensures panes == map[] && sashes == []
    {
      panes, sashes := map[], [];
    }

    method Visit(node: PaneNode, area: PaneBox, gap: nat, path: seq<int>)
      requires Sized(node)
      modifies this
      ensures panes == Recorded(old(panes), Layout(node, area, gap, path).panes)
      ensures sashes == old(sashes) + Layout(node, area, gap, path).sashes
      decreases node, 1
    {
      match node {
        case Pane(id) =>
          panes := panes[id := area];
        case Split(orientation, children, sizes) =>
          VisitChildren(SplitRow(orientation, area, gap, |children|, path), children, sizes);
      }
    }

    method VisitChildren(row: SplitRow, children: seq<PaneNode>, sizes: seq<real>)
      requires |children| == |sizes| == row.count && AllSized(children)
      modifies this
      ensures var laid := LayoutRow(row, children, Ends(row, sizes, 0, 0.0), 0, Start(row.orientation, row.area));
        && panes == Recorded(old(panes), laid.panes)
        && sashes == old(sashes) + laid.sashes
      decreases children, 0
    {
      hide Layout;
      hide LayoutRow;
      hide Recorded;
      var start := Start(row.orientation, row.area);
      var share: real, edge := 0.0, start;
      ghost var ends := Ends(row, sizes, 0, 0.0);
      ghost var laid := LayoutRow(row, children, ends, 0, start);
      ghost var later := laid;
      for index := 0 to |children|
        invariant AllSized(children[index..]) && ends[index..] == Ends(row, sizes[index..], index, share)
        invariant later == LayoutRow(row, children[index..], ends[index..], index, edge)
        invariant Recorded(panes, later.panes) == Recorded(old(panes), laid.panes)
        invariant sashes + later.sashes == old(sashes) + laid.sashes
      {
        NextChild(row, children, sizes, ends, index, share);
        share := share + sizes[index];
        var end := EndEdge(row, index, share);
        ghost var panes0, sashes0 := panes, sashes;
        var area := Region(row.orientation, row.area, edge, end - edge);
        ghost var child := Layout(children[index], area, row.gap, row.path + [index]);
        Visit(children[index], area, row.gap, row.path + [index]);
        sashes := sashes + SashAfter(row, index, end);
        VisitStep(row, children[index..], ends[index..], index, edge, child, panes0, sashes0, panes, sashes);
        edge := end + row.gap;
        later := LayoutRow(row, children[index + 1..], ends[index + 1..], index + 1, edge);
      }
      NothingLeft(row, edge, panes);
      assert sashes + [] == sashes;
    }
  }

  lemma NothingLeft(row: SplitRow, edge: int, panes: map<TabId, PaneBox>)
    ensures LayoutRow(row, [], [], row.count, edge) == Laid([], []) && Recorded(panes, []) == panes
  {
  }

  lemma NextChild(row: SplitRow, children: seq<PaneNode>, sizes: seq<real>, ends: seq<int>, index: nat, share: real)
    requires index < |children| == |sizes| == |ends| && AllSized(children[index..])
    requires ends[index..] == Ends(row, sizes[index..], index, share)
    ensures children[index..][0] == children[index] && children[index..][1..] == children[index + 1..]
            && AllSized(children[index + 1..])
    ensures ends[index..][0] == EndEdge(row, index, share + sizes[index]) && ends[index..][1..] == ends[index + 1..]
    ensures ends[index + 1..] == Ends(row, sizes[index + 1..], index + 1, share + sizes[index])
  {
    assert sizes[index..][0] == sizes[index] && sizes[index..][1..] == sizes[index + 1..];
  }

  // One child visited: what was there, with what is still to come, stays the same.
  lemma VisitStep(row: SplitRow, children: seq<PaneNode>, ends: seq<int>, index: nat, edge: int, child: Laid,
                  panes0: map<TabId, PaneBox>, sashes0: seq<SashBox>, panes1: map<TabId, PaneBox>,
                      sashes1: seq<SashBox>)
    requires children != [] && |children| == |ends| && AllSized(children)
    requires child == Layout(children[0], Region(row.orientation, row.area, edge, ends[0] - edge), row.gap,
                             row.path + [index])
    requires panes1 == Recorded(panes0, child.panes)
             && sashes1 == sashes0 + child.sashes + SashAfter(row, index, ends[0])
    ensures var all := LayoutRow(row, children, ends, index, edge);
      var rest := LayoutRow(row, children[1..], ends[1..], index + 1, ends[0] + row.gap);
      && Recorded(panes1, rest.panes) == Recorded(panes0, all.panes)
      && sashes1 + rest.sashes == sashes0 + all.sashes
  {
    var rest := LayoutRow(row, children[1..], ends[1..], index + 1, ends[0] + row.gap);
    RecordedAppend(panes0, child.panes, rest.panes);
    SashesGrow(sashes0, child.sashes, SashAfter(row, index, ends[0]), rest.sashes);
  }

  lemma SashesGrow(a: seq<SashBox>, b: seq<SashBox>, c: seq<SashBox>, d: seq<SashBox>)
    ensures a + (b + c + d) == ((a + b) + c) + d
  {
  }

  method LayoutPaneTree(root: PaneNode, box: PaneBox, gap: nat)
    returns (panes: map<TabId, PaneBox>, sashes: seq<SashBox>)
    requires Sized(root)
    ensures panes == Recorded(map[], Layout(root, box, gap, []).panes)
    ensures sashes == Layout(root, box, gap, []).sashes
  {
    var builder := new LayoutBuilder();
    builder.Visit(root, box, gap, []);
    panes, sashes := builder.panes, builder.sashes;
  }

  // With every pane listed once, the map holds exactly each pane's box.
  lemma {:induction false} RecordedHoldsEach(panes: map<TabId, PaneBox>, placed: seq<PlacedBox>)
    requires forall i, j :: 0 <= i < j < |placed| ==> placed[i].tabId != placed[j].tabId
    ensures var r := Recorded(panes, placed);
      && (forall id :: id in r <==> id in panes || id in LaidIds(placed))
      && (forall id :: id in panes && id !in LaidIds(placed) ==> r[id] == panes[id])
      && (forall i :: 0 <= i < |placed| ==> placed[i].tabId in r && r[placed[i].tabId] == placed[i].box)
    decreases |placed|
  {
    if placed != [] {
      var first := placed[0];
      assert forall i :: 1 <= i < |placed| ==> placed[1..][i - 1] == placed[i];
      RecordedHoldsEach(panes[first.tabId := first.box], placed[1..]);
      assert first.tabId !in LaidIds(placed[1..]);
    }
  }

  function LaidIds(placed: seq<PlacedBox>): (r: seq<TabId>)
    ensures |r| == |placed|
    ensures forall i :: 0 <= i < |r| ==> r[i] == placed[i].tabId
  {
    if placed == [] then [] else [placed[0].tabId] + LaidIds(placed[1..])
  }

  // ----- the boxes tile the area -----

  predicate Inside(box: PaneBox, x: int, y: int) {
    box.left <= x < box.left + box.width && box.top <= y < box.top + box.height
  }

  function Once(inside: bool): nat {
    if inside then 1 else 0
  }

  // How many boxes hold the pixel.
  function PanesAt(placed: seq<PlacedBox>, x: int, y: int): nat {
    if placed == [] then 0 else Once(Inside(placed[0].box, x, y)) + PanesAt(placed[1..], x, y)
  }

  function SashesAt(sashes: seq<SashBox>, x: int, y: int): nat {
    if sashes == [] then 0 else Once(Inside(sashes[0].box, x, y)) + SashesAt(sashes[1..], x, y)
  }

  function BoxesAt(laid: Laid, x: int, y: int): nat {
    PanesAt(laid.panes, x, y) + SashesAt(laid.sashes, x, y)
  }

  function Area(box: PaneBox): int {
    box.width * box.height
  }

  function PanesArea(placed: seq<PlacedBox>): int {
    if placed == [] then 0 else Area(placed[0].box) + PanesArea(placed[1..])
  }

  function SashesArea(sashes: seq<SashBox>): int {
    if sashes == [] then 0 else Area(sashes[0].box) + SashesArea(sashes[1..])
  }

  function LaidArea(laid: Laid): int {
    PanesArea(laid.panes) + SashesArea(laid.sashes)
  }

  // No split gets less room than its gaps.
  predicate HasRoom(node: PaneNode, area: PaneBox, gap: nat)
    requires Sized(node)
    decreases node, 1
  {
    && area.width >= 0 && area.height >= 0
    && (node.Split? ==>
          var row := SplitRow(node.orientation, area, gap, |node.children|, []);
          && Along(node.orientation, area) >= gap * (|node.children| - 1)
          && ChildrenHaveRoom(row, node.children, Ends(row, node.sizes, 0, 0.0), Start(node.orientation, area)))
  }

  predicate ChildrenHaveRoom(row: SplitRow, children: seq<PaneNode>, ends: seq<int>, edge: int)
    requires |children| == |ends| && AllSized(children)
    decreases children, 0
  {
    children == [] ||
    (HasRoom(children[0], Region(row.orientation, row.area, edge, ends[0] - edge), row.gap)
     && ChildrenHaveRoom(row, children[1..], ends[1..], ends[0] + row.gap))
  }

  // Each child ends after it starts, the last one at the end of the area,
  // and there is a gap between one and the next.
  predicate InOrder(row: SplitRow, ends: seq<int>, edge: int) {
    ends != [] &&
    edge <= ends[0] &&
    (if |ends| == 1 then ends[0] == Limit(row.orientation, row.area)
     else ends[0] + row.gap <= Limit(row.orientation, row.area) && InOrder(row, ends[1..], ends[0] + row.gap))
  }

  lemma RoundShifts(n: int, x: real)
    ensures Round(n as real + x) == n + Round(x)
  {
  }

  lemma PartOf(room: int, share: real)
    requires room >= 0 && 0.0 <= share <= 1.0
    ensures 0 <= Round(room as real * share) <= room
  {
    assert 0.0 <= room as real * share <= room as real;
  }

  // Where the children from `index` on start.
  ghost predicate StartsAt(row: SplitRow, index: nat, share: real, edge: int) {
    edge == Start(row.orientation, row.area) + row.gap * index
            + Round(Room(row.orientation, row.area, row.gap, row.count) as real * share)
  }

  lemma RoundedEdge(start: int, room: int, share: real, offset: int)
    ensures Round(start as real + room as real * share + offset as real) == start + offset + Round(room as real * share)
  {
    RoundShifts(start + offset, room as real * share);
  }

  lemma RoundedShareGrows(room: int, share: real, taken: real)
    requires room >= 0 && share <= taken
    ensures Round(room as real * share) <= Round(room as real * taken)
  {
    assert room as real * share <= room as real * taken;
  }

  lemma GapsLeft(gap: nat, count: int, index: int)
    requires index + 1 <= count - 1
    ensures gap * (index + 1) == gap * index + gap && gap * (index + 1) <= gap * (count - 1)
  {
    assert gap * (count - 1) - gap * (index + 1) == gap * (count - 1 - (index + 1));
  }

  // A child ends after it starts, and the next one starts within the area.
  lemma EdgesAreInOrder(row: SplitRow, index: nat, share: real, size: real, edge: int)
    requires index < row.count && Along(row.orientation, row.area) >= row.gap * (row.count - 1)
    requires StartsAt(row, index, share, edge) && 0.0 <= share && 0.0 <= size && share + size <= 1.0
    ensures var end := EndEdge(row, index, share + size);
      && edge <= end
      && (index < row.count - 1 ==>
            StartsAt(row, index + 1, share + size, end + row.gap) && end + row.gap <= Limit(row.orientation, row.area))
  {
    var room, start := Room(row.orientation, row.area, row.gap, row.count), Start(row.orientation, row.area);
    PartOf(room, share);
    PartOf(room, share + size);
    RoundedShareGrows(room, share, share + size);
    if index < row.count - 1 {
      RoundedEdge(start, room, share + size, row.gap * index);
      GapsLeft(row.gap, row.count, index);
    }
  }

  lemma {:induction false} EndsAreInOrderFrom(row: SplitRow, sizes: seq<real>, index: nat, share: real, edge: int)
    requires sizes != [] && index + |sizes| == row.count
             && Along(row.orientation, row.area) >= row.gap * (row.count - 1)
    requires 0.0 <= share && (forall i :: 0 <= i < |sizes| ==> sizes[i] >= 0.0) && share + Sum(sizes) == 1.0
    requires StartsAt(row, index, share, edge)
    ensures InOrder(row, Ends(row, sizes, index, share), edge)
  {
    SumNonNegative(sizes[1..]);
    EdgesAreInOrder(row, index, share, sizes[0], edge);
    if |sizes| > 1 {
      EndsAreInOrderFrom(row, sizes[1..], index + 1, share + sizes[0], EndEdge(row, index, share + sizes[0]) + row.gap);
    }
  }

  // Rounded edges keep their order when the split has room for its gaps.
  lemma EndsAreInOrder(row: SplitRow, sizes: seq<real>)
    requires sizes != [] && |sizes| == row.count && AreShares(sizes)
    requires Along(row.orientation, row.area) >= row.gap * (row.count - 1)
    ensures InOrder(row, Ends(row, sizes, 0, 0.0), Start(row.orientation, row.area))
  {
    assert Round(Room(row.orientation, row.area, row.gap, row.count) as real * 0.0) == 0;
    EndsAreInOrderFrom(row, sizes, 0, 0.0, Start(row.orientation, row.area));
  }

  lemma {:induction false} PanesAtAppend(a: seq<PlacedBox>, b: seq<PlacedBox>, x: int, y: int)
    ensures PanesAt(a + b, x, y) == PanesAt(a, x, y) + PanesAt(b, x, y)
    ensures PanesArea(a + b) == PanesArea(a) + PanesArea(b)
  {
    if a == [] {
      assert a + b == b;
    } else {
      PanesAtAppend(a[1..], b, x, y);
      assert (a + b)[1..] == a[1..] + b;
    }
  }

  lemma {:induction false} SashesAtAppend(a: seq<SashBox>, b: seq<SashBox>, x: int, y: int)
    ensures SashesAt(a + b, x, y) == SashesAt(a, x, y) + SashesAt(b, x, y)
    ensures SashesArea(a + b) == SashesArea(a) + SashesArea(b)
  {
    if a == [] {
      assert a + b == b;
    } else {
      SashesAtAppend(a[1..], b, x, y);
      assert (a + b)[1..] == a[1..] + b;
    }
  }

  lemma PartsAt(first: Laid, sash: seq<SashBox>, rest: Laid, x: int, y: int)
    ensures var all := Laid(first.panes + rest.panes, first.sashes + sash + rest.sashes);
      && BoxesAt(all, x, y) == BoxesAt(first, x, y) + SashesAt(sash, x, y) + BoxesAt(rest, x, y)
      && LaidArea(all) == LaidArea(first) + SashesArea(sash) + LaidArea(rest)
  {
    PanesAtAppend(first.panes, rest.panes, x, y);
    SashesAtAppend(first.sashes, sash, x, y);
    SashesAtAppend(first.sashes + sash, rest.sashes, x, y);
  }

  // An area cut in two at `cut`.
  lemma RegionsSplit(orientation: Orientation, area: PaneBox, edge: int, cut: int, limit: int, x: int, y: int)
    requires edge <= cut <= limit
    ensures CutsInto(Region(orientation, area, edge, limit - edge), Region(orientation, area, edge, cut - edge),
                     Region(orientation, area, cut, limit - cut), x, y)
  {
    var across := if orientation.Horizontal? then area.height else area.width;
    assert (limit - edge) * across == (cut - edge) * across + (limit - cut) * across;
  }

  lemma SashAt(row: SplitRow, index: nat, end: int, x: int, y: int)
    ensures var gap := Region(row.orientation, row.area, end, row.gap);
      && SashesAt(SashAfter(row, index, end), x, y) == (if index == row.count - 1 then 0 else Once(Inside(gap, x, y)))
      && SashesArea(SashAfter(row, index, end)) == (if index == row.count - 1 then 0 else Area(gap))
  {
    var sash := SashAfter(row, index, end);
    assert sash != [] ==> sash[1..] == [];
  }

  // Every pixel of the area is in exactly one pane or divider, and no other
  // pixel is in any: they lie inside, overlap nowhere and leave no seam.
  lemma {:induction false} LayoutTiles(node: PaneNode, area: PaneBox, gap: nat, path: seq<int>, x: int, y: int)
    requires Canonical(node) && Sized(node) && HasRoom(node, area, gap)
    ensures BoxesAt(Layout(node, area, gap, path), x, y) == Once(Inside(area, x, y))
    ensures LaidArea(Layout(node, area, gap, path)) == Area(area)
    decreases node, 1
  {
    if node.Split? {
      var row := SplitRow(node.orientation, area, gap, |node.children|, path);
      var ends := RowIsReady(node, row);
      RowTiles(row, node.children, ends, 0, Start(node.orientation, area), x, y);
    } else {
      LoneBoxAt(PlacedBox(node.tabId, area), x, y);
    }
  }

  // What a canonical split with room gives its children.
  lemma RowIsReady(node: PaneNode, row: SplitRow) returns (ends: seq<int>)
    requires node.Split? && Canonical(node) && Sized(node) && HasRoom(node, row.area, row.gap)
    requires row.orientation == node.orientation && row.count == |node.children|
    ensures ends == Ends(row, node.sizes, 0, 0.0) && InOrder(row, ends, Start(row.orientation, row.area))
    ensures ChildrenHaveRoom(row, node.children, ends, Start(row.orientation, row.area))
  {
    ends := Ends(row, node.sizes, 0, 0.0);
    EndsAreInOrder(row, node.sizes);
    EndsWithoutPath(row, node.sizes, 0, 0.0);
    RoomWithoutPath(row, node.children, ends, Start(row.orientation, row.area));
  }

  lemma {:induction false} EndsWithoutPath(row: SplitRow, sizes: seq<real>, index: nat, share: real)
    ensures Ends(row, sizes, index, share) == Ends(row.(path := []), sizes, index, share)
  {
    if sizes != [] {
      EndsWithoutPath(row, sizes[1..], index + 1, share + sizes[0]);
    }
  }

  lemma {:induction false} RoomWithoutPath(row: SplitRow, children: seq<PaneNode>, ends: seq<int>, edge: int)
    requires |children| == |ends| && AllSized(children)
    ensures ChildrenHaveRoom(row, children, ends, edge) <==> ChildrenHaveRoom(row.(path := []), children, ends, edge)
  {
    if children != [] {
      RoomWithoutPath(row, children[1..], ends[1..], ends[0] + row.gap);
    }
  }

  lemma LoneBoxAt(placed: PlacedBox, x: int, y: int)
    ensures BoxesAt(Laid([placed], []), x, y) == Once(Inside(placed.box, x, y))
    ensures LaidArea(Laid([placed], [])) == Area(placed.box)
  {
    assert [placed][1..] == [];
    assert PanesAt([placed], x, y) == Once(Inside(placed.box, x, y)) + PanesAt([], x, y);
    assert PanesArea([placed]) == Area(placed.box) + PanesArea([]);
  }

  lemma {:induction false} RowTiles(row: SplitRow, children: seq<PaneNode>, ends: seq<int>, index: nat, edge: int,
          x: int, y: int)
    requires |children| == |ends| && AllSized(children) && AllCanonical(row.orientation, children)
    requires index + |children| == row.count && InOrder(row, ends, edge) && ChildrenHaveRoom(row, children, ends, edge)
    ensures Tiles(LayoutRow(row, children, ends, index, edge),
                  Region(row.orientation, row.area, edge, Limit(row.orientation, row.area) - edge), x, y)
    decreases children, 0
  {
    var area := Region(row.orientation, row.area, edge, ends[0] - edge);
    LayoutTiles(children[0], area, row.gap, row.path + [index], x, y);
    var first := Layout(children[0], area, row.gap, row.path + [index]);
    var rest := LayoutRow(row, children[1..], ends[1..], index + 1, ends[0] + row.gap);
    if |children| > 1 {
      RowTiles(row, children[1..], ends[1..], index + 1, ends[0] + row.gap, x, y);
    } else {
      assert children[1..] == [] && rest == Laid([], []);
    }
    TilesTogether(row, index, edge, ends[0], first, rest, x, y);
  }

  ghost predicate Tiles(laid: Laid, area: PaneBox, x: int, y: int) {
    BoxesAt(laid, x, y) == Once(Inside(area, x, y)) && LaidArea(laid) == Area(area)
  }

  // The pixels and the area of one part and of the two parts it is cut into.
  ghost predicate CutsInto(whole: PaneBox, a: PaneBox, b: PaneBox, x: int, y: int) {
    && Once(Inside(whole, x, y)) == Once(Inside(a, x, y)) + Once(Inside(b, x, y))
    && Area(whole) == Area(a) + Area(b)
  }

  lemma TilesTogether(row: SplitRow, index: nat, edge: int, end: int, first: Laid, rest: Laid, x: int, y: int)
    requires edge <= end && Tiles(first, Region(row.orientation, row.area, edge, end - edge), x, y)
    requires var limit := Limit(row.orientation, row.area);
      if index == row.count - 1 then end == limit && rest == Laid([], [])
      else
        && end + row.gap <= limit
        && Tiles(rest, Region(row.orientation, row.area, end + row.gap, limit - (end + row.gap)), x, y)
    ensures Tiles(Laid(first.panes + rest.panes, first.sashes + SashAfter(row, index, end) + rest.sashes),
                  Region(row.orientation, row.area, edge, Limit(row.orientation, row.area) - edge), x, y)
  {
    if index == row.count - 1 {
      LastTiles(first, x, y);
    } else {
      var o, area, limit := row.orientation, row.area, Limit(row.orientation, row.area);
      var whole, others := Region(o, area, edge, limit - edge), Region(o, area, end, limit - end);
      var a, b, c := Region(o, area, edge, end - edge), Region(o, area, end, row.gap),
          Region(o, area, end + row.gap, limit - (end + row.gap));
      assert CutsInto(whole, a, others, x, y) by { RegionsSplit(o, area, edge, end, limit, x, y); }
      assert CutsInto(others, b, c, x, y) by {
        RegionsSplit(o, area, end, end + row.gap, limit, x, y);
        assert end + row.gap - end == row.gap;
      }
      SashAt(row, index, end, x, y);
      SumOfParts(whole, a, others, b, c, first, SashAfter(row, index, end), rest, x, y);
    }
  }

  lemma LastTiles(laid: Laid, x: int, y: int)
    ensures Laid(laid.panes + [], laid.sashes + [] + []) == laid
  {
    assert laid.panes + [] == laid.panes && laid.sashes + [] + [] == laid.sashes;
  }

  lemma SumOfParts(whole: PaneBox, a: PaneBox, others: PaneBox, b: PaneBox, c: PaneBox,
                   first: Laid, sash: seq<SashBox>, rest: Laid, x: int, y: int)
    requires CutsInto(whole, a, others, x, y) && CutsInto(others, b, c, x, y)
    requires Tiles(first, a, x, y) && Tiles(rest, c, x, y)
    requires SashesAt(sash, x, y) == Once(Inside(b, x, y)) && SashesArea(sash) == Area(b)
    ensures Tiles(Laid(first.panes + rest.panes, first.sashes + sash + rest.sashes), whole, x, y)
  {
    PartsAt(first, sash, rest, x, y);
  }

  // ----- dragging a divider -----

  function Max(a: real, b: real): real {
    if a >= b then a else b
  }

  function Min(a: real, b: real): real {
    if a <= b then a else b
  }

  // A drag by `delta` pixels: what one neighbour of the divider gains the other
  // gives.
  function DragSash(sizes: seq<real>, index: int, delta: real, room: real, minimums: seq<real>): seq<real>
    requires |minimums| == |sizes|
  {
    if room <= 0.0 || index < 0 || index + 1 >= |sizes| then sizes
    else
      var before, after := sizes[index] * room, sizes[index + 1] * room;
      var lowest, highest := -Max(0.0, before - minimums[index]), Max(0.0, after - minimums[index + 1]);
      var moved := Min(Max(delta, lowest), highest);
      sizes[index := (before + moved) / room][index + 1 := (after - moved) / room]
  }

  lemma {:induction false} SumOfUpdated(sizes: seq<real>, index: nat, size: real)
    requires index < |sizes|
    ensures Sum(sizes[index := size]) == Sum(sizes) - sizes[index] + size
  {
    if index > 0 {
      SumOfUpdated(sizes[1..], index - 1, size);
      assert sizes[index := size][1..] == sizes[1..][index - 1 := size];
    } else {
      assert sizes[0 := size][1..] == sizes[1..];
    }
  }

  lemma DividedBack(x: real, room: real)
    requires room > 0.0
    ensures (x / room) * room == x
  {
  }

  lemma SharesOfSum(a: real, b: real, moved: real, room: real)
    requires room > 0.0
    ensures (a * room + moved) / room + (b * room - moved) / room == a + b
  {
    DividedBack(a * room + moved, room);
    DividedBack(b * room - moved, room);
    var whole := (a * room + moved) / room + (b * room - moved) / room;
    assert whole * room == (a + b) * room;
    assert (whole - (a + b)) * room == 0.0;
  }

  // Only the two children beside the divider change, together they keep
  // their room, and neither gets under its minimum unless it was already.
  lemma DragSashSharesRoom(sizes: seq<real>, index: nat, delta: real, room: real, minimums: seq<real>)
    requires |minimums| == |sizes| && index + 1 < |sizes| && room > 0.0
    ensures var r := DragSash(sizes, index, delta, room, minimums);
      && |r| == |sizes|
      && Sum(r) == Sum(sizes)
      && r[index] + r[index + 1] == sizes[index] + sizes[index + 1]
      && (forall i :: 0 <= i < |sizes| && i != index && i != index + 1 ==> r[i] == sizes[i])
      && r[index] * room >= Min(sizes[index] * room, minimums[index])
      && r[index + 1] * room >= Min(sizes[index + 1] * room, minimums[index + 1])
  {
    var before, after := sizes[index] * room, sizes[index + 1] * room;
    var lowest, highest := -Max(0.0, before - minimums[index]), Max(0.0, after - minimums[index + 1]);
    var moved := Min(Max(delta, lowest), highest);
    var first, second := (before + moved) / room, (after - moved) / room;
    SharesOfSum(sizes[index], sizes[index + 1], moved, room);
    DividedBack(before + moved, room);
    DividedBack(after - moved, room);
    UpdatedPair(sizes, index, first, second);
    assert before + moved >= Min(before, minimums[index]) && after - moved >= Min(after, minimums[index + 1]);
  }

  lemma UpdatedPair(sizes: seq<real>, index: nat, first: real, second: real)
    requires index + 1 < |sizes| && first + second == sizes[index] + sizes[index + 1]
    ensures var r := sizes[index := first][index + 1 := second];
      && Sum(r) == Sum(sizes) && r[index] == first && r[index + 1] == second
      && (forall i :: 0 <= i < |sizes| && i != index && i != index + 1 ==> r[i] == sizes[i])
  {
    SumOfUpdated(sizes, index, first);
    SumOfUpdated(sizes[index := first], index + 1, second);
  }

  // The divider follows the drag until a child is down to its minimum, or to
  // the room it has if that is less: the first child's room is what the drag
  // asks for, kept between those two.
  lemma DragSashFollows(sizes: seq<real>, index: nat, delta: real, room: real, minimums: seq<real>)
    requires |minimums| == |sizes| && index + 1 < |sizes| && room > 0.0
    ensures var before, after := sizes[index] * room, sizes[index + 1] * room;
      var least, most := Min(before, minimums[index]), before + after - Min(after, minimums[index + 1]);
      && least <= before <= most
      && DragSash(sizes, index, delta, room, minimums)[index] * room
         == if before + delta < least then least else if before + delta > most then most else before + delta
  {
    var before, after := sizes[index] * room, sizes[index + 1] * room;
    var lowest, highest := -Max(0.0, before - minimums[index]), Max(0.0, after - minimums[index + 1]);
    DividedBack(before + Min(Max(delta, lowest), highest), room);
  }

  // ----- least extents -----

  datatype PaneMinimum = PaneMinimum(width: int, height: int)

  function MinimumAlong(orientation: Orientation, minimum: PaneMinimum): int {
    if orientation.Horizontal? then minimum.width else minimum.height
  }

  function MinimumExtent(node: PaneNode, orientation: Orientation, minimum: PaneMinimum, gap: nat): int
    requires HasPanes(node)
    decreases node, 1
  {
    match node
    case Pane(_) => MinimumAlong(orientation, minimum)
    case Split(own, children, _) =>
      if own == orientation then TotalExtent(children, orientation, minimum, gap) + gap * (|children| - 1)
      else WidestExtent(children, orientation, minimum, gap)
  }

  function TotalExtent(children: seq<PaneNode>, orientation: Orientation, minimum: PaneMinimum, gap: nat): int
    requires AllHavePanes(children)
    decreases children, 0
  {
    if children == [] then 0
    else MinimumExtent(children[0], orientation, minimum, gap) + TotalExtent(children[1..], orientation, minimum, gap)
  }

  // Math.max of the children's extents.
  function WidestExtent(children: seq<PaneNode>, orientation: Orientation, minimum: PaneMinimum, gap: nat): int
    requires children != [] && AllHavePanes(children)
    decreases children, 0
  {
    var first := MinimumExtent(children[0], orientation, minimum, gap);
    if |children| == 1 then first
    else
      var rest := WidestExtent(children[1..], orientation, minimum, gap);
      if first >= rest then first else rest
  }

  // None of the panes drops under the minimum.
  ghost predicate AllFit(placed: seq<PlacedBox>, minimum: PaneMinimum) {
    forall i :: 0 <= i < |placed| ==> placed[i].box.width >= minimum.width && placed[i].box.height >= minimum.height
  }

  lemma AllFitAppend(a: seq<PlacedBox>, b: seq<PlacedBox>, minimum: PaneMinimum)
    requires AllFit(a + b, minimum)
    ensures AllFit(a, minimum) && AllFit(b, minimum)
  {
    forall i | 0 <= i < |a| ensures a[i] == (a + b)[i] {
    }
    forall i | 0 <= i < |b| ensures b[i] == (a + b)[|a| + i] {
    }
  }

  // A box too small for the least extent leaves some pane under its minimum,
  // however the sizes share it out.
  lemma {:induction false} MinimumExtentIsNeeded(node: PaneNode, orientation: Orientation, minimum: PaneMinimum,
          area: PaneBox, gap: nat, path: seq<int>)
    requires Sized(node) && HasPanes(node) && AllFit(Layout(node, area, gap, path).panes, minimum)
    ensures Along(orientation, area) >= MinimumExtent(node, orientation, minimum, gap)
    decreases node, 1
  {
    if node.Split? {
      var row := SplitRow(node.orientation, area, gap, |node.children|, path);
      var ends := Ends(row, node.sizes, 0, 0.0);
      LastEnd(row, node.sizes, 0, 0.0);
      RowNeeds(row, node.children, ends, 0, Start(node.orientation, area), orientation, minimum);
    } else {
      assert Layout(node, area, gap, path).panes[0].box == area;
    }
  }

  lemma {:induction false} LastEnd(row: SplitRow, sizes: seq<real>, index: nat, share: real)
    requires sizes != [] && index + |sizes| == row.count
    ensures Ends(row, sizes, index, share)[|sizes| - 1] == Limit(row.orientation, row.area)
  {
    if |sizes| > 1 {
      LastEnd(row, sizes[1..], index + 1, share + sizes[0]);
    }
  }

  lemma {:induction false} RowNeeds(row: SplitRow, children: seq<PaneNode>, ends: seq<int>, index: nat, edge: int,
                                    orientation: Orientation, minimum: PaneMinimum)
    requires children != [] && |children| == |ends| && AllSized(children) && AllHavePanes(children)
    requires ends[|ends| - 1] == Limit(row.orientation, row.area)
    requires AllFit(LayoutRow(row, children, ends, index, edge).panes, minimum)
    ensures if row.orientation == orientation
            then Limit(orientation, row.area) - edge >= TotalExtent(children, orientation, minimum, row.gap)
                + row.gap * (|children| - 1)
            else Along(orientation, row.area) >= WidestExtent(children, orientation, minimum, row.gap)
    decreases children, 0
  {
    var area := Region(row.orientation, row.area, edge, ends[0] - edge);
    var first := Layout(children[0], area, row.gap, row.path + [index]);
    var rest := LayoutRow(row, children[1..], ends[1..], index + 1, ends[0] + row.gap);
    AllFitAppend(first.panes, rest.panes, minimum);
    MinimumExtentIsNeeded(children[0], orientation, minimum, area, row.gap, row.path + [index]);
    if |children| > 1 {
      RowNeeds(row, children[1..], ends[1..], index + 1, ends[0] + row.gap, orientation, minimum);
      GapsLeft(row.gap, |children|, |children| - 2);
    } else {
      assert children[1..] == [];
    }
  }

  // ----- finding a split -----

  // Walks down child by child; a pane at the end of the path counts as none.
  method GetSplitAt(root: PaneNode, path: seq<int>) returns (split: Option<PaneNode>)
    ensures split == match NodeAt(root, path)
                     case Some(node) => if node.Split? then Some(node) else None
                     case None => None
  {
    var node := Some(root);
    for k := 0 to |path|
      invariant NodeAt(root, path) == if node.Some? then NodeAt(node.value, path[k..]) else None
    {
      assert path[k..][1..] == path[k + 1..];
      node := if node.Some? && node.value.Split? && 0 <= path[k] < |node.value.children|
          then Some(node.value.children[path[k]])
              else None;
    }
    split := if node.Some? && node.value.Split? then node else None;
  }
}