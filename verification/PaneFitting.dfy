// The least room a tree needs is enough (src/lib/paneLayout.ts): in a box of
// that room the sizes can be chosen so that every pane has its minimum.
module PaneFitting {
  import opened Sequences
  import opened PaneTrees
  import opened PaneLayout

  // The same panes in the same splits, with sizes of their own.
  predicate SameShape(a: PaneNode, b: PaneNode)
    decreases a, 1
  {
    match (a, b)
    case (Pane(x), Pane(y)) => x == y
    case (Split(o, some, _), Split(p, others, _)) => o == p && SameShapes(some, others)
    case _ => false
  }

  predicate SameShapes(a: seq<PaneNode>, b: seq<PaneNode>)
    decreases a, 0
  {
    |a| == |b| && (a == [] || (SameShape(a[0], b[0]) && SameShapes(a[1..], b[1..])))
  }

  // Every split's sizes are shares of one.
  predicate HasShares(node: PaneNode)
    decreases node, 1
  {
    node.Split? ==> AreShares(node.sizes) && AllHaveShares(node.children)
  }

  predicate AllHaveShares(children: seq<PaneNode>)
    decreases children, 0
  {
    children == [] || (HasShares(children[0]) && AllHaveShares(children[1..]))
  }

  predicate IsMinimum(minimum: PaneMinimum) {
    minimum.width > 0 && minimum.height > 0
  }

  // ----- sizes that fit -----

  // What the first of the children gets along the row: its least extent, or
  // for the last one all that is left.
  function FirstLength(row: SplitRow, children: seq<PaneNode>, edge: int, minimum: PaneMinimum): int
    requires children != [] && AllHavePanes(children)
  {
    if |children| == 1 then Limit(row.orientation, row.area) - edge
    else MinimumExtent(children[0], row.orientation, minimum, row.gap)
  }

  function RoomOf(row: SplitRow): int {
    Room(row.orientation, row.area, row.gap, row.count)
  }

  function FittedSizes(row: SplitRow, children: seq<PaneNode>, edge: int, minimum: PaneMinimum): (r: seq<real>)
    requires AllHavePanes(children) && RoomOf(row) > 0
    ensures |r| == |children|
  {
    if children == [] then []
    else
      var length := FirstLength(row, children, edge, minimum);
      [length as real / RoomOf(row) as real] + FittedSizes(row, children[1..], edge + length + row.gap, minimum)
  }

  // Where each of the children ends.
  function FittedEnds(row: SplitRow, children: seq<PaneNode>, edge: int, minimum: PaneMinimum): (r: seq<int>)
    requires AllHavePanes(children)
    ensures |r| == |children|
  {
    if children == [] then []
    else
      var end := edge + FirstLength(row, children, edge, minimum);
      [end] + FittedEnds(row, children[1..], end + row.gap, minimum)
  }

  // The tree with sizes that give every pane its minimum, if there is room.
  function Fitted(node: PaneNode, area: PaneBox, gap: nat, minimum: PaneMinimum): PaneNode
    requires HasPanes(node)
    decreases node, 1
  {
    match node
    case Pane(_) => node
    case Split(orientation, children, sizes) =>
      var row := SplitRow(orientation, area, gap, |children|, []);
      Split(orientation, FittedChildren(row, children, Start(orientation, area), minimum),
            if RoomOf(row) > 0 then FittedSizes(row, children, Start(orientation, area), minimum) else sizes)
  }

  function FittedChildren(row: SplitRow, children: seq<PaneNode>, edge: int, minimum: PaneMinimum): (r: seq<PaneNode>)
    requires AllHavePanes(children)
    ensures |r| == |children|
    decreases children, 0
  {
    if children == [] then []
    else
      var length := FirstLength(row, children, edge, minimum);
      [Fitted(children[0], Region(row.orientation, row.area, edge, length), row.gap, minimum)]
      + FittedChildren(row, children[1..], edge + length + row.gap, minimum)
  }

  lemma {:induction false} FittedHasTheShape(node: PaneNode, area: PaneBox, gap: nat, minimum: PaneMinimum)
    requires HasPanes(node)
    ensures SameShape(Fitted(node, area, gap, minimum), node)
    decreases node, 1
  {
    if node.Split? {
      var row := SplitRow(node.orientation, area, gap, |node.children|, []);
      FittedChildrenHaveTheShapes(row, node.children, Start(node.orientation, area), minimum);
    }
  }

  lemma {:induction false} FittedChildrenHaveTheShapes(row: SplitRow, children: seq<PaneNode>, edge: int,
          minimum: PaneMinimum)
    requires AllHavePanes(children)
    ensures SameShapes(FittedChildren(row, children, edge, minimum), children)
    decreases children, 0
  {
    if children != [] {
      var length := FirstLength(row, children, edge, minimum);
      FittedHasTheShape(children[0], Region(row.orientation, row.area, edge, length), row.gap, minimum);
      FittedChildrenHaveTheShapes(row, children[1..], edge + length + row.gap, minimum);
    }
  }

  // ----- they are shares, and the edges come out whole -----

  lemma {:induction false} ExtentIsPositive(node: PaneNode, orientation: Orientation, minimum: PaneMinimum, gap: nat)
    requires HasPanes(node) && IsMinimum(minimum)
    ensures MinimumExtent(node, orientation, minimum, gap) > 0
    decreases node, 1
  {
    if node.Split? {
      ExtentsArePositive(node.children, orientation, minimum, gap);
      assert gap * (|node.children| - 1) >= 0;
    }
  }

  lemma {:induction false} ExtentsArePositive(children: seq<PaneNode>, orientation: Orientation, minimum: PaneMinimum,
          gap: nat)
    requires AllHavePanes(children) && IsMinimum(minimum)
    ensures TotalExtent(children, orientation, minimum, gap) >= |children|
    ensures children != [] ==> WidestExtent(children, orientation, minimum, gap) > 0
    decreases children, 0
  {
    if children != [] {
      ExtentIsPositive(children[0], orientation, minimum, gap);
      ExtentsArePositive(children[1..], orientation, minimum, gap);
    }
  }

  // The children from `index` on, with `used` of the room before them, have
  // the room they need.
  predicate HasLeft(row: SplitRow, children: seq<PaneNode>, index: nat, used: int, edge: int, minimum: PaneMinimum)
    requires AllHavePanes(children)
  {
    && children != [] && index + |children| == row.count && used >= 0
    && edge == Start(row.orientation, row.area) + used + row.gap * index
    && RoomOf(row) - used >= TotalExtent(children, row.orientation, minimum, row.gap)
    && Along(row.orientation, row.area) == RoomOf(row) + row.gap * (row.count - 1)
  }

  lemma LastLength(row: SplitRow, children: seq<PaneNode>, index: nat, used: int, edge: int, minimum: PaneMinimum)
    requires AllHavePanes(children) && HasLeft(row, children, index, used, edge, minimum) && |children| == 1
    ensures FirstLength(row, children, edge, minimum) == RoomOf(row) - used
    ensures RoomOf(row) - used >= MinimumExtent(children[0], row.orientation, minimum, row.gap)
  {
    assert children[1..] == [] && TotalExtent([], row.orientation, minimum, row.gap) == 0;
    assert index == row.count - 1;
  }

  lemma LeftAfterOne(row: SplitRow, children: seq<PaneNode>, index: nat, used: int, edge: int, minimum: PaneMinimum)
    requires AllHavePanes(children) && HasLeft(row, children, index, used, edge, minimum) && |children| > 1
    requires MinimumExtent(children[0], row.orientation, minimum, row.gap) >= 0
    ensures var length := FirstLength(row, children, edge, minimum);
      HasLeft(row, children[1..], index + 1, used + length, edge + length + row.gap, minimum)
  {
    assert row.gap * (index + 1) == row.gap * index + row.gap;
  }

  lemma ShareGrows(used: int, length: int, room: int)
    requires room > 0
    ensures used as real / room as real + length as real / room as real == (used + length) as real / room as real
    ensures room as real * ((used + length) as real / room as real) == (used + length) as real
    ensures length >= 0 ==> length as real / room as real >= 0.0
  {
  }

  lemma FirstLengthIsPositive(row: SplitRow, children: seq<PaneNode>, index: nat, used: int, edge: int,
          minimum: PaneMinimum)
    requires AllHavePanes(children) && HasLeft(row, children, index, used, edge, minimum) && IsMinimum(minimum)
    ensures FirstLength(row, children, edge, minimum) > 0
    ensures MinimumExtent(children[0], row.orientation, minimum, row.gap) > 0
  {
    ExtentIsPositive(children[0], row.orientation, minimum, row.gap);
    if |children| == 1 {
      LastLength(row, children, index, used, edge, minimum);
    }
  }

  lemma {:induction false} SizesAreShares(row: SplitRow, children: seq<PaneNode>, index: nat, used: int, edge: int,
          minimum: PaneMinimum)
    requires AllHavePanes(children) && HasLeft(row, children, index, used, edge, minimum)
    requires RoomOf(row) > 0 && IsMinimum(minimum)
    ensures var sizes := FittedSizes(row, children, edge, minimum);
      && (forall i :: 0 <= i < |sizes| ==> sizes[i] >= 0.0)
      && Sum(sizes) == (RoomOf(row) - used) as real / RoomOf(row) as real
  {
    FirstLengthIsPositive(row, children, index, used, edge, minimum);
    hide RoomOf;
    hide FirstLength;
    hide HasLeft;
    hide IsMinimum;
    var length := FirstLength(row, children, edge, minimum);
    if |children| == 1 {
      LastLength(row, children, index, used, edge, minimum);
      ShareGrows(0, length, RoomOf(row));
      assert children[1..] == [];
    } else {
      LeftAfterOne(row, children, index, used, edge, minimum);
      SizesAreShares(row, children[1..], index + 1, used + length, edge + length + row.gap, minimum);
      ShareGrows(length, RoomOf(row) - used - length, RoomOf(row));
    }
  }

  lemma WholeEdge(row: SplitRow, index: nat, used: int)
    requires RoomOf(row) > 0 && index < row.count - 1
    ensures EndEdge(row, index, used as real / RoomOf(row) as real)
         == Start(row.orientation, row.area) + used + row.gap * index
  {
    ShareGrows(used, 0, RoomOf(row));
    var whole := Start(row.orientation, row.area) + used + row.gap * index;
    assert Round(whole as real) == whole;
  }

  // No edge is rounded: each child ends where it is to end.
  lemma {:induction false} EndsAreWhole(row: SplitRow, children: seq<PaneNode>, index: nat, used: int, edge: int,
          minimum: PaneMinimum)
    requires AllHavePanes(children) && HasLeft(row, children, index, used, edge, minimum)
    requires RoomOf(row) > 0 && IsMinimum(minimum)
    ensures Ends(row, FittedSizes(row, children, edge, minimum), index, used as real / RoomOf(row) as real)
         == FittedEnds(row, children, edge, minimum)
  {
    hide Room;
    hide RoomOf;
    hide EndEdge;
    var length, sizes := FirstLength(row, children, edge, minimum), FittedSizes(row, children, edge, minimum);
    ExtentIsPositive(children[0], row.orientation, minimum, row.gap);
    ShareGrows(used, length, RoomOf(row));
    if |children| == 1 {
      LastEndIsLimit(row, index, used as real / RoomOf(row) as real + sizes[0]);
      assert children[1..] == [] && sizes[1..] == [];
    } else {
      WholeEdge(row, index, used + length);
      LeftAfterOne(row, children, index, used, edge, minimum);
      EndsAreWhole(row, children[1..], index + 1, used + length, edge + length + row.gap, minimum);
      assert sizes[1..] == FittedSizes(row, children[1..], edge + length + row.gap, minimum);
    }
  }

  lemma LastEndIsLimit(row: SplitRow, index: nat, share: real)
    requires index == row.count - 1
    ensures EndEdge(row, index, share) == Limit(row.orientation, row.area)
  {
  }

  // ----- every pane has its minimum -----

  function Other(orientation: Orientation): Orientation {
    if orientation.Horizontal? then Vertical else Horizontal
  }

  // The box has the least extent in both directions.
  predicate HasExtent(node: PaneNode, area: PaneBox, gap: nat, minimum: PaneMinimum)
    requires HasPanes(node)
  {
    && area.width >= MinimumExtent(node, Horizontal, minimum, gap)
    && area.height >= MinimumExtent(node, Vertical, minimum, gap)
  }

  ghost predicate Fits(node: PaneNode, area: PaneBox, gap: nat, minimum: PaneMinimum, path: seq<int>)
    requires Sized(node)
  {
    HasShares(node) && AllFit(Layout(node, area, gap, path).panes, minimum)
  }

  lemma BothFit(a: seq<PlacedBox>, b: seq<PlacedBox>, minimum: PaneMinimum)
    requires AllFit(a, minimum) && AllFit(b, minimum)
    ensures AllFit(a + b, minimum)
  {
  }

  // The first child gets what it needs, along the row and across it.
  lemma FirstHasExtent(row: SplitRow, children: seq<PaneNode>, index: nat, used: int, edge: int, minimum: PaneMinimum)
    requires AllHavePanes(children) && HasLeft(row, children, index, used, edge, minimum) && IsMinimum(minimum)
    requires Along(Other(row.orientation), row.area) >= WidestExtent(children, Other(row.orientation), minimum, row.gap)
    ensures var length := FirstLength(row, children, edge, minimum);
      HasExtent(children[0], Region(row.orientation, row.area, edge, length), row.gap, minimum)
  {
    if |children| == 1 {
      LastLength(row, children, index, used, edge, minimum);
    }
  }

  lemma {:induction false} FittedFits(node: PaneNode, area: PaneBox, gap: nat, minimum: PaneMinimum, path: seq<int>)
    requires HasPanes(node) && IsMinimum(minimum) && HasExtent(node, area, gap, minimum)
    ensures Sized(Fitted(node, area, gap, minimum)) && Fits(Fitted(node, area, gap, minimum), area, gap, minimum, path)
    decreases node, 1
  {
    if node.Split? {
      var row := SplitRow(node.orientation, area, gap, |node.children|, path);
      SplitHasLeft(node, area, gap, minimum);
      RowFits(row, node.children, 0, 0, Start(node.orientation, area), minimum);
      SplitFits(node, area, gap, minimum, path);
    }
  }

  lemma SplitHasLeft(node: PaneNode, area: PaneBox, gap: nat, minimum: PaneMinimum)
    requires node.Split? && HasPanes(node) && IsMinimum(minimum) && HasExtent(node, area, gap, minimum)
    ensures var row := SplitRow(node.orientation, area, gap, |node.children|, []);
      && HasLeft(row, node.children, 0, 0, Start(node.orientation, area), minimum) && RoomOf(row) > 0
      && Along(Other(row.orientation), area) >= WidestExtent(node.children, Other(row.orientation), minimum, gap)
  {
    ExtentsArePositive(node.children, node.orientation, minimum, gap);
    assert gap * 0 == 0;
  }

  lemma ShareOfAll(room: int)
    requires room > 0
    ensures 0 as real / room as real == 0.0 && (room - 0) as real / room as real == 1.0
  {
  }

  // The sizes put each child where it was fitted.
  lemma SplitFits(node: PaneNode, area: PaneBox, gap: nat, minimum: PaneMinimum, path: seq<int>)
    requires node.Split? && HasPanes(node) && IsMinimum(minimum) && HasExtent(node, area, gap, minimum)
    requires var row := SplitRow(node.orientation, area, gap, |node.children|, path);
      var plain, edge := row.(path := []), Start(node.orientation, area);
      var fitted := FittedChildren(plain, node.children, edge, minimum);
      && AllSized(fitted) && AllHaveShares(fitted)
      && AllFit(LayoutRow(row, fitted, FittedEnds(plain, node.children, edge, minimum), 0, edge).panes, minimum)
    ensures Sized(Fitted(node, area, gap, minimum)) && Fits(Fitted(node, area, gap, minimum), area, gap, minimum, path)
  {
    hide AllFit;
    hide LayoutRow;
    hide HasExtent;
    hide Ends;
    var row := SplitRow(node.orientation, area, gap, |node.children|, path);
    var plain, edge := row.(path := []), Start(node.orientation, area);
    SplitHasLeft(node, area, gap, minimum);
    SizesAreShares(plain, node.children, 0, 0, edge, minimum);
    EndsAreWhole(plain, node.children, 0, 0, edge, minimum);
    EndsWithoutPath(row, FittedSizes(plain, node.children, edge, minimum), 0, 0.0);
    ShareOfAll(RoomOf(plain));
  }

  lemma {:induction false} RowFits(row: SplitRow, children: seq<PaneNode>, index: nat, used: int, edge: int,
          minimum: PaneMinimum)
    requires AllHavePanes(children) && IsMinimum(minimum)
    requires HasLeft(row.(path := []), children, index, used, edge, minimum)
    requires Along(Other(row.orientation), row.area) >= WidestExtent(children, Other(row.orientation), minimum, row.gap)
    ensures var plain := row.(path := []);
      var fitted := FittedChildren(plain, children, edge, minimum);
      && AllSized(fitted) && AllHaveShares(fitted)
      && AllFit(LayoutRow(row, fitted, FittedEnds(plain, children, edge, minimum), index, edge).panes, minimum)
    decreases children, 0
  {
    hide *;
    var plain := row.(path := []);
    SomeAreLeft(plain, children, index, used, edge, minimum);
    var length := FirstLength(plain, children, edge, minimum);
    var area, end, rest := Region(row.orientation, row.area, edge, length), edge + length, children[1..];
    RowIsFittedBy(plain, children, edge, minimum);
    FirstHasExtent(plain, children, index, used, edge, minimum);
    FittedFits(children[0], area, row.gap, minimum, row.path + [index]);
    if |children| == 1 {
      NoPanesFit(row, rest, index + 1, end + row.gap, minimum);
    } else {
      FirstLengthIsPositive(plain, children, index, used, edge, minimum);
      LeftAfterOne(plain, children, index, used, edge, minimum);
      RestIsNarrower(children, Other(row.orientation), minimum, row.gap);
      RowFits(row, rest, index + 1, used + length, end + row.gap, minimum);
    }
    FirstFitsTheRest(row, Fitted(children[0], area, row.gap, minimum),
                     FittedChildren(plain, rest, end + row.gap, minimum), end,
                     FittedEnds(plain, rest, end + row.gap, minimum), index, edge, minimum);
  }

  lemma SomeAreLeft(row: SplitRow, children: seq<PaneNode>, index: nat, used: int, edge: int, minimum: PaneMinimum)
    requires AllHavePanes(children) && HasLeft(row, children, index, used, edge, minimum)
    ensures children != []
  {
  }

  lemma RowIsFittedBy(row: SplitRow, children: seq<PaneNode>, edge: int, minimum: PaneMinimum)
    requires AllHavePanes(children) && children != []
    ensures HasPanes(children[0]) && AllHavePanes(children[1..])
    ensures var length := FirstLength(row, children, edge, minimum);
      var area, end := Region(row.orientation, row.area, edge, length), edge + length;
      && FittedChildren(row, children, edge, minimum)
         == [Fitted(children[0], area, row.gap, minimum)] + FittedChildren(row, children[1..], end + row.gap, minimum)
      && FittedEnds(row, children, edge, minimum) == [end] + FittedEnds(row, children[1..], end + row.gap, minimum)
  {
  }

  lemma RestIsNarrower(children: seq<PaneNode>, orientation: Orientation, minimum: PaneMinimum, gap: nat)
    requires AllHavePanes(children) && |children| > 1
    ensures WidestExtent(children, orientation, minimum, gap) >= WidestExtent(children[1..], orientation, minimum, gap)
  {
  }

  lemma NoPanesFit(row: SplitRow, none: seq<PaneNode>, index: nat, edge: int, minimum: PaneMinimum)
    requires none == []
    ensures var plain := row.(path := []);
      var fitted := FittedChildren(plain, none, edge, minimum);
      && AllSized(fitted) && AllHaveShares(fitted)
      && AllFit(LayoutRow(row, fitted, FittedEnds(plain, none, edge, minimum), index, edge).panes, minimum)
  {
  }

  lemma FirstFitsTheRest(row: SplitRow, first: PaneNode, rest: seq<PaneNode>, end: int, ends: seq<int>, index: nat,
          edge: int, minimum: PaneMinimum)
    requires |rest| == |ends| && Sized(first) && AllSized(rest) && AllHaveShares(rest)
    requires Fits(first, Region(row.orientation, row.area, edge, end - edge), row.gap, minimum, row.path + [index])
    requires AllFit(LayoutRow(row, rest, ends, index + 1, end + row.gap).panes, minimum)
    ensures AllSized([first] + rest) && AllHaveShares([first] + rest)
    ensures AllFit(LayoutRow(row, [first] + rest, [end] + ends, index, edge).panes, minimum)
  {
    hide AllFit;
    var all, allEnds := [first] + rest, [end] + ends;
    assert all[0] == first && all[1..] == rest && allEnds[0] == end && allEnds[1..] == ends;
    BothFit(Layout(first, Region(row.orientation, row.area, edge, end - edge), row.gap, row.path + [index]).panes,
            LayoutRow(row, rest, ends, index + 1, end + row.gap).panes, minimum);
  }

  // ----- the least extent, exactly -----

  lemma {:induction false} SameShapeSameExtent(a: PaneNode, b: PaneNode, orientation: Orientation, minimum: PaneMinimum,
          gap: nat)
    requires SameShape(a, b) && HasPanes(b)
    ensures HasPanes(a) && MinimumExtent(a, orientation, minimum, gap) == MinimumExtent(b, orientation, minimum, gap)
    decreases a, 1
  {
    if a.Split? {
      SameShapesSameExtents(a.children, b.children, orientation, minimum, gap);
    }
  }

  lemma {:induction false} SameShapesSameExtents(a: seq<PaneNode>, b: seq<PaneNode>, orientation: Orientation,
          minimum: PaneMinimum, gap: nat)
    requires SameShapes(a, b) && AllHavePanes(b)
    ensures AllHavePanes(a)
    ensures TotalExtent(a, orientation, minimum, gap) == TotalExtent(b, orientation, minimum, gap)
    ensures a != [] ==> WidestExtent(a, orientation, minimum, gap) == WidestExtent(b, orientation, minimum, gap)
    decreases a, 0
  {
    if a != [] {
      SameShapeSameExtent(a[0], b[0], orientation, minimum, gap);
      SameShapesSameExtents(a[1..], b[1..], orientation, minimum, gap);
    }
  }

  // Some sizes give every pane its minimum exactly when the box has the least
  // extent in both directions.
  lemma FitsExactlyWhen(node: PaneNode, area: PaneBox, gap: nat, minimum: PaneMinimum)
    requires HasPanes(node) && IsMinimum(minimum)
    ensures (exists sized: PaneNode :: SameShape(sized, node) && Sized(sized) && Fits(sized, area, gap, minimum, []))
       <==> HasExtent(node, area, gap, minimum)
  {
    if sized: PaneNode :| SameShape(sized, node) && Sized(sized) && Fits(sized, area, gap, minimum, []) {
      SameShapeSameExtent(sized, node, Horizontal, minimum, gap);
      SameShapeSameExtent(sized, node, Vertical, minimum, gap);
      MinimumExtentIsNeeded(sized, Horizontal, minimum, area, gap, []);
      MinimumExtentIsNeeded(sized, Vertical, minimum, area, gap, []);
    }
    if HasExtent(node, area, gap, minimum) {
      FittedHasTheShape(node, area, gap, minimum);
      FittedFits(node, area, gap, minimum, []);
    }
  }
}
