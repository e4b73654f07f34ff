// What a split tree means: the rectangle it gives each pane, with no gap and
// no rounding, and what the edits of src/lib/tabGroups.ts do to rectangles.
module PaneGeometry {
  import opened Sequences
  import opened PaneTrees

  datatype Rect = Rect(left: real, top: real, width: real, height: real)

  datatype Placed = Placed(tabId: TabId, at: Rect)

  // The part of `box` that starts at share `from` and takes `share` of it.
  function Slice(orientation: Orientation, box: Rect, from: real, share: real): Rect {
    if orientation.Horizontal?
    then Rect(box.left + box.width * from, box.top, box.width * share, box.height)
    else Rect(box.left, box.top + box.height * from, box.width, box.height * share)
  }

  // The panes of a tree, in order, with the rectangle each one has.
  function Place(node: PaneNode, box: Rect): seq<Placed>
    decreases node, 1
  {
    match node
    case Pane(id) => [Placed(id, box)]
    case Split(orientation, children, _) => PlaceRow(orientation, children, OwnShares(node), 0.0, box)
  }

  function PlaceRow(orientation: Orientation, children: seq<PaneNode>, shares: seq<real>, from: real,
          box: Rect): seq<Placed>
    requires |children| == |shares|
    decreases children, 0
  {
    if children == [] then []
    else Place(children[0], Slice(orientation, box, from, shares[0]))
         + PlaceRow(orientation, children[1..], shares[1..], from + shares[0], box)
  }

  function Ids(places: seq<Placed>): (r: seq<TabId>)
    ensures |r| == |places|
  {
    if places == [] then [] else [places[0].tabId] + Ids(places[1..])
  }

  // ----- slices -----

  lemma SliceOfWhole(orientation: Orientation, box: Rect)
    ensures Slice(orientation, box, 0.0, 1.0) == box
  {
  }

  lemma SliceOfSlice(orientation: Orientation, box: Rect, from: real, share: real, inner: real, part: real,
                     start: real, whole: real)
    requires start == from + share * inner && whole == part * share
    ensures Slice(orientation, Slice(orientation, box, from, share), inner, part)
            == Slice(orientation, box, start, whole)
  {
    var extent := if orientation.Horizontal? then box.width else box.height;
    assert extent * start == extent * from + (extent * share) * inner;
    assert (extent * share) * part == extent * whole;
  }

  lemma {:induction false} PlaceRowAppend(orientation: Orientation, children: seq<PaneNode>, shares: seq<real>,
                                          more: seq<PaneNode>, moreShares: seq<real>, from: real, box: Rect)
    requires |children| == |shares| && |more| == |moreShares|
    ensures PlaceRow(orientation, children + more, shares + moreShares, from, box)
         == PlaceRow(orientation, children, shares, from, box)
            + PlaceRow(orientation, more, moreShares, from + Sum(shares), box)
  {
    if children == [] {
      assert children + more == more && shares + moreShares == moreShares;
    } else {
      assert (children + more)[1..] == children[1..] + more && (shares + moreShares)[1..] == shares[1..] + moreShares;
      PlaceRowAppend(orientation, children[1..], shares[1..], more, moreShares, from + shares[0], box);
      Associates(Place(children[0], Slice(orientation, box, from, shares[0])),
                 PlaceRow(orientation, children[1..], shares[1..], from + shares[0], box),
                 PlaceRow(orientation, more, moreShares, from + Sum(shares), box));
    }
  }

  // A row inside a slice of the box is a row of the box with smaller shares.
  lemma {:induction false} PlaceRowInSlice(orientation: Orientation, children: seq<PaneNode>, shares: seq<real>,
                                           inner: real, box: Rect, from: real, share: real, start: real)
    requires |children| == |shares| && start == from + share * inner
    ensures PlaceRow(orientation, children, shares, inner, Slice(orientation, box, from, share))
         == PlaceRow(orientation, children, Scaled(shares, share), start, box)
  {
    if children != [] {
      var scaled := Scaled(shares, share);
      assert scaled[1..] == Scaled(shares[1..], share);
      SliceOfSlice(orientation, box, from, share, inner, shares[0], start, scaled[0]);
      assert start + scaled[0] == from + share * (inner + shares[0]);
      PlaceRowInSlice(orientation, children[1..], shares[1..], inner + shares[0], box, from, share, start + scaled[0]);
    }
  }

  // ----- normalising keeps every rectangle -----

  lemma UnnestedKeepsPlaces(orientation: Orientation, child: PaneNode, share: real, from: real, box: Rect)
    requires Canonical(child)
    ensures var row := Unnested(orientation, child, share);
      && |row.children| == |row.sizes|
      && PlaceRow(orientation, row.children, row.sizes, from, box) == Place(child, Slice(orientation, box, from, share))
      && Sum(row.sizes) == share
  {
    if Runs(child, orientation) {
      PlaceCanonical(child, Slice(orientation, box, from, share));
      PlaceRowInSlice(orientation, child.children, child.sizes, 0.0, box, from, share, from);
      SumScaled(child.sizes, share);
    } else {
      assert [child][1..] == [] && [share][1..] == [];
    }
  }

  // In a canonical split the sizes are the shares.
  lemma PlaceCanonical(node: PaneNode, box: Rect)
    requires node.Split? && |node.sizes| == |node.children| && AreShares(node.sizes)
    ensures OwnShares(node) == node.sizes
    ensures Place(node, box) == PlaceRow(node.orientation, node.children, node.sizes, 0.0, box)
  {
    assert FilledSizes(|node.children|, node.sizes) == node.sizes;
    ScaleToOneKeepsShares(node.sizes);
  }

  lemma {:induction false} UnnestedRowKeepsPlaces(orientation: Orientation, children: seq<PaneNode>, shares: seq<real>,
                                                  from: real, box: Rect)
    requires |children| == |shares|
    requires forall i :: 0 <= i < |children| ==> Canonical(children[i])
    ensures var row := UnnestedRow(orientation, children, shares);
      && |row.children| == |row.sizes|
      && PlaceRow(orientation, row.children, row.sizes, from, box) == PlaceRow(orientation, children, shares, from, box)
  {
    if children != [] {
      var first := Unnested(orientation, children[0], shares[0]);
      var rest := UnnestedRow(orientation, children[1..], shares[1..]);
      UnnestedKeepsPlaces(orientation, children[0], shares[0], from, box);
      UnnestedRowKeepsPlaces(orientation, children[1..], shares[1..], from + shares[0], box);
      PlaceRowAppend(orientation, first.children, first.sizes, rest.children, rest.sizes, from, box);
    }
  }

  // Every pane keeps exactly the rectangle it had, and its place in the order.
  lemma {:induction false} NormalizedKeepsPlaces(node: PaneNode, box: Rect)
    requires HasPanes(node)
    ensures Place(Normalized(node), box) == Place(node, box)
    decreases node, 1
  {
    if node.Split? {
      var orientation, shares := node.orientation, OwnShares(node);
      var all := NormalizedAll(node.children);
      ScaleToOneGivesShares(FilledSizes(|node.children|, node.sizes));
      NormalizedAllAreCanonical(node.children);
      NormalizedAllKeepsPlaces(orientation, node.children, shares, 0.0, box);
      UnnestedRowKeepsPlaces(orientation, all, shares, 0.0, box);
      UnnestedRowIsCanonical(orientation, all, shares);
      var row := UnnestedRow(orientation, all, shares);
      if |row.children| == 1 {
        LoneChildTakesAll(orientation, row, box);
      } else {
        ScaleToOneKeepsShares(row.sizes);
        PlaceCanonical(Normalized(node), box);
      }
    }
  }

  lemma LoneChildTakesAll(orientation: Orientation, row: Row, box: Rect)
    requires |row.children| == |row.sizes| == 1 && Sum(row.sizes) == 1.0
    ensures PlaceRow(orientation, row.children, row.sizes, 0.0, box) == Place(row.children[0], box)
  {
    assert row.sizes[0] == 1.0 by { assert row.sizes[1..] == []; }
    SliceOfWhole(orientation, box);
    assert PlaceRow(orientation, row.children[1..], row.sizes[1..], 1.0, box) == [];
  }

  lemma {:induction false} NormalizedAllKeepsPlaces(orientation: Orientation, children: seq<PaneNode>,
          shares: seq<real>, from: real, box: Rect)
    requires |children| == |shares| && AllHavePanes(children)
    ensures PlaceRow(orientation, NormalizedAll(children), shares, from, box)
            == PlaceRow(orientation, children, shares, from, box)
    decreases children, 0
  {
    if children != [] {
      NormalizedKeepsPlaces(children[0], Slice(orientation, box, from, shares[0]));
      NormalizedAllKeepsPlaces(orientation, children[1..], shares[1..], from + shares[0], box);
    }
  }

  // ----- inserting beside a pane -----

  // The target's rectangle cut in two equal halves: the target in one, the
  // inserted tree laid out in the other, which is the left or upper one when
  // the direction says so.
  function Halves(target: Placed, inserted: PaneNode, direction: Direction): seq<Placed> {
    var first := Slice(SplitOrientation(direction), target.at, 0.0, 0.5);
    var second := Slice(SplitOrientation(direction), target.at, 0.5, 0.5);
    if IsBefore(direction)
    then Place(inserted, first) + [Placed(target.tabId, second)]
    else [Placed(target.tabId, first)] + Place(inserted, second)
  }

  // Every pane where it was, but for the target.
  function Beside(places: seq<Placed>, target: TabId, inserted: PaneNode, direction: Direction): seq<Placed> {
    if places == [] then []
    else if places[0].tabId == target then Halves(places[0], inserted, direction) + places[1..]
    else [places[0]] + Beside(places[1..], target, inserted, direction)
  }

  lemma {:induction false} IdsAppend(a: seq<Placed>, b: seq<Placed>)
    ensures Ids(a + b) == Ids(a) + Ids(b)
  {
    if a == [] {
      assert a + b == b;
    } else {
      IdsAppend(a[1..], b);
      assert (a + b)[1..] == a[1..] + b;
      Associates([a[0].tabId], Ids(a[1..]), Ids(b));
    }
  }

  lemma {:induction false} PlaceKeepsOrder(node: PaneNode, box: Rect)
    ensures Ids(Place(node, box)) == PaneIds(node)
    decreases node, 1
  {
    if node.Split? {
      PlaceRowKeepsOrder(node.orientation, node.children, OwnShares(node), 0.0, box);
    }
  }

  lemma {:induction false} PlaceRowKeepsOrder(orientation: Orientation, children: seq<PaneNode>, shares: seq<real>,
                                              from: real, box: Rect)
    requires |children| == |shares|
    ensures Ids(PlaceRow(orientation, children, shares, from, box)) == PaneIdsOf(children)
    decreases children, 0
  {
    if children != [] {
      var slice := Slice(orientation, box, from, shares[0]);
      PlaceKeepsOrder(children[0], slice);
      PlaceRowKeepsOrder(orientation, children[1..], shares[1..], from + shares[0], box);
      IdsAppend(Place(children[0], slice), PlaceRow(orientation, children[1..], shares[1..], from + shares[0], box));
    }
  }

  lemma {:induction false} BesideAbsent(places: seq<Placed>, target: TabId, inserted: PaneNode, direction: Direction)
    requires target !in Ids(places)
    ensures Beside(places, target, inserted, direction) == places
  {
    if places != [] {
      assert Ids(places)[0] == places[0].tabId && target !in Ids(places)[1..];
      BesideAbsent(places[1..], target, inserted, direction);
    }
  }

  lemma BesideFirst(a: seq<Placed>, b: seq<Placed>, target: TabId, inserted: PaneNode, direction: Direction)
    requires a != [] && a[0].tabId == target && target !in Ids(b)
    ensures Beside(a + b, target, inserted, direction)
         == Beside(a, target, inserted, direction) + Beside(b, target, inserted, direction)
  {
    hide Halves;
    BesideAbsent(b, target, inserted, direction);
    assert (a + b)[1..] == a[1..] + b;
    Associates(Halves(a[0], inserted, direction), a[1..], b);
  }

  lemma {:induction false} BesideAppend(a: seq<Placed>, b: seq<Placed>, target: TabId, inserted: PaneNode,
          direction: Direction)
    requires target !in Ids(a) || target !in Ids(b)
    ensures Beside(a + b, target, inserted, direction)
         == Beside(a, target, inserted, direction) + Beside(b, target, inserted, direction)
  {
    hide Halves;
    if a == [] {
      assert a + b == b;
      return;
    }
    assert Ids(a)[0] == a[0].tabId;
    if a[0].tabId == target {
      BesideFirst(a, b, target, inserted, direction);
      return;
    }
    assert target in Ids(a[1..]) ==> target in Ids(a);
    BesideAppend(a[1..], b, target, inserted, direction);
    assert (a + b)[1..] == a[1..] + b;
    Associates([a[0]], Beside(a[1..], target, inserted, direction), Beside(b, target, inserted, direction));
  }

  // The two children a target that is split in its own row becomes.
  function Pair(target: TabId, inserted: PaneNode, direction: Direction): seq<PaneNode> {
    if IsBefore(direction) then [inserted, Pane(target)] else [Pane(target), inserted]
  }

  lemma PlacePair(target: TabId, inserted: PaneNode, direction: Direction, from: real, share: real, box: Rect)
    ensures PlaceRow(SplitOrientation(direction), Pair(target, inserted, direction), [share / 2.0, share / 2.0],
                     from, box)
         == Halves(Placed(target, Slice(SplitOrientation(direction), box, from, share)), inserted, direction)
  {
    var orientation, half := SplitOrientation(direction), share / 2.0;
    var pair := Pair(target, inserted, direction);
    SliceOfSlice(orientation, box, from, share, 0.0, 0.5, from, half);
    SliceOfSlice(orientation, box, from, share, 0.5, 0.5, from + half, half);
    assert pair[1..] == [pair[1]] && [half, half][1..] == [half];
    assert pair[1..][1..] == [] && [half][1..] == [];
    assert PlaceRow(orientation, pair[1..], [half], from + half, box)
        == Place(pair[1], Slice(orientation, box, from + half, half)) + [];
  }

  lemma PlaceRowOfThree(orientation: Orientation, a: seq<PaneNode>, aSizes: seq<real>, b: seq<PaneNode>,
          bSizes: seq<real>, c: seq<PaneNode>, cSizes: seq<real>, share: real, box: Rect)
    requires |a| == |aSizes| && |b| == |bSizes| && |c| == |cSizes| && Sum(bSizes) == share
    ensures PlaceRow(orientation, a + b + c, aSizes + bSizes + cSizes, 0.0, box)
         == PlaceRow(orientation, a, aSizes, 0.0, box)
            + PlaceRow(orientation, b, bSizes, Sum(aSizes), box)
            + PlaceRow(orientation, c, cSizes, Sum(aSizes) + share, box)
  {
    PlaceRowAppend(orientation, a, aSizes, b, bSizes, 0.0, box);
    PlaceRowAppend(orientation, a + b, aSizes + bSizes, c, cSizes, 0.0, box);
    SumAppend(aSizes, bSizes);
  }

  lemma PaneIsAbsentBeside(before: seq<PaneNode>, target: TabId, after: seq<PaneNode>)
    requires Distinct(PaneIdsOf(before + [Pane(target)] + after))
    ensures target !in PaneIdsOf(before) && target !in PaneIdsOf(after)
  {
    PaneIdsOfAppend(before, [Pane(target)]);
    PaneIdsOfAppend(before + [Pane(target)], after);
    assert PaneIdsOf([Pane(target)]) == [target] by { assert [Pane(target)][1..] == []; }
    DistinctAppend(PaneIdsOf(before) + [target], PaneIdsOf(after));
    DistinctAppend(PaneIdsOf(before), [target]);
    assert target in [target];
  }

  lemma SumOfPair(half: real)
    ensures Sum([half, half]) == 2.0 * half && Sum([half]) == half
  {
    assert [half][1..] == [] && [half, half][1..] == [half];
    assert Sum([half, half]) == half + Sum([half]);
  }

  lemma SplicedKeepsPlaces(orientation: Orientation, before: seq<PaneNode>, beforeSizes: seq<real>, target: TabId,
          share: real, after: seq<PaneNode>, afterSizes: seq<real>, inserted: PaneNode, direction: Direction, box: Rect)
    requires |before| == |beforeSizes| && |after| == |afterSizes|
    requires orientation == SplitOrientation(direction)
    requires Distinct(PaneIdsOf(before + [Pane(target)] + after))
    ensures var half := share / 2.0;
      PlaceRow(orientation, before + Pair(target, inserted, direction) + after,
               beforeSizes + [half, half] + afterSizes, 0.0, box)
      == Beside(PlaceRow(orientation, before + [Pane(target)] + after, beforeSizes + [share] + afterSizes, 0.0, box),
                target, inserted, direction)
  {
    var half, from := share / 2.0, Sum(beforeSizes);
    SumOfPair(half);
    SumOfPair(share);
    PlaceRowOfThree(orientation, before, beforeSizes, [Pane(target)], [share], after, afterSizes, share, box);
    PlaceRowOfThree(orientation, before, beforeSizes, Pair(target, inserted, direction), [half, half], after,
                    afterSizes, share, box);
    PlacePair(target, inserted, direction, from, share, box);
    var left := PlaceRow(orientation, before, beforeSizes, 0.0, box);
    var right := PlaceRow(orientation, after, afterSizes, from + share, box);
    var middle := Placed(target, Slice(orientation, box, from, share));
    assert PlaceRow(orientation, [Pane(target)], [share], from, box) == [middle] by {
      assert [Pane(target)][1..] == [] && [share][1..] == [];
    }
    PaneIsAbsentBeside(before, target, after);
    PlaceRowKeepsOrder(orientation, before, beforeSizes, 0.0, box);
    PlaceRowKeepsOrder(orientation, after, afterSizes, from + share, box);
    BesideOfTarget(left, middle, right, inserted, direction);
  }

  lemma BesideOfTarget(left: seq<Placed>, middle: Placed, right: seq<Placed>, inserted: PaneNode, direction: Direction)
    requires middle.tabId !in Ids(left) && middle.tabId !in Ids(right)
    ensures Beside(left + [middle] + right, middle.tabId, inserted, direction)
         == left + Halves(middle, inserted, direction) + right
  {
    var target := middle.tabId;
    IdsAppend(left, [middle]);
    BesideAppend(left, [middle], target, inserted, direction);
    BesideAppend(left + [middle], right, target, inserted, direction);
    BesideAbsent(left, target, inserted, direction);
    BesideAbsent(right, target, inserted, direction);
    assert Beside([middle], target, inserted, direction) == Halves(middle, inserted, direction) by {
      assert [middle][1..] == [];
    }
  }

  lemma SplicedSizesAreShares(sizes: seq<real>, index: nat)
    requires index < |sizes| && AreShares(sizes)
    ensures var half := sizes[index] / 2.0;
      AreShares(sizes[..index] + [half, half] + sizes[index + 1..])
  {
    var half := sizes[index] / 2.0;
    assert sizes == sizes[..index] + [sizes[index]] + sizes[index + 1..];
    SumAppend(sizes[..index], [sizes[index]]);
    SumAppend(sizes[..index] + [sizes[index]], sizes[index + 1..]);
    SumAppend(sizes[..index], [half, half]);
    SumAppend(sizes[..index] + [half, half], sizes[index + 1..]);
    assert [sizes[index]][1..] == [] && [half, half][1..] == [half] && [half][1..] == [];
  }

  lemma InsertIntoPaneKeepsPlaces(target: TabId, inserted: PaneNode, direction: Direction, box: Rect)
    ensures Place(InsertInto(Pane(target), target, inserted, direction), box)
         == Beside(Place(Pane(target), box), target, inserted, direction)
  {
    hide Slice;
    hide PlaceRow;
    var pair := InsertInto(Pane(target), target, inserted, direction);
    SumOfPair(0.5);
    PlaceCanonical(pair, box);
    SliceOfWhole(SplitOrientation(direction), box);
    PlacePair(target, inserted, direction, 0.0, 1.0, box);
    assert Place(Pane(target), box)[1..] == [];
  }

  // Inside a row of its own orientation the target's share is halved in place.
  lemma InsertIntoRow(node: PaneNode, target: TabId, inserted: PaneNode, direction: Direction)
    requires node.Split? && Canonical(node)
    requires PaneIndex(node.children, target) >= 0 && node.orientation == SplitOrientation(direction)
    ensures var index := PaneIndex(node.children, target);
      var half := node.sizes[index] / 2.0;
      InsertInto(node, target, inserted, direction)
      == Split(node.orientation,
               node.children[..index] + Pair(target, inserted, direction) + node.children[index + 1..],
               node.sizes[..index] + [half, half] + node.sizes[index + 1..])
  {
    var index, children := PaneIndex(node.children, target), node.children;
    var at := if IsBefore(direction) then index else index + 1;
    assert children[..at] + [inserted] + children[at..]
        == children[..index] + Pair(target, inserted, direction) + children[index + 1..];
  }

  lemma SplicedSplitKeepsPlaces(orientation: Orientation, before: seq<PaneNode>, beforeSizes: seq<real>,
          target: TabId, share: real,
          after: seq<PaneNode>, afterSizes: seq<real>, inserted: PaneNode, direction: Direction, box: Rect)
    requires |before| == |beforeSizes| && |after| == |afterSizes|
    requires orientation == SplitOrientation(direction)
    requires Distinct(PaneIdsOf(before + [Pane(target)] + after))
    requires AreShares(beforeSizes + [share] + afterSizes)
    ensures var half := share / 2.0;
      Place(Split(orientation, before + Pair(target, inserted, direction) + after,
                  beforeSizes + [half, half] + afterSizes), box)
      == Beside(Place(Split(orientation, before + [Pane(target)] + after, beforeSizes + [share] + afterSizes), box),
                target, inserted, direction)
  {
    var half, sizes := share / 2.0, beforeSizes + [share] + afterSizes;
    var halved := beforeSizes + [half, half] + afterSizes;
    SplicedKeepsPlaces(orientation, before, beforeSizes, target, share, after, afterSizes, inserted, direction, box);
    assert AreShares(halved) by {
      SplicedSizesAreShares(sizes, |beforeSizes|);
      assert sizes[..|beforeSizes|] == beforeSizes && sizes[|beforeSizes| + 1..] == afterSizes;
    }
    PlaceCanonical(Split(orientation, before + [Pane(target)] + after, sizes), box);
    PlaceCanonical(Split(orientation, before + Pair(target, inserted, direction) + after, halved), box);
  }

  lemma InsertIntoRowKeepsPlaces(node: PaneNode, target: TabId, inserted: PaneNode, direction: Direction, box: Rect)
    requires node.Split? && Canonical(node) && Distinct(PaneIds(node))
    requires PaneIndex(node.children, target) >= 0 && node.orientation == SplitOrientation(direction)
    ensures Place(InsertInto(node, target, inserted, direction), box)
         == Beside(Place(node, box), target, inserted, direction)
  {
    hide Place;
    hide Beside;
    InsertIntoRow(node, target, inserted, direction);
    var index := PaneIndex(node.children, target);
    var children, sizes := node.children, node.sizes;
    assert children[..index] + [Pane(target)] + children[index + 1..] == children;
    assert sizes[..index] + [sizes[index]] + sizes[index + 1..] == sizes;
    SplicedSplitKeepsPlaces(node.orientation, children[..index], sizes[..index], target, sizes[index],
                            children[index + 1..], sizes[index + 1..], inserted, direction, box);
  }

  lemma {:induction false} InsertIntoKeepsPlaces(node: PaneNode, target: TabId, inserted: PaneNode,
          direction: Direction, box: Rect)
    requires Canonical(node) && Distinct(PaneIds(node))
    ensures Place(InsertInto(node, target, inserted, direction), box)
         == Beside(Place(node, box), target, inserted, direction)
    decreases node, 1
  {
    if node.Pane? {
      if node.tabId == target {
        InsertIntoPaneKeepsPlaces(target, inserted, direction, box);
      }
    } else if PaneIndex(node.children, target) >= 0 && node.orientation == SplitOrientation(direction) {
      InsertIntoRowKeepsPlaces(node, target, inserted, direction, box);
    } else {
      PlaceCanonical(node, box);
      InsertIntoAllKeepsPlaces(node.orientation, node.children, node.sizes, 0.0, target, inserted, direction, box);
      PlaceCanonical(InsertInto(node, target, inserted, direction), box);
    }
  }

  lemma {:induction false} InsertIntoAllKeepsPlaces(orientation: Orientation, children: seq<PaneNode>,
          shares: seq<real>, from: real, target: TabId, inserted: PaneNode, direction: Direction, box: Rect)
    requires |children| == |shares| && AllCanonical(orientation, children) && Distinct(PaneIdsOf(children))
    ensures PlaceRow(orientation, InsertIntoAll(orientation, children, target, inserted, direction), shares, from, box)
         == Beside(PlaceRow(orientation, children, shares, from, box), target, inserted, direction)
    decreases children, 0
  {
    if children != [] {
      var slice := Slice(orientation, box, from, shares[0]);
      DistinctAppend(PaneIds(children[0]), PaneIdsOf(children[1..]));
      InsertIntoKeepsPlaces(children[0], target, inserted, direction, slice);
      InsertIntoAllKeepsPlaces(orientation, children[1..], shares[1..], from + shares[0], target, inserted,
                               direction, box);
      PlaceKeepsOrder(children[0], slice);
      PlaceRowKeepsOrder(orientation, children[1..], shares[1..], from + shares[0], box);
      BesideAppend(Place(children[0], slice), PlaceRow(orientation, children[1..], shares[1..], from + shares[0], box),
                   target, inserted, direction);
    }
  }

  // Inserting halves the target's rectangle and moves no other pane.
  lemma InsertNextToHalvesTheTarget(root: PaneNode, target: TabId, inserted: PaneNode, direction: Direction, box: Rect)
    requires Canonical(root) && Distinct(PaneIds(root)) && HasPanes(inserted)
    ensures Place(InsertNextTo(root, target, inserted, direction), box)
         == Beside(Place(root, box), target, inserted, direction)
  {
    InsertIntoHasPanes(root, target, inserted, direction);
    NormalizedKeepsPlaces(InsertInto(root, target, inserted, direction), box);
    InsertIntoKeepsPlaces(root, target, inserted, direction, box);
  }

  // The pane order is the old one with the inserted ids next to the target.
  function SplicedIds(ids: seq<TabId>, target: TabId, inserted: seq<TabId>, before: bool): seq<TabId> {
    if ids == [] then []
    else if ids[0] == target then (if before then inserted + [target] else [target] + inserted) + ids[1..]
    else [ids[0]] + SplicedIds(ids[1..], target, inserted, before)
  }

  lemma {:induction false} IdsOfBeside(places: seq<Placed>, target: TabId, inserted: PaneNode, direction: Direction)
    ensures Ids(Beside(places, target, inserted, direction))
         == SplicedIds(Ids(places), target, PaneIds(inserted), IsBefore(direction))
  {
    hide Place;
    if places != [] {
      if places[0].tabId == target {
        var first := Slice(SplitOrientation(direction), places[0].at, 0.0, 0.5);
        var second := Slice(SplitOrientation(direction), places[0].at, 0.5, 0.5);
        PlaceKeepsOrder(inserted, first);
        PlaceKeepsOrder(inserted, second);
        IdsAppend(Place(inserted, first), [Placed(target, second)]);
        IdsAppend([Placed(target, first)], Place(inserted, second));
        IdsAppend(Halves(places[0], inserted, direction), places[1..]);
        assert Ids(places) == [target] + Ids(places[1..]);
      } else {
        IdsOfBeside(places[1..], target, inserted, direction);
      }
    }
  }

  lemma InsertNextToSplicesTheOrder(root: PaneNode, target: TabId, inserted: PaneNode, direction: Direction)
    requires Canonical(root) && Distinct(PaneIds(root)) && HasPanes(inserted)
    ensures Canonical(InsertNextTo(root, target, inserted, direction))
    ensures PaneIds(InsertNextTo(root, target, inserted, direction))
         == SplicedIds(PaneIds(root), target, PaneIds(inserted), IsBefore(direction))
  {
    var unit := Rect(0.0, 0.0, 1.0, 1.0);
    var result := InsertNextTo(root, target, inserted, direction);
    InsertIntoHasPanes(root, target, inserted, direction);
    NormalizedIsCanonical(InsertInto(root, target, inserted, direction));
    InsertNextToHalvesTheTarget(root, target, inserted, direction, unit);
    IdsOfBeside(Place(root, unit), target, inserted, direction);
    PlaceKeepsOrder(result, unit);
    PlaceKeepsOrder(root, unit);
  }

  // ----- removing panes gives their room to the rest -----

  function KeptPlaces(places: seq<Placed>, gone: set<TabId>): seq<Placed> {
    if places == [] then []
    else (if places[0].tabId in gone then [] else [places[0]]) + KeptPlaces(places[1..], gone)
  }

  // The same panes, none of them narrower or lower than it was.
  ghost predicate Grown(before: seq<Placed>, after: seq<Placed>) {
    && |before| == |after|
    && forall i :: 0 <= i < |before| ==>
         && after[i].tabId == before[i].tabId
         && after[i].at.width >= before[i].at.width
         && after[i].at.height >= before[i].at.height
  }

  ghost predicate AtLeast(box: Rect, other: Rect) {
    box.width >= other.width >= 0.0 && box.height >= other.height >= 0.0
  }

  lemma {:induction false} KeptPlacesAppend(a: seq<Placed>, b: seq<Placed>, gone: set<TabId>)
    ensures KeptPlaces(a + b, gone) == KeptPlaces(a, gone) + KeptPlaces(b, gone)
  {
    if a == [] {
      assert a + b == b;
    } else {
      KeptPlacesAppend(a[1..], b, gone);
      assert (a + b)[1..] == a[1..] + b;
      Associates(if a[0].tabId in gone then [] else [a[0]], KeptPlaces(a[1..], gone), KeptPlaces(b, gone));
    }
  }

  lemma ProductIsNonNegative(x: real, y: real)
    requires x >= 0.0 && y >= 0.0
    ensures x * y >= 0.0
  {
  }

  lemma LargerSlice(orientation: Orientation, box: Rect, from: real, share: real, newBox: Rect, newFrom: real,
          newShare: real)
    requires AtLeast(newBox, box) && newShare >= share >= 0.0
    ensures AtLeast(Slice(orientation, newBox, newFrom, newShare), Slice(orientation, box, from, share))
  {
    var extent, newExtent := if orientation.Horizontal? then box.width else box.height,
                             if orientation.Horizontal? then newBox.width else newBox.height;
    ProductIsNonNegative(newExtent - extent, newShare);
    ProductIsNonNegative(extent, newShare - share);
    ProductIsNonNegative(extent, share);
    assert newExtent * newShare - extent * share == (newExtent - extent) * newShare + extent * (newShare - share);
  }

  lemma {:induction false} KeptSumIsLess(children: seq<PaneNode>, sizes: seq<real>, gone: set<TabId>)
    requires |children| == |sizes| && AllSized(children)
    requires forall i :: 0 <= i < |sizes| ==> sizes[i] >= 0.0
    ensures var kept := KeptRow(children, sizes, gone).sizes;
      Sum(kept) <= Sum(sizes) && forall i :: 0 <= i < |kept| ==> kept[i] >= 0.0
  {
    if children != [] {
      KeptSumIsLess(children[1..], sizes[1..], gone);
      SumNonNegative(sizes[1..]);
      SumAppend([sizes[0]], KeptRow(children[1..], sizes[1..], gone).sizes);
      assert [sizes[0]][1..] == [];
    }
  }

  lemma {:induction false} RemoveFromGrows(node: PaneNode, gone: set<TabId>, box: Rect, newBox: Rect)
    requires Canonical(node) && Sized(node) && AtLeast(newBox, box)
    ensures match RemoveFrom(node, gone)
            case None => true
            case Some(kept) => Grown(KeptPlaces(Place(node, box), gone), Place(kept, newBox))
    decreases node, 1
  {
    if node.Split? {
      var row := KeptRow(node.children, node.sizes, gone);
      if row.children != [] {
        var shares := ScaleToOne(row.sizes);
        PlaceCanonical(node, box);
        KeptSumIsLess(node.children, node.sizes, gone);
        forall i | 0 <= i < |row.sizes| ensures shares[i] >= row.sizes[i] {
          ScaleToOneGrows(row.sizes, i);
        }
        ScaleToOneGivesShares(row.sizes);
        PlaceCanonical(Split(node.orientation, row.children, shares), newBox);
        KeptRowGrows(node.orientation, node.children, node.sizes, gone, 0.0, box, shares, 0.0, newBox);
      }
    }
  }

  lemma {:induction false} KeptRowGrows(orientation: Orientation, children: seq<PaneNode>, sizes: seq<real>,
          gone: set<TabId>, from: real, box: Rect, newShares: seq<real>, newFrom: real, newBox: Rect)
    requires |children| == |sizes| && AllCanonical(orientation, children) && AllSized(children) && AtLeast(newBox, box)
    requires forall i :: 0 <= i < |sizes| ==> sizes[i] >= 0.0
    requires var kept := KeptRow(children, sizes, gone).sizes;
      |newShares| == |kept| && forall i :: 0 <= i < |kept| ==> newShares[i] >= kept[i]
    ensures Grown(KeptPlaces(PlaceRow(orientation, children, sizes, from, box), gone),
                  PlaceRow(orientation, KeptRow(children, sizes, gone).children, newShares, newFrom, newBox))
    decreases children, 1
  {
    if children == [] {
      return;
    }
    hide Grown;
    hide KeptPlaces;
    hide KeptRow;
    hide PlaceRow;
    hide RemoveFrom;
    if RemoveFrom(children[0], gone).None? {
      RowGrowsWithoutFirst(orientation, children, sizes, gone, from, box, newShares, newFrom, newBox);
    } else {
      RowGrowsWithFirst(orientation, children, sizes, gone, from, box, newShares, newFrom, newBox);
    }
  }

  lemma {:induction false} RowGrowsWithoutFirst(orientation: Orientation, children: seq<PaneNode>, sizes: seq<real>,
          gone: set<TabId>, from: real, box: Rect, newShares: seq<real>, newFrom: real, newBox: Rect)
    requires |children| == |sizes| && AllCanonical(orientation, children) && AllSized(children) && AtLeast(newBox, box)
    requires children != [] && forall i :: 0 <= i < |sizes| ==> sizes[i] >= 0.0
    requires RemoveFrom(children[0], gone).None?
    requires var kept := KeptRow(children, sizes, gone).sizes;
      |newShares| == |kept| && forall i :: 0 <= i < |kept| ==> newShares[i] >= kept[i]
    ensures Grown(KeptPlaces(PlaceRow(orientation, children, sizes, from, box), gone),
                  PlaceRow(orientation, KeptRow(children, sizes, gone).children, newShares, newFrom, newBox))
    decreases children, 0
  {
    hide Slice;
    hide AtLeast;
    hide Grown;
    hide KeptPlaces;
    hide KeptRow;
    hide PlaceRow;
    hide Place;
    hide RemoveFrom;
    hide Canonical;
    hide Sized;
    var kept := KeptRowUnfolded(children, sizes, gone);
    NothingKept(children[0], gone, Slice(orientation, box, from, sizes[0]));
    KeptRowGrows(orientation, children[1..], sizes[1..], gone, from + sizes[0], box, newShares, newFrom, newBox);
    FirstNotKept(orientation, children, sizes, gone, from, box);
  }

  lemma {:induction false} RowGrowsWithFirst(orientation: Orientation, children: seq<PaneNode>, sizes: seq<real>,
          gone: set<TabId>, from: real, box: Rect, newShares: seq<real>, newFrom: real, newBox: Rect)
    requires |children| == |sizes| && AllCanonical(orientation, children) && AllSized(children) && AtLeast(newBox, box)
    requires children != [] && forall i :: 0 <= i < |sizes| ==> sizes[i] >= 0.0
    requires RemoveFrom(children[0], gone).Some?
    requires var kept := KeptRow(children, sizes, gone).sizes;
      |newShares| == |kept| && forall i :: 0 <= i < |kept| ==> newShares[i] >= kept[i]
    ensures Grown(KeptPlaces(PlaceRow(orientation, children, sizes, from, box), gone),
                  PlaceRow(orientation, KeptRow(children, sizes, gone).children, newShares, newFrom, newBox))
    decreases children, 0
  {
    hide Slice;
    hide AtLeast;
    hide Grown;
    hide KeptPlaces;
    hide KeptRow;
    hide PlaceRow;
    hide Place;
    hide RemoveFrom;
    hide Canonical;
    hide Sized;
    var kept := KeptRowUnfolded(children, sizes, gone);
    LargerSlice(orientation, box, from, sizes[0], newBox, newFrom, newShares[0]);
    RemoveFromGrows(children[0], gone, Slice(orientation, box, from, sizes[0]),
                    Slice(orientation, newBox, newFrom, newShares[0]));
    KeptRowGrows(orientation, children[1..], sizes[1..], gone, from + sizes[0], box,
                 newShares[1..], newFrom + newShares[0], newBox);
    FirstKeptGrows(orientation, children, sizes, gone, from, box, KeptRow(children, sizes, gone).children, newShares,
                   newFrom, newBox);
  }

  lemma FirstNotKept(orientation: Orientation, children: seq<PaneNode>, sizes: seq<real>, gone: set<TabId>,
          from: real, box: Rect)
    requires children != [] && |children| == |sizes|
    requires KeptPlaces(Place(children[0], Slice(orientation, box, from, sizes[0])), gone) == []
    ensures KeptPlaces(PlaceRow(orientation, children, sizes, from, box), gone)
         == KeptPlaces(PlaceRow(orientation, children[1..], sizes[1..], from + sizes[0], box), gone)
  {
    hide Slice;
    hide KeptPlaces;
    KeptPlacesAppend(Place(children[0], Slice(orientation, box, from, sizes[0])),
                     PlaceRow(orientation, children[1..], sizes[1..], from + sizes[0], box), gone);
  }

  lemma FirstKeptGrows(orientation: Orientation, children: seq<PaneNode>, sizes: seq<real>, gone: set<TabId>,
          from: real, box: Rect, kept: seq<PaneNode>, newShares: seq<real>, newFrom: real, newBox: Rect)
    requires children != [] && |children| == |sizes| && kept != [] && |kept| == |newShares|
    requires Grown(KeptPlaces(Place(children[0], Slice(orientation, box, from, sizes[0])), gone),
                   Place(kept[0], Slice(orientation, newBox, newFrom, newShares[0])))
    requires Grown(KeptPlaces(PlaceRow(orientation, children[1..], sizes[1..], from + sizes[0], box), gone),
                   PlaceRow(orientation, kept[1..], newShares[1..], newFrom + newShares[0], newBox))
    ensures Grown(KeptPlaces(PlaceRow(orientation, children, sizes, from, box), gone),
                  PlaceRow(orientation, kept, newShares, newFrom, newBox))
  {
    hide Slice;
    hide Grown;
    hide KeptPlaces;
    var first := Place(children[0], Slice(orientation, box, from, sizes[0]));
    var rest := PlaceRow(orientation, children[1..], sizes[1..], from + sizes[0], box);
    KeptPlacesAppend(first, rest, gone);
    GrownAppend(KeptPlaces(first, gone), Place(kept[0], Slice(orientation, newBox, newFrom, newShares[0])),
                KeptPlaces(rest, gone),
                    PlaceRow(orientation, kept[1..], newShares[1..], newFrom + newShares[0], newBox));
  }

  lemma KeptRowUnfolded(children: seq<PaneNode>, sizes: seq<real>, gone: set<TabId>) returns (kept: Option<PaneNode>)
    requires children != [] && |children| == |sizes| && AllSized(children)
    ensures kept == RemoveFrom(children[0], gone)
    ensures var row, rest := KeptRow(children, sizes, gone), KeptRow(children[1..], sizes[1..], gone);
      if kept.None? then row == rest
      else row.children != [] && row.children[0] == kept.value && row.children[1..] == rest.children
           && row.sizes != [] && row.sizes[0] == sizes[0] && row.sizes[1..] == rest.sizes
  {
    kept := RemoveFrom(children[0], gone);
  }

  lemma GrownAppend(a: seq<Placed>, newA: seq<Placed>, b: seq<Placed>, newB: seq<Placed>)
    requires Grown(a, newA) && Grown(b, newB)
    ensures Grown(a + b, newA + newB)
  {
  }

  lemma {:induction false} KeptPlacesOrder(places: seq<Placed>, gone: set<TabId>)
    ensures Ids(KeptPlaces(places, gone)) == Without(Ids(places), gone)
  {
    if places != [] {
      KeptPlacesOrder(places[1..], gone);
      IdsAppend(if places[0].tabId in gone then [] else [places[0]], KeptPlaces(places[1..], gone));
    }
  }

  lemma NothingKept(node: PaneNode, gone: set<TabId>, box: Rect)
    requires Sized(node) && RemoveFrom(node, gone).None?
    ensures KeptPlaces(Place(node, box), gone) == []
  {
    RemoveFromKeepsOrder(node, gone);
    PlaceKeepsOrder(node, box);
    KeptPlacesOrder(Place(node, box), gone);
    assert |Ids(KeptPlaces(Place(node, box), gone))| == 0;
  }

  // After a removal each of the other panes is at least as wide and as high as
  // before.
  lemma RemovePanesGrowsTheRest(root: PaneNode, gone: set<TabId>, box: Rect)
    requires Canonical(root) && Sized(root) && box.width >= 0.0 && box.height >= 0.0
    ensures match RemovePanes(root, gone)
            case None => KeptPlaces(Place(root, box), gone) == []
            case Some(kept) => Grown(KeptPlaces(Place(root, box), gone), Place(kept, box))
  {
    match RemoveFrom(root, gone)
    case None => NothingKept(root, gone, box);
    case Some(kept) =>
      RemoveFromKeepsOrder(root, gone);
      NormalizedKeepsPlaces(kept, box);
      RemoveFromGrows(root, gone, box, box);
  }

  // ----- resizing touches one split only -----

  // The panes of the split at `path` stay within its rectangle `at`, shared
  // out by the new sizes; every pane before and after it stays where it was.
  lemma {:induction false} ResizeSplitIsLocal(root: PaneNode, path: seq<int>, sizes: seq<real>, box: Rect)
    returns (before: seq<Placed>, at: Rect, after: seq<Placed>)
    requires Canonical(root) && NodeAt(root, path).Some?
    ensures NodeAt(ResizeSplit(root, path, sizes), path) == Some(Resized(NodeAt(root, path).value, sizes))
    ensures Place(root, box) == before + Place(NodeAt(root, path).value, at) + after
    ensures Place(ResizeSplit(root, path, sizes), box)
         == before + Place(Resized(NodeAt(root, path).value, sizes), at) + after
    decreases |path|
  {
    hide Place;
    if path == [] {
      before, at, after := [], box, [];
    } else {
      var index, child := path[0], root.children[path[0]];
      var slice := Slice(root.orientation, box, Sum(root.sizes[..index]), root.sizes[index]);
      var newChild := ResizeSplit(child, path[1..], sizes);
      AllCanonicalUpdate(root.orientation, root.children, index, child);
      before, at, after := ResizeSplitIsLocal(child, path[1..], sizes, slice);
      assert root.(children := root.children[index := child]) == root;
      var left, right := PlaceUpdated(root, index, child, box);
      var left', right' := PlaceUpdated(root, index, newChild, box);
      var node := NodeAt(root, path).value;
      Regroup(Place(root, box), left, Place(child, slice), right, before, Place(node, at), after);
      Regroup(Place(ResizeSplit(root, path, sizes), box), left', Place(newChild, slice), right', before,
              Place(Resized(node, sizes), at), after);
      before, after := left + before, after + right;
    }
  }

  // The split with `sizes`, as long as they fit it.
  function Resized(node: PaneNode, sizes: seq<real>): PaneNode {
    if node.Split? && |node.children| == |sizes| then node.(sizes := ScaleToOne(sizes)) else node
  }

  // Changing one child of a split moves only the panes in it.
  lemma PlaceUpdated(root: PaneNode, index: nat, child: PaneNode, box: Rect)
    returns (left: seq<Placed>, right: seq<Placed>)
    requires root.Split? && |root.sizes| == |root.children| && index < |root.children| && AreShares(root.sizes)
    ensures left == PlaceRow(root.orientation, root.children[..index], root.sizes[..index], 0.0, box)
    ensures right == PlaceRow(root.orientation, root.children[index + 1..], root.sizes[index + 1..],
                              Sum(root.sizes[..index]) + root.sizes[index], box)
    ensures Place(root.(children := root.children[index := child]), box)
         == left + Place(child, Slice(root.orientation, box, Sum(root.sizes[..index]), root.sizes[index])) + right
  {
    var before, after := root.children[..index], root.children[index + 1..];
    var beforeSizes, share, afterSizes := root.sizes[..index], root.sizes[index], root.sizes[index + 1..];
    assert before + [child] + after == root.children[index := child];
    assert beforeSizes + [share] + afterSizes == root.sizes;
    PlaceSplitOfThree(root.orientation, before, beforeSizes, child, share, after, afterSizes, box);
    left := PlaceRow(root.orientation, before, beforeSizes, 0.0, box);
    right := PlaceRow(root.orientation, after, afterSizes, Sum(beforeSizes) + share, box);
  }

  lemma Regroup(whole: seq<Placed>, left: seq<Placed>, middle: seq<Placed>, right: seq<Placed>,
                before: seq<Placed>, inner: seq<Placed>, after: seq<Placed>)
    requires whole == left + middle + right && middle == before + inner + after
    ensures whole == (left + before) + inner + (after + right)
  {
  }

  lemma PlaceRowOfOne(orientation: Orientation, child: PaneNode, share: real, from: real, box: Rect)
    ensures PlaceRow(orientation, [child], [share], from, box) == Place(child, Slice(orientation, box, from, share))
  {
    assert [child][1..] == [] && [share][1..] == [];
    assert PlaceRow(orientation, [child], [share], from, box)
           == Place(child, Slice(orientation, box, from, share)) + [];
  }

  lemma PlaceSplitOfThree(orientation: Orientation, left: seq<PaneNode>, leftSizes: seq<real>, child: PaneNode,
          share: real, right: seq<PaneNode>, rightSizes: seq<real>, box: Rect)
    requires |left| == |leftSizes| && |right| == |rightSizes|
    requires AreShares(leftSizes + [share] + rightSizes)
    ensures Place(Split(orientation, left + [child] + right, leftSizes + [share] + rightSizes), box)
         == PlaceRow(orientation, left, leftSizes, 0.0, box)
            + Place(child, Slice(orientation, box, Sum(leftSizes), share))
            + PlaceRow(orientation, right, rightSizes, Sum(leftSizes) + share, box)
  {
    SumOfPair(share);
    PlaceCanonical(Split(orientation, left + [child] + right, leftSizes + [share] + rightSizes), box);
    PlaceRowOfThree(orientation, left, leftSizes, [child], [share], right, rightSizes, share, box);
    PlaceRowOfOne(orientation, child, share, Sum(leftSizes), box);
  }
}
