// How the room of panes that go is shared by those left (src/lib/tabGroups.ts).
module PaneShares {
  import opened Sequences
  import opened PaneTrees
  import opened PaneGeometry

  // ----- sizes made shares of one -----

  predicate HasPositive(sizes: seq<real>) {
    exists k :: 0 <= k < |sizes| && sizes[k] > 0.0
  }

  // Shares of one in proportion to sizes, a negative size counting as none;
  // equal ones where no size is positive.
  predicate InProportion(shares: seq<real>, sizes: seq<real>) {
    && |shares| == |sizes| && AreShares(shares)
    && forall i, j :: 0 <= i < |sizes| && 0 <= j < |sizes| ==>
         if HasPositive(sizes)
         then AreAs(shares[i], shares[j], Positive(sizes[i]), Positive(sizes[j]))
         else shares[i] == shares[j]
  }

  // The first two are to one another as the other two are.
  predicate AreAs(x: real, y: real, a: real, b: real) {
    x * b == y * a
  }

  lemma ProductsSwap(a: real, b: real, factor: real)
    ensures AreAs(a * factor, b * factor, a, b)
  {
  }

  lemma {:induction false} SumIsZeroExactlyWhen(sizes: seq<real>)
    ensures Sum(Positives(sizes)) >= 0.0
    ensures Sum(Positives(sizes)) == 0.0 <==> forall k :: 0 <= k < |sizes| ==> sizes[k] <= 0.0
  {
    if sizes != [] {
      SumIsZeroExactlyWhen(sizes[1..]);
      assert Positives(sizes)[1..] == Positives(sizes[1..]);
      assert forall k :: 0 < k < |sizes| ==> sizes[k] == sizes[1..][k - 1];
    }
  }

  // Either all shares are the same, or each is its size times one factor.
  lemma ScaleToOneIs(sizes: seq<real>) returns (factor: real)
    requires sizes != []
    ensures var shares := ScaleToOne(sizes);
      if HasPositive(sizes) then shares == Scaled(Positives(sizes), factor)
      else forall i :: 0 <= i < |sizes| ==> shares[i] == factor
  {
    SumIsZeroExactlyWhen(sizes);
    if HasPositive(sizes) {
      factor := 1.0 / Sum(Positives(sizes));
    } else {
      factor := 1.0 / |sizes| as real;
    }
  }

  lemma ScaledIsInProportion(shares: seq<real>, amounts: seq<real>, factor: real, i: nat, j: nat)
    requires shares == Scaled(amounts, factor) && i < |amounts| && j < |amounts|
    ensures AreAs(shares[i], shares[j], amounts[i], amounts[j])
  {
    hide Scaled;
    ProductsSwap(amounts[i], amounts[j], factor);
  }

  // What scaling is for: the sizes of a split come out in the proportion they
  // were given in.
  lemma ScaleToOneIsInProportion(sizes: seq<real>)
    requires sizes != []
    ensures InProportion(ScaleToOne(sizes), sizes)
  {
    var factor := ScaleToOneIs(sizes);
    ScaleToOneGivesShares(sizes);
    hide ScaleToOne;
    hide AreShares;
    hide Positive;
    hide Scaled;
    hide HasPositive;
    hide AreAs;
    var shares := ScaleToOne(sizes);
    if HasPositive(sizes) {
      forall i: nat, j: nat | i < |sizes| && j < |sizes|
        ensures AreAs(shares[i], shares[j], Positive(sizes[i]), Positive(sizes[j]))
      {
        ScaledIsInProportion(shares, Positives(sizes), factor, i, j);
      }
    }
  }

  // ----- the panes left after a removal -----

  // The panes left of the children, each child's in its part of the box.
  function PlaceLeft(orientation: Orientation, children: seq<PaneNode>, shares: seq<real>, from: real, gone: set<TabId>,
          box: Rect): seq<Placed>
    requires |children| == |shares| && AllSized(children)
  {
    if children == [] then []
    else
      (match RemovePanes(children[0], gone)
       case None => []
       case Some(left) => Place(left, Slice(orientation, box, from, shares[0])))
      + PlaceLeft(orientation, children[1..], shares[1..], from + shares[0], gone, box)
  }

  predicate IsLeft(node: PaneNode, gone: set<TabId>) {
    Without(PaneIds(node), gone) != []
  }

  // Where each child stands in the new row: its new share, or nothing.
  function Spread(children: seq<PaneNode>, gone: set<TabId>, shares: seq<real>): (r: seq<real>)
    ensures |r| == |children|
  {
    if children == [] then []
    else if !IsLeft(children[0], gone) || shares == [] then [0.0] + Spread(children[1..], gone, shares)
    else [shares[0]] + Spread(children[1..], gone, shares[1..])
  }

  lemma LeftExactlyWhen(node: PaneNode, gone: set<TabId>)
    requires Sized(node)
    ensures RemoveFrom(node, gone).Some? <==> IsLeft(node, gone)
    ensures RemovePanes(node, gone).Some? <==> IsLeft(node, gone)
  {
    RemoveFromKeepsOrder(node, gone);
  }

  // The row left, child by child.
  lemma KeptStep(children: seq<PaneNode>, sizes: seq<real>, gone: set<TabId>)
    requires children != [] && |children| == |sizes| && AllSized(children)
    ensures var row, rest := KeptRow(children, sizes, gone), KeptRow(children[1..], sizes[1..], gone);
      if IsLeft(children[0], gone)
          then
        && RemoveFrom(children[0], gone).Some?
        && row.children == [RemoveFrom(children[0], gone).value] + rest.children
        && row.sizes == [sizes[0]] + rest.sizes
      else row == rest
  {
    LeftExactlyWhen(children[0], gone);
  }

  lemma {:induction false} SpreadSum(children: seq<PaneNode>, sizes: seq<real>, gone: set<TabId>, shares: seq<real>)
    requires |children| == |sizes| && AllSized(children) && |shares| == |KeptRow(children, sizes, gone).sizes|
    ensures Sum(Spread(children, gone, shares)) == Sum(shares)
  {
    if children != [] {
      KeptStep(children, sizes, gone);
      SpreadSum(children[1..], sizes[1..], gone, if IsLeft(children[0], gone) then shares[1..] else shares);
    }
  }

  // Each new share is the old one times `factor`, or each is `factor`.
  predicate SharesBy(share: real, size: real, factor: real, scaled: bool) {
    share == if scaled then size * factor else factor
  }

  lemma {:induction false} SpreadShares(children: seq<PaneNode>, sizes: seq<real>, gone: set<TabId>, shares: seq<real>,
          factor: real, scaled: bool)
    requires |children| == |sizes| && AllSized(children)
    requires var kept := KeptRow(children, sizes, gone).sizes;
      |shares| == |kept| &&
      forall k :: 0 <= k < |kept| ==> shares[k] >= 0.0 && SharesBy(shares[k], kept[k], factor, scaled)
    ensures var spread := Spread(children, gone, shares);
      forall i :: 0 <= i < |children| ==>
        && spread[i] >= 0.0
        && if IsLeft(children[i], gone) then SharesBy(spread[i], sizes[i], factor, scaled) else spread[i] == 0.0
  {
    hide SharesBy;
    hide IsLeft;
    if children != [] {
      KeptStep(children, sizes, gone);
      hide KeptRow;
      hide AllSized;
      var rest := KeptRow(children[1..], sizes[1..], gone).sizes;
      if IsLeft(children[0], gone) {
        SpreadShares(children[1..], sizes[1..], gone, shares[1..], factor, scaled);
      } else {
        SpreadShares(children[1..], sizes[1..], gone, shares, factor, scaled);
      }
    }
  }

  lemma PlaceRowStep(orientation: Orientation, first: PaneNode, rest: seq<PaneNode>, shares: seq<real>, from: real,
          box: Rect)
    requires |shares| == |rest| + 1
    ensures PlaceRow(orientation, [first] + rest, shares, from, box)
         == Place(first, Slice(orientation, box, from, shares[0]))
            + PlaceRow(orientation, rest, shares[1..], from + shares[0], box)
  {
    hide Slice;
    assert ([first] + rest)[1..] == rest;
  }

  lemma PlaceLeftStep(orientation: Orientation, children: seq<PaneNode>, shares: seq<real>, from: real,
          gone: set<TabId>,
          box: Rect)
    requires children != [] && |children| == |shares| && AllSized(children)
    ensures RemovePanes(children[0], gone).Some? <==> IsLeft(children[0], gone)
    ensures var rest := PlaceLeft(orientation, children[1..], shares[1..], from + shares[0], gone, box);
      PlaceLeft(orientation, children, shares, from, gone, box)
      == if !IsLeft(children[0], gone) then rest
         else Place(RemovePanes(children[0], gone).value, Slice(orientation, box, from, shares[0])) + rest
  {
    hide Slice;
    LeftExactlyWhen(children[0], gone);
  }

  lemma SpreadStep(children: seq<PaneNode>, gone: set<TabId>, shares: seq<real>)
    requires children != []
    ensures var spread := Spread(children, gone, shares);
      if IsLeft(children[0], gone) && shares != []
          then spread[0] == shares[0] && spread[1..] == Spread(children[1..], gone, shares[1..])
      else spread[0] == 0.0 && spread[1..] == Spread(children[1..], gone, shares)
  {
    hide IsLeft;
  }

  lemma {:induction false} SpreadPlaces(orientation: Orientation, children: seq<PaneNode>, sizes: seq<real>,
          gone: set<TabId>, shares: seq<real>, from: real, box: Rect)
    requires |children| == |sizes| && AllSized(children) && |shares| == |KeptRow(children, sizes, gone).sizes|
    ensures PlaceRow(orientation, KeptRow(children, sizes, gone).children, shares, from, box)
         == PlaceLeft(orientation, children, Spread(children, gone, shares), from, gone, box)
  {
    hide *;
    if children == [] {
      NothingPlaced(orientation, sizes, gone, shares, from, box);
      return;
    }
    AllSizedTail(children);
    KeptStep(children, sizes, gone);
    SpreadStep(children, gone, shares);
    PlaceLeftStep(orientation, children, Spread(children, gone, shares), from, gone, box);
    if IsLeft(children[0], gone) {
      SpreadPlaces(orientation, children[1..], sizes[1..], gone, shares[1..], from + shares[0], box);
      PlaceOfLeft(children[0], gone, Slice(orientation, box, from, shares[0]));
      PlaceRowStep(orientation, RemoveFrom(children[0], gone).value,
                   KeptRow(children[1..], sizes[1..], gone).children, shares, from, box);
    } else {
      SpreadPlaces(orientation, children[1..], sizes[1..], gone, shares, from, box);
    }
  }

  lemma NothingPlaced(orientation: Orientation, sizes: seq<real>, gone: set<TabId>, shares: seq<real>, from: real,
          box: Rect)
    requires |sizes| == 0 && |shares| == |KeptRow([], sizes, gone).sizes|
    ensures PlaceRow(orientation, KeptRow([], sizes, gone).children, shares, from, box)
         == PlaceLeft(orientation, [], Spread([], gone, shares), from, gone, box)
  {
  }

  lemma EmptyRow(sizes: seq<real>, gone: set<TabId>)
    requires |sizes| == 0
    ensures KeptRow([], sizes, gone) == Row([], [])
  {
  }

  lemma PlaceOfLeft(node: PaneNode, gone: set<TabId>, box: Rect)
    requires Sized(node) && IsLeft(node, gone)
    ensures RemoveFrom(node, gone).Some? && RemovePanes(node, gone).Some?
    ensures Place(RemovePanes(node, gone).value, box) == Place(RemoveFrom(node, gone).value, box)
  {
    LeftExactlyWhen(node, gone);
    RemoveFromKeepsOrder(node, gone);
    NormalizedKeepsPlaces(RemoveFrom(node, gone).value, box);
  }

  // Some child of which something is left had room.
  predicate SomeLeftHadRoom(children: seq<PaneNode>, sizes: seq<real>, gone: set<TabId>)
    requires |children| == |sizes|
  {
    exists i :: 0 <= i < |children| && IsLeft(children[i], gone) && sizes[i] > 0.0
  }

  lemma PositiveStep(first: real, rest: seq<real>)
    ensures HasPositive([first] + rest) <==> first > 0.0 || HasPositive(rest)
  {
    var sizes := [first] + rest;
    assert sizes[0] == first && forall k :: 0 <= k < |rest| ==> sizes[k + 1] == rest[k];
  }

  lemma RoomStep(children: seq<PaneNode>, sizes: seq<real>, gone: set<TabId>)
    requires |children| == |sizes| && children != []
    ensures SomeLeftHadRoom(children, sizes, gone)
       <==> (IsLeft(children[0], gone) && sizes[0] > 0.0) || SomeLeftHadRoom(children[1..], sizes[1..], gone)
  {
    hide IsLeft;
    assert forall k :: 0 <= k < |children| - 1 ==> children[k + 1] == children[1..][k] && sizes[k + 1] == sizes[1..][k];
    assert forall k :: 0 < k < |children| ==> children[k] == children[1..][k - 1] && sizes[k] == sizes[1..][k - 1];
  }

  lemma {:induction false} KeptHaveRoom(children: seq<PaneNode>, sizes: seq<real>, gone: set<TabId>)
    requires |children| == |sizes| && AllSized(children)
    ensures HasPositive(KeptRow(children, sizes, gone).sizes) <==> SomeLeftHadRoom(children, sizes, gone)
  {
    hide IsLeft;
    hide AllSized;
    hide KeptRow;
    if children == [] {
      EmptyRow(sizes, gone);
      return;
    }
    hide HasPositive;
    hide SomeLeftHadRoom;
    AllSizedTail(children);
    KeptStep(children, sizes, gone);
    KeptHaveRoom(children[1..], sizes[1..], gone);
    PositiveStep(sizes[0], KeptRow(children[1..], sizes[1..], gone).sizes);
    RoomStep(children, sizes, gone);
  }

  lemma AllSizedTail(children: seq<PaneNode>)
    requires AllSized(children) && children != []
    ensures Sized(children[0]) && AllSized(children[1..])
  {
  }

  lemma RemovedRow(root: PaneNode, gone: set<TabId>, box: Rect) returns (row: Row)
    requires Canonical(root) && Sized(root) && root.Split? && IsLeft(root, gone)
    ensures |root.children| == |root.sizes| && AllSized(root.children)
    ensures row == KeptRow(root.children, root.sizes, gone) && row.sizes != []
    ensures forall k :: 0 <= k < |row.sizes| ==> row.sizes[k] >= 0.0
    ensures RemovePanes(root, gone).Some?
    ensures Place(RemovePanes(root, gone).value, box)
         == PlaceRow(root.orientation, row.children, ScaleToOne(row.sizes), 0.0, box)
  {
    row := KeptRow(root.children, root.sizes, gone);
    PlaceOfLeft(root, gone, box);
    KeptSumIsLess(root.children, root.sizes, gone);
    ScaleToOneGivesShares(row.sizes);
    PlaceCanonical(Split(root.orientation, row.children, ScaleToOne(row.sizes)), box);
  }

  lemma SharesAre(sizes: seq<real>, factor: real)
    requires sizes != [] && forall k :: 0 <= k < |sizes| ==> sizes[k] >= 0.0
    requires if HasPositive(sizes) then ScaleToOne(sizes) == Scaled(Positives(sizes), factor)
             else forall i :: 0 <= i < |sizes| ==> ScaleToOne(sizes)[i] == factor
    ensures AreShares(ScaleToOne(sizes))
    ensures forall k :: 0 <= k < |sizes| ==>
      ScaleToOne(sizes)[k] >= 0.0 && SharesBy(ScaleToOne(sizes)[k], sizes[k], factor, HasPositive(sizes))
  {
    hide *;
    ScaleToOneGivesShares(sizes);
    SharesAreNonNegative(ScaleToOne(sizes));
    PositivesAre(sizes);
    forall k | 0 <= k < |sizes| ensures SharesBy(ScaleToOne(sizes)[k], sizes[k], factor, HasPositive(sizes)) {
      IsSharedBy(ScaleToOne(sizes)[k], sizes[k], factor, HasPositive(sizes));
    }
  }

  lemma IsSharedBy(share: real, size: real, factor: real, scaled: bool)
    requires share == if scaled then size * factor else factor
    ensures SharesBy(share, size, factor, scaled)
  {
  }

  lemma SharesAreNonNegative(shares: seq<real>)
    requires AreShares(shares)
    ensures forall k :: 0 <= k < |shares| ==> shares[k] >= 0.0
  {
  }

  lemma PositivesAre(sizes: seq<real>)
    requires forall k :: 0 <= k < |sizes| ==> sizes[k] >= 0.0
    ensures Positives(sizes) == sizes
  {
  }

  lemma SpreadAreShares(shares: seq<real>)
    requires Sum(shares) == 1.0 && forall i :: 0 <= i < |shares| ==> shares[i] >= 0.0
    ensures AreShares(shares)
  {
  }

  // Shares got by one factor are in the proportion of the sizes.
  lemma SharedByOneFactor(shares: seq<real>, sizes: seq<real>, i: nat, j: nat, factor: real, scaled: bool)
    requires |shares| == |sizes| && i < |sizes| && j < |sizes|
    requires SharesBy(shares[i], sizes[i], factor, scaled) && SharesBy(shares[j], sizes[j], factor, scaled)
    ensures if scaled then AreAs(shares[i], shares[j], sizes[i], sizes[j]) else shares[i] == shares[j]
  {
    ProductsSwap(sizes[i], sizes[j], factor);
  }

  // The children of a split have shares of the whole that are to one another
  // as their old ones, or equal ones where those were all 0; a child of which
  // nothing is left has none.
  ghost predicate SharesRoom(children: seq<PaneNode>, sizes: seq<real>, gone: set<TabId>, shares: seq<real>) {
    && |shares| == |children| == |sizes| && AreShares(shares)
    && (forall i :: 0 <= i < |shares| && !IsLeft(children[i], gone) ==> shares[i] == 0.0)
    && forall i: nat, j: nat ::
         i < |shares| && j < |shares| && IsLeft(children[i], gone) && IsLeft(children[j], gone) ==>
         if SomeLeftHadRoom(children, sizes, gone) then AreAs(shares[i], shares[j], sizes[i], sizes[j])
         else shares[i] == shares[j]
  }

  lemma SpreadSharesRoom(children: seq<PaneNode>, sizes: seq<real>, gone: set<TabId>, shares: seq<real>, factor: real,
          scaled: bool)
    requires |shares| == |children| == |sizes| && AreShares(shares) && scaled == SomeLeftHadRoom(children, sizes, gone)
    requires forall i :: 0 <= i < |children| ==>
      if IsLeft(children[i], gone) then SharesBy(shares[i], sizes[i], factor, scaled) else shares[i] == 0.0
    ensures SharesRoom(children, sizes, gone, shares)
  {
    hide SharesBy;
    hide AreAs;
    hide AreShares;
    hide IsLeft;
    hide SomeLeftHadRoom;
    forall i: nat, j: nat | i < |shares| && j < |shares| && IsLeft(children[i], gone) && IsLeft(children[j], gone)
      ensures if scaled then AreAs(shares[i], shares[j], sizes[i], sizes[j]) else shares[i] == shares[j]
    {
      SharedByOneFactor(shares, sizes, i, j, factor, scaled);
    }
  }

  // The room of the panes that go is shared in proportion, and what is left of
  // each child is laid out in that child's part of the box.
  lemma RemovedRoomIsShared(root: PaneNode, gone: set<TabId>, box: Rect) returns (shares: seq<real>)
    requires Canonical(root) && Sized(root) && root.Split? && IsLeft(root, gone)
    ensures SharesRoom(root.children, root.sizes, gone, shares)
    ensures RemovePanes(root, gone).Some? && AllSized(root.children)
    ensures Place(RemovePanes(root, gone).value, box)
         == PlaceLeft(root.orientation, root.children, shares, 0.0, gone, box)
  {
    hide *;
    var row := RemovedRow(root, gone, box);
    var factor := ScaleToOneIs(row.sizes);
    SharesAre(row.sizes, factor);
    KeptHaveRoom(root.children, root.sizes, gone);
    var newShares := ScaleToOne(row.sizes);
    SharesSumToOne(newShares);
    shares := Spread(root.children, gone, newShares);
    SpreadShares(root.children, root.sizes, gone, newShares, factor, HasPositive(row.sizes));
    SpreadSum(root.children, root.sizes, gone, newShares);
    SpreadPlaces(root.orientation, root.children, root.sizes, gone, newShares, 0.0, box);
    SpreadAreShares(shares);
    SpreadSharesRoom(root.children, root.sizes, gone, shares, factor, HasPositive(row.sizes));
  }

  lemma SharesSumToOne(shares: seq<real>)
    requires AreShares(shares)
    ensures Sum(shares) == 1.0
  {
  }

  // A pane alone in its tree keeps the whole box.
  lemma LonePaneStays(root: PaneNode, gone: set<TabId>, box: Rect)
    requires root.Pane? && root.tabId !in gone
    ensures RemovePanes(root, gone) == Some(root) && Place(root, box) == [Placed(root.tabId, box)]
  {
  }
}
