// Split trees of panes and the edits made to them (src/lib/tabGroups.ts).
module PaneTrees {
  import opened Sequences

  // A tab's id; ids are only ever compared.
  datatype TabId = TabId(text: string)

  datatype Orientation = Horizontal | Vertical

  datatype Direction = Left | Right | Above | Below

  datatype PaneNode =
    | Pane(tabId: TabId)
    | Split(orientation: Orientation, children: seq<PaneNode>, sizes: seq<real>)

  function SplitOrientation(direction: Direction): Orientation {
    if direction.Left? || direction.Right? then Horizontal else Vertical
  }

  predicate IsBefore(direction: Direction) {
    direction.Left? || direction.Above?
  }

  // All panes below a node, in the order of the children.
  function PaneIds(node: PaneNode): seq<TabId>
    decreases node, 1
  {
    match node
    case Pane(id) => [id]
    case Split(_, children, _) => PaneIdsOf(children)
  }

  function PaneIdsOf(children: seq<PaneNode>): seq<TabId>
    decreases children, 0
  {
    if children == [] then [] else PaneIds(children[0]) + PaneIdsOf(children[1..])
  }

  // Every split has a child: the only trees the source ever builds.
  predicate HasPanes(node: PaneNode)
    decreases node, 1
  {
    node.Split? ==> node.children != [] && AllHavePanes(node.children)
  }

  predicate AllHavePanes(children: seq<PaneNode>)
    decreases children, 0
  {
    children == [] || (HasPanes(children[0]) && AllHavePanes(children[1..]))
  }

  // Moreover every child has a size, of whatever value.
  predicate Sized(node: PaneNode)
    decreases node, 1
  {
    node.Split? ==> node.children != [] && |node.sizes| == |node.children| && AllSized(node.children)
  }

  predicate AllSized(children: seq<PaneNode>)
    decreases children, 0
  {
    children == [] || (Sized(children[0]) && AllSized(children[1..]))
  }

  // ----- shares -----

  function Positive(x: real): real {
    if x > 0.0 then x else 0.0
  }

  function Sum(s: seq<real>): real {
    if s == [] then 0.0 else s[0] + Sum(s[1..])
  }

  function Positives(s: seq<real>): (r: seq<real>)
    ensures |r| == |s|
    ensures forall i :: 0 <= i < |s| ==> r[i] == Positive(s[i])
  {
    seq(|s|, i requires 0 <= i < |s| => Positive(s[i]))
  }

  function Scaled(s: seq<real>, factor: real): (r: seq<real>)
    ensures |r| == |s|
    ensures forall i :: 0 <= i < |s| ==> r[i] == s[i] * factor
  {
    if s == [] then [] else [s[0] * factor] + Scaled(s[1..], factor)
  }

  // Sizes that are shares of one whole.
  predicate AreShares(s: seq<real>) {
    (forall i :: 0 <= i < |s| ==> s[i] >= 0.0) && Sum(s) == 1.0
  }

  function ScaleToOne(sizes: seq<real>): (r: seq<real>)
    ensures |r| == |sizes|
  {
    var total := Sum(Positives(sizes));
    if sizes == [] then []
    else if total <= 0.0 then seq(|sizes|, _ => 1.0 / |sizes| as real)
    else Scaled(Positives(sizes), 1.0 / total)
  }

  // The sizes of a split, with an even share where one is missing.
  function FilledSizes(count: nat, sizes: seq<real>): (r: seq<real>)
    ensures |r| == count
  {
    seq(count, i requires 0 <= i < count => if i < |sizes| then sizes[i] else 1.0 / count as real)
  }

  function OwnShares(node: PaneNode): (r: seq<real>)
    requires node.Split?
    ensures |r| == |node.children|
  {
    ScaleToOne(FilledSizes(|node.children|, node.sizes))
  }

  // ----- normalising -----

  // Children and their sizes while a split is being put together.
  datatype Row = Row(children: seq<PaneNode>, sizes: seq<real>)

  function Joined(a: Row, b: Row): Row {
    Row(a.children + b.children, a.sizes + b.sizes)
  }

  // A normalised child inside a split: a split of the same orientation gives
  // its children in its place, each with its part of the room.
  function Unnested(orientation: Orientation, child: PaneNode, share: real): Row {
    if child.Split? && child.orientation == orientation
    then Row(child.children, Scaled(child.sizes, share))
    else Row([child], [share])
  }

  function UnnestedRow(orientation: Orientation, children: seq<PaneNode>, shares: seq<real>): Row
    requires |children| == |shares|
  {
    if children == [] then Row([], [])
    else Joined(Unnested(orientation, children[0], shares[0]), UnnestedRow(orientation, children[1..], shares[1..]))
  }

  function Normalized(node: PaneNode): PaneNode
    decreases node, 1
  {
    match node
    case Pane(_) => node
    case Split(orientation, children, _) =>
      var row := UnnestedRow(orientation, NormalizedAll(children), OwnShares(node));
      if |row.children| == 1 then row.children[0]
      else Split(orientation, row.children, ScaleToOne(row.sizes))
  }

  function NormalizedAll(children: seq<PaneNode>): (r: seq<PaneNode>)
    ensures |r| == |children|
    decreases children, 0
  {
    if children == [] then [] else [Normalized(children[0])] + NormalizedAll(children[1..])
  }

  // The canonical shape: splits of two children or more, none inside a split
  // of its own orientation, with shares of one.
  predicate Canonical(node: PaneNode)
    decreases node, 1
  {
    node.Split? ==>
      && |node.children| >= 2
      && |node.sizes| == |node.children|
      && AreShares(node.sizes)
      && AllCanonical(node.orientation, node.children)
  }

  predicate AllCanonical(orientation: Orientation, children: seq<PaneNode>)
    decreases children, 0
  {
    children == [] ||
    (Canonical(children[0]) && !Runs(children[0], orientation) && AllCanonical(orientation, children[1..]))
  }

  predicate Runs(node: PaneNode, orientation: Orientation) {
    node.Split? && node.orientation == orientation
  }

  // ----- arithmetic on shares -----

  lemma {:induction false} SumAppend(a: seq<real>, b: seq<real>)
    ensures Sum(a + b) == Sum(a) + Sum(b)
  {
    if a == [] {
      assert a + b == b;
    } else {
      SumAppend(a[1..], b);
      assert (a + b)[1..] == a[1..] + b;
    }
  }

  lemma {:induction false} SumScaled(s: seq<real>, factor: real)
    ensures Sum(Scaled(s, factor)) == Sum(s) * factor
  {
    if s != [] {
      SumScaled(s[1..], factor);
    }
  }

  lemma {:induction false} SumEven(count: nat, each: real)
    ensures Sum(seq(count, _ => each)) == count as real * each
  {
    if count > 0 {
      SumEven(count - 1, each);
      var all := seq(count, _ => each);
      assert all[1..] == seq(count - 1, _ => each) && all[0] == each;
      assert count as real * each == each + (count - 1) as real * each;
    }
  }

  lemma {:induction false} SumNonNegative(s: seq<real>)
    requires forall i :: 0 <= i < |s| ==> s[i] >= 0.0
    ensures Sum(s) >= 0.0
  {
    if s != [] {
      SumNonNegative(s[1..]);
    }
  }

  // Scaling gives shares of one, whatever the sizes were.
  lemma ScaleToOneGivesShares(sizes: seq<real>)
    requires sizes != []
    ensures AreShares(ScaleToOne(sizes))
  {
    var total := Sum(Positives(sizes));
    if total <= 0.0 {
      SumEven(|sizes|, 1.0 / |sizes| as real);
    } else {
      SumScaled(Positives(sizes), 1.0 / total);
    }
  }

  lemma ScaleToOneKeepsShares(sizes: seq<real>)
    requires AreShares(sizes)
    ensures ScaleToOne(sizes) == sizes
  {
    assert Positives(sizes) == sizes;
    assert Scaled(sizes, 1.0) == sizes;
  }

  lemma {:induction false} SharesAreAtMost(sizes: seq<real>, index: nat)
    requires index < |sizes| && forall i :: 0 <= i < |sizes| ==> sizes[i] >= 0.0
    ensures sizes[index] <= Sum(sizes)
  {
    SumNonNegative(sizes[1..]);
    if index > 0 {
      SharesAreAtMost(sizes[1..], index - 1);
    }
  }

  lemma TimesAtLeastOne(x: real, factor: real)
    requires x >= 0.0 && factor >= 1.0
    ensures x * factor >= x
  {
    assert x * factor - x == x * (factor - 1.0);
  }

  lemma ScaledUpGrows(sizes: seq<real>, index: nat, factor: real)
    requires index < |sizes| && sizes[index] >= 0.0 && factor >= 1.0
    ensures Scaled(sizes, factor)[index] >= sizes[index]
  {
    TimesAtLeastOne(sizes[index], factor);
  }

  // Sizes that are part of a whole grow when they are made all of it.
  lemma ScaleToOneGrows(sizes: seq<real>, index: nat)
    requires index < |sizes|
    requires Sum(sizes) <= 1.0 && forall i :: 0 <= i < |sizes| ==> sizes[i] >= 0.0
    ensures ScaleToOne(sizes)[index] >= sizes[index]
  {
    SharesAreAtMost(sizes, index);
    if Sum(sizes) > 0.0 {
      var factor := ScaleToOneFactor(sizes);
      ScaledUpGrows(sizes, index, factor);
    } else {
      ScaleToOneGivesShares(sizes);
    }
  }

  lemma ScaleToOneFactor(sizes: seq<real>) returns (factor: real)
    requires 0.0 < Sum(sizes) <= 1.0 && forall i :: 0 <= i < |sizes| ==> sizes[i] >= 0.0
    ensures factor >= 1.0 && ScaleToOne(sizes) == Scaled(sizes, factor)
  {
    assert Positives(sizes) == sizes;
    factor := 1.0 / Sum(sizes);
  }

  // ----- what normalising guarantees -----

  lemma {:induction false} PaneIdsOfAppend(a: seq<PaneNode>, b: seq<PaneNode>)
    ensures PaneIdsOf(a + b) == PaneIdsOf(a) + PaneIdsOf(b)
  {
    if a == [] {
      assert a + b == b;
    } else {
      PaneIdsOfAppend(a[1..], b);
      assert (a + b)[1..] == a[1..] + b;
      Associates(PaneIds(a[0]), PaneIdsOf(a[1..]), PaneIdsOf(b));
    }
  }

  lemma {:induction false} AllCanonicalAppend(orientation: Orientation, a: seq<PaneNode>, b: seq<PaneNode>)
    ensures AllCanonical(orientation, a + b) <==> AllCanonical(orientation, a) && AllCanonical(orientation, b)
  {
    if a == [] {
      assert a + b == b;
    } else {
      AllCanonicalAppend(orientation, a[1..], b);
      assert (a + b)[1..] == a[1..] + b;
    }
  }

  // A row ready to be a split of `orientation`, but for how many it holds.
  ghost predicate IsCanonicalRow(orientation: Orientation, row: Row) {
    && |row.children| == |row.sizes|
    && (forall i :: 0 <= i < |row.sizes| ==> row.sizes[i] >= 0.0)
    && AllCanonical(orientation, row.children)
  }

  lemma UnnestedIsCanonicalRow(orientation: Orientation, child: PaneNode, share: real)
    requires Canonical(child) && share >= 0.0
    ensures var row := Unnested(orientation, child, share);
      && IsCanonicalRow(orientation, row)
      && row.children != []
      && Sum(row.sizes) == share
      && PaneIdsOf(row.children) == PaneIds(child)
  {
    if Runs(child, orientation) {
      SumScaled(child.sizes, share);
    } else {
      assert [child][1..] == [];
    }
  }

  lemma {:induction false} UnnestedRowIsCanonical(orientation: Orientation, children: seq<PaneNode>, shares: seq<real>)
    requires |children| == |shares|
    requires forall i :: 0 <= i < |children| ==> Canonical(children[i]) && shares[i] >= 0.0
    ensures var row := UnnestedRow(orientation, children, shares);
      && IsCanonicalRow(orientation, row)
      && |row.children| >= |children|
      && Sum(row.sizes) == Sum(shares)
      && PaneIdsOf(row.children) == PaneIdsOf(children)
  {
    if children != [] {
      UnnestedIsCanonicalRow(orientation, children[0], shares[0]);
      UnnestedRowIsCanonical(orientation, children[1..], shares[1..]);
      var first := Unnested(orientation, children[0], shares[0]);
      var rest := UnnestedRow(orientation, children[1..], shares[1..]);
      AllCanonicalAppend(orientation, first.children, rest.children);
      PaneIdsOfAppend(first.children, rest.children);
      SumAppend(first.sizes, rest.sizes);
    }
  }

  // The tree keeps its panes in their order and becomes canonical.
  lemma {:induction false} NormalizedIsCanonical(node: PaneNode)
    requires HasPanes(node)
    ensures Canonical(Normalized(node))
    ensures PaneIds(Normalized(node)) == PaneIds(node)
    decreases node, 1
  {
    if node.Split? {
      var shares := OwnShares(node);
      ScaleToOneGivesShares(FilledSizes(|node.children|, node.sizes));
      NormalizedAllAreCanonical(node.children);
      UnnestedRowIsCanonical(node.orientation, NormalizedAll(node.children), shares);
      var row := UnnestedRow(node.orientation, NormalizedAll(node.children), shares);
      if |row.children| != 1 {
        ScaleToOneKeepsShares(row.sizes);
      } else {
        assert row.children == [row.children[0]];
      }
    }
  }

  lemma {:induction false} NormalizedAllAreCanonical(children: seq<PaneNode>)
    requires AllHavePanes(children)
    ensures forall i :: 0 <= i < |children| ==> Canonical(NormalizedAll(children)[i])
    ensures PaneIdsOf(NormalizedAll(children)) == PaneIdsOf(children)
    decreases children, 0
  {
    if children != [] {
      NormalizedIsCanonical(children[0]);
      NormalizedAllAreCanonical(children[1..]);
    }
  }

  // Normalising a canonical tree changes nothing, so normalising twice is
  // normalising once.
  lemma {:induction false} NormalizedKeepsCanonical(node: PaneNode)
    requires Canonical(node)
    ensures Normalized(node) == node
    decreases node, 1
  {
    if node.Split? {
      assert FilledSizes(|node.children|, node.sizes) == node.sizes;
      ScaleToOneKeepsShares(node.sizes);
      NormalizedAllKeepsCanonical(node.orientation, node.children);
      UnnestedRowKeepsCanonical(node.orientation, node.children, node.sizes);
    }
  }

  lemma {:induction false} NormalizedAllKeepsCanonical(orientation: Orientation, children: seq<PaneNode>)
    requires AllCanonical(orientation, children)
    ensures NormalizedAll(children) == children
    decreases children, 0
  {
    if children != [] {
      NormalizedKeepsCanonical(children[0]);
      NormalizedAllKeepsCanonical(orientation, children[1..]);
    }
  }

  lemma {:induction false} UnnestedRowKeepsCanonical(orientation: Orientation, children: seq<PaneNode>,
          shares: seq<real>)
    requires |children| == |shares| && AllCanonical(orientation, children)
    ensures UnnestedRow(orientation, children, shares) == Row(children, shares)
  {
    if children != [] {
      UnnestedRowKeepsCanonical(orientation, children[1..], shares[1..]);
      assert [shares[0]] + shares[1..] == shares;
    }
  }

  lemma NormalizedTwice(node: PaneNode)
    requires HasPanes(node)
    ensures Normalized(Normalized(node)) == Normalized(node)
  {
    NormalizedIsCanonical(node);
    NormalizedKeepsCanonical(Normalized(node));
  }

  lemma {:induction false} CanonicalHasPanes(node: PaneNode)
    requires Canonical(node)
    ensures HasPanes(node) && PaneIds(node) != []
    decreases node, 1
  {
    if node.Split? {
      AllCanonicalHavePanes(node.orientation, node.children);
    }
  }

  lemma {:induction false} AllCanonicalHavePanes(orientation: Orientation, children: seq<PaneNode>)
    requires AllCanonical(orientation, children)
    ensures AllHavePanes(children) && (children != [] ==> PaneIdsOf(children) != [])
    decreases children, 0
  {
    if children != [] {
      CanonicalHasPanes(children[0]);
      AllCanonicalHavePanes(orientation, children[1..]);
    }
  }

  // ----- the loop of normalizePaneTree, which pushes children and sizes -----

  lemma {:induction false} UnnestedRowGrows(orientation: Orientation, children: seq<PaneNode>, shares: seq<real>,
                                            child: PaneNode, share: real)
    requires |children| == |shares|
    ensures UnnestedRow(orientation, children + [child], shares + [share])
         == Joined(UnnestedRow(orientation, children, shares), Unnested(orientation, child, share))
  {
    var more, moreShares := children + [child], shares + [share];
    if children == [] {
      assert UnnestedRow(orientation, more[1..], moreShares[1..]) == Row([], []);
    } else {
      UnnestedRowGrows(orientation, children[1..], shares[1..], child, share);
      assert more[1..] == children[1..] + [child] && moreShares[1..] == shares[1..] + [share];
      JoinedAssociates(Unnested(orientation, children[0], shares[0]),
                       UnnestedRow(orientation, children[1..], shares[1..]),
                       Unnested(orientation, child, share));
    }
  }

  lemma JoinedAssociates(a: Row, b: Row, c: Row)
    ensures Joined(Joined(a, b), c) == Joined(a, Joined(b, c))
  {
    assert (a.children + b.children) + c.children == a.children + (b.children + c.children);
    assert (a.sizes + b.sizes) + c.sizes == a.sizes + (b.sizes + c.sizes);
  }

  lemma {:induction false} NormalizedAllAt(children: seq<PaneNode>, index: nat)
    requires index < |children|
    ensures NormalizedAll(children)[index] == Normalized(children[index])
  {
    if index > 0 {
      NormalizedAllAt(children[1..], index - 1);
    }
  }

  method NormalizePaneTree(node: PaneNode) returns (r: PaneNode)
    ensures r == Normalized(node)
    decreases node
  {
    hide OwnShares;
    hide ScaleToOne;
    hide Scaled;
    if node.Pane? {
      return node;
    }
    var children: seq<PaneNode>, sizes: seq<real> := [], [];
    var ownSizes := OwnShares(node);
    ghost var all := NormalizedAll(node.children);
    for index := 0 to |node.children|
      invariant Row(children, sizes) == UnnestedRow(node.orientation, all[..index], ownSizes[..index])
    {
      var normalized := NormalizePaneTree(node.children[index]);
      NormalizedAllAt(node.children, index);
      UnnestedRowGrows(node.orientation, all[..index], ownSizes[..index], normalized, ownSizes[index]);
      assert all[..index + 1] == all[..index] + [normalized];
      assert ownSizes[..index + 1] == ownSizes[..index] + [ownSizes[index]];
      if normalized.Split? && normalized.orientation == node.orientation {
        children := children + normalized.children;
        sizes := sizes + Scaled(normalized.sizes, ownSizes[index]);
      } else {
        children := children + [normalized];
        sizes := sizes + [ownSizes[index]];
      }
    }
    assert all[..|node.children|] == all && ownSizes[..|node.children|] == ownSizes;
    r := if |children| == 1 then children[0] else Split(node.orientation, children, ScaleToOne(sizes));
  }

  // ----- inserting beside a pane -----

  // children.findIndex((child) => child.type === "pane" && child.tabId === target)
  function PaneIndex(children: seq<PaneNode>, target: TabId): (i: int)
    ensures -1 <= i < |children|
    ensures i >= 0 ==> children[i] == Pane(target)
  {
    if children == [] then -1
    else if children[0] == Pane(target) then 0
    else
      var rest := PaneIndex(children[1..], target);
      if rest == -1 then -1 else rest + 1
  }

  function InsertInto(node: PaneNode, target: TabId, inserted: PaneNode, direction: Direction): PaneNode
    requires Canonical(node)
    decreases node, 1
  {
    match node
    case Pane(id) =>
      if id != target then node
      else Split(SplitOrientation(direction),
                 if IsBefore(direction) then [inserted, node] else [node, inserted],
                 [0.5, 0.5])
    case Split(orientation, children, sizes) =>
      var index := PaneIndex(children, target);
      if index >= 0 && orientation == SplitOrientation(direction) then
        // Only the split pane's size is halved, and both halves stand in its
        // place.
        var half := sizes[index] / 2.0;
        var at := if IsBefore(direction) then index else index + 1;
        Split(orientation,
              children[..at] + [inserted] + children[at..],
              sizes[..index] + [half, half] + sizes[index + 1..])
      else
        Split(orientation, InsertIntoAll(orientation, children, target, inserted, direction), sizes)
  }

  function InsertIntoAll(orientation: Orientation, children: seq<PaneNode>, target: TabId, inserted: PaneNode,
                         direction: Direction): (r: seq<PaneNode>)
    requires AllCanonical(orientation, children)
    ensures |r| == |children|
    decreases children, 0
  {
    if children == [] then []
    else [InsertInto(children[0], target, inserted, direction)]
         + InsertIntoAll(orientation, children[1..], target, inserted, direction)
  }

  // Inserting, and then putting the tree in canonical form again.
  function InsertNextTo(root: PaneNode, target: TabId, inserted: PaneNode, direction: Direction): PaneNode
    requires Canonical(root)
  {
    Normalized(InsertInto(root, target, inserted, direction))
  }

  lemma {:induction false} AllHavePanesAppend(a: seq<PaneNode>, b: seq<PaneNode>)
    ensures AllHavePanes(a + b) <==> AllHavePanes(a) && AllHavePanes(b)
  {
    if a == [] {
      assert a + b == b;
    } else {
      AllHavePanesAppend(a[1..], b);
      assert (a + b)[1..] == a[1..] + b;
    }
  }

  lemma {:induction false} InsertIntoHasPanes(node: PaneNode, target: TabId, inserted: PaneNode, direction: Direction)
    requires Canonical(node) && HasPanes(inserted)
    ensures HasPanes(InsertInto(node, target, inserted, direction))
    decreases node, 1
  {
    if node.Pane? {
      assert AllHavePanes([inserted]) && AllHavePanes([node]);
      AllHavePanesAppend([inserted], [node]);
      AllHavePanesAppend([node], [inserted]);
      assert [inserted] + [node] == [inserted, node] && [node] + [inserted] == [node, inserted];
    } else {
      AllCanonicalHavePanes(node.orientation, node.children);
      var index := PaneIndex(node.children, target);
      if index >= 0 && node.orientation == SplitOrientation(direction) {
        var at := if IsBefore(direction) then index else index + 1;
        assert node.children == node.children[..at] + node.children[at..];
        AllHavePanesAppend(node.children[..at], node.children[at..]);
        assert AllHavePanes([inserted]);
        AllHavePanesAppend(node.children[..at], [inserted]);
        AllHavePanesAppend(node.children[..at] + [inserted], node.children[at..]);
      } else {
        InsertIntoAllHavePanes(node.orientation, node.children, target, inserted, direction);
      }
    }
  }

  lemma {:induction false} InsertIntoAllHavePanes(orientation: Orientation, children: seq<PaneNode>, target: TabId,
                                                  inserted: PaneNode, direction: Direction)
    requires AllCanonical(orientation, children) && HasPanes(inserted)
    ensures AllHavePanes(InsertIntoAll(orientation, children, target, inserted, direction))
    decreases children, 0
  {
    if children != [] {
      InsertIntoHasPanes(children[0], target, inserted, direction);
      InsertIntoAllHavePanes(orientation, children[1..], target, inserted, direction);
    }
  }

  // ----- removing panes -----

  // What is left of the children of a split, with their sizes.
  function KeptRow(children: seq<PaneNode>, sizes: seq<real>, gone: set<TabId>): (r: Row)
    requires |children| == |sizes| && AllSized(children)
    ensures |r.children| == |r.sizes|
    decreases children, 0
  {
    if children == [] then Row([], [])
    else
      var rest := KeptRow(children[1..], sizes[1..], gone);
      match RemoveFrom(children[0], gone)
      case None => rest
      case Some(kept) => Joined(Row([kept], [sizes[0]]), rest)
  }

  function RemoveFrom(node: PaneNode, gone: set<TabId>): Option<PaneNode>
    requires Sized(node)
    decreases node, 1
  {
    match node
    case Pane(id) => if id in gone then None else Some(node)
    case Split(orientation, children, sizes) =>
      var kept := KeptRow(children, sizes, gone);
      if kept.children == [] then None
      // Scaling brings the sizes that remain back to a sum of one.
      else Some(Split(orientation, kept.children, ScaleToOne(kept.sizes)))
  }

  // What the source does: it pushes what is left of each child.
  method RemoveFromTree(node: PaneNode, gone: set<TabId>) returns (r: Option<PaneNode>)
    requires Sized(node)
    ensures r == RemoveFrom(node, gone)
    decreases node
  {
    if node.Pane? {
      return if node.tabId in gone then None else Some(node);
    }
    var children: seq<PaneNode>, sizes: seq<real> := [], [];
    for index := 0 to |node.children|
      invariant |children| == |sizes|
      invariant AllSized(node.children[index..])
      invariant KeptRow(node.children, node.sizes, gone)
             == Joined(Row(children, sizes), KeptRow(node.children[index..], node.sizes[index..], gone))
    {
      assert node.children[index..][1..] == node.children[index + 1..]
             && node.sizes[index..][1..] == node.sizes[index + 1..];
      var kept := RemoveFromTree(node.children[index], gone);
      if kept.Some? {
        JoinedAssociates(Row(children, sizes), Row([kept.value], [node.sizes[index]]),
                         KeptRow(node.children[index + 1..], node.sizes[index + 1..], gone));
        children := children + [kept.value];
        sizes := sizes + [node.sizes[index]];
      }
    }
    assert Joined(Row(children, sizes), Row([], [])) == Row(children, sizes);
    r := if children == [] then None else Some(Split(node.orientation, children, ScaleToOne(sizes)));
  }

  // Removing, and then putting what remains in canonical form again.
  function RemovePanes(root: PaneNode, gone: set<TabId>): Option<PaneNode>
    requires Sized(root)
  {
    match RemoveFrom(root, gone)
    case None => None
    case Some(kept) => Some(Normalized(kept))
  }

  lemma {:induction false} RemoveFromKeepsOrder(node: PaneNode, gone: set<TabId>)
    requires Sized(node)
    ensures match RemoveFrom(node, gone)
            case None => Without(PaneIds(node), gone) == []
            case Some(kept) => HasPanes(kept) && PaneIds(kept) == Without(PaneIds(node), gone) != []
    decreases node, 1
  {
    if node.Split? {
      KeptRowKeepsOrder(node.children, node.sizes, gone);
    }
  }

  lemma {:induction false} KeptRowKeepsOrder(children: seq<PaneNode>, sizes: seq<real>, gone: set<TabId>)
    requires |children| == |sizes| && AllSized(children)
    ensures var kept := KeptRow(children, sizes, gone).children;
      && AllHavePanes(kept)
      && PaneIdsOf(kept) == Without(PaneIdsOf(children), gone)
      && (kept == [] <==> PaneIdsOf(kept) == [])
    decreases children, 0
  {
    if children != [] {
      RemoveFromKeepsOrder(children[0], gone);
      KeptRowKeepsOrder(children[1..], sizes[1..], gone);
      WithoutAppend(PaneIds(children[0]), PaneIdsOf(children[1..]), gone);
      var rest := KeptRow(children[1..], sizes[1..], gone).children;
      match RemoveFrom(children[0], gone)
      case None =>
      case Some(kept) => assert ([kept] + rest)[1..] == rest;
    }
  }

  // Exactly the other panes are left, in their order, in a canonical tree.
  lemma RemovePanesKeepsTheRest(root: PaneNode, gone: set<TabId>)
    requires Sized(root)
    ensures match RemovePanes(root, gone)
            case None => Without(PaneIds(root), gone) == []
            case Some(kept) => Canonical(kept) && PaneIds(kept) == Without(PaneIds(root), gone) != []
  {
    RemoveFromKeepsOrder(root, gone);
    match RemoveFrom(root, gone)
    case None =>
    case Some(kept) => NormalizedIsCanonical(kept);
  }

  lemma {:induction false} CanonicalIsSized(node: PaneNode)
    requires Canonical(node)
    ensures Sized(node)
    decreases node, 1
  {
    if node.Split? {
      AllCanonicalAreSized(node.orientation, node.children);
    }
  }

  lemma {:induction false} AllCanonicalAreSized(orientation: Orientation, children: seq<PaneNode>)
    requires AllCanonical(orientation, children)
    ensures AllSized(children)
    decreases children, 0
  {
    if children != [] {
      CanonicalIsSized(children[0]);
      AllCanonicalAreSized(orientation, children[1..]);
    }
  }

  // ----- resizing a split -----

  // Replaces the sizes at one place of the tree, if `path` leads to a split of
  // as many children.
  function ResizeSplit(root: PaneNode, path: seq<int>, sizes: seq<real>): PaneNode
    decreases |path|
  {
    if root.Pane? then root
    else if path == [] then
      if |root.children| == |sizes| then root.(sizes := ScaleToOne(sizes)) else root
    else if 0 <= path[0] < |root.children| then
      root.(children := root.children[path[0] := ResizeSplit(root.children[path[0]], path[1..], sizes)])
    else root
  }

  lemma {:induction false} AllCanonicalUpdate(orientation: Orientation, children: seq<PaneNode>, index: nat,
          child: PaneNode)
    requires AllCanonical(orientation, children) && index < |children|
    ensures Canonical(children[index]) && !Runs(children[index], orientation)
    ensures Canonical(child) && !Runs(child, orientation) ==> AllCanonical(orientation, children[index := child])
    ensures PaneIds(child) == PaneIds(children[index]) ==> PaneIdsOf(children[index := child]) == PaneIdsOf(children)
  {
    if index > 0 {
      AllCanonicalUpdate(orientation, children[1..], index - 1, child);
      assert children[index := child][1..] == children[1..][index - 1 := child];
    } else {
      assert children[0 := child][1..] == children[1..];
    }
  }

  lemma {:induction false} ResizeSplitKeepsPanes(root: PaneNode, path: seq<int>, sizes: seq<real>)
    requires Canonical(root)
    ensures Canonical(ResizeSplit(root, path, sizes))
    ensures PaneIds(ResizeSplit(root, path, sizes)) == PaneIds(root)
    ensures forall orientation :: Runs(ResizeSplit(root, path, sizes), orientation) <==> Runs(root, orientation)
    decreases |path|
  {
    if root.Split? {
      if path == [] {
        if |root.children| == |sizes| {
          ScaleToOneGivesShares(sizes);
        }
      } else if 0 <= path[0] < |root.children| {
        var child := root.children[path[0]];
        AllCanonicalUpdate(root.orientation, root.children, path[0], child);
        ResizeSplitKeepsPanes(child, path[1..], sizes);
        AllCanonicalUpdate(root.orientation, root.children, path[0], ResizeSplit(child, path[1..], sizes));
      }
    }
  }

  // Takes one step down for each index; None where there is no such child.
  function NodeAt(root: PaneNode, path: seq<int>): Option<PaneNode>
    decreases |path|
  {
    if path == [] then Some(root)
    else if root.Split? && 0 <= path[0] < |root.children| then NodeAt(root.children[path[0]], path[1..])
    else None
  }
}
