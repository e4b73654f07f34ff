// Where the dividers are and what dragging one is told (src/lib/paneLayout.ts).
module PaneDividers {
  import opened Sequences
  import opened PaneTrees
  import opened PaneLayout

  // ----- the area of each part of a tree -----

  // The area of child `index` of a split laid out in `area`: from where the
  // child before it ends, and the gap after that, to where it ends itself.
  function ChildArea(node: PaneNode, area: PaneBox, gap: nat, index: nat): PaneBox
    requires node.Split? && |node.sizes| == |node.children| && index < |node.children|
  {
    var row := SplitRow(node.orientation, area, gap, |node.children|, []);
    var start := if index == 0 then Start(node.orientation, area)
                 else EndEdge(row, index - 1, Sum(node.sizes[..index])) + gap;
    Region(node.orientation, area, start, EndEdge(row, index, Sum(node.sizes[..index + 1])) - start)
  }

  // What a path leads to, and the area it has.
  function AreaAt(node: PaneNode, area: PaneBox, gap: nat, path: seq<int>): PaneBox
    requires Sized(node)
    decreases |path|
  {
    if path == [] || node.Pane? || !(0 <= path[0] < |node.children|) then area
    else
      SizedChild(node, path[0]);
      AreaAt(node.children[path[0]], ChildArea(node, area, gap, path[0]), gap, path[1..])
  }

  lemma SizedChild(node: PaneNode, index: nat)
    requires Sized(node) && node.Split? && index < |node.children|
    ensures Sized(node.children[index]) && |node.sizes| == |node.children|
  {
    AllSizedAt(node.children, index);
  }

  lemma {:induction false} AllSizedAt(children: seq<PaneNode>, index: nat)
    requires AllSized(children) && index < |children|
    ensures Sized(children[index])
  {
    if index > 0 {
      AllSizedAt(children[1..], index - 1);
    }
  }

  // ----- the dividers -----

  // A divider of the split that `path` leads to, between two of its children:
  // it starts where the first of them ends, is `gap` wide, and the other one
  // starts after it. Dragging it moves shares of the room left by the gaps.
  predicate IsDivider(sash: SashBox, root: PaneNode, area: PaneBox, gap: nat, path: seq<int>)
    requires Sized(root)
  {
    match NodeAt(root, path)
    case None => false
    case Some(node) =>
      && node.Split? && sash.index + 1 < |node.children| && sash.orientation == node.orientation
      && var whole, before, after := AreaAt(root, area, gap, path), AreaAt(root, area, gap, path + [sash.index]),
                                     AreaAt(root, area, gap, path + [sash.index + 1]);
         && sash.box == Region(node.orientation, whole, Limit(node.orientation, before), gap)
         && Start(node.orientation, after) == Limit(node.orientation, before) + gap
         && sash.room == Larger(0, Along(node.orientation, whole) - gap * (|node.children| - 1))
  }

  function Larger(a: int, b: int): int {
    if a >= b then a else b
  }

  // The divider stands `under` the path it is laid out below.
  predicate IsDividerUnder(sash: SashBox, root: PaneNode, area: PaneBox, gap: nat, under: seq<int>)
    requires Sized(root)
  {
    |under| <= |sash.path| && sash.path[..|under|] == under && IsDivider(sash, root, area, gap, sash.path[|under|..])
  }

  lemma AreaOfChild(node: PaneNode, area: PaneBox, gap: nat, index: nat, path: seq<int>)
    requires Sized(node) && node.Split? && index < |node.children|
    ensures |node.sizes| == |node.children| && Sized(node.children[index])
    ensures AreaAt(node, area, gap, [index] + path)
         == AreaAt(node.children[index], ChildArea(node, area, gap, index), gap, path)
    ensures NodeAt(node, [index] + path) == NodeAt(node.children[index], path)
  {
    SizedChild(node, index);
    assert ([index] + path)[1..] == path;
  }

  lemma DividerWithin(sash: SashBox, node: PaneNode, area: PaneBox, gap: nat, index: nat, path: seq<int>)
    requires Sized(node) && node.Split? && index < |node.children|
    requires |node.sizes| == |node.children| && Sized(node.children[index])
    requires IsDivider(sash, node.children[index], ChildArea(node, area, gap, index), gap, path)
    ensures IsDivider(sash, node, area, gap, [index] + path)
  {
    hide ChildArea;
    hide AreaAt;
    hide NodeAt;
    hide Region;
    AreaOfChild(node, area, gap, index, path);
    AreaOfChild(node, area, gap, index, path + [sash.index]);
    AreaOfChild(node, area, gap, index, path + [sash.index + 1]);
    assert [index] + (path + [sash.index]) == [index] + path + [sash.index];
    assert [index] + (path + [sash.index + 1]) == [index] + path + [sash.index + 1];
  }

  lemma DividerUnder(sash: SashBox, node: PaneNode, area: PaneBox, gap: nat, index: nat, under: seq<int>)
    requires Sized(node) && node.Split? && index < |node.children|
    requires |node.sizes| == |node.children| && Sized(node.children[index])
    requires IsDividerUnder(sash, node.children[index], ChildArea(node, area, gap, index), gap, under + [index])
    ensures IsDividerUnder(sash, node, area, gap, under)
  {
    hide IsDivider;
    hide ChildArea;
    var path := sash.path[|under| + 1..];
    DividerWithin(sash, node, area, gap, index, path);
    assert sash.path[..|under|] == sash.path[..|under| + 1][..|under|];
    assert sash.path[|under|] == sash.path[..|under| + 1][|under|] == index;
    assert sash.path[|under|..] == [index] + path;
  }

  // The end of a child does not depend on the path of its split.
  lemma EndsAlike(row: SplitRow, other: SplitRow, index: nat, share: real)
    requires row == other.(path := row.path)
    ensures EndEdge(row, index, share) == EndEdge(other, index, share)
  {
  }

  lemma SumOfOneMore(sizes: seq<real>, index: nat)
    requires index < |sizes|
    ensures Sum(sizes[..index + 1]) == Sum(sizes[..index]) + sizes[index]
  {
    assert sizes[..index + 1] == sizes[..index] + [sizes[index]];
    SumAppend(sizes[..index], [sizes[index]]);
    assert [sizes[index]][1..] == [];
  }

  lemma RegionLies(orientation: Orientation, area: PaneBox, start: int, length: int)
    ensures Start(orientation, Region(orientation, area, start, length)) == start
    ensures Limit(orientation, Region(orientation, area, start, length)) == start + length
  {
  }

  lemma AreaOfChildIs(node: PaneNode, area: PaneBox, gap: nat, index: nat)
    requires Sized(node) && node.Split? && index < |node.children|
    ensures |node.sizes| == |node.children|
    ensures AreaAt(node, area, gap, [index]) == ChildArea(node, area, gap, index)
    ensures AreaAt(node, area, gap, []) == area && NodeAt(node, []) == Some(node)
  {
    AreaOfChild(node, area, gap, index, []);
    assert [index] + [] == [index];
  }

  // The divider after child `index` of the split itself.
  lemma OwnDivider(node: PaneNode, area: PaneBox, gap: nat, under: seq<int>, index: nat, end: int, sash: SashBox)
    requires Sized(node) && node.Split? && |node.sizes| == |node.children| && index + 1 < |node.children|
    requires end == Limit(node.orientation, ChildArea(node, area, gap, index))
    requires SashAfter(SplitRow(node.orientation, area, gap, |node.children|, under), index, end) == [sash]
    ensures IsDividerUnder(sash, node, area, gap, under) && sash.path == under && sash.index == index
  {
    AreaOfChildIs(node, area, gap, index);
    AreaOfChildIs(node, area, gap, index + 1);
    assert sash.path[|under|..] == [] && [] + [index] == [index] && [] + [index + 1] == [index + 1];
  }

  // Where child `index` starts and ends, as the row that is laid out has it.
  lemma ChildAreaInRow(node: PaneNode, area: PaneBox, gap: nat, under: seq<int>, index: nat, edge: int, end: int)
    requires node.Split? && |node.sizes| == |node.children| && index < |node.children|
    requires var row := SplitRow(node.orientation, area, gap, |node.children|, under);
      && edge == (if index == 0 then Start(node.orientation, area)
                  else EndEdge(row, index - 1, Sum(node.sizes[..index])) + gap)
      && end == EndEdge(row, index, Sum(node.sizes[..index]) + node.sizes[index])
    ensures ChildArea(node, area, gap, index) == Region(node.orientation, area, edge, end - edge)
    ensures Limit(node.orientation, ChildArea(node, area, gap, index)) == end
  {
    hide EndEdge;
    var row := SplitRow(node.orientation, area, gap, |node.children|, under);
    SumOfOneMore(node.sizes, index);
    EndsAlike(row, row.(path := []), index, Sum(node.sizes[..index + 1]));
    if index > 0 {
      EndsAlike(row, row.(path := []), index - 1, Sum(node.sizes[..index]));
    }
  }

  // There is a divider for each path to a split and each of its children but
  // the last.
  ghost predicate HasDivider(sashes: seq<SashBox>, path: seq<int>, index: nat) {
    exists k :: 0 <= k < |sashes| && sashes[k].path == path && sashes[k].index == index
  }

  ghost predicate HasEveryDivider(sashes: seq<SashBox>, root: PaneNode, under: seq<int>) {
    forall path: seq<int>, index: nat :: NodeAt(root, path).Some? && NodeAt(root, path).value.Split?
                                         && index + 1 < |NodeAt(root, path).value.children| ==>
      HasDivider(sashes, under + path, index)
  }

  ghost predicate AreDividers(sashes: seq<SashBox>, root: PaneNode, area: PaneBox, gap: nat, under: seq<int>)
    requires Sized(root)
  {
    forall k :: 0 <= k < |sashes| ==> IsDividerUnder(sashes[k], root, area, gap, under)
  }

  // Where child `from` starts, once the row is laid out up to it.
  predicate StartsRow(node: PaneNode, area: PaneBox, gap: nat, under: seq<int>, from: nat, edge: int)
    requires node.Split? && |node.sizes| == |node.children| && from <= |node.children|
  {
    var row := SplitRow(node.orientation, area, gap, |node.children|, under);
    edge == if from == 0 then Start(node.orientation, area)
            else EndEdge(row, from - 1, Sum(node.sizes[..from])) + gap
  }

  // The children of a split from `from` on, laid out.
  function RowFrom(node: PaneNode, area: PaneBox, gap: nat, under: seq<int>, from: nat, edge: int): Laid
    requires node.Split? && |node.sizes| == |node.children| && from <= |node.children|
             && AllSized(node.children[from..])
  {
    var row := SplitRow(node.orientation, area, gap, |node.children|, under);
    LayoutRow(row, node.children[from..], Ends(row, node.sizes[from..], from, Sum(node.sizes[..from])), from, edge)
  }

  lemma RowUnfolds(node: PaneNode, area: PaneBox, gap: nat, under: seq<int>, from: nat, edge: int) returns (end: int)
    requires node.Split? && |node.sizes| == |node.children| && from < |node.children|
    requires AllSized(node.children[from..]) && StartsRow(node, area, gap, under, from, edge)
    ensures Sized(node.children[from]) && AllSized(node.children[from + 1..])
    ensures end == Limit(node.orientation, ChildArea(node, area, gap, from))
    ensures StartsRow(node, area, gap, under, from + 1, end + gap)
    ensures var row := SplitRow(node.orientation, area, gap, |node.children|, under);
      var first := Layout(node.children[from], ChildArea(node, area, gap, from), gap, under + [from]);
      var rest := RowFrom(node, area, gap, under, from + 1, end + gap);
      RowFrom(node, area, gap, under, from, edge)
      == Laid(first.panes + rest.panes, first.sashes + SashAfter(row, from, end) + rest.sashes)
  {
    hide Layout;
    hide EndEdge;
    hide ChildArea;
    hide Region;
    hide SashAfter;
    var row := SplitRow(node.orientation, area, gap, |node.children|, under);
    end := EndEdge(row, from, Sum(node.sizes[..from]) + node.sizes[from]);
    assert node.sizes[from..][0] == node.sizes[from] && node.sizes[from..][1..] == node.sizes[from + 1..];
    assert node.children[from..][0] == node.children[from] && node.children[from..][1..] == node.children[from + 1..];
    SumOfOneMore(node.sizes, from);
    ChildAreaInRow(node, area, gap, under, from, edge, end);
  }

  lemma WholeRow(node: PaneNode, area: PaneBox, gap: nat, under: seq<int>)
    requires Sized(node) && node.Split?
    ensures |node.sizes| == |node.children| && AllSized(node.children[0..])
    ensures StartsRow(node, area, gap, under, 0, Start(node.orientation, area))
    ensures Layout(node, area, gap, under) == RowFrom(node, area, gap, under, 0, Start(node.orientation, area))
  {
    assert node.children[0..] == node.children && node.sizes[0..] == node.sizes;
  }

  lemma {:induction false} LaidDividers(node: PaneNode, area: PaneBox, gap: nat, under: seq<int>)
    requires Sized(node)
    ensures AreDividers(Layout(node, area, gap, under).sashes, node, area, gap, under)
    decreases node, if node.Split? then |node.children| + 1 else 0
  {
    if node.Split? {
      hide IsDividerUnder;
      hide Layout;
      hide RowFrom;
      WholeRow(node, area, gap, under);
      LaidDividersFrom(node, area, gap, under, 0, Start(node.orientation, area));
    }
  }

  lemma {:induction false} LaidDividersFrom(node: PaneNode, area: PaneBox, gap: nat, under: seq<int>, index: nat,
          edge: int)
    requires Sized(node) && node.Split? && |node.sizes| == |node.children| && index <= |node.children|
    requires AllSized(node.children[index..]) && StartsRow(node, area, gap, under, index, edge)
    ensures AreDividers(RowFrom(node, area, gap, under, index, edge).sashes, node, area, gap, under)
    decreases node, |node.children| - index
  {
    if index == |node.children| {
      return;
    }
    var end := RowUnfolds(node, area, gap, under, index, edge);
    hide IsDividerUnder;
    hide Layout;
    hide RowFrom;
    hide SashAfter;
    hide StartsRow;
    var child, childArea := node.children[index], ChildArea(node, area, gap, index);
    hide ChildArea;
    LaidDividers(child, childArea, gap, under + [index]);
    var own := Layout(child, childArea, gap, under + [index]).sashes;
    forall k | 0 <= k < |own| ensures IsDividerUnder(own[k], node, area, gap, under) {
      DividerUnder(own[k], node, area, gap, index, under);
    }
    LaidDividersFrom(node, area, gap, under, index + 1, end + gap);
    OneSash(node, area, gap, under, index, end);
  }

  lemma OneSash(node: PaneNode, area: PaneBox, gap: nat, under: seq<int>, index: nat, end: int)
    requires Sized(node) && node.Split? && |node.sizes| == |node.children| && index < |node.children|
    requires end == Limit(node.orientation, ChildArea(node, area, gap, index))
    ensures var sashes := SashAfter(SplitRow(node.orientation, area, gap, |node.children|, under), index, end);
      && AreDividers(sashes, node, area, gap, under)
      && (index + 1 < |node.children| ==> HasDivider(sashes, under, index))
  {
    if index + 1 < |node.children| {
      var sashes := SashAfter(SplitRow(node.orientation, area, gap, |node.children|, under), index, end);
      assert sashes == [sashes[0]];
      OwnDivider(node, area, gap, under, index, end, sashes[0]);
    }
  }

  // The dividers of the split itself and below its children, from `index` on.
  ghost predicate HasThoseFrom(sashes: seq<SashBox>, root: PaneNode, under: seq<int>, index: nat)
    requires root.Split?
  {
    && (forall i: nat :: index <= i && i + 1 < |root.children| ==> HasDivider(sashes, under, i))
    && forall k: nat :: index <= k < |root.children| ==> HasEveryDivider(sashes, root.children[k], under + [k])
  }

  lemma HasDividerIn(sashes: seq<SashBox>, before: seq<SashBox>, after: seq<SashBox>, path: seq<int>, index: nat)
    requires HasDivider(sashes, path, index)
    ensures HasDivider(before + sashes + after, path, index)
  {
    var k :| 0 <= k < |sashes| && sashes[k].path == path && sashes[k].index == index;
    assert (before + sashes + after)[|before| + k] == sashes[k];
  }

  lemma HasEveryDividerIn(sashes: seq<SashBox>, before: seq<SashBox>, after: seq<SashBox>, root: PaneNode,
          under: seq<int>)
    requires HasEveryDivider(sashes, root, under)
    ensures HasEveryDivider(before + sashes + after, root, under)
  {
    hide HasDivider;
    forall path: seq<int>, index: nat | NodeAt(root, path).Some? && NodeAt(root, path).value.Split?
                                        && index + 1 < |NodeAt(root, path).value.children|
      ensures HasDivider(before + sashes + after, under + path, index)
    {
      HasDividerIn(sashes, before, after, under + path, index);
    }
  }

  lemma HasThoseTogether(root: PaneNode, under: seq<int>, index: nat, own: seq<SashBox>, sash: seq<SashBox>,
          rest: seq<SashBox>)
    requires root.Split? && index < |root.children|
    requires HasEveryDivider(own, root.children[index], under + [index]) && HasThoseFrom(rest, root, under, index + 1)
    requires index + 1 < |root.children| ==> HasDivider(sash, under, index)
    ensures HasThoseFrom(own + sash + rest, root, under, index)
  {
    hide HasDivider;
    hide HasEveryDivider;
    var all := own + sash + rest;
    assert [] + own + (sash + rest) == all && (own + sash) + rest + [] == all;
    HasEveryDividerIn(own, [], sash + rest, root.children[index], under + [index]);
    if index + 1 < |root.children| {
      HasDividerIn(sash, own, rest, under, index);
    }
    forall i: nat | index < i && i + 1 < |root.children| ensures HasDivider(all, under, i) {
      HasDividerIn(rest, own + sash, [], under, i);
    }
    forall k: nat | index < k < |root.children| ensures HasEveryDivider(all, root.children[k], under + [k]) {
      HasEveryDividerIn(rest, own + sash, [], root.children[k], under + [k]);
    }
  }

  lemma HasAllOfThem(sashes: seq<SashBox>, root: PaneNode, under: seq<int>)
    requires root.Split? && HasThoseFrom(sashes, root, under, 0)
    ensures HasEveryDivider(sashes, root, under)
  {
    hide HasDivider;
    forall path: seq<int>, index: nat | NodeAt(root, path).Some? && NodeAt(root, path).value.Split?
                                        && index + 1 < |NodeAt(root, path).value.children|
      ensures HasDivider(sashes, under + path, index)
    {
      if path == [] {
        assert under + path == under;
      } else {
        var child := root.children[path[0]];
        assert NodeAt(child, path[1..]) == NodeAt(root, path);
        assert HasEveryDivider(sashes, child, under + [path[0]]);
        assert under + [path[0]] + path[1..] == under + path;
      }
    }
  }

  lemma {:induction false} LaidEveryDivider(node: PaneNode, area: PaneBox, gap: nat, under: seq<int>)
    requires Sized(node)
    ensures HasEveryDivider(Layout(node, area, gap, under).sashes, node, under)
    decreases node, 1
  {
    if node.Split? {
      hide HasEveryDivider;
      var row := SplitRow(node.orientation, area, gap, |node.children|, under);
      assert node.children[0..] == node.children;
      LaidEveryFrom(node, row, node.children, Ends(row, node.sizes, 0, 0.0), 0, Start(node.orientation, area));
      HasAllOfThem(Layout(node, area, gap, under).sashes, node, under);
    }
  }

  lemma {:induction false} LaidEveryFrom(node: PaneNode, row: SplitRow, children: seq<PaneNode>, ends: seq<int>,
          index: nat, edge: int)
    requires node.Split? && index <= |node.children| && children == node.children[index..] && AllSized(children)
    requires |children| == |ends| && row.count == |node.children|
    ensures HasThoseFrom(LayoutRow(row, children, ends, index, edge).sashes, node, row.path, index)
    decreases children, 0
  {
    hide HasEveryDivider;
    hide HasDivider;
    if children != [] {
      var area := Region(row.orientation, row.area, edge, ends[0] - edge);
      assert children[0] == node.children[index] && children[1..] == node.children[index + 1..];
      LaidEveryDivider(children[0], area, row.gap, row.path + [index]);
      LaidEveryFrom(node, row, children[1..], ends[1..], index + 1, ends[0] + row.gap);
      SashIsOne(row, index, ends[0]);
      hide Layout;
      hide HasThoseFrom;
      HasThoseTogether(node, row.path, index, Layout(children[0], area, row.gap, row.path + [index]).sashes,
                       SashAfter(row, index, ends[0]),
                       LayoutRow(row, children[1..], ends[1..], index + 1, ends[0] + row.gap).sashes);
    }
  }

  lemma SashIsOne(row: SplitRow, index: nat, end: int)
    ensures index + 1 != row.count ==> HasDivider(SashAfter(row, index, end), row.path, index)
  {
    if index + 1 != row.count {
      var sashes := SashAfter(row, index, end);
      assert sashes[0].path == row.path && sashes[0].index == index;
    }
  }

  // How many dividers a tree has.
  function DividersIn(node: PaneNode): int
    decreases node, 1
  {
    if node.Pane? then 0 else |node.children| - 1 + DividersInAll(node.children)
  }

  function DividersInAll(children: seq<PaneNode>): int
    decreases children, 0
  {
    if children == [] then 0 else DividersIn(children[0]) + DividersInAll(children[1..])
  }

  lemma {:induction false} LaidAsMany(node: PaneNode, area: PaneBox, gap: nat, under: seq<int>)
    requires Sized(node)
    ensures |Layout(node, area, gap, under).sashes| == DividersIn(node)
    decreases node, 1
  {
    if node.Split? {
      var row := SplitRow(node.orientation, area, gap, |node.children|, under);
      LaidAsManyFrom(row, node.children, Ends(row, node.sizes, 0, 0.0), 0, Start(node.orientation, area));
    }
  }

  lemma {:induction false} LaidAsManyFrom(row: SplitRow, children: seq<PaneNode>, ends: seq<int>, index: nat, edge: int)
    requires |children| == |ends| && AllSized(children) && index + |children| == row.count
    ensures |LayoutRow(row, children, ends, index, edge).sashes|
         == DividersInAll(children) + if children == [] then 0 else |children| - 1
    decreases children, 0
  {
    if children != [] {
      LaidAsMany(children[0], Region(row.orientation, row.area, edge, ends[0] - edge), row.gap, row.path + [index]);
      LaidAsManyFrom(row, children[1..], ends[1..], index + 1, ends[0] + row.gap);
    }
  }

  // The dividers are those between the children of each split, one each.
  lemma DividersAre(root: PaneNode, area: PaneBox, gap: nat)
    requires Sized(root)
    ensures var sashes := Layout(root, area, gap, []).sashes;
      && (forall k :: 0 <= k < |sashes| ==> IsDivider(sashes[k], root, area, gap, sashes[k].path))
      && (forall path: seq<int>, index: nat :: NodeAt(root, path).Some? && NodeAt(root, path).value.Split?
                                               && index + 1 < |NodeAt(root, path).value.children| ==>
            HasDivider(sashes, path, index))
      && |sashes| == DividersIn(root)
  {
    hide IsDivider;
    hide HasDivider;
    hide Layout;
    LaidDividers(root, area, gap, []);
    LaidEveryDivider(root, area, gap, []);
    LaidAsMany(root, area, gap, []);
    var sashes := Layout(root, area, gap, []).sashes;
    forall k | 0 <= k < |sashes| ensures IsDivider(sashes[k], root, area, gap, sashes[k].path) {
      assert IsDividerUnder(sashes[k], root, area, gap, []) && sashes[k].path[0..] == sashes[k].path;
    }
    forall path: seq<int>, index: nat | NodeAt(root, path).Some? && NodeAt(root, path).value.Split?
                                        && index + 1 < |NodeAt(root, path).value.children|
      ensures HasDivider(sashes, path, index)
    {
      assert [] + path == path;
    }
  }

  // The panes have the areas of the leaves.
  lemma {:induction false} PanesAreAt(node: PaneNode, area: PaneBox, gap: nat, under: seq<int>, path: seq<int>)
    requires Sized(node) && NodeAt(node, path).Some? && NodeAt(node, path).value.Pane?
    ensures PlacedBox(NodeAt(node, path).value.tabId, AreaAt(node, area, gap, path))
         in Layout(node, area, gap, under).panes
    decreases |path|
  {
    if path != [] {
      var index := path[0];
      AreaOfChild(node, area, gap, index, path[1..]);
      assert [index] + path[1..] == path;
      var placed := PlacedBox(NodeAt(node, path).value.tabId, AreaAt(node, area, gap, path));
      PanesAreAt(node.children[index], ChildArea(node, area, gap, index), gap, under + [index], path[1..]);
      hide *;
      WholeRow(node, area, gap, under);
      ChildIsLaidOut(node, area, gap, under, 0, Start(node.orientation, area), index, placed);
    }
  }

  lemma {:induction false} ChildIsLaidOut(node: PaneNode, area: PaneBox, gap: nat, under: seq<int>, from: nat,
          edge: int, index: nat, placed: PlacedBox)
    requires node.Split? && |node.sizes| == |node.children| && from <= index < |node.children|
    requires Sized(node.children[index]) && AllSized(node.children[from..])
    requires StartsRow(node, area, gap, under, from, edge)
    requires placed in Layout(node.children[index], ChildArea(node, area, gap, index), gap, under + [index]).panes
    ensures placed in RowFrom(node, area, gap, under, from, edge).panes
    decreases index - from
  {
    hide *;
    var end := RowUnfolds(node, area, gap, under, from, edge);
    if from < index {
      ChildIsLaidOut(node, area, gap, under, from + 1, end + gap, index, placed);
    }
  }
}
