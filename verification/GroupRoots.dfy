// Which groups end up at the top of the tree, and in what order
// (src/lib/profileGroups.ts), when the names and the ids are compared by
// total orders.
module GroupRoots {
  import opened Sequences
  import opened ProfileGroups
  import opened ProfileGroupsProofs

  ghost predicate TotalOrder<T(!new)>(le: (T, T) -> bool) {
    && (forall x, y :: le(x, y) || le(y, x))
    && (forall x, y, z :: le(x, y) && le(y, z) ==> le(x, z))
  }

  ghost predicate InOrder<T>(s: seq<T>, le: (T, T) -> bool) {
    forall i, j :: 0 <= i < j < |s| ==> le(s[i], s[j])
  }

  lemma {:induction false} InsertByStaysInOrder<T(!new)>(x: T, s: seq<T>, le: (T, T) -> bool)
    requires TotalOrder(le) && InOrder(s, le)
    ensures InOrder(InsertBy(x, s, le), le)
  {
    if s != [] && !le(x, s[0]) {
      InsertByStaysInOrder(x, s[1..], le);
      var rest := InsertBy(x, s[1..], le);
      InsertByAdds(x, s[1..], le);
      forall y | y in rest ensures le(s[0], y) {
        assert y in multiset(rest);
        assert y == x || y in s[1..];
        if y in s[1..] {
          var i :| 0 <= i < |s| - 1 && s[1..][i] == y;
          assert s[i + 1] == y;
        }
      }
    }
  }

  lemma {:induction false} SortByPutsInOrder<T(!new)>(s: seq<T>, le: (T, T) -> bool)
    requires TotalOrder(le)
    ensures InOrder(SortBy(s, le), le)
  {
    if s != [] {
      SortByPutsInOrder(s[1..], le);
      InsertByStaysInOrder(s[0], SortBy(s[1..], le), le);
    }
  }

  // ----- loops -----

  ghost predicate OnLoop(groups: seq<Group>, group: Group) {
    exists n: nat :: n > 0 && Up(groups, group, n) == Some(group)
  }

  // Some group above it has a smaller id.
  ghost predicate BelowASmaller(groups: seq<Group>, group: Group, idLe: (Group, Group) -> bool) {
    exists n: nat :: Up(groups, group, n).Some? && !idLe(group, Up(groups, group, n).value)
  }

  // The order of the ids tells any two groups apart.
  ghost predicate OrdersIds(groups: seq<Group>, idLe: (Group, Group) -> bool) {
    TotalOrder(idLe) && forall x, y :: x in groups && y in groups && idLe(x, y) && idLe(y, x) ==> x == y
  }

  ghost predicate IsAtTop(nodes: seq<GroupNode>, group: Group) {
    exists node :: node in nodes && node.group == group
  }

  lemma CutIsLeast(given: seq<Group>, placed: set<GroupId>, idLe: (Group, Group) -> bool)
    requires TotalOrder(idLe)
    ensures var left := SortBy(Unplaced(given, placed), idLe);
            left != [] ==> forall h :: h in given && h.id !in placed ==> idLe(left[0], h)
  {
    var rest := Unplaced(given, placed);
    var left := SortBy(rest, idLe);
    UnplacedAre(given, placed);
    SortByPutsInOrder(rest, idLe);
    SortByKeeps(rest, idLe);
    if left != [] {
      forall h | h in given && h.id !in placed ensures idLe(left[0], h) {
        assert h in multiset(left);
        var i :| 0 <= i < |left| && left[i] == h;
      }
    }
  }

  lemma CutNodes(groups: seq<Group>, cut: Group, placed: set<GroupId>)
    requires Ready(groups, [cut], placed)
    ensures var nodes := Place(groups, [cut], 0, "", placed).nodes;
            nodes != [] && nodes[0].group == cut && forall node :: node in nodes ==> node.group == cut
  {
    PlacePutsUnderDeclared(groups, [cut], 0, "", placed);
    var nodes := Place(groups, [cut], 0, "", placed).nodes;
    assert |nodes| == 1 && GroupsOf(nodes)[0] == nodes[0].group == cut;
  }

  // Nothing above the least unplaced group is smaller: it is unplaced too.
  lemma CutIsBelowNoSmaller(groups: seq<Group>, placed: set<GroupId>, idLe: (Group, Group) -> bool, cut: Group)
    requires DistinctIds(groups) && Closed(groups, placed) && cut in groups && cut.id !in placed
    requires forall h :: h in groups && h.id !in placed ==> idLe(cut, h)
    ensures !BelowASmaller(groups, cut, idLe)
  {
    forall n: nat | Up(groups, cut, n).Some? ensures idLe(cut, Up(groups, cut, n).value) {
      UpIsAGroup(groups, cut, n);
      if Up(groups, cut, n).value.id in placed {
        PlacedReachesDown(groups, placed, cut, n);
      }
    }
  }

  // What gets placed with a cut is below it.
  lemma PlacedIsBelowTheCut(groups: seq<Group>, placed: set<GroupId>, idLe: (Group, Group) -> bool, cut: Group,
          h: Group)
    requires DistinctIds(groups) && Ready(groups, [cut], placed) && OrdersIds(groups, idLe)
    requires forall g :: g in groups && g.id !in placed ==> idLe(cut, g)
    requires h in groups && h != cut && h.id !in placed && h.id in Place(groups, [cut], 0, "", placed).placed
    ensures BelowASmaller(groups, h, idLe)
  {
    var n := PlacedLeadsUp(groups, [cut], 0, "", placed, h);
    assert Up(groups, h, n) == Some(cut);
    assert cut in [cut];
    assert idLe(cut, h) && !idLe(h, cut);
  }

  // Cutting loops puts at the top the unplaced groups below none smaller.
  lemma {:induction false} LoopRoots(groups: seq<Group>, given: seq<Group>, placed: set<GroupId>,
          idLe: (Group, Group) -> bool, h: Group)
    requires DistinctIds(groups) && SameGroups(given, groups) && placed <= Ids(groups) && Closed(groups, placed)
    requires OrdersIds(groups, idLe) && h in groups
    ensures IsAtTop(PlaceLoops(groups, given, placed, idLe).nodes, h)
       <==> h.id !in placed && !BelowASmaller(groups, h, idLe)
    decreases Ids(groups) - placed
  {
    hide BelowASmaller;
    if Ids(groups) <= placed {
      LoopsDone(groups, given, placed, idLe);
      assert h.id in Ids(groups);
      return;
    }
    var cut, first := CutUnfolded(groups, given, placed, idLe);
    CutIsLeast(given, placed, idLe);
    CutNodes(groups, cut, placed);
    PlaceCloses(groups, [cut], 0, "", placed);
    LoopRoots(groups, given, first.placed, idLe, h);
    var rest := PlaceLoops(groups, given, first.placed, idLe).nodes;
    TopOfBoth(first.nodes, rest, h);
    if h == cut {
      CutIsBelowNoSmaller(groups, placed, idLe, cut);
      assert first.nodes[0] in first.nodes;
    } else if h.id !in placed && h.id in first.placed {
      PlacedIsBelowTheCut(groups, placed, idLe, cut, h);
    }
  }

  lemma TopOfBoth(a: seq<GroupNode>, b: seq<GroupNode>, h: Group)
    ensures IsAtTop(a + b, h) <==> IsAtTop(a, h) || IsAtTop(b, h)
  {
    if IsAtTop(a, h) {
      var node :| node in a && node.group == h;
      assert node in a + b;
    }
    if IsAtTop(b, h) {
      var node :| node in b && node.group == h;
      assert node in a + b;
    }
  }

  lemma TopNodes(groups: seq<Group>) returns (top: Placed)
    requires DistinctIds(groups)
    ensures Ready(groups, ChildrenOf(Ids(groups), groups, None), {})
    ensures top == Place(groups, ChildrenOf(Ids(groups), groups, None), 0, "", {})
    ensures top.placed <= Ids(groups) && Closed(groups, top.placed) && TopsPlaced(groups, top.placed)
    ensures forall h :: h in groups ==> (IsAtTop(top.nodes, h) <==> Parent(Ids(groups), h).None?)
    ensures forall h :: h in groups ==> (h.id in top.placed <==> ChainEnds(groups, h))
  {
    TopIsReady(groups);
    var list := ChildrenOf(Ids(groups), groups, None);
    top := Place(groups, list, 0, "", {});
    PlaceCloses(groups, list, 0, "", {});
    assert top.placed - {} == top.placed;
    PlacePutsUnderDeclared(groups, list, 0, "", {});
    forall h | h in groups ensures IsAtTop(top.nodes, h) <==> Parent(Ids(groups), h).None? {
      AtTopOf(top.nodes, h);
    }
    forall h | h in groups ensures h.id in top.placed <==> ChainEnds(groups, h) {
      UnderTheTop(groups, h);
    }
  }

  // The groups placed under the top-level ones are those whose parents end.
  lemma UnderTheTop(groups: seq<Group>, h: Group)
    requires DistinctIds(groups) && h in groups && Ready(groups, ChildrenOf(Ids(groups), groups, None), {})
    ensures h.id in Place(groups, ChildrenOf(Ids(groups), groups, None), 0, "", {}).placed <==> ChainEnds(groups, h)
  {
    hide Place;
    TopIsReady(groups);
    var list := ChildrenOf(Ids(groups), groups, None);
    var top := Place(groups, list, 0, "", {});
    if h.id in top.placed {
      var n := PlacedLeadsUp(groups, list, 0, "", {}, h);
      EndsAbove(groups, h, n);
    } else if ChainEnds(groups, h) {
      PlaceCloses(groups, list, 0, "", {});
      assert top.placed - {} == top.placed;
      var n: nat :| Up(groups, h, n).None?;
      EndingChainsArePlaced(groups, top.placed, h, n);
    }
  }

  lemma EndsAbove(groups: seq<Group>, h: Group, n: nat)
    requires Up(groups, h, n).Some? && Parent(Ids(groups), Up(groups, h, n).value).None?
    ensures ChainEnds(groups, h)
  {
    assert Up(groups, h, n + 1).None?;
  }

  lemma AtTopOf(nodes: seq<GroupNode>, h: Group)
    ensures IsAtTop(nodes, h) <==> h in GroupsOf(nodes)
  {
    if h in GroupsOf(nodes) {
      var i :| 0 <= i < |nodes| && GroupsOf(nodes)[i] == h;
      assert nodes[i] in nodes;
    }
    if IsAtTop(nodes, h) {
      var node :| node in nodes && node.group == h;
      var i :| 0 <= i < |nodes| && nodes[i] == node;
      assert GroupsOf(nodes)[i] == h;
    }
  }

  // ----- which groups are at the top -----

  // At the top belongs a group without a parent, and of those whose parents
  // never end, one that is below none with a smaller id.
  ghost predicate BelongsAtTop(groups: seq<Group>, h: Group, idLe: (Group, Group) -> bool) {
    Parent(Ids(groups), h).None? || (!ChainEnds(groups, h) && !BelowASmaller(groups, h, idLe))
  }

  lemma RootsAre(groups: seq<Group>, given: seq<Group>, idLe: (Group, Group) -> bool, h: Group)
    requires DistinctIds(groups) && SameGroups(given, groups) && OrdersIds(groups, idLe) && h in groups
    ensures IsAtTop(PlaceGroups(groups, given, idLe).nodes, h) <==> BelongsAtTop(groups, h, idLe)
  {
    hide BelowASmaller;
    hide ChainEnds;
    var top := TopNodes(groups);
    LoopRoots(groups, given, top.placed, idLe, h);
    TopOfBoth(top.nodes, PlaceLoops(groups, given, top.placed, idLe).nodes, h);
  }

  lemma {:induction false} ParentsGoOn(groups: seq<Group>, h: Group, n: nat, m: nat)
    requires Up(groups, h, n) == Some(h) && n > 0
    ensures Up(groups, h, m).Some?
  {
    if m < n {
      EndedStaysEnded(groups, h, m, n);
    } else {
      ParentsGoOn(groups, h, n, m - n);
      UpFromUp(groups, h, n, m - n, h);
    }
  }

  lemma {:induction false} EndedStaysEnded(groups: seq<Group>, h: Group, m: nat, n: nat)
    requires m <= n
    ensures Up(groups, h, m).None? ==> Up(groups, h, n).None?
  {
    if m < n {
      EndedStaysEnded(groups, h, m, n - 1);
    }
  }

  lemma {:induction false} UpFromUp(groups: seq<Group>, h: Group, n: nat, m: nat, q: Group)
    requires Up(groups, h, n) == Some(q)
    ensures Up(groups, h, n + m) == Up(groups, q, m)
  {
    if m > 0 {
      UpFromUp(groups, h, n, m - 1, q);
    }
  }

  lemma LoopsNeverEnd(groups: seq<Group>, h: Group)
    requires OnLoop(groups, h)
    ensures !ChainEnds(groups, h)
  {
    var n: nat :| n > 0 && Up(groups, h, n) == Some(h);
    forall m: nat ensures Up(groups, h, m).Some? {
      ParentsGoOn(groups, h, n, m);
    }
  }

  // Every loop has a root: its member that comes first in the order of ids.
  lemma LeastOfALoopIsAtTop(groups: seq<Group>, given: seq<Group>, idLe: (Group, Group) -> bool, h: Group)
    requires DistinctIds(groups) && SameGroups(given, groups) && OrdersIds(groups, idLe) && h in groups
    requires OnLoop(groups, h) && forall n: nat :: Up(groups, h, n).Some? ==> idLe(h, Up(groups, h, n).value)
    ensures IsAtTop(PlaceGroups(groups, given, idLe).nodes, h)
  {
    LoopsNeverEnd(groups, h);
    RootsAre(groups, given, idLe, h);
  }

  // Only groups on a loop are put at the top though their parent is there.
  ghost predicate CutsLoopsOnly(groups: seq<Group>, nodes: seq<GroupNode>) {
    forall h :: h in groups && IsAtTop(nodes, h) && Parent(Ids(groups), h).Some? ==> OnLoop(groups, h)
  }

  // No other group with a parent is, exactly when each group that hangs off
  // a loop is below one with a smaller id.
  lemma OnlyLoopsAreCutExactlyWhen(groups: seq<Group>, given: seq<Group>, idLe: (Group, Group) -> bool)
    requires DistinctIds(groups) && SameGroups(given, groups) && OrdersIds(groups, idLe)
    ensures CutsLoopsOnly(groups, PlaceGroups(groups, given, idLe).nodes)
       <==> forall h :: h in groups && !ChainEnds(groups, h) && !OnLoop(groups, h) ==> BelowASmaller(groups, h, idLe)
  {
    hide PlaceGroups;
    hide OnLoop;
    hide BelowASmaller;
    forall h | h in groups
      ensures IsAtTop(PlaceGroups(groups, given, idLe).nodes, h) <==> BelongsAtTop(groups, h, idLe)
    {
      RootsAre(groups, given, idLe, h);
    }
    forall h | h in groups && !ChainEnds(groups, h) ensures Parent(Ids(groups), h).Some? {
      assert Up(groups, h, 0) == Some(h) && Up(groups, h, 1).Some?;
    }
    forall h | h in groups && Parent(Ids(groups), h).None? ensures ChainEnds(groups, h) {
      assert Up(groups, h, 0) == Some(h) && Up(groups, h, 1).None?;
    }
  }

  predicate ByKeyLength(x: Group, y: Group) {
    |x.id.key| <= |y.id.key|
  }

  // Two groups in a loop and a third below one of them: when the third has
  // the smallest id it is put at the top too, though it is on no loop.
  lemma TailCanBeCut()
    ensures var groups := [Group(GroupId("a"), "", Some(GroupId("bb"))), Group(GroupId("bb"), "", Some(GroupId("ccc"))),
                           Group(GroupId("ccc"), "", Some(GroupId("bb")))];
            var nodes := PlaceGroups(groups, groups, ByKeyLength).nodes;
            && DistinctIds(groups) && !CutsLoopsOnly(groups, nodes)
            && IsAtTop(nodes, groups[0]) && !OnLoop(groups, groups[0])
            && IsAtTop(nodes, groups[1]) && !IsAtTop(nodes, groups[2])
  {
    hide PlaceGroups;
    hide CutsLoopsOnly;
    var a, b, c := Group(GroupId("a"), "", Some(GroupId("bb"))), Group(GroupId("bb"), "", Some(GroupId("ccc"))),
        Group(GroupId("ccc"), "", Some(GroupId("bb")));
    var groups := [a, b, c];
    assert |a.id.key| == 1 && |b.id.key| == 2 && |c.id.key| == 3;
    assert DistinctIds(groups);
    assert a in groups && b in groups && c in groups;
    assert b.id in Ids(groups) && c.id in Ids(groups);
    SameIdSameGroup(groups, b, Find(groups, b.id));
    SameIdSameGroup(groups, c, Find(groups, c.id));
    forall n: nat
      ensures Up(groups, a, n).Some? && (n > 0 ==> Up(groups, a, n).value == b || Up(groups, a, n).value == c)
      ensures Up(groups, b, n).Some? && (Up(groups, b, n).value == b || Up(groups, b, n).value == c)
    {
      GoesRound(groups, a, b, c, n);
      GoesRound(groups, b, c, b, n);
    }
    assert !BelowASmaller(groups, a, ByKeyLength) && !BelowASmaller(groups, b, ByKeyLength);
    assert Up(groups, c, 0) == Some(c) && Up(groups, c, 1) == Some(b);
    assert BelowASmaller(groups, c, ByKeyLength);
    assert !ChainEnds(groups, a) && !ChainEnds(groups, b) && !OnLoop(groups, a);
    hide BelowASmaller;
    hide ChainEnds;
    hide OnLoop;
    RootsAre(groups, groups, ByKeyLength, a);
    RootsAre(groups, groups, ByKeyLength, b);
    RootsAre(groups, groups, ByKeyLength, c);
    OnlyLoopsAreCutExactlyWhen(groups, groups, ByKeyLength);
  }

  lemma {:induction false} GoesRound(groups: seq<Group>, a: Group, b: Group, c: Group, n: nat)
    requires b.id in Ids(groups) && c.id in Ids(groups) && Find(groups, b.id) == b && Find(groups, c.id) == c
    requires Parent(Ids(groups), a) == Some(b.id) && Parent(Ids(groups), b) == Some(c.id)
             && Parent(Ids(groups), c) == Some(b.id)
    ensures Up(groups, a, n) == Some(a) || Up(groups, a, n) == Some(b) || Up(groups, a, n) == Some(c)
    ensures n > 0 ==> Up(groups, a, n) != Some(a) || a == b || a == c
  {
    if n > 0 {
      GoesRound(groups, a, b, c, n - 1);
    }
  }

  // ----- the finished tree -----

  lemma BelongsStays(groups: seq<Group>, sorted: seq<Group>, idLe: (Group, Group) -> bool, h: Group)
    requires DistinctIds(groups) && DistinctIds(sorted) && SameGroups(groups, sorted) && Ids(groups) == Ids(sorted)
    requires h in groups
    ensures BelongsAtTop(groups, h, idLe) <==> BelongsAtTop(sorted, h, idLe)
  {
    forall n: nat ensures Up(groups, h, n) == Up(sorted, h, n) {
      UpStays(groups, sorted, h, n);
    }
  }

  // The children of each group below are in the order of their names.
  ghost predicate InNameOrder(node: GroupNode, byName: (Group, Group) -> bool) {
    && InOrder(GroupsOf(node.children), byName)
    && forall child :: child in node.children ==> InNameOrder(child, byName)
  }

  ghost predicate AllInNameOrder(nodes: seq<GroupNode>, byName: (Group, Group) -> bool) {
    forall node :: node in nodes ==> InNameOrder(node, byName)
  }

  lemma {:induction false} FilteredInOrder(known: set<GroupId>, groups: seq<Group>, parent: Option<GroupId>,
          placed: set<GroupId>, byName: (Group, Group) -> bool)
    requires InOrder(groups, byName)
    ensures InOrder(ChildrenOf(known, groups, parent), byName) && InOrder(Unplaced(groups, placed), byName)
  {
    if groups != [] {
      FilteredInOrder(known, groups[1..], parent, placed, byName);
      ChildrenAre(known, groups[1..], parent);
      UnplacedAre(groups[1..], placed);
      forall h | h in groups[1..] ensures byName(groups[0], h) {
        var i :| 0 <= i < |groups| - 1 && groups[1..][i] == h;
        assert groups[i + 1] == h;
      }
    }
  }

  lemma ChildrenInOrder(groups: seq<Group>, g: Group, placed: set<GroupId>, byName: (Group, Group) -> bool)
    requires InOrder(groups, byName)
    ensures InOrder(Unplaced(ChildrenOf(Ids(groups), groups, Some(g.id)), placed), byName)
  {
    var children := ChildrenOf(Ids(groups), groups, Some(g.id));
    FilteredInOrder(Ids(groups), groups, Some(g.id), placed, byName);
    FilteredInOrder(Ids(groups), children, None, placed, byName);
  }

  lemma {:induction false} PlacePutsInNameOrder(groups: seq<Group>, list: seq<Group>, depth: nat, parentPath: string,
          placed: set<GroupId>, byName: (Group, Group) -> bool)
    requires Ready(groups, list, placed) && InOrder(groups, byName)
    ensures AllInNameOrder(Place(groups, list, depth, parentPath, placed).nodes, byName)
    decreases Ids(groups) - placed, |list|
  {
    if list == [] {
      return;
    }
    hide InOrder;
    hide UnderDeclared;
    hide InNameOrder;
    hide AllInNameOrder;
    var g, path, now, kids, inner, rest := Unfolded(groups, list, depth, parentPath, placed);
    KidsInOrder(groups, g, path, depth, now, kids, byName);
    PlacePutsInNameOrder(groups, kids, depth + 1, path, now, byName);
    PlacePutsInNameOrder(groups, list[1..], depth, parentPath, inner.placed, byName);
    FirstInNameOrder(g, depth, path, inner.nodes, rest.nodes, byName);
  }

  lemma KidsInOrder(groups: seq<Group>, g: Group, path: string, depth: nat, now: set<GroupId>, kids: seq<Group>,
          byName: (Group, Group) -> bool)
    requires InOrder(groups, byName) && kids == Unplaced(ChildrenOf(Ids(groups), groups, Some(g.id)), now)
    requires Ready(groups, kids, now)
    ensures InOrder(GroupsOf(Place(groups, kids, depth + 1, path, now).nodes), byName)
  {
    ChildrenInOrder(groups, g, now, byName);
    PlacePutsUnderDeclared(groups, kids, depth + 1, path, now);
  }

  lemma FirstInNameOrder(g: Group, depth: nat, path: string, inside: seq<GroupNode>, rest: seq<GroupNode>,
          byName: (Group, Group) -> bool)
    requires AllInNameOrder(inside, byName) && InOrder(GroupsOf(inside), byName) && AllInNameOrder(rest, byName)
    ensures AllInNameOrder([GroupNode(g, depth, path, inside, [], 0)] + rest, byName)
  {
    assert InNameOrder(GroupNode(g, depth, path, inside, [], 0), byName);
  }

  lemma {:induction false} LoopsInNameOrder(groups: seq<Group>, given: seq<Group>, placed: set<GroupId>,
          idLe: (Group, Group) -> bool, byName: (Group, Group) -> bool)
    requires DistinctIds(groups) && SameGroups(given, groups) && placed <= Ids(groups) && InOrder(groups, byName)
    ensures AllInNameOrder(PlaceLoops(groups, given, placed, idLe).nodes, byName)
    decreases Ids(groups) - placed
  {
    hide InOrder;
    if Ids(groups) <= placed {
      LoopsDone(groups, given, placed, idLe);
    } else {
      var cut, first := CutUnfolded(groups, given, placed, idLe);
      PlacePutsInNameOrder(groups, [cut], 0, "", placed, byName);
      LoopsInNameOrder(groups, given, first.placed, idLe, byName);
    }
  }

  lemma {:induction false} FileKeepsNameOrder(nodes: seq<GroupNode>, profiles: seq<Profile>,
          byName: (Group, Group) -> bool)
    requires AllInNameOrder(nodes, byName)
    ensures AllInNameOrder(File(nodes, profiles), byName)
    decreases nodes
  {
    hide InOrder;
    if nodes != [] {
      assert InNameOrder(nodes[0], byName);
      FileKeepsNameOrder(nodes[0].children, profiles, byName);
      FileKeepsNameOrder(nodes[1..], profiles, byName);
      FileLists(nodes[0].children, profiles, {});
      assert InNameOrder(File(nodes, profiles)[0], byName);
    }
  }

  lemma ByNodeIsTotal(byName: (Group, Group) -> bool)
    requires TotalOrder(byName)
    ensures TotalOrder(ByNode(byName))
  {
    var le := ByNode(byName);
    assert forall x, y :: le(x, y) == byName(x.group, y.group);
  }

  lemma NodesInNameOrder(nodes: seq<GroupNode>, byName: (Group, Group) -> bool)
    requires InOrder(nodes, ByNode(byName))
    ensures InOrder(GroupsOf(nodes), byName)
  {
    forall i, j | 0 <= i < j < |nodes| ensures byName(GroupsOf(nodes)[i], GroupsOf(nodes)[j]) {
      assert ByNode(byName)(nodes[i], nodes[j]);
    }
  }

  // In the finished tree exactly the groups that belong there are at the
  // top, and at the top and in each group siblings are in name order.
  lemma RootsOfTheTree(groups: seq<Group>, profiles: seq<Profile>, byName: (Group, Group) -> bool,
          idLe: (Group, Group) -> bool)
    requires DistinctIds(groups) && TotalOrder(byName) && OrdersIds(groups, idLe)
    ensures var roots := BuildGroupTree(groups, profiles, byName, idLe).roots;
            && (forall h :: h in groups ==> (h in GroupsOf(roots) <==> BelongsAtTop(groups, h, idLe)))
            && InOrder(GroupsOf(roots), byName) && AllInNameOrder(roots, byName)
  {
    hide InOrder;
    hide PlaceGroups;
    var sorted := SortBy(groups, byName);
    SortedStaysDistinct(groups, byName);
    SortByPutsInOrder(groups, byName);
    var nodes := PlaceGroups(sorted, groups, idLe).nodes;
    GroupsInNameOrder(sorted, groups, idLe, byName);
    var roots := SortBy(nodes, ByNode(byName));
    ByNodeIsTotal(byName);
    SortByPutsInOrder(nodes, ByNode(byName));
    NodesInNameOrder(roots, byName);
    SortByKeeps(nodes, ByNode(byName));
    forall node ensures node in roots <==> node in nodes {
      assert node in multiset(roots) <==> node in multiset(nodes);
    }
    FileLists(roots, profiles, {});
    FileKeepsNameOrder(roots, profiles, byName);
    forall h | h in groups ensures h in GroupsOf(roots) <==> BelongsAtTop(groups, h, idLe) {
      AtTopOf(roots, h);
      RootsAre(sorted, groups, idLe, h);
      BelongsStays(groups, sorted, idLe, h);
    }
  }

  lemma GroupsInNameOrder(groups: seq<Group>, given: seq<Group>, idLe: (Group, Group) -> bool,
          byName: (Group, Group) -> bool)
    requires DistinctIds(groups) && SameGroups(given, groups) && InOrder(groups, byName)
    ensures AllInNameOrder(PlaceGroups(groups, given, idLe).nodes, byName)
  {
    TopIsReady(groups);
    var list := ChildrenOf(Ids(groups), groups, None);
    PlacePutsInNameOrder(groups, list, 0, "", {}, byName);
    LoopsInNameOrder(groups, given, Place(groups, list, 0, "", {}).placed, idLe, byName);
  }
}
