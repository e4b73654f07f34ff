// What the tree of groups keeps, for any parents (src/lib/profileGroups.ts):
// every group once, under its declared parent or at the top, and every
// profile once.
module ProfileGroupsProofs {
  import opened Sequences
  import opened ProfileGroups

  // ----- every group is placed once -----

  // Preorder: each group before its descendants, none of which is listed where
  // it is collapsed.
  function ListedIds(nodes: seq<GroupNode>, collapsed: set<GroupId>): seq<GroupId> {
    if nodes == [] then []
    else
      [nodes[0].group.id] + (if nodes[0].group.id in collapsed then [] else ListedIds(nodes[0].children, collapsed))
      + ListedIds(nodes[1..], collapsed)
  }

  function AllIds(nodes: seq<GroupNode>): seq<GroupId> {
    ListedIds(nodes, {})
  }

  lemma ListedFirst(node: GroupNode, rest: seq<GroupNode>)
    ensures AllIds([node] + rest) == [node.group.id] + AllIds(node.children) + AllIds(rest)
  {
    assert ([node] + rest)[1..] == rest;
  }

  lemma {:induction false} ListedAppend(a: seq<GroupNode>, b: seq<GroupNode>)
    ensures AllIds(a + b) == AllIds(a) + AllIds(b)
  {
    if a == [] {
      assert a + b == b;
    } else {
      ListedAppend(a[1..], b);
      assert a + b == [a[0]] + (a[1..] + b);
      ListedFirst(a[0], a[1..] + b);
      Associates([a[0].group.id] + AllIds(a[0].children), AllIds(a[1..]), AllIds(b));
    }
  }

  // The nodes list exactly the ids, each once.
  ghost predicate ListsOnceEach(nodes: seq<GroupNode>, ids: set<GroupId>) {
    Distinct(AllIds(nodes)) && forall id :: id in AllIds(nodes) <==> id in ids
  }

  lemma ListsNodeAndRest(node: GroupNode, inside: seq<GroupNode>, rest: seq<GroupNode>, id: GroupId, a: set<GroupId>,
          b: set<GroupId>, all: set<GroupId>)
    requires node.children == inside && node.group.id == id
    requires ListsOnceEach(inside, a) && ListsOnceEach(rest, b)
    requires id !in a && id !in b && a !! b && all == {id} + a + b
    ensures ListsOnceEach([node] + rest, all)
  {
    ListedFirst(node, rest);
    var own := [id];
    DistinctAppend(own, AllIds(inside));
    DistinctAppend(own + AllIds(inside), AllIds(rest));
    forall x ensures x in AllIds([node] + rest) <==> x in all {
      assert x in AllIds([node] + rest) <==> x in own || x in AllIds(inside) || x in AllIds(rest);
    }
  }

  lemma ListsBoth(x: seq<GroupNode>, y: seq<GroupNode>, a: set<GroupId>, b: set<GroupId>)
    requires ListsOnceEach(x, a) && ListsOnceEach(y, b) && a !! b
    ensures ListsOnceEach(x + y, a + b)
  {
    ListedAppend(x, y);
    DistinctAppend(AllIds(x), AllIds(y));
    assert forall id :: id in AllIds(x + y) <==> id in AllIds(x) || id in AllIds(y);
  }

  lemma {:induction false} PlaceListsOnceEach(groups: seq<Group>, list: seq<Group>, depth: nat, parentPath: string,
          placed: set<GroupId>)
    requires Ready(groups, list, placed)
    ensures var r := Place(groups, list, depth, parentPath, placed); ListsOnceEach(r.nodes, r.placed - placed)
    decreases Ids(groups) - placed, |list|
  {
    var r := Place(groups, list, depth, parentPath, placed);
    if list == [] {
      assert AllIds(r.nodes) == [];
    } else {
      var g, path, now, kids, inner, rest := Unfolded(groups, list, depth, parentPath, placed);
      PlaceListsOnceEach(groups, kids, depth + 1, path, now);
      PlaceListsOnceEach(groups, list[1..], depth, parentPath, inner.placed);
      var a, b := inner.placed - now, rest.placed - inner.placed;
      AddedInTurn(placed, g.id, inner.placed, rest.placed);
      ListsNodeAndRest(GroupNode(g, depth, path, inner.nodes, [], 0), inner.nodes, rest.nodes, g.id, a, b,
                       rest.placed - placed);
    }
  }

  lemma AddedInTurn(placed: set<GroupId>, id: GroupId, middle: set<GroupId>, after: set<GroupId>)
    requires id !in placed && placed + {id} <= middle <= after
    ensures after - placed == {id} + (middle - (placed + {id})) + (after - middle)
  {
  }

  // The parts of one placing step.
  lemma Unfolded(groups: seq<Group>, list: seq<Group>, depth: nat, parentPath: string, placed: set<GroupId>)
    returns (g: Group, path: string, now: set<GroupId>, kids: seq<Group>, inner: Placed, rest: Placed)
    requires Ready(groups, list, placed) && list != []
    ensures g == list[0] && g in groups && g.id !in placed && g.id in Ids(groups)
    ensures path == PathOf(parentPath, g.name) && now == placed + {g.id}
    ensures kids == Unplaced(ChildrenOf(Ids(groups), groups, Some(g.id)), now)
    ensures forall h :: h in kids <==> h in groups && Parent(Ids(groups), h) == Some(g.id) && h.id !in now
    ensures Ready(groups, kids, now) && inner == Place(groups, kids, depth + 1, path, now)
    ensures Ready(groups, list[1..], inner.placed) && rest == Place(groups, list[1..], depth, parentPath, inner.placed)
    ensures placed < now <= inner.placed <= rest.placed
    ensures Place(groups, list, depth, parentPath, placed)
         == Placed([GroupNode(g, depth, path, inner.nodes, [], 0)] + rest.nodes, rest.placed)
  {
    g := list[0];
    path, now := PathOf(parentPath, g.name), placed + {g.id};
    kids := Unplaced(ChildrenOf(Ids(groups), groups, Some(g.id)), now);
    ChildrenAreReady(groups, g, now);
    inner := Place(groups, kids, depth + 1, path, now);
    SiblingsAreReady(groups, list, placed, kids, inner.placed);
    rest := Place(groups, list[1..], depth, parentPath, inner.placed);
  }

  lemma CutUnfolded(groups: seq<Group>, given: seq<Group>, placed: set<GroupId>, idLe: (Group, Group) -> bool)
    returns (cut: Group, first: Placed)
    requires DistinctIds(groups) && SameGroups(given, groups) && !(Ids(groups) <= placed)
    ensures SortBy(Unplaced(given, placed), idLe) != [] && cut == SortBy(Unplaced(given, placed), idLe)[0]
    ensures cut in groups && cut.id !in placed && cut.id in Ids(groups)
    ensures Ready(groups, [cut], placed) && first == Place(groups, [cut], 0, "", placed)
    ensures placed < first.placed
    ensures PlaceLoops(groups, given, placed, idLe)
         == Placed(first.nodes + PlaceLoops(groups, given, first.placed, idLe).nodes,
                   PlaceLoops(groups, given, first.placed, idLe).placed)
  {
    CutIsUnplaced(groups, given, placed, idLe);
    cut := SortBy(Unplaced(given, placed), idLe)[0];
    first := Place(groups, [cut], 0, "", placed);
    assert cut in [cut] && cut.id in first.placed;
  }

  lemma LoopsDone(groups: seq<Group>, given: seq<Group>, placed: set<GroupId>, idLe: (Group, Group) -> bool)
    requires DistinctIds(groups) && SameGroups(given, groups) && Ids(groups) <= placed
    ensures PlaceLoops(groups, given, placed, idLe) == Placed([], placed)
  {
    CutIsUnplaced(groups, given, placed, idLe);
  }

  lemma {:induction false} LoopsListOnceEach(groups: seq<Group>, given: seq<Group>, placed: set<GroupId>,
          idLe: (Group, Group) -> bool)
    requires DistinctIds(groups) && SameGroups(given, groups) && placed <= Ids(groups)
    ensures var r := PlaceLoops(groups, given, placed, idLe);
            r.placed == Ids(groups) && ListsOnceEach(r.nodes, Ids(groups) - placed)
    decreases Ids(groups) - placed
  {
    hide Place;
    hide PlaceLoops;
    hide Ready;
    if Ids(groups) <= placed {
      LoopsDone(groups, given, placed, idLe);
      assert AllIds([]) == [];
    } else {
      var cut, first := CutUnfolded(groups, given, placed, idLe);
      PlaceListsOnceEach(groups, [cut], 0, "", placed);
      LoopsListOnceEach(groups, given, first.placed, idLe);
      var rest := PlaceLoops(groups, given, first.placed, idLe);
      ListsBoth(first.nodes, rest.nodes, first.placed - placed, Ids(groups) - first.placed);
      assert (first.placed - placed) + (Ids(groups) - first.placed) == Ids(groups) - placed;
    }
  }

  lemma GroupsListOnceEach(groups: seq<Group>, given: seq<Group>, idLe: (Group, Group) -> bool)
    requires DistinctIds(groups) && SameGroups(given, groups)
    ensures var r := PlaceGroups(groups, given, idLe); r.placed == Ids(groups) && ListsOnceEach(r.nodes, Ids(groups))
  {
    TopIsReady(groups);
    var list := ChildrenOf(Ids(groups), groups, None);
    var top := Place(groups, list, 0, "", {});
    PlaceListsOnceEach(groups, list, 0, "", {});
    assert top.placed - {} == top.placed;
    LoopsListOnceEach(groups, given, top.placed, idLe);
    ListsBoth(top.nodes, PlaceLoops(groups, given, top.placed, idLe).nodes, top.placed, Ids(groups) - top.placed);
    assert top.placed + (Ids(groups) - top.placed) == Ids(groups);
  }

  // ----- under its declared parent, or at the top -----

  // Each group is one of those given, at its depth and path, and each group
  // below another names it as its parent.
  ghost predicate UnderDeclared(groups: seq<Group>, node: GroupNode, depth: nat, parentPath: string) {
    && node.group in groups && node.depth == depth && node.path == PathOf(parentPath, node.group.name)
    && forall child :: child in node.children ==>
         Parent(Ids(groups), child.group) == Some(node.group.id) && UnderDeclared(groups, child, depth + 1, node.path)
  }

  ghost predicate AllUnderDeclared(groups: seq<Group>, nodes: seq<GroupNode>, depth: nat, parentPath: string) {
    forall node :: node in nodes ==> UnderDeclared(groups, node, depth, parentPath)
  }

  function GroupsOf(nodes: seq<GroupNode>): (r: seq<Group>)
    ensures |r| == |nodes| && forall i :: 0 <= i < |r| ==> r[i] == nodes[i].group
  {
    seq(|nodes|, i requires 0 <= i < |nodes| => nodes[i].group)
  }

  ghost predicate Lists(groups: seq<Group>, nodes: seq<GroupNode>, list: seq<Group>, depth: nat, parentPath: string) {
    AllUnderDeclared(groups, nodes, depth, parentPath) && GroupsOf(nodes) == list
  }

  lemma {:induction false} PlacePutsUnderDeclared(groups: seq<Group>, list: seq<Group>, depth: nat,
          parentPath: string, placed: set<GroupId>)
    requires Ready(groups, list, placed)
    ensures var r := Place(groups, list, depth, parentPath, placed);
            Lists(groups, r.nodes, list, depth, parentPath)
    decreases Ids(groups) - placed, |list|
  {
    if list != [] {
      var g, path, now, kids, inner, rest := Unfolded(groups, list, depth, parentPath, placed);
      PlacePutsUnderDeclared(groups, kids, depth + 1, path, now);
      PlacePutsUnderDeclared(groups, list[1..], depth, parentPath, inner.placed);
      FirstUnderDeclared(groups, g, depth, path, inner.nodes, rest.nodes, parentPath, kids, list);
    }
  }

  lemma FirstUnderDeclared(groups: seq<Group>, g: Group, depth: nat, path: string, inside: seq<GroupNode>,
          rest: seq<GroupNode>, parentPath: string, kids: seq<Group>, list: seq<Group>)
    requires g in groups && path == PathOf(parentPath, g.name)
    requires Lists(groups, inside, kids, depth + 1, path)
             && forall h :: h in kids ==> Parent(Ids(groups), h) == Some(g.id)
    requires list != [] && list[0] == g && Lists(groups, rest, list[1..], depth, parentPath)
    ensures Lists(groups, [GroupNode(g, depth, path, inside, [], 0)] + rest, list, depth, parentPath)
  {
    var node := GroupNode(g, depth, path, inside, [], 0);
    forall child | child in inside ensures Parent(Ids(groups), child.group) == Some(g.id) {
      var i :| 0 <= i < |inside| && inside[i] == child;
      assert GroupsOf(inside)[i] == child.group;
    }
    assert UnderDeclared(groups, node, depth, parentPath);
    assert list == [g] + list[1..];
  }

  // ----- chains of parents -----

  function Find(groups: seq<Group>, id: GroupId): (r: Group)
    requires id in Ids(groups)
    ensures r in groups && r.id == id
  {
    if groups[0].id == id then groups[0]
    else
      assert groups == [groups[0]] + groups[1..];
      Find(groups[1..], id)
  }

  // The nth parent up from a group.
  function Up(groups: seq<Group>, group: Group, n: nat): Option<Group> {
    if n == 0 then Some(group)
    else
      match Up(groups, group, n - 1)
      case None => None
      case Some(q) => if Parent(Ids(groups), q).Some? then Some(Find(groups, Parent(Ids(groups), q).value)) else None
  }

  ghost predicate ChainEnds(groups: seq<Group>, group: Group) {
    exists n: nat :: Up(groups, group, n).None?
  }

  // What is placed has everything below it placed.
  lemma {:induction false} PlacedReachesDown(groups: seq<Group>, placed: set<GroupId>, group: Group, n: nat)
    requires DistinctIds(groups) && Closed(groups, placed) && group in groups
    requires Up(groups, group, n).Some? && Up(groups, group, n).value.id in placed
    ensures group.id in placed
  {
    if n > 0 {
      UpIsAGroup(groups, group, n - 1);
      PlacedReachesDown(groups, placed, group, n - 1);
    }
  }

  lemma {:induction false} UpIsAGroup(groups: seq<Group>, group: Group, n: nat)
    requires group in groups
    ensures Up(groups, group, n).Some? ==> Up(groups, group, n).value in groups
  {
    if n > 0 {
      UpIsAGroup(groups, group, n - 1);
    }
  }

  lemma {:induction false} EndingChainsArePlaced(groups: seq<Group>, placed: set<GroupId>, group: Group, n: nat)
    requires DistinctIds(groups) && Closed(groups, placed) && group in groups && Up(groups, group, n).None?
    requires forall h :: h in groups && Parent(Ids(groups), h).None? ==> h.id in placed
    ensures group.id in placed
  {
    hide Closed;
    hide DistinctIds;
    hide Find;
    if Up(groups, group, n - 1).None? {
      EndingChainsArePlaced(groups, placed, group, n - 1);
    } else {
      UpIsAGroup(groups, group, n - 1);
      PlacedReachesDown(groups, placed, group, n - 1);
    }
  }

  // Everything below what is placed gets placed as well.
  lemma {:induction false} PlaceCloses(groups: seq<Group>, list: seq<Group>, depth: nat, parentPath: string,
          placed: set<GroupId>)
    requires Ready(groups, list, placed)
    ensures var r := Place(groups, list, depth, parentPath, placed);
            forall h ::
              h in groups && Parent(Ids(groups), h).Some? && Parent(Ids(groups), h).value in r.placed - placed
              ==> h.id in r.placed
    decreases Ids(groups) - placed, |list|
  {
    if list != [] {
      var g, path, now, kids, inner, rest := Unfolded(groups, list, depth, parentPath, placed);
      PlaceCloses(groups, kids, depth + 1, path, now);
      PlaceCloses(groups, list[1..], depth, parentPath, inner.placed);
      forall h | h in groups && Parent(Ids(groups), h).Some? && Parent(Ids(groups), h).value in rest.placed - placed
        ensures h.id in rest.placed
      {
        if Parent(Ids(groups), h).value == g.id {
          assert h.id in now || h in kids;
        }
      }
    }
  }

  ghost predicate LeadsTo(groups: seq<Group>, h: Group, n: nat, list: seq<Group>) {
    Up(groups, h, n).Some? && Up(groups, h, n).value in list
  }

  // Everything that gets placed leads up to a group in the list.
  lemma {:induction false} PlacedLeadsUp(groups: seq<Group>, list: seq<Group>, depth: nat, parentPath: string,
          placed: set<GroupId>, h: Group) returns (n: nat)
    requires Ready(groups, list, placed) && h in groups
    requires h.id in Place(groups, list, depth, parentPath, placed).placed && h.id !in placed
    ensures LeadsTo(groups, h, n, list)
    decreases Ids(groups) - placed, |list|
  {
    hide ChildrenOf;
    hide Unplaced;
    hide Up;
    if list == [] {
      assert false;
    } else {
      var g, path, now, kids, inner, rest := Unfolded(groups, list, depth, parentPath, placed);
      if h.id == g.id {
        n := 0;
        SameIdSameGroup(groups, g, h);
        LeadsToItself(groups, h, list);
      } else if h.id in inner.placed {
        n := PlacedLeadsUp(groups, kids, depth + 1, path, now, h);
        OneMoreUp(groups, h, n, g);
        n := n + 1;
        assert list[0] in list;
      } else {
        n := PlacedLeadsUp(groups, list[1..], depth, parentPath, inner.placed, h);
        AlsoLeadsTo(groups, h, n, list);
      }
    }
  }

  lemma LeadsToItself(groups: seq<Group>, h: Group, list: seq<Group>)
    requires h in list
    ensures LeadsTo(groups, h, 0, list)
  {
  }

  lemma AlsoLeadsTo(groups: seq<Group>, h: Group, n: nat, list: seq<Group>)
    requires list != [] && LeadsTo(groups, h, n, list[1..])
    ensures LeadsTo(groups, h, n, list)
  {
    assert list == [list[0]] + list[1..];
  }

  lemma OneMoreUp(groups: seq<Group>, h: Group, m: nat, g: Group)
    requires DistinctIds(groups) && g in groups
    requires exists kids ::
               LeadsTo(groups, h, m, kids) && forall k :: k in kids ==> Parent(Ids(groups), k) == Some(g.id)
    ensures Up(groups, h, m + 1) == Some(g)
  {
    assert g.id in Ids(groups);
    SameIdSameGroup(groups, g, Find(groups, g.id));
  }

  // A group at the top has no parent, or hangs in a loop or off one.
  ghost predicate TopIsRight(groups: seq<Group>, node: GroupNode) {
    Parent(Ids(groups), node.group).None? || !ChainEnds(groups, node.group)
  }

  ghost predicate TopsPlaced(groups: seq<Group>, placed: set<GroupId>) {
    forall h :: h in groups && Parent(Ids(groups), h).None? ==> h.id in placed
  }

  lemma {:induction false} LoopsAreRight(groups: seq<Group>, given: seq<Group>, placed: set<GroupId>,
          idLe: (Group, Group) -> bool)
    requires DistinctIds(groups) && SameGroups(given, groups) && placed <= Ids(groups)
    requires Closed(groups, placed) && TopsPlaced(groups, placed)
    ensures var r := PlaceLoops(groups, given, placed, idLe);
            AllUnderDeclared(groups, r.nodes, 0, "")
                && forall node :: node in r.nodes ==> !ChainEnds(groups, node.group)
    decreases Ids(groups) - placed
  {
    if Ids(groups) <= placed {
      LoopsDone(groups, given, placed, idLe);
    } else {
      var cut, first := CutUnfolded(groups, given, placed, idLe);
      PlacePutsUnderDeclared(groups, [cut], 0, "", placed);
      PlaceCloses(groups, [cut], 0, "", placed);
      LoopsAreRight(groups, given, first.placed, idLe);
      if ChainEnds(groups, cut) {
        var n: nat :| Up(groups, cut, n).None?;
        EndingChainsArePlaced(groups, placed, cut, n);
      }
      assert first.nodes == [first.nodes[0]] && GroupsOf(first.nodes)[0] == cut;
    }
  }

  lemma GroupsAreRight(groups: seq<Group>, given: seq<Group>, idLe: (Group, Group) -> bool)
    requires DistinctIds(groups) && SameGroups(given, groups)
    ensures var r := PlaceGroups(groups, given, idLe);
            AllUnderDeclared(groups, r.nodes, 0, "") && forall node :: node in r.nodes ==> TopIsRight(groups, node)
  {
    TopIsReady(groups);
    var list := ChildrenOf(Ids(groups), groups, None);
    var top := Place(groups, list, 0, "", {});
    PlacePutsUnderDeclared(groups, list, 0, "", {});
    PlaceCloses(groups, list, 0, "", {});
    assert top.placed - {} == top.placed;
    LoopsAreRight(groups, given, top.placed, idLe);
    forall node | node in top.nodes ensures Parent(Ids(groups), node.group).None? {
      var i :| 0 <= i < |top.nodes| && top.nodes[i] == node;
      assert GroupsOf(top.nodes)[i] in list;
    }
  }

  // ----- sorting the top and filing the profiles change none of this -----

  lemma {:induction false} InsertByLists(x: GroupNode, s: seq<GroupNode>, le: (GroupNode, GroupNode) -> bool)
    ensures multiset(AllIds(InsertBy(x, s, le))) == multiset(AllIds([x])) + multiset(AllIds(s))
  {
    if s == [] || le(x, s[0]) {
      ListedAppend([x], s);
    } else {
      InsertByLists(x, s[1..], le);
      ListedAppend([s[0]], InsertBy(x, s[1..], le));
      ListedAppend([s[0]], s[1..]);
      assert s == [s[0]] + s[1..];
    }
  }

  lemma {:induction false} SortByLists(s: seq<GroupNode>, le: (GroupNode, GroupNode) -> bool)
    ensures multiset(AllIds(SortBy(s, le))) == multiset(AllIds(s))
  {
    if s != [] {
      SortByLists(s[1..], le);
      InsertByLists(s[0], SortBy(s[1..], le), le);
      ListedAppend([s[0]], s[1..]);
      assert s == [s[0]] + s[1..];
    }
  }

  lemma {:induction false} FileLists(nodes: seq<GroupNode>, profiles: seq<Profile>, collapsed: set<GroupId>)
    ensures ListedIds(File(nodes, profiles), collapsed) == ListedIds(nodes, collapsed)
    ensures GroupsOf(File(nodes, profiles)) == GroupsOf(nodes)
    decreases nodes
  {
    if nodes != [] {
      FileLists(nodes[0].children, profiles, collapsed);
      FileLists(nodes[1..], profiles, collapsed);
      assert nodes == [nodes[0]] + nodes[1..];
    }
  }

  lemma {:induction false} FileUnderDeclared(groups: seq<Group>, nodes: seq<GroupNode>, profiles: seq<Profile>,
          depth: nat, parentPath: string)
    requires AllUnderDeclared(groups, nodes, depth, parentPath)
    ensures AllUnderDeclared(groups, File(nodes, profiles), depth, parentPath)
    decreases nodes
  {
    if nodes != [] {
      var node, filed := nodes[0], File(nodes, profiles)[0];
      assert UnderDeclared(groups, node, depth, parentPath);
      FileUnderDeclared(groups, node.children, profiles, depth + 1, node.path);
      FileUnderDeclared(groups, nodes[1..], profiles, depth, parentPath);
      FileLists(node.children, profiles, {});
      forall child | child in filed.children ensures Parent(Ids(groups), child.group) == Some(node.group.id) {
        var i :| 0 <= i < |filed.children| && filed.children[i] == child;
        assert GroupsOf(filed.children)[i] == GroupsOf(node.children)[i] == node.children[i].group;
        assert node.children[i] in node.children;
      }
      assert UnderDeclared(groups, filed, depth, parentPath);
    }
  }

  // For any parents, missing or in loops, the tree holds every group exactly
  // once, each at the top or under its declared parent; and a group is only
  // put at the top when its parent is gone or its parents never end.
  lemma EachGroupIsPlacedOnce(groups: seq<Group>, profiles: seq<Profile>, byName: (Group, Group) -> bool,
          idLe: (Group, Group) -> bool)
    requires DistinctIds(groups)
    ensures var tree := BuildGroupTree(groups, profiles, byName, idLe);
            && ListsOnceEach(tree.roots, Ids(groups))
            && AllUnderDeclared(groups, tree.roots, 0, "")
            && forall node :: node in tree.roots ==> TopIsRight(groups, node)
  {
    var sorted := SortBy(groups, byName);
    SortedStaysDistinct(groups, byName);
    var placed := PlaceGroups(sorted, groups, idLe);
    GroupsListOnceEach(sorted, groups, idLe);
    GroupsAreRight(sorted, groups, idLe);
    var roots := SortBy(placed.nodes, ByNode(byName));
    SortByLists(placed.nodes, ByNode(byName));
    SameValues(AllIds(placed.nodes), AllIds(roots));
    assert forall id :: id in AllIds(roots) <==> id in ToSet(AllIds(roots));
    assert forall id :: id in AllIds(placed.nodes) <==> id in ToSet(AllIds(placed.nodes));
    SortByKeeps(placed.nodes, ByNode(byName));
    SameValues(placed.nodes, roots);
    assert forall node :: node in roots <==> node in ToSet(roots);
    assert forall node :: node in placed.nodes <==> node in ToSet(placed.nodes);
    FileLists(roots, profiles, {});
    SortedIsUnderDeclared(groups, sorted, roots);
    FileUnderDeclared(groups, roots, profiles, 0, "");
    TopsStayRight(groups, sorted, roots, File(roots, profiles));
  }

  lemma SortedIsUnderDeclared(groups: seq<Group>, sorted: seq<Group>, nodes: seq<GroupNode>)
    requires SameGroups(groups, sorted) && Ids(groups) == Ids(sorted) && AllUnderDeclared(sorted, nodes, 0, "")
    ensures AllUnderDeclared(groups, nodes, 0, "")
  {
    forall node | node in nodes ensures UnderDeclared(groups, node, 0, "") {
      UnderDeclaredStays(groups, sorted, node, 0, "");
    }
  }

  lemma {:induction false} UnderDeclaredStays(groups: seq<Group>, sorted: seq<Group>, node: GroupNode, depth: nat,
          parentPath: string)
    requires SameGroups(groups, sorted) && Ids(groups) == Ids(sorted) && UnderDeclared(sorted, node, depth, parentPath)
    ensures UnderDeclared(groups, node, depth, parentPath)
    decreases node
  {
    forall child | child in node.children ensures UnderDeclared(groups, child, depth + 1, node.path) {
      UnderDeclaredStays(groups, sorted, child, depth + 1, node.path);
    }
  }

  lemma {:induction false} UpStays(groups: seq<Group>, sorted: seq<Group>, group: Group, n: nat)
    requires DistinctIds(groups) && DistinctIds(sorted) && SameGroups(groups, sorted) && Ids(groups) == Ids(sorted)
             && group in groups
    ensures Up(groups, group, n) == Up(sorted, group, n)
  {
    if n > 0 {
      UpStays(groups, sorted, group, n - 1);
      var q := Up(groups, group, n - 1);
      if q.Some? && Parent(Ids(groups), q.value).Some? {
        var id := Parent(Ids(groups), q.value).value;
        SameIdSameGroup(groups, Find(groups, id), Find(sorted, id));
      }
    }
  }

  lemma TopsStayRight(groups: seq<Group>, sorted: seq<Group>, nodes: seq<GroupNode>, filed: seq<GroupNode>)
    requires DistinctIds(groups) && DistinctIds(sorted) && SameGroups(groups, sorted) && Ids(groups) == Ids(sorted)
    requires forall node :: node in nodes ==> TopIsRight(sorted, node) && node.group in groups
    requires GroupsOf(filed) == GroupsOf(nodes)
    ensures forall node :: node in filed ==> TopIsRight(groups, node)
  {
    forall node | node in filed ensures TopIsRight(groups, node) {
      var i :| 0 <= i < |filed| && filed[i] == node;
      assert GroupsOf(filed)[i] == GroupsOf(nodes)[i] == nodes[i].group && nodes[i] in nodes;
      if ChainEnds(groups, node.group) {
        var n: nat :| Up(groups, node.group, n).None?;
        UpStays(groups, sorted, node.group, n);
        assert Up(sorted, node.group, n).None?;
        assert ChainEnds(sorted, nodes[i].group);
      }
    }
  }

  // ----- every profile is shown once -----

  // A group's own profiles come after everything inside it.
  function ShownProfiles(nodes: seq<GroupNode>, collapsed: set<GroupId>): seq<Profile> {
    if nodes == [] then []
    else
      (if nodes[0].group.id in collapsed then [] else ShownProfiles(nodes[0].children, collapsed) + nodes[0].profiles)
      + ShownProfiles(nodes[1..], collapsed)
  }

  function VisibleTreeProfiles(tree: GroupTree, collapsed: set<GroupId>, ungroupedCollapsed: bool): seq<Profile> {
    ShownProfiles(tree.roots, collapsed) + if ungroupedCollapsed then [] else tree.ungrouped
  }

  // The groups that are open, and so is every group they sit in.
  function OpenIds(nodes: seq<GroupNode>, collapsed: set<GroupId>): set<GroupId> {
    if nodes == [] then {}
    else
      (if nodes[0].group.id in collapsed then {} else {nodes[0].group.id} + OpenIds(nodes[0].children, collapsed))
      + OpenIds(nodes[1..], collapsed)
  }

  lemma {:induction false} OpenAreListed(nodes: seq<GroupNode>, collapsed: set<GroupId>)
    ensures forall id :: id in OpenIds(nodes, collapsed) ==> id in AllIds(nodes) && id !in collapsed
    ensures collapsed == {} ==> forall id :: id in AllIds(nodes) ==> id in OpenIds(nodes, collapsed)
    decreases nodes
  {
    if nodes != [] {
      OpenAreListed(nodes[0].children, collapsed);
      OpenAreListed(nodes[1..], collapsed);
      assert nodes == [nodes[0]] + nodes[1..];
      ListedFirst(nodes[0], nodes[1..]);
    }
  }

  lemma {:induction false} FiledInBoth(profiles: seq<Profile>, a: set<GroupId>, b: set<GroupId>)
    requires a !! b
    ensures multiset(FiledIn(profiles, a + b)) == multiset(FiledIn(profiles, a)) + multiset(FiledIn(profiles, b))
  {
    if profiles != [] {
      FiledInBoth(profiles[1..], a, b);
    }
  }

  lemma {:induction false} FiledSomewhere(profiles: seq<Profile>, ids: set<GroupId>)
    ensures multiset(FiledIn(profiles, ids)) + multiset(FiledInNone(profiles, ids)) == multiset(profiles)
  {
    if profiles != [] {
      FiledSomewhere(profiles[1..], ids);
      assert profiles == [profiles[0]] + profiles[1..];
    }
  }

  lemma {:induction false} FiledInNothing(profiles: seq<Profile>)
    ensures FiledIn(profiles, {}) == []
  {
    if profiles != [] {
      FiledInNothing(profiles[1..]);
    }
  }

  lemma ApartFromTheRest(nodes: seq<GroupNode>, collapsed: set<GroupId>)
    requires nodes != [] && Distinct(AllIds(nodes))
    ensures Distinct(AllIds(nodes[0].children)) && Distinct(AllIds(nodes[1..]))
    ensures {nodes[0].group.id} !! OpenIds(nodes[0].children, collapsed)
    ensures {nodes[0].group.id} + OpenIds(nodes[0].children, collapsed) !! OpenIds(nodes[1..], collapsed)
  {
    var own, inside, rest := [nodes[0].group.id], AllIds(nodes[0].children), AllIds(nodes[1..]);
    assert nodes == [nodes[0]] + nodes[1..];
    ListedFirst(nodes[0], nodes[1..]);
    DistinctAppend(own + inside, rest);
    DistinctAppend(own, inside);
    OpenAreListed(nodes[0].children, collapsed);
    OpenAreListed(nodes[1..], collapsed);
    assert nodes[0].group.id in own;
    assert forall id :: id in own || id in inside ==> id in own + inside;
  }

  // The profiles shown are exactly those filed in open groups.
  lemma ShownFirst(nodes: seq<GroupNode>, profiles: seq<Profile>, collapsed: set<GroupId>)
    requires nodes != []
    ensures var id, inside := nodes[0].group.id, ShownProfiles(File(nodes[0].children, profiles), collapsed);
      ShownProfiles(File(nodes, profiles), collapsed)
      == (if id in collapsed then [] else inside + FiledIn(profiles, {id}))
          + ShownProfiles(File(nodes[1..], profiles), collapsed)
  {
    hide FiledIn;
    hide Total;
  }

  lemma {:induction false} ShownAreFiledInOpen(nodes: seq<GroupNode>, profiles: seq<Profile>, collapsed: set<GroupId>)
    requires Distinct(AllIds(nodes))
    ensures multiset(ShownProfiles(File(nodes, profiles), collapsed))
            == multiset(FiledIn(profiles, OpenIds(nodes, collapsed)))
    decreases nodes
  {
    if nodes == [] {
      FiledInNothing(profiles);
    } else {
      var id, inside, rest := nodes[0].group.id, OpenIds(nodes[0].children, collapsed), OpenIds(nodes[1..], collapsed);
      hide FiledIn;
      ApartFromTheRest(nodes, collapsed);
      ShownFirst(nodes, profiles, collapsed);
      hide File;
      hide ShownProfiles;
      hide AllIds;
      ShownAreFiledInOpen(nodes[0].children, profiles, collapsed);
      ShownAreFiledInOpen(nodes[1..], profiles, collapsed);
      FiledInBoth(profiles, {id}, inside);
      FiledInBoth(profiles, {id} + inside, rest);
      assert {} + rest == rest;
    }
  }

  lemma {:induction false} TotalsCount(nodes: seq<GroupNode>, profiles: seq<Profile>)
    ensures Total(File(nodes, profiles)) == |ShownProfiles(File(nodes, profiles), {})|
    decreases nodes
  {
    if nodes != [] {
      TotalsCount(nodes[0].children, profiles);
      TotalsCount(nodes[1..], profiles);
    }
  }

  // Each node of the tree counts the profiles in it and below.
  ghost predicate CountsItsProfiles(node: GroupNode) {
    && node.total == |ShownProfiles([node], {})|
    && forall child :: child in node.children ==> CountsItsProfiles(child)
  }

  lemma {:induction false} EveryTotalCounts(nodes: seq<GroupNode>, profiles: seq<Profile>)
    ensures forall node :: node in File(nodes, profiles) ==> CountsItsProfiles(node)
    decreases nodes
  {
    if nodes != [] {
      EveryTotalCounts(nodes[0].children, profiles);
      EveryTotalCounts(nodes[1..], profiles);
      TotalsCount(nodes[0].children, profiles);
      var node := File(nodes, profiles)[0];
      assert ShownProfiles([node], {}) == ShownProfiles(node.children, {}) + node.profiles + ShownProfiles([], {});
      assert CountsItsProfiles(node);
    }
  }

  // With some groups collapsed the tree shows the profiles of the open ones;
  // with none, all profiles, each as often as given. The totals at the top
  // and the ungrouped profiles add up to all of them.
  lemma EachProfileIsShownOnce(groups: seq<Group>, profiles: seq<Profile>, byName: (Group, Group) -> bool,
          idLe: (Group, Group) -> bool, collapsed: set<GroupId>)
    requires DistinctIds(groups)
    ensures var tree := BuildGroupTree(groups, profiles, byName, idLe);
            && multiset(ShownProfiles(tree.roots, collapsed))
               == multiset(FiledIn(profiles, OpenIds(tree.roots, collapsed)))
            && multiset(VisibleTreeProfiles(tree, {}, false)) == multiset(profiles)
            && Total(tree.roots) + |tree.ungrouped| == |profiles|
            && forall node :: node in tree.roots ==> CountsItsProfiles(node)
  {
    EachGroupIsPlacedOnce(groups, profiles, byName, idLe);
    var tree := BuildGroupTree(groups, profiles, byName, idLe);
    SortedStaysDistinct(groups, byName);
    var placed := PlaceGroups(SortBy(groups, byName), groups, idLe);
    GroupsListOnceEach(SortBy(groups, byName), groups, idLe);
    var roots := SortBy(placed.nodes, ByNode(byName));
    FileLists(roots, profiles, {});
    ShownAreFiledInOpen(roots, profiles, collapsed);
    ShownAreFiledInOpen(roots, profiles, {});
    FileOpens(roots, profiles, collapsed);
    OpenAreListed(roots, {});
    assert OpenIds(roots, {}) == Ids(groups);
    FiledSomewhere(profiles, Ids(groups));
    TotalsCount(roots, profiles);
    EveryTotalCounts(roots, profiles);
    assert |multiset(ShownProfiles(tree.roots, {}))| + |multiset(tree.ungrouped)| == |multiset(profiles)|;
  }

  lemma {:induction false} FileOpens(nodes: seq<GroupNode>, profiles: seq<Profile>, collapsed: set<GroupId>)
    ensures OpenIds(File(nodes, profiles), collapsed) == OpenIds(nodes, collapsed)
    decreases nodes
  {
    if nodes != [] {
      FileOpens(nodes[0].children, profiles, collapsed);
      FileOpens(nodes[1..], profiles, collapsed);
    }
  }
}
