// Saved profiles filed in groups, shown as a tree (src/lib/profileGroups.ts).
// A group names its parent; the parent may be gone, and parents may go round
// in a loop. Names and ids are compared by orders the caller supplies, as the
// source leaves them to the locale.
module ProfileGroups {
  import opened Sequences

  datatype GroupId = GroupId(key: string)

  datatype Group = Group(id: GroupId, name: string, parentId: Option<GroupId>)

  datatype Profile = Profile(id: string, groupId: Option<GroupId>)

  datatype GroupNode = GroupNode(group: Group, depth: nat, path: string, children: seq<GroupNode>,
          profiles: seq<Profile>, total: nat)

  datatype GroupTree = GroupTree(roots: seq<GroupNode>, ungrouped: seq<Profile>)

  const GROUP_PATH_JOINER := " / "

  // ----- sorting -----

  function InsertBy<T>(x: T, s: seq<T>, le: (T, T) -> bool): seq<T> {
    if s == [] || le(x, s[0]) then [x] + s else [s[0]] + InsertBy(x, s[1..], le)
  }

  // Stable, as the source's sort is.
  function SortBy<T>(s: seq<T>, le: (T, T) -> bool): seq<T> {
    if s == [] then [] else InsertBy(s[0], SortBy(s[1..], le), le)
  }

  lemma {:induction false} InsertByAdds<T>(x: T, s: seq<T>, le: (T, T) -> bool)
    ensures multiset(InsertBy(x, s, le)) == multiset{x} + multiset(s)
  {
    if s != [] && !le(x, s[0]) {
      InsertByAdds(x, s[1..], le);
      assert s == [s[0]] + s[1..];
    }
  }

  lemma {:induction false} SortByKeeps<T>(s: seq<T>, le: (T, T) -> bool)
    ensures multiset(SortBy(s, le)) == multiset(s)
  {
    if s != [] {
      SortByKeeps(s[1..], le);
      InsertByAdds(s[0], SortBy(s[1..], le), le);
      assert s == [s[0]] + s[1..];
    }
  }

  // ----- who is under whom -----

  function Ids(groups: seq<Group>): set<GroupId> {
    set group | group in groups :: group.id
  }

  ghost predicate DistinctIds(groups: seq<Group>) {
    forall i, j :: 0 <= i < j < |groups| ==> groups[i].id != groups[j].id
  }

  // The parent a group is filed under, unless it is gone or the group itself.
  function Parent(known: set<GroupId>, group: Group): Option<GroupId> {
    if group.parentId.Some? && group.parentId.value != group.id && group.parentId.value in known then group.parentId
        else None
  }

  function ChildrenOf(known: set<GroupId>, groups: seq<Group>, parent: Option<GroupId>): seq<Group> {
    if groups == [] then []
    else (if Parent(known, groups[0]) == parent then [groups[0]] else []) + ChildrenOf(known, groups[1..], parent)
  }

  lemma {:induction false} ChildrenAre(known: set<GroupId>, groups: seq<Group>, parent: Option<GroupId>)
    ensures forall h :: h in ChildrenOf(known, groups, parent) <==> h in groups && Parent(known, h) == parent
  {
    if groups != [] {
      ChildrenAre(known, groups[1..], parent);
      assert groups == [groups[0]] + groups[1..];
    }
  }

  function Unplaced(groups: seq<Group>, placed: set<GroupId>): seq<Group> {
    if groups == [] then []
    else (if groups[0].id in placed then [] else [groups[0]]) + Unplaced(groups[1..], placed)
  }

  lemma {:induction false} UnplacedAre(groups: seq<Group>, placed: set<GroupId>)
    ensures forall h :: h in Unplaced(groups, placed) <==> h in groups && h.id !in placed
  {
    if groups != [] {
      UnplacedAre(groups[1..], placed);
      assert groups == [groups[0]] + groups[1..];
    }
  }

  lemma FirstIdIsNew(groups: seq<Group>)
    requires DistinctIds(groups) && groups != []
    ensures forall h :: h in groups[1..] ==> h.id != groups[0].id
  {
    forall h | h in groups[1..] ensures h.id != groups[0].id {
      var i :| 0 <= i < |groups| - 1 && groups[1..][i] == h;
      assert groups[i + 1] == h;
    }
  }

  lemma {:induction false} FilteredDistinct(known: set<GroupId>, groups: seq<Group>, parent: Option<GroupId>,
          placed: set<GroupId>)
    requires DistinctIds(groups)
    ensures DistinctIds(ChildrenOf(known, groups, parent)) && DistinctIds(Unplaced(groups, placed))
  {
    if groups != [] {
      FilteredDistinct(known, groups[1..], parent, placed);
      ChildrenAre(known, groups[1..], parent);
      UnplacedAre(groups[1..], placed);
      FirstIdIsNew(groups);
    }
  }

  // ----- placing -----

  datatype Placed = Placed(nodes: seq<GroupNode>, placed: set<GroupId>)

  function PathOf(parentPath: string, name: string): string {
    if parentPath != "" then parentPath + GROUP_PATH_JOINER + name else name
  }

  // The groups to place next are in no one's way: none is placed, and none
  // gets placed while the others are, as its parent is placed or there is none.
  ghost predicate Ready(groups: seq<Group>, list: seq<Group>, placed: set<GroupId>) {
    && DistinctIds(groups) && DistinctIds(list)
    && (forall h :: h in list ==> h in groups && h.id !in placed)
    && (|list| > 1 ==> forall h :: h in list ==> Parent(Ids(groups), h).None? || Parent(Ids(groups), h).value in placed)
  }

  // What gets placed between `before` and `after` is listed or hangs off
  // something that gets placed as well.
  ghost predicate OnlyBelow(groups: seq<Group>, list: seq<Group>, before: set<GroupId>, after: set<GroupId>) {
    forall h :: h in groups && h.id in after - before ==>
      h in list || (Parent(Ids(groups), h).Some? && Parent(Ids(groups), h).value in after - before)
  }

  lemma ChildrenAreReady(groups: seq<Group>, g: Group, placed: set<GroupId>)
    requires DistinctIds(groups) && g in groups && g.id in placed
    ensures var kids := Unplaced(ChildrenOf(Ids(groups), groups, Some(g.id)), placed);
            && Ready(groups, kids, placed)
            && forall h :: h in kids <==> h in groups && Parent(Ids(groups), h) == Some(g.id) && h.id !in placed
  {
    var children := ChildrenOf(Ids(groups), groups, Some(g.id));
    FilteredDistinct(Ids(groups), groups, Some(g.id), placed);
    FilteredDistinct(Ids(groups), children, None, placed);
    ChildrenAre(Ids(groups), groups, Some(g.id));
    UnplacedAre(children, placed);
  }

  lemma SiblingsAreReady(groups: seq<Group>, list: seq<Group>, placed: set<GroupId>, kids: seq<Group>,
          after: set<GroupId>)
    requires list != [] && Ready(groups, list, placed)
    requires placed + {list[0].id} <= after && OnlyBelow(groups, kids, placed + {list[0].id}, after)
    requires forall h :: h in kids ==> Parent(Ids(groups), h) == Some(list[0].id)
    ensures Ready(groups, list[1..], after)
    ensures OnlyBelow(groups, list, placed, after)
  {
    var g, rest := list[0], list[1..];
    forall h | h in rest ensures h in groups && h.id !in after {
      var i :| 0 <= i < |rest| && rest[i] == h;
      assert list[i + 1] == h && h in list;
    }
    forall h | h in groups && h.id in after - placed
      ensures h in list || (Parent(Ids(groups), h).Some? && Parent(Ids(groups), h).value in after - placed)
    {
      if h.id == g.id {
        SameIdSameGroup(groups, g, h);
      }
    }
    forall h | h in rest ensures h in list {
      assert list == [g] + rest;
    }
  }

  lemma SameIdSameGroup(groups: seq<Group>, g: Group, h: Group)
    requires DistinctIds(groups) && g in groups && h in groups && g.id == h.id
    ensures g == h
  {
  }

  // Places each listed group with the groups under it that are not placed.
  function Place(groups: seq<Group>, list: seq<Group>, depth: nat, parentPath: string,
          placed: set<GroupId>): (r: Placed)
    requires Ready(groups, list, placed)
    ensures placed <= r.placed <= placed + Ids(groups)
    ensures forall h :: h in list ==> h.id in r.placed
    ensures OnlyBelow(groups, list, placed, r.placed)
    decreases Ids(groups) - placed, |list|
  {
    if list == [] then Placed([], placed)
    else
      var g := list[0];
      var path := PathOf(parentPath, g.name);
      var now := placed + {g.id};
      var kids := Unplaced(ChildrenOf(Ids(groups), groups, Some(g.id)), now);
      ChildrenAreReady(groups, g, now);
      assert g.id in Ids(groups);
      var inner := Place(groups, kids, depth + 1, path, now);
      SiblingsAreReady(groups, list, placed, kids, inner.placed);
      var rest := Place(groups, list[1..], depth, parentPath, inner.placed);
      PlacedInTurn(groups, list, placed, inner.placed, rest.placed);
      Placed([GroupNode(g, depth, path, inner.nodes, [], 0)] + rest.nodes, rest.placed)
  }

  lemma PlacedInTurn(groups: seq<Group>, list: seq<Group>, placed: set<GroupId>, middle: set<GroupId>,
          after: set<GroupId>)
    requires list != [] && placed <= middle <= after && list[0].id in middle
    requires OnlyBelow(groups, list, placed, middle) && OnlyBelow(groups, list[1..], middle, after)
    requires forall h :: h in list[1..] ==> h.id in after
    ensures OnlyBelow(groups, list, placed, after)
    ensures forall h :: h in list ==> h.id in after
  {
    assert list == [list[0]] + list[1..];
  }

  // ----- cutting loops -----

  // Nothing unplaced hangs off something placed.
  ghost predicate Closed(groups: seq<Group>, placed: set<GroupId>) {
    forall h :: h in groups && Parent(Ids(groups), h).Some? && Parent(Ids(groups), h).value in placed ==> h.id in placed
  }

  // Groups in a loop are reached from no top-level group: the unplaced one
  // with the smallest id is put at the top, until all are placed.
  function PlaceLoops(groups: seq<Group>, given: seq<Group>, placed: set<GroupId>, idLe: (Group, Group) -> bool): Placed
    requires DistinctIds(groups) && SameGroups(given, groups)
    decreases Ids(groups) - placed
  {
    var left := SortBy(Unplaced(given, placed), idLe);
    if left == [] then Placed([], placed)
    else
      var cut := left[0];
      CutIsUnplaced(groups, given, placed, idLe);
      var first := Place(groups, [cut], 0, "", placed);
      assert cut in [cut] && cut.id in first.placed && cut.id in Ids(groups);
      var rest := PlaceLoops(groups, given, first.placed, idLe);
      Placed(first.nodes + rest.nodes, rest.placed)
  }

  ghost predicate SameGroups(given: seq<Group>, groups: seq<Group>) {
    forall h :: h in given <==> h in groups
  }

  lemma CutIsUnplaced(groups: seq<Group>, given: seq<Group>, placed: set<GroupId>, idLe: (Group, Group) -> bool)
    requires DistinctIds(groups) && SameGroups(given, groups)
    ensures var left := SortBy(Unplaced(given, placed), idLe);
            && (left == [] <==> Ids(groups) <= placed)
            && (left != [] ==> left[0] in groups && left[0].id !in placed && Ready(groups, [left[0]], placed))
  {
    var rest := Unplaced(given, placed);
    var left := SortBy(rest, idLe);
    UnplacedAre(given, placed);
    SortByKeeps(rest, idLe);
    assert |left| == |multiset(left)| == |rest|;
    if left != [] {
      assert left[0] in multiset(rest);
      assert left[0].id in Ids(groups);
    } else {
      forall id | id in Ids(groups) ensures id in placed {
        var h :| h in groups && h.id == id;
        assert h !in rest;
      }
    }
  }

  lemma TopIsReady(groups: seq<Group>)
    requires DistinctIds(groups)
    ensures Ready(groups, ChildrenOf(Ids(groups), groups, None), {})
    ensures forall h :: h in ChildrenOf(Ids(groups), groups, None) <==> h in groups && Parent(Ids(groups), h).None?
  {
    FilteredDistinct(Ids(groups), groups, None, {});
    ChildrenAre(Ids(groups), groups, None);
  }

  // The top-level groups, then what is in loops.
  function PlaceGroups(groups: seq<Group>, given: seq<Group>, idLe: (Group, Group) -> bool): Placed
    requires DistinctIds(groups) && SameGroups(given, groups)
  {
    TopIsReady(groups);
    var top := Place(groups, ChildrenOf(Ids(groups), groups, None), 0, "", {});
    var loops := PlaceLoops(groups, given, top.placed, idLe);
    Placed(top.nodes + loops.nodes, loops.placed)
  }

  // ----- filing and counting profiles -----

  function FiledIn(profiles: seq<Profile>, ids: set<GroupId>): seq<Profile> {
    if profiles == [] then []
    else
      (if profiles[0].groupId.Some? && profiles[0].groupId.value in ids then [profiles[0]] else [])
      + FiledIn(profiles[1..], ids)
  }

  function FiledInNone(profiles: seq<Profile>, ids: set<GroupId>): seq<Profile> {
    if profiles == [] then []
    else
      (if profiles[0].groupId.Some? && profiles[0].groupId.value in ids then [] else [profiles[0]])
      + FiledInNone(profiles[1..], ids)
  }

  function Total(nodes: seq<GroupNode>): nat {
    if nodes == [] then 0 else nodes[0].total + Total(nodes[1..])
  }

  // Each node with its profiles and how many are in it and below.
  function File(nodes: seq<GroupNode>, profiles: seq<Profile>): (r: seq<GroupNode>)
    ensures |r| == |nodes|
  {
    if nodes == [] then []
    else
      var node := nodes[0];
      var own, children := FiledIn(profiles, {node.group.id}), File(node.children, profiles);
      [GroupNode(node.group, node.depth, node.path, children, own, |own| + Total(children))]
          + File(nodes[1..], profiles)
  }

  function ByNode(byName: (Group, Group) -> bool): (GroupNode, GroupNode) -> bool {
    (left: GroupNode, right: GroupNode) => byName(left.group, right.group)
  }

  function BuildGroupTree(groups: seq<Group>, profiles: seq<Profile>, byName: (Group, Group) -> bool,
          idLe: (Group, Group) -> bool): GroupTree
    requires DistinctIds(groups)
  {
    SortedStaysDistinct(groups, byName);
    var placed := PlaceGroups(SortBy(groups, byName), groups, idLe);
    var roots := SortBy(placed.nodes, ByNode(byName));
    GroupTree(File(roots, profiles), FiledInNone(profiles, placed.placed))
  }

  lemma {:induction false} DistinctByCount(groups: seq<Group>)
    ensures DistinctIds(groups) <==> Distinct(GroupIds(groups))
  {
  }

  function GroupIds(groups: seq<Group>): (ids: seq<GroupId>)
    ensures |ids| == |groups| && forall i :: 0 <= i < |ids| ==> ids[i] == groups[i].id
  {
    seq(|groups|, i requires 0 <= i < |groups| => groups[i].id)
  }

  lemma {:induction false} InsertByIds(x: Group, s: seq<Group>, le: (Group, Group) -> bool)
    ensures multiset(GroupIds(InsertBy(x, s, le))) == multiset{x.id} + multiset(GroupIds(s))
  {
    if s == [] || le(x, s[0]) {
      assert GroupIds([x] + s) == [x.id] + GroupIds(s);
    } else {
      InsertByIds(x, s[1..], le);
      assert GroupIds([s[0]] + InsertBy(x, s[1..], le)) == [s[0].id] + GroupIds(InsertBy(x, s[1..], le));
      assert GroupIds(s) == [s[0].id] + GroupIds(s[1..]);
    }
  }

  lemma {:induction false} SortByIds(s: seq<Group>, le: (Group, Group) -> bool)
    ensures multiset(GroupIds(SortBy(s, le))) == multiset(GroupIds(s))
  {
    if s == [] {
      assert GroupIds(s) == [];
    } else {
      SortByIds(s[1..], le);
      InsertByIds(s[0], SortBy(s[1..], le), le);
      assert GroupIds(s) == [s[0].id] + GroupIds(s[1..]);
    }
  }

  lemma SortedStaysDistinct(groups: seq<Group>, le: (Group, Group) -> bool)
    requires DistinctIds(groups)
    ensures DistinctIds(SortBy(groups, le))
    ensures forall h :: h in SortBy(groups, le) <==> h in groups
    ensures Ids(SortBy(groups, le)) == Ids(groups)
  {
    var sorted := SortBy(groups, le);
    DistinctByCount(groups);
    SortByIds(groups, le);
    SameValues(GroupIds(groups), GroupIds(sorted));
    DistinctByCount(sorted);
    SortByKeeps(groups, le);
    SameValues(groups, sorted);
    assert forall h :: h in sorted <==> h in ToSet(sorted);
    assert forall h :: h in groups <==> h in ToSet(groups);
  }
}
