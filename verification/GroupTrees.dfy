// Building the tree of groups step by step, as the source does
// (src/lib/profileGroups.ts), and which groups end up at the top because of
// a loop.
module GroupTrees {
  import opened Sequences
  import opened ProfileGroups
  import opened ProfileGroupsProofs

  // ----- the loops of the source -----

  function Filed<K, V>(m: map<K, seq<V>>, key: K): seq<V> {
    if key in m then m[key] else []
  }

  lemma {:induction false} ChildrenOfAppend(known: set<GroupId>, groups: seq<Group>, group: Group,
          parent: Option<GroupId>)
    ensures ChildrenOf(known, groups + [group], parent)
         == ChildrenOf(known, groups, parent) + if Parent(known, group) == parent then [group] else []
  {
    if groups == [] {
      assert groups + [group] == [group];
    } else {
      ChildrenOfAppend(known, groups[1..], group, parent);
      assert (groups + [group])[1..] == groups[1..] + [group];
      Associates(if Parent(known, groups[0]) == parent then [groups[0]] else [], ChildrenOf(known, groups[1..], parent),
                 if Parent(known, group) == parent then [group] else []);
    }
  }

  ghost predicate GroupedByParent(children: map<Option<GroupId>, seq<Group>>, known: set<GroupId>, groups: seq<Group>) {
    forall parent :: Filed(children, parent) == ChildrenOf(known, groups, parent)
  }

  lemma GroupedOneMore(children: map<Option<GroupId>, seq<Group>>, known: set<GroupId>, groups: seq<Group>,
          group: Group)
    requires GroupedByParent(children, known, groups)
    ensures var parent := Parent(known, group);
            GroupedByParent(children[parent := Filed(children, parent) + [group]], known, groups + [group])
  {
    var parent := Parent(known, group);
    var after := children[parent := Filed(children, parent) + [group]];
    forall p ensures Filed(after, p) == ChildrenOf(known, groups + [group], p) {
      ChildrenOfAppend(known, groups, group, p);
      assert Filed(children, p) == ChildrenOf(known, groups, p);
      assert Filed(children, p) + [] == Filed(children, p);
    }
  }

  // Each group under its parent, or at the top.
  method GroupByParent(groups: seq<Group>, known: set<GroupId>) returns (children: map<Option<GroupId>, seq<Group>>)
    ensures GroupedByParent(children, known, groups)
  {
    children := map[];
    for i := 0 to |groups|
      invariant GroupedByParent(children, known, groups[..i])
    {
      GroupedOneMore(children, known, groups[..i], groups[i]);
      assert groups[..i + 1] == groups[..i] + [groups[i]];
      var parent := Parent(known, groups[i]);
      children := children[parent := Filed(children, parent) + [groups[i]]];
    }
    assert groups[..|groups|] == groups;
  }

  lemma {:induction false} FiledAppend(profiles: seq<Profile>, profile: Profile, ids: set<GroupId>)
    ensures FiledIn(profiles + [profile], ids)
         == FiledIn(profiles, ids) + if profile.groupId.Some? && profile.groupId.value in ids then [profile] else []
    ensures FiledInNone(profiles + [profile], ids)
         == FiledInNone(profiles, ids) + if profile.groupId.Some? && profile.groupId.value in ids then [] else [profile]
  {
    var here := profile.groupId.Some? && profile.groupId.value in ids;
    if profiles == [] {
      assert profiles + [profile] == [profile];
    } else {
      FiledAppend(profiles[1..], profile, ids);
      assert (profiles + [profile])[1..] == profiles[1..] + [profile];
      var first := profiles[0].groupId.Some? && profiles[0].groupId.value in ids;
      Associates(if first then [profiles[0]] else [], FiledIn(profiles[1..], ids), if here then [profile] else []);
      Associates(if first then [] else [profiles[0]], FiledInNone(profiles[1..], ids), if here then [] else [profile]);
    }
  }

  // Each profile into its group, or to those in none.
  method FileProfiles(ids: set<GroupId>, profiles: seq<Profile>)
    returns (filed: map<GroupId, seq<Profile>>, ungrouped: seq<Profile>)
    ensures ungrouped == FiledInNone(profiles, ids)
    ensures forall id :: id in ids ==> Filed(filed, id) == FiledIn(profiles, {id})
  {
    filed, ungrouped := map[], [];
    for i := 0 to |profiles|
      invariant ungrouped == FiledInNone(profiles[..i], ids)
      invariant forall id :: id in ids ==> Filed(filed, id) == FiledIn(profiles[..i], {id})
    {
      var profile := profiles[i];
      ghost var before := filed;
      assert profiles[..i + 1] == profiles[..i] + [profile];
      FiledAppend(profiles[..i], profile, ids);
      if profile.groupId.Some? && profile.groupId.value in ids {
        filed := filed[profile.groupId.value := Filed(filed, profile.groupId.value) + [profile]];
      } else {
        ungrouped := ungrouped + [profile];
      }
      forall id | id in ids ensures Filed(filed, id) == FiledIn(profiles[..i + 1], {id}) {
        FiledAppend(profiles[..i], profile, {id});
        assert Filed(before, id) == FiledIn(profiles[..i], {id});
      }
    }
    assert profiles[..|profiles|] == profiles;
  }

  // Puts the top-level groups and then, while some are left, the unplaced
  // group with the smallest id at the top, each with what is under it.
  method PlaceAll(groups: seq<Group>, given: seq<Group>, idLe: (Group, Group) -> bool)
    returns (roots: seq<GroupNode>, placed: set<GroupId>)
    requires DistinctIds(groups) && SameGroups(given, groups)
    ensures Placed(roots, placed) == PlaceGroups(groups, given, idLe)
  {
    var known := set group | group in groups :: group.id;
    var children := GroupByParent(groups, known);
    TopIsReady(groups);
    assert Filed(children, None) == ChildrenOf(known, groups, None);
    var top := Place(groups, Filed(children, None), 0, "", {});
    roots, placed := top.nodes, top.placed;
    var left := SortBy(Unplaced(given, placed), idLe);
    while left != []
      invariant placed <= Ids(groups) && left == SortBy(Unplaced(given, placed), idLe)
      invariant PlaceGroups(groups, given, idLe)
             == Placed(roots + PlaceLoops(groups, given, placed, idLe).nodes,
                       PlaceLoops(groups, given, placed, idLe).placed)
      decreases Ids(groups) - placed
    {
      CutIsUnplaced(groups, given, placed, idLe);
      ghost var cut, next := CutUnfolded(groups, given, placed, idLe);
      var first := Place(groups, [left[0]], 0, "", placed);
      Associates(roots, first.nodes, PlaceLoops(groups, given, first.placed, idLe).nodes);
      roots, placed := roots + first.nodes, first.placed;
      left := SortBy(Unplaced(given, placed), idLe);
    }
    CutIsUnplaced(groups, given, placed, idLe);
    LoopsDone(groups, given, placed, idLe);
    assert roots + [] == roots;
  }

  // Gives each node its profiles and its total.
  function Counted(nodes: seq<GroupNode>, filed: map<GroupId, seq<Profile>>): seq<GroupNode> {
    if nodes == [] then []
    else
      var node := nodes[0];
      var own, children := Filed(filed, node.group.id), Counted(node.children, filed);
      [GroupNode(node.group, node.depth, node.path, children, own, |own| + Total(children))]
          + Counted(nodes[1..], filed)
  }

  lemma {:induction false} CountedIsFile(nodes: seq<GroupNode>, filed: map<GroupId, seq<Profile>>,
          profiles: seq<Profile>)
    requires forall id :: id in AllIds(nodes) ==> Filed(filed, id) == FiledIn(profiles, {id})
    ensures Counted(nodes, filed) == File(nodes, profiles)
    decreases nodes
  {
    if nodes != [] {
      assert nodes == [nodes[0]] + nodes[1..];
      ListedFirst(nodes[0], nodes[1..]);
      CountedIsFile(nodes[0].children, filed, profiles);
      CountedIsFile(nodes[1..], filed, profiles);
    }
  }

  method Build(groups: seq<Group>, profiles: seq<Profile>, byName: (Group, Group) -> bool,
          idLe: (Group, Group) -> bool) returns (tree: GroupTree)
    requires DistinctIds(groups)
    ensures tree == BuildGroupTree(groups, profiles, byName, idLe)
  {
    var sorted := SortBy(groups, byName);
    SortedStaysDistinct(groups, byName);
    var nodes, placed := PlaceAll(sorted, groups, idLe);
    var roots := SortBy(nodes, ByNode(byName));
    var filed, ungrouped := FileProfiles(placed, profiles);
    GroupsListOnceEach(sorted, groups, idLe);
    SortByLists(nodes, ByNode(byName));
    SameValues(AllIds(nodes), AllIds(roots));
    assert forall id :: id in AllIds(roots) ==> id in ToSet(AllIds(roots));
    CountedIsFile(roots, filed, profiles);
    tree := GroupTree(Counted(roots, filed), ungrouped);
  }

  // The visits of the source, which push what they show one after the other.
  method ShowProfiles(nodes: seq<GroupNode>, collapsed: set<GroupId>, before: seq<Profile>)
    returns (result: seq<Profile>)
    ensures result == before + ShownProfiles(nodes, collapsed)
    decreases nodes
  {
    result := before;
    for i := 0 to |nodes|
      invariant result + ShownProfiles(nodes[i..], collapsed) == before + ShownProfiles(nodes, collapsed)
    {
      assert nodes[i..][1..] == nodes[i + 1..];
      if nodes[i].group.id !in collapsed {
        ghost var inside, rest := ShownProfiles(nodes[i].children, collapsed), ShownProfiles(nodes[i + 1..], collapsed);
        Associates(result, inside, nodes[i].profiles);
        Associates(result, inside + nodes[i].profiles, rest);
        result := ShowProfiles(nodes[i].children, collapsed, result);
        result := result + nodes[i].profiles;
      }
    }
  }

  method ListGroups(nodes: seq<GroupNode>, collapsed: set<GroupId>, before: seq<GroupId>) returns (result: seq<GroupId>)
    ensures result == before + ListedIds(nodes, collapsed)
    decreases nodes
  {
    result := before;
    for i := 0 to |nodes|
      invariant result + ListedIds(nodes[i..], collapsed) == before + ListedIds(nodes, collapsed)
    {
      assert nodes[i..][1..] == nodes[i + 1..];
      ghost var own, rest := [nodes[i].group.id], ListedIds(nodes[i + 1..], collapsed);
      if nodes[i].group.id in collapsed {
        Associates(result, own, rest);
        assert own + [] == own;
        result := result + [nodes[i].group.id];
      } else {
        Associates(result, own, ListedIds(nodes[i].children, collapsed));
        Associates(result, own + ListedIds(nodes[i].children, collapsed), rest);
        result := ListGroups(nodes[i].children, collapsed, result + [nodes[i].group.id]);
      }
    }
  }
}
