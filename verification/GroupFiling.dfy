// What the tree of groups says of each group and profile, in terms of the
// groups and profiles given (src/lib/profileGroups.ts).
module GroupFiling {
  import opened Sequences
  import opened ProfileGroups
  import opened ProfileGroupsProofs

  // A group is filed under the parent it names if there is such a group
  // besides itself.
  lemma ParentExactlyWhen(groups: seq<Group>, group: Group, id: GroupId)
    ensures Parent(Ids(groups), group) == Some(id)
       <==> group.parentId == Some(id) && id != group.id && exists parent :: parent in groups && parent.id == id
  {
  }

  // The profiles filed in the group of that id, in the order given.
  function In(profiles: seq<Profile>, id: GroupId): seq<Profile> {
    if profiles == [] then []
    else if profiles[0].groupId == Some(id) then [profiles[0]] + In(profiles[1..], id)
    else In(profiles[1..], id)
  }

  // The profiles that name no group there is.
  ghost function InNone(profiles: seq<Profile>, groups: seq<Group>): seq<Profile> {
    if profiles == [] then []
    else if exists group :: group in groups && profiles[0].groupId == Some(group.id)
    then InNone(profiles[1..], groups)
    else [profiles[0]] + InNone(profiles[1..], groups)
  }

  lemma {:induction false} FiledInIs(profiles: seq<Profile>, id: GroupId)
    ensures FiledIn(profiles, {id}) == In(profiles, id)
  {
    if profiles != [] {
      FiledInIs(profiles[1..], id);
    }
  }

  lemma {:induction false} FiledInNoneIs(profiles: seq<Profile>, groups: seq<Group>)
    ensures FiledInNone(profiles, Ids(groups)) == InNone(profiles, groups)
  {
    if profiles != [] {
      FiledInNoneIs(profiles[1..], groups);
    }
  }

  // A group of those given, at its depth, under its path, with its profiles,
  // and with groups below it that name it as their parent.
  ghost predicate IsFiled(groups: seq<Group>, profiles: seq<Profile>, node: GroupNode, depth: nat, above: string) {
    && node.group in groups && node.depth == depth
    && node.path == (if above == "" then node.group.name else above + " / " + node.group.name)
    && node.profiles == In(profiles, node.group.id)
    && forall child :: child in node.children ==>
         && child.group.parentId == Some(node.group.id) && child.group.id != node.group.id
         && IsFiled(groups, profiles, child, depth + 1, node.path)
  }

  // Every node has the profiles of its group.
  ghost predicate HasItsProfiles(profiles: seq<Profile>, node: GroupNode) {
    && node.profiles == In(profiles, node.group.id)
    && forall child :: child in node.children ==> HasItsProfiles(profiles, child)
  }

  lemma {:induction false} FileGivesProfiles(nodes: seq<GroupNode>, profiles: seq<Profile>)
    ensures forall node :: node in File(nodes, profiles) ==> HasItsProfiles(profiles, node)
    decreases nodes
  {
    if nodes != [] {
      FileGivesProfiles(nodes[0].children, profiles);
      FileGivesProfiles(nodes[1..], profiles);
      FiledInIs(profiles, nodes[0].group.id);
      assert HasItsProfiles(profiles, File(nodes, profiles)[0]);
    }
  }

  lemma {:induction false} DeclaredIsFiled(groups: seq<Group>, profiles: seq<Profile>, node: GroupNode, depth: nat,
          above: string)
    requires UnderDeclared(groups, node, depth, above) && HasItsProfiles(profiles, node)
    ensures IsFiled(groups, profiles, node, depth, above)
    decreases node
  {
    forall child | child in node.children
      ensures child.group.parentId == Some(node.group.id) && child.group.id != node.group.id
      ensures IsFiled(groups, profiles, child, depth + 1, node.path)
    {
      ParentExactlyWhen(groups, child.group, node.group.id);
      DeclaredIsFiled(groups, profiles, child, depth + 1, node.path);
    }
    assert GROUP_PATH_JOINER == " / ";
  }

  // Names no parent, itself, or one that is not there.
  ghost predicate HasNoParent(groups: seq<Group>, group: Group) {
    forall parent :: parent in groups && group.parentId == Some(parent.id) ==> parent.id == group.id
  }

  // Every group stands in the tree once, below the group it names as its
  // parent, or at the top: for want of one, or because its parents never end.
  // Each has its own profiles, and the rest are listed apart.
  lemma TreeIsFiled(groups: seq<Group>, profiles: seq<Profile>, byName: (Group, Group) -> bool,
          idLe: (Group, Group) -> bool)
    requires DistinctIds(groups)
    ensures var tree := BuildGroupTree(groups, profiles, byName, idLe);
      && ListsOnceEach(tree.roots, Ids(groups))
      && (forall node :: node in tree.roots ==>
            && IsFiled(groups, profiles, node, 0, "")
            && (HasNoParent(groups, node.group) || !ChainEnds(groups, node.group)))
      && tree.ungrouped == InNone(profiles, groups)
  {
    EachGroupIsPlacedOnce(groups, profiles, byName, idLe);
    var tree := BuildGroupTree(groups, profiles, byName, idLe);
    TreeHasProfiles(groups, profiles, byName, idLe);
    hide BuildGroupTree;
    hide ChainEnds;
    forall node | node in tree.roots
      ensures IsFiled(groups, profiles, node, 0, "")
      ensures HasNoParent(groups, node.group) || !ChainEnds(groups, node.group)
    {
      DeclaredIsFiled(groups, profiles, node, 0, "");
      assert TopIsRight(groups, node);
    }
  }

  lemma TreeHasProfiles(groups: seq<Group>, profiles: seq<Profile>, byName: (Group, Group) -> bool,
          idLe: (Group, Group) -> bool)
    requires DistinctIds(groups)
    ensures var tree := BuildGroupTree(groups, profiles, byName, idLe);
      && (forall node :: node in tree.roots ==> HasItsProfiles(profiles, node))
      && tree.ungrouped == InNone(profiles, groups)
  {
    SortedStaysDistinct(groups, byName);
    var placed := PlaceGroups(SortBy(groups, byName), groups, idLe);
    var roots := SortBy(placed.nodes, ByNode(byName));
    GroupsListOnceEach(SortBy(groups, byName), groups, idLe);
    FileGivesProfiles(roots, profiles);
    FiledInNoneIs(profiles, groups);
  }

  // With a group open, what is shown of it is what is shown of those in it,
  // and then its own profiles; a collapsed one shows nothing.
  lemma ShownGroupByGroup(node: GroupNode, rest: seq<GroupNode>, collapsed: set<GroupId>)
    ensures ShownProfiles([node] + rest, collapsed)
         == (if node.group.id in collapsed then [] else ShownProfiles(node.children, collapsed) + node.profiles)
            + ShownProfiles(rest, collapsed)
  {
    assert ([node] + rest)[1..] == rest;
  }
}
