// Which pane is focused after tabs are closed (src/lib/tabsState.ts).
module TabsFocus {
  import opened Sequences
  import opened PaneTrees
  import opened PaneGeometry
  import opened TabGroups
  import opened PaneMoves
  import opened PaneTemplates
  import opened TabGroupsPersistence
  import opened TabsState
  import opened TabsStateProofs

  const NO_OPTIONS := RemoveOptions(None, false)

  lemma {:induction false} GroupIndexFinds(groups: seq<TabGroup>, id: nat)
    ensures GroupIndex(groups, id) >= 0 <==> id in GroupIds(groups)
  {
    if groups != [] {
      GroupIndexFinds(groups[1..], id);
      assert groups == [groups[0]] + groups[1..];
      GroupIdsApart(groups[0], groups[1..]);
    }
  }

  lemma GroupIndexAfter(first: seq<TabGroup>, rest: seq<TabGroup>, id: nat)
    requires |first| <= 1 && forall g :: g in first ==> g.id != id
    ensures GroupIndex(first + rest, id) == if GroupIndex(rest, id) == -1 then -1 else GroupIndex(rest, id) + |first|
  {
    if first == [] {
      assert first + rest == rest;
    } else {
      assert (first + rest)[1..] == rest && first[0] in first;
    }
  }

  lemma RemoveTabsApart(groups: seq<TabGroup>, gone: set<TabId>, groupCount: nat)
    requires GroupsOk(groups, groupCount) && RootsOk(groups) && groups != []
    ensures GroupsOk(groups[1..], groupCount) && RootsOk(groups[1..])
    ensures var first, rest := WithoutTabs(groups[0], gone), RemoveTabsFromGroups(groups[1..], gone);
      && |first| <= 1 && (forall g :: g in first ==> g.id == groups[0].id)
      && GroupIndex(rest, groups[0].id) == -1
  {
    assert groups == [groups[0]] + groups[1..];
    GroupsOkApart(groups[0], groups[1..], groupCount);
    WithoutTabsKeepsTheRest(groups[0], gone);
    RemoveTabsKeepsTheRest(groups[1..], gone, groupCount);
    GroupIndexFinds(RemoveTabsFromGroups(groups[1..], gone), groups[0].id);
  }

  // A group left over is the group of its id without the panes that went.
  lemma {:induction false} SurvivorsAreTrimmed(groups: seq<TabGroup>, gone: set<TabId>, groupCount: nat, index: nat)
    requires GroupsOk(groups, groupCount) && RootsOk(groups) && index < |groups|
    ensures var r, trimmed := RemoveTabsFromGroups(groups, gone), WithoutTabs(groups[index], gone);
      var at := GroupIndex(r, groups[index].id);
      if at == -1 then trimmed == [] else trimmed == [r[at]]
  {
    var first, rest := WithoutTabs(groups[0], gone), RemoveTabsFromGroups(groups[1..], gone);
    RemoveTabsApart(groups, gone, groupCount);
    if index == 0 {
      assert first == [] ==> first + rest == rest;
      assert first != [] ==> first == [first[0]] && (first + rest)[0] == first[0];
    } else {
      SurvivorsAreTrimmed(groups[1..], gone, groupCount, index - 1);
      GroupIndexAfter(first, rest, groups[index].id);
    }
  }

  // The first group after `index` that keeps a pane.
  function NextLeft(groups: seq<TabGroup>, gone: set<TabId>): Option<TabGroup>
    requires RootsOk(groups)
  {
    if groups == [] then None
    else if WithoutTabs(groups[0], gone) != [] then Some(groups[0])
    else NextLeft(groups[1..], gone)
  }

  lemma {:induction false} FirstSurvivorIsNextLeft(groups: seq<TabGroup>, gone: set<TabId>, groupCount: nat, from: nat)
    requires GroupsOk(groups, groupCount) && RootsOk(groups) && from <= |groups|
    ensures FirstSurvivor(groups[from..], RemoveTabsFromGroups(groups, gone)) == NextLeft(groups[from..], gone)
    decreases |groups| - from
  {
    if from < |groups| {
      SurvivorsAreTrimmed(groups, gone, groupCount, from);
      FirstSurvivorIsNextLeft(groups, gone, groupCount, from + 1);
      assert groups[from..][1..] == groups[from + 1..];
    }
  }

  // The tab that takes the active tab's place in the list.
  function TabInItsPlace(state: TabsState, gone: set<TabId>, active: TabId): TabId
    requires TabsWithout(state.tabs, gone) != []
  {
    var left := TabsWithout(state.tabs, gone);
    left[Clamp(TabIndex(state.tabs, active), 0, |left| - 1)].id
  }

  // What closing the active tab focuses: the nearest pane left of its group;
  // else the focused pane of the group that moves up into its place, if that
  // pane is left; else, in the last place, the last group.
  function FocusAfterRemoval(state: TabsState, gone: set<TabId>, active: TabId): TabId
    requires RootsOk(state.groups) && TabsWithout(state.tabs, gone) != []
    requires FindGroup(state.groups, active) >= 0
  {
    var index := FindGroup(state.groups, active);
    var own := WithoutTabs(state.groups[index], gone);
    if own != [] then own[0].activeTabId
    else
      match NextLeft(state.groups[index + 1..], gone)
      case Some(after) => if after.activeTabId in gone then TabInItsPlace(state, gone, active) else after.activeTabId
      case None =>
        var left := RemoveTabsFromGroups(state.groups, gone);
        if left == [] then TabInItsPlace(state, gone, active) else left[|left| - 1].activeTabId
  }

  lemma FallbackIsFocusAfterRemoval(state: TabsState, gone: set<TabId>, active: TabId)
    requires Settled(state) && RootsOk(state.groups) && state.activeTabId == Some(active) && active in gone
    requires TabsWithout(state.tabs, gone) != []
    ensures FindGroup(state.groups, active) >= 0
    ensures var fallback := FallbackTabId(state.groups, RemoveTabsFromGroups(state.groups, gone), Some(active));
      FocusAfterRemoval(state, gone, active)
      == if fallback.Some? && fallback.value !in gone then fallback.value else TabInItsPlace(state, gone, active)
  {
    hide GroupsOk;
    hide RemoveTabsFromGroups;
    hide WithoutTabs;
    hide NextLeft;
    hide TabInItsPlace;
    var groups, left := state.groups, RemoveTabsFromGroups(state.groups, gone);
    var index := FindGroup(groups, active);
    GroupsLeft(state, gone);
    SurvivorsAreTrimmed(groups, gone, state.groupCount, index);
    FirstSurvivorIsNextLeft(groups, gone, state.groupCount, index + 1);
    var survivor := GroupIndex(left, groups[index].id);
    if survivor >= 0 {
      assert WithoutTabs(groups[index], gone) == [left[survivor]];
      assert left[survivor].activeTabId !in gone;
    } else {
      assert WithoutTabs(groups[index], gone) == [];
      assert left[|left| - 1].activeTabId !in gone;
    }
  }

  // As long as a tab is left, so is a group, and each focuses a tab that is left.
  lemma GroupsLeft(state: TabsState, gone: set<TabId>)
    requires Settled(state) && RootsOk(state.groups) && TabsWithout(state.tabs, gone) != []
    ensures var left := RemoveTabsFromGroups(state.groups, gone);
      left != [] && forall k :: 0 <= k < |left| ==>
        left[k].activeTabId in TabIds(state.tabs) && left[k].activeTabId !in gone
  {
    var left := RemoveTabsFromGroups(state.groups, gone);
    RemoveTabsKeepsTheRest(state.groups, gone, state.groupCount);
    TabsWithoutIds(state.tabs, gone);
    WithoutMembers(Order(state.groups), gone);
    assert TabIds(TabsWithout(state.tabs, gone))[0] in Order(left);
    ActivePanesAreInOrder(left, state.groupCount);
  }

  lemma ActivePanesAreInOrder(groups: seq<TabGroup>, groupCount: nat)
    requires GroupsOk(groups, groupCount)
    ensures forall k :: 0 <= k < |groups| ==> groups[k].activeTabId in Order(groups)
  {
    forall k | 0 <= k < |groups| ensures groups[k].activeTabId in Order(groups) {
      assert GroupOk(groups[k]);
      PanesAreInOrder(groups, k);
    }
  }

  lemma {:induction false} NextLeftIsAmong(groups: seq<TabGroup>, gone: set<TabId>)
    requires RootsOk(groups)
    ensures NextLeft(groups, gone).Some? ==> NextLeft(groups, gone).value in groups
  {
    if groups != [] {
      NextLeftIsAmong(groups[1..], gone);
    }
  }

  // Closing tabs without the active one keeps it focused; closing the active
  // one focuses as said above.
  lemma RemoveFocusesTheNextPane(state: TabsState, gone: set<TabId>, active: TabId, names: seq<Tab> -> seq<string>)
    requires Settled(state) && state.activeTabId == Some(active) && TabsWithout(state.tabs, gone) != []
    ensures RootsOk(state.groups) && RootsOk(ApplyAction(state, Remove(gone, NO_OPTIONS)).groups)
    ensures FindGroup(state.groups, active) >= 0
    ensures TabsReducer(state, Remove(gone, NO_OPTIONS), names).activeTabId
         == Some(if active in gone then FocusAfterRemoval(state, gone, active) else active)
  {
    var action := Remove(gone, NO_OPTIONS);
    ReducerKeepsSettled(state, action, names);
    ApplyActionIsReady(state, action);
    SettleSettles(ApplyAction(state, action));
    RemovedFocus(state, gone, active);
  }

  // The active tab after tabs are taken off the list.
  lemma RemoveTabsPicks(state: TabsState, gone: set<TabId>, preferred: Option<TabId>, active: TabId)
    requires Ready(state) && state.activeTabId == Some(active) && TabsWithout(state.tabs, gone) != []
    requires preferred.Some? ==> preferred.value in TabIds(state.tabs)
    ensures RemoveTabsFromState(state, gone, RemoveOptions(preferred, false)).activeTabId
         == Some(if active !in gone then active
                 else if preferred.Some? && preferred.value !in gone then preferred.value
                 else TabInItsPlace(state, gone, active))
  {
    TabsWithoutIds(state.tabs, gone);
    WithoutMembers(TabIds(state.tabs), gone);
  }

  lemma RemovedFocus(state: TabsState, gone: set<TabId>, active: TabId)
    requires Settled(state) && RootsOk(state.groups) && state.activeTabId == Some(active)
             && TabsWithout(state.tabs, gone) != []
    ensures FindGroup(state.groups, active) >= 0
    ensures ApplyRemove(state, gone, NO_OPTIONS).activeTabId
         == Some(if active in gone then FocusAfterRemoval(state, gone, active) else active)
  {
    var left := RemoveTabsFromGroups(state.groups, gone);
    var fallback := FallbackTabId(state.groups, left, Some(active));
    GroupsLeft(state, gone);
    FallbackIsATab(state.groups, state.groupCount, left, active);
    RemoveTabsPicks(state, gone, fallback, active);
    if active in gone {
      FallbackIsFocusAfterRemoval(state, gone, active);
    }
  }

  lemma {:induction false} FirstSurvivorIsAmong(groups: seq<TabGroup>, next: seq<TabGroup>)
    ensures FirstSurvivor(groups, next).Some? ==> FirstSurvivor(groups, next).value in groups
  {
    if groups != [] {
      FirstSurvivorIsAmong(groups[1..], next);
    }
  }

  lemma FallbackIsATab(groups: seq<TabGroup>, groupCount: nat, next: seq<TabGroup>, active: TabId)
    requires GroupsOk(groups, groupCount) && forall k :: 0 <= k < |next| ==> next[k].activeTabId in Order(groups)
    ensures FallbackTabId(groups, next, Some(active)).Some?
            ==> FallbackTabId(groups, next, Some(active)).value in Order(groups)
  {
    hide Order;
    var index := FindGroup(groups, active);
    ActivePanesAreInOrder(groups, groupCount);
    if index >= 0 {
      FirstSurvivorIsAmong(groups[index + 1..], next);
      var after := FirstSurvivor(groups[index + 1..], next);
      if after.Some? {
        var k :| 0 <= k < |groups[index + 1..]| && groups[index + 1..][k] == after.value;
        assert groups[index + 1 + k] == after.value;
      }
    }
  }

  // The first group after `index` that keeps a pane, when all those between go.
  lemma {:induction false} NextLeftIs(groups: seq<TabGroup>, gone: set<TabId>, groupCount: nat, from: nat, j: nat)
    requires GroupsOk(groups, groupCount) && RootsOk(groups) && from <= j < |groups|
    requires forall k :: from <= k < j ==> Without(Panes(groups[k]), gone) == []
    requires Without(Panes(groups[j]), gone) != []
    ensures NextLeft(groups[from..], gone) == Some(groups[j])
    ensures Without(Order(groups[from..]), gone)
         == Without(Panes(groups[j]), gone) + Without(Order(groups[j + 1..]), gone)
    decreases j - from
  {
    var group, rest := groups[from], groups[from + 1..];
    assert groups[from..] == [group] + rest;
    assert GroupOk(group);
    WithoutTabsKeepsTheRest(group, gone);
    NothingLeftInOrder(WithoutTabs(group, gone));
    WithoutAppend(Panes(group), Order(rest), gone);
    if from < j {
      NextLeftIs(groups, gone, groupCount, from + 1, j);
    }
  }

  lemma NothingLeftInOrder(groups: seq<TabGroup>)
    requires |groups| <= 1 && forall g :: g in groups ==> GroupOk(g)
    ensures groups == [] <==> Order(groups) == []
  {
    if groups != [] {
      OrderOfOne(groups[0]);
      assert GroupOk(groups[0]);
      assert groups == [groups[0]];
    }
  }

  // How many of the tabs listed before `active` are closed.
  function ClosedBefore(ids: seq<TabId>, gone: set<TabId>, active: TabId): int
    requires active in ids
  {
    var before := ids[..IndexOf(ids, active)];
    |before| - |Without(before, gone)|
  }

  lemma IndexInTheMiddle(before: seq<TabId>, own: seq<TabId>, later: seq<TabId>, active: TabId) returns (at: nat)
    requires Distinct(before + own + later) && active in own
    ensures at < |own| && own[at] == active
    ensures var ids := before + own + later;
      active in ids && IndexOf(ids, active) == |before| + at && ids[..|before| + at] == before + own[..at]
  {
    var ids := before + own + later;
    at := IndexOf(own, active);
    assert ids[|before| + at] == active;
  }

  lemma LandsInTheMiddle(before: seq<TabId>, group: seq<TabId>, rest: seq<TabId>, place: nat)
    requires Distinct(before + group + rest) && group != [] && place >= |before|
    ensures var left := before + group + rest;
      left[Clamp(place, 0, |left| - 1)] in group <==> place - |before| < |group| || rest == []
  {
    var left := before + group + rest;
    var at := Clamp(place, 0, |left| - 1);
    DistinctAppend(before + group, rest);
    if at < |before| + |group| {
      assert left[at] == group[at - |before|];
    } else {
      assert left[at] == rest[at - |before| - |group|];
      assert left[at] in rest && forall id :: id in group ==> id in before + group;
    }
  }

  lemma LeftAroundAClosedPart(before: seq<TabId>, own: seq<TabId>, later: seq<TabId>, gone: set<TabId>, at: nat)
    requires at <= |own| && forall id :: id in own ==> id in gone
    ensures Without(before + own + later, gone) == Without(before, gone) + Without(later, gone)
    ensures Without(before + own[..at], gone) == Without(before, gone)
  {
    WithoutAppend(before + own, later, gone);
    WithoutAppend(before, own, gone);
    WithoutAll(own, gone);
    WithoutAppend(before, own[..at], gone);
    WithoutAll(own[..at], gone);
    assert Without(before, gone) + [] == Without(before, gone);
  }

  // Of the closed group nothing is left: the active tab's place, in the list
  // of the tabs left, is as many tabs past the place of its group as tabs
  // were closed before it.
  lemma PlaceAfterRemoval(before: seq<TabId>, own: seq<TabId>, later: seq<TabId>, group: seq<TabId>,
          rest: seq<TabId>, gone: set<TabId>, active: TabId)
    requires Distinct(before + own + later) && active in own && forall id :: id in own ==> id in gone
    requires Without(later, gone) == group + rest && group != []
    ensures active in before + own + later && Without(before + own + later, gone) != []
    ensures var ids := before + own + later;
      var left := Without(ids, gone);
      left[Clamp(IndexOf(ids, active), 0, |left| - 1)] in group
      <==> ClosedBefore(ids, gone, active) < |group| || rest == []
  {
    hide Distinct;
    hide Without;
    var ids, kept := before + own + later, Without(before, gone);
    var at := IndexInTheMiddle(before, own, later, active);
    LeftAroundAClosedPart(before, own, later, gone, at);
    WithoutDistinct(ids, gone);
    WithoutIsShorter(before, gone);
    Associates(kept, group, rest);
    assert Without(ids, gone) == kept + group + rest;
    LandsInTheMiddle(kept, group, rest, IndexOf(ids, active));
  }

  lemma {:induction false} WithoutIsShorter(ids: seq<TabId>, gone: set<TabId>)
    ensures |Without(ids, gone)| <= |ids|
  {
    if ids != [] {
      WithoutIsShorter(ids[1..], gone);
    }
  }

  lemma TabInItsPlaceIs(state: TabsState, gone: set<TabId>, active: TabId, j: nat)
    requires Settled(state) && RootsOk(state.groups) && active in gone
    requires 0 <= FindGroup(state.groups, active) < j < |state.groups|
    requires forall k :: FindGroup(state.groups, active) <= k < j ==> Without(Panes(state.groups[k]), gone) == []
    requires Without(Panes(state.groups[j]), gone) != []
    ensures TabsWithout(state.tabs, gone) != [] && active in TabIds(state.tabs)
    ensures TabInItsPlace(state, gone, active) in Without(Panes(state.groups[j]), gone)
       <==> ClosedBefore(TabIds(state.tabs), gone, active) < |Without(Panes(state.groups[j]), gone)|
            || Without(Order(state.groups[j + 1..]), gone) == []
  {
    hide Without;
    hide ClosedBefore;
    hide TabsWithout;
    hide Order;
    hide Panes;
    hide GroupOk;
    var groups, index := state.groups, FindGroup(state.groups, active);
    assert active in Panes(groups[index]);
    OrderAround(groups, index);
    NextLeftIs(groups, gone, state.groupCount, index + 1, j);
    TabsWithoutIds(state.tabs, gone);
    NothingIsLeft(Panes(groups[index]), gone);
    PlaceInTheList(state.tabs, Order(groups[..index]), Panes(groups[index]), Order(groups[index + 1..]),
      Without(Panes(groups[j]), gone), Without(Order(groups[j + 1..]), gone), gone, active);
  }

  lemma PlaceInTheList(tabs: seq<Tab>, before: seq<TabId>, own: seq<TabId>, later: seq<TabId>, group: seq<TabId>,
          rest: seq<TabId>, gone: set<TabId>, active: TabId)
    requires TabIds(tabs) == before + own + later
    requires Distinct(before + own + later) && active in own && forall id :: id in own ==> id in gone
    requires Without(later, gone) == group + rest && group != []
    ensures active in TabIds(tabs) && TabsWithout(tabs, gone) != []
    ensures var left := TabsWithout(tabs, gone);
      left[Clamp(TabIndex(tabs, active), 0, |left| - 1)].id in group
      <==> ClosedBefore(TabIds(tabs), gone, active) < |group| || rest == []
  {
    hide Distinct;
    hide Without;
    hide ClosedBefore;
    hide TabsWithout;
    hide IndexOf;
    var left := TabsWithout(tabs, gone);
    TabsWithoutIds(tabs, gone);
    PlaceAfterRemoval(before, own, later, group, rest, gone, active);
    assert TabIds(left) == Without(before + own + later, gone);
    assert TabIndex(tabs, active) == IndexOf(before + own + later, active);
  }

  // When the active tab's group is closed whole, the focus goes to the group
  // that moves up into its place if that group's focused pane is left, or no
  // more tabs were closed before the active one than the group keeps, or no
  // later group is left; otherwise it goes to another group.
  lemma FocusMovesUpExactlyWhen(state: TabsState, gone: set<TabId>, active: TabId, j: nat,
          names: seq<Tab> -> seq<string>)
    requires Settled(state) && state.activeTabId == Some(active) && active in gone
    requires FindGroup(state.groups, active) < j < |state.groups|
    requires forall k :: FindGroup(state.groups, active) <= k < j ==> AllIn(Panes(state.groups[k]), gone)
    requires !AllIn(Panes(state.groups[j]), gone)
    ensures active in TabIds(state.tabs)
    ensures RootsOk(state.groups) && RootsOk(ApplyAction(state, Remove(gone, NO_OPTIONS)).groups)
    ensures var after := state.groups[j];
      var focus := TabsReducer(state, Remove(gone, NO_OPTIONS), names).activeTabId;
      (focus.Some? && focus.value in Panes(after))
      <==> || after.activeTabId !in gone
           || ClosedBefore(TabIds(state.tabs), gone, active) < |Without(Panes(after), gone)|
           || AllIn(Order(state.groups[j + 1..]), gone)
  {
    ReadyHasRootsOk(state);
    var groups, index := state.groups, FindGroup(state.groups, active);
    forall k | index <= k < |groups| ensures AllIn(Panes(groups[k]), gone) <==> Without(Panes(groups[k]), gone) == [] {
      NothingIsLeft(Panes(groups[k]), gone);
    }
    NothingIsLeft(Order(groups[j + 1..]), gone);
    TabInItsPlaceIs(state, gone, active, j);
    RemoveFocusesTheNextPane(state, gone, active, names);
    FocusIsInTheNextGroup(state, gone, active, j);
  }

  predicate AllIn(ids: seq<TabId>, gone: set<TabId>) {
    forall id :: id in ids ==> id in gone
  }

  lemma NothingIsLeft(ids: seq<TabId>, gone: set<TabId>)
    ensures AllIn(ids, gone) <==> Without(ids, gone) == []
  {
    WithoutMembers(ids, gone);
    if Without(ids, gone) != [] {
      assert Without(ids, gone)[0] in Without(ids, gone);
    }
  }

  lemma FocusIsInTheNextGroup(state: TabsState, gone: set<TabId>, active: TabId, j: nat)
    requires Settled(state) && RootsOk(state.groups) && TabsWithout(state.tabs, gone) != [] && active in gone
    requires 0 <= FindGroup(state.groups, active) < j < |state.groups|
    requires forall k :: FindGroup(state.groups, active) <= k < j ==> Without(Panes(state.groups[k]), gone) == []
    requires Without(Panes(state.groups[j]), gone) != []
    ensures FocusAfterRemoval(state, gone, active) in Panes(state.groups[j])
       <==> state.groups[j].activeTabId !in gone
            || TabInItsPlace(state, gone, active) in Without(Panes(state.groups[j]), gone)
  {
    hide TabInItsPlace;
    hide FindGroup;
    hide Without;
    hide WithoutTabs;
    hide TabsWithout;
    hide NextLeft;
    hide RemoveTabsFromGroups;
    hide Order;
    var groups, index := state.groups, FindGroup(state.groups, active);
    NextLeftIs(groups, gone, state.groupCount, index + 1, j);
    assert GroupOk(groups[index]) && GroupOk(groups[j]);
    WithoutTabsKeepsTheRest(groups[index], gone);
    NothingLeftInOrder(WithoutTabs(groups[index], gone));
    WithoutMembers(Panes(groups[j]), gone);
    TabInItsPlaceIsLeft(state, gone, active);
  }

  lemma TabInItsPlaceIsLeft(state: TabsState, gone: set<TabId>, active: TabId)
    requires TabsWithout(state.tabs, gone) != []
    ensures TabInItsPlace(state, gone, active) !in gone
  {
    TabsWithoutMembers(state.tabs, gone);
    var left := TabsWithout(state.tabs, gone);
    assert left[Clamp(TabIndex(state.tabs, active), 0, |left| - 1)] in left;
  }

  function ExampleTab(id: TabId, isActive: bool): Tab {
    Tab(id, Terminal, "", isActive, Some(true), Some(0), None, false)
  }

  // Four tabs of the bar, x | q | b beside c | d, with q active and c focused in its group.
  function ExampleState(x: TabId, q: TabId, b: TabId, c: TabId, d: TabId): TabsState {
    TabsState(
      [ExampleTab(x, false), ExampleTab(q, true), ExampleTab(b, false), ExampleTab(c, false), ExampleTab(d, false)],
      Some(q),
      [TabGroup(1, Pane(x), x, None), TabGroup(2, Pane(q), q, None),
       TabGroup(3, Split(Horizontal, [Pane(b), Pane(c)], [0.5, 0.5]), c, None), TabGroup(4, Pane(d), d, None)],
      4)
  }

  lemma ExamplePair(b: TabId, c: TabId)
    ensures var pair := Split(Horizontal, [Pane(b), Pane(c)], [0.5, 0.5]);
      Canonical(pair) && PaneIds(pair) == [b, c]
  {
    var children := [Pane(b), Pane(c)];
    assert children[1..] == [Pane(c)] && [Pane(c)][1..] == [];
    assert [0.5, 0.5][1..] == [0.5] && [0.5][1..] == [];
    assert Sum([0.5]) == 0.5 + Sum([]);
    assert Canonical(Pane(b)) && Canonical(Pane(c)) && AllCanonical(Horizontal, []);
    assert AllCanonical(Horizontal, [Pane(c)]);
    assert AllCanonical(Horizontal, children);
    assert PaneIdsOf([Pane(c)]) == [c] + PaneIdsOf([]);
    assert PaneIdsOf(children) == PaneIds(Pane(b)) + PaneIdsOf([Pane(c)]);
  }

  lemma ExampleIsSettled(x: TabId, q: TabId, b: TabId, c: TabId, d: TabId)
    requires Distinct([x, q, b, c, d])
    ensures Settled(ExampleState(x, q, b, c, d))
  {
    var state := ExampleState(x, q, b, c, d);
    var groups := state.groups;
    ExamplePair(b, c);
    assert TabIds(state.tabs) == [x, q, b, c, d];
    ExampleOrder(x, q, b, c, d);
    assert [x, q, b, c, d][0] == x && [x, q, b, c, d][1] == q;
    ExampleFound(x, q, groups);
  }

  lemma ExampleOrder(x: TabId, q: TabId, b: TabId, c: TabId, d: TabId)
    requires Distinct([x, q, b, c, d])
    ensures Order(ExampleState(x, q, b, c, d).groups) == [x, q, b, c, d]
  {
    var groups := ExampleState(x, q, b, c, d).groups;
    ExamplePair(b, c);
    assert groups[1..] == [groups[1], groups[2], groups[3]] && groups[1..][1..] == [groups[2], groups[3]];
    assert [groups[2], groups[3]][1..] == [groups[3]] && [groups[3]][1..] == [];
    assert Order([groups[3]]) == [d];
    assert Order([groups[2], groups[3]]) == [b, c] + [d];
    assert Order(groups[1..]) == [q] + [b, c, d];
    assert Order(groups) == [x] + [q, b, c, d];
  }

  // Closing x, q and c focuses d, although the group of b moves up into q's place.
  lemma FocusCanMissTheNextGroup(x: TabId, q: TabId, b: TabId, c: TabId, d: TabId, names: seq<Tab> -> seq<string>)
    requires Distinct([x, q, b, c, d])
    ensures var state, action := ExampleState(x, q, b, c, d), Remove({x, q, c}, NO_OPTIONS);
      && Settled(state)
      && RootsOk(state.groups) && RootsOk(ApplyAction(state, action).groups)
      && NextLeft(state.groups[2..], {x, q, c}) == Some(state.groups[2])
      && TabsReducer(state, action, names).activeTabId == Some(d)
      && d !in Panes(state.groups[2])
  {
    var state := ExampleState(x, q, b, c, d);
    ExampleIsSettled(x, q, b, c, d);
    ReadyHasRootsOk(state);
    ExampleLeft(state.tabs, x, q, b, c, d);
    ExampleFocus(x, q, b, c, d);
    ExamplePair(b, c);
    RemoveFocusesTheNextPane(state, {x, q, c}, q, names);
    assert [x, q, b, c, d][4] == d && [x, q, b, c, d][2] == b && [x, q, b, c, d][3] == c;
  }

  lemma ExampleGroupsLeft(q: TabId, b: TabId, c: TabId, gone: set<TabId>, groups: seq<TabGroup>)
    requires q in gone && b !in gone && RootsOk(groups) && |groups| == 4
    requires groups[1] == TabGroup(2, Pane(q), q, None)
    requires groups[2] == TabGroup(3, Split(Horizontal, [Pane(b), Pane(c)], [0.5, 0.5]), c, None)
    ensures WithoutTabs(groups[1], gone) == []
    ensures NextLeft(groups[2..], gone) == Some(groups[2])
  {
    ExamplePair(b, c);
    RemovePanesKeepsTheRest(groups[1].root, gone);
    RemovePanesKeepsTheRest(groups[2].root, gone);
    WithoutMembers([q], gone);
    WithoutMembers([b, c], gone);
    assert Panes(groups[1])[0] == q && HoldsAny(groups[1], gone);
    assert [b, c][0] in [b, c];
    assert groups[2..][0] == groups[2];
  }

  lemma ExampleFocus(x: TabId, q: TabId, b: TabId, c: TabId, d: TabId)
    requires Distinct([x, q, b, c, d]) && RootsOk(ExampleState(x, q, b, c, d).groups)
    requires TabsWithout(ExampleState(x, q, b, c, d).tabs, {x, q, c}) != []
    ensures FindGroup(ExampleState(x, q, b, c, d).groups, q) == 1
    ensures NextLeft(ExampleState(x, q, b, c, d).groups[2..], {x, q, c}) == Some(ExampleState(x, q, b, c, d).groups[2])
    ensures FocusAfterRemoval(ExampleState(x, q, b, c, d), {x, q, c}, q) == d
  {
    var ids, groups := [x, q, b, c, d], ExampleState(x, q, b, c, d).groups;
    assert ids[0] == x && ids[1] == q && ids[2] == b && ids[3] == c && ids[4] == d;
    ExampleFound(x, q, groups);
    ExampleGroupsLeft(q, b, c, {x, q, c}, groups);
    ExampleLeft(ExampleState(x, q, b, c, d).tabs, x, q, b, c, d);
    hide RootsOk;
    hide NextLeft;
    hide WithoutTabs;
    hide FindGroup;
    hide TabsWithout;
  }

  lemma ExampleFound(x: TabId, q: TabId, groups: seq<TabGroup>)
    requires x != q && |groups| == 4 && groups[0].root == Pane(x) && groups[1].root == Pane(q)
    ensures FindGroup(groups, q) == 1
  {
    assert groups[1..][0] == groups[1];
    assert FindGroup(groups[1..], q) == 0;
  }

  lemma ExampleLeft(tabs: seq<Tab>, x: TabId, q: TabId, b: TabId, c: TabId, d: TabId)
    requires Distinct([x, q, b, c, d]) && tabs == ExampleState(x, q, b, c, d).tabs
    ensures TabsWithout(tabs, {x, q, c}) == [tabs[2], tabs[4]]
    ensures TabIndex(tabs, q) == 1
  {
    var ids, gone := [x, q, b, c, d], {x, q, c};
    assert ids[0] == x && ids[1] == q && ids[2] == b && ids[3] == c && ids[4] == d;
    assert TabIds(tabs) == ids && ids[1..][0] == q;
    assert IndexOf(ids[1..], q) == 0;
    ExampleTabsLeft(tabs, gone);
  }

  lemma ExampleTabsLeft(tabs: seq<Tab>, gone: set<TabId>)
    requires |tabs| == 5 && tabs[0].id in gone && tabs[1].id in gone && tabs[2].id !in gone && tabs[3].id in gone
             && tabs[4].id !in gone
    ensures TabsWithout(tabs, gone) == [tabs[2], tabs[4]]
  {
    assert tabs[1..] == [tabs[1], tabs[2], tabs[3], tabs[4]];
    assert tabs[1..][1..] == [tabs[2], tabs[3], tabs[4]];
    assert [tabs[2], tabs[3], tabs[4]][1..] == [tabs[3], tabs[4]] && [tabs[3], tabs[4]][1..] == [tabs[4]]
           && [tabs[4]][1..] == [];
    assert TabsWithout([tabs[4]], gone) == [tabs[4]];
    assert TabsWithout([tabs[3], tabs[4]], gone) == [tabs[4]];
    assert TabsWithout([tabs[2], tabs[3], tabs[4]], gone) == [tabs[2], tabs[4]];
  }
}
