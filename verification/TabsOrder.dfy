// Where the bar lists the tabs an action opens, and those left once tabs are
// closed (src/lib/tabsState.ts).
module TabsOrder {
  import opened Sequences
  import opened PaneTrees
  import opened PaneGeometry
  import opened TabGroups
  import opened PaneMoves
  import opened PaneTemplates
  import opened TabsState
  import opened TabsStateProofs
  import opened TabsStateEffects

  // ----- settling new tabs -----

  // Tabs that no group holds yet are listed after all others, in their order.
  lemma ReconciledAppends(groups: seq<TabGroup>, tabIds: seq<TabId>, groupCount: nat)
    requires RootsOk(groups) && Distinct(Order(groups)) && forall id :: id in Order(groups) ==> id in tabIds
    ensures Order(Reconciled(groups, tabIds, groupCount).groups)
         == Order(groups) + Without(tabIds, ToSet(Order(groups)))
  {
    NothingStale(Order(groups), ToSet(tabIds), {});
    var missing := Without(tabIds, ToSet(Order(groups)));
    SinglesInOrder(missing, groupCount);
    OrderAppend(groups, Singles(missing, groupCount));
  }

  lemma SettleAppends(state: TabsState)
    requires Ready(state) && RootsOk(state.groups) && Distinct(Order(state.groups))
    requires forall id :: id in Order(state.groups) ==> id in TabIds(state.tabs)
    ensures TabIds(Settle(state).tabs) == Order(state.groups) + Without(TabIds(state.tabs), ToSet(Order(state.groups)))
  {
    var ids := TabIds(state.tabs);
    var reconciled := Reconciled(state.groups, ids, state.groupCount);
    ReconciledAppends(state.groups, ids, state.groupCount);
    ReconciledHoldsEachTabOnce(state.groups, ids, state.groupCount);
    SettleSettles(state);
    if state.activeTabId.Some? {
      FocusPaneKeepsPanes(reconciled.groups, reconciled.groupCount, state.activeTabId.value);
    }
  }

  lemma ReducedAppends(state: TabsState, action: TabsAction, names: seq<Tab> -> seq<string>)
    requires Settled(state) && Allowed(state, action)
    requires RootsOk(state.groups) && RootsOk(ApplyAction(state, action).groups)
    requires var applied := ApplyAction(state, action);
      Distinct(Order(applied.groups)) && forall id :: id in Order(applied.groups) ==> id in TabIds(applied.tabs)
    ensures var applied := ApplyAction(state, action);
      TabIds(TabsReducer(state, action, names).tabs)
      == Order(applied.groups) + Without(TabIds(applied.tabs), ToSet(Order(applied.groups)))
    ensures TabsReducer(state, action, names).activeTabId == ApplyAction(state, action).activeTabId
  {
    ApplyActionIsReady(state, action);
    SettleAppends(ApplyAction(state, action));
    SettleSettles(ApplyAction(state, action));
    RetitledKeepsIds(Settle(ApplyAction(state, action)).tabs, names);
  }

  lemma WithoutThoseListed(ids: seq<TabId>, more: seq<TabId>)
    requires Distinct(ids + more)
    ensures Without(ids + more, ToSet(ids)) == more
  {
    DistinctAppend(ids, more);
    WithoutAppend(ids, more, ToSet(ids));
    WithoutAll(ids, ToSet(ids));
    WithoutNothing(more, ToSet(ids));
  }

  // ----- a tab opened, a tab copied -----

  // A new tab is the last of the bar and is active.
  lemma AddedTabIsLast(state: TabsState, tab: Tab, names: seq<Tab> -> seq<string>)
    requires Settled(state) && tab.id !in TabIds(state.tabs)
    ensures RootsOk(state.groups) && RootsOk(ApplyAction(state, Add(tab)).groups)
    ensures var r := TabsReducer(state, Add(tab), names);
      TabIds(r.tabs) == TabIds(state.tabs) + [tab.id] && r.activeTabId == Some(tab.id)
  {
    var added := tab.(isActive := true, hasConnected := Some(true));
    ReducerKeepsSettled(state, Add(tab), names);
    ApplyAddIsReady(state, added);
    AddedOrder(state, added);
    ReducedAppends(state, Add(tab), names);
  }

  lemma AddedOrder(state: TabsState, tab: Tab)
    requires Settled(state) && tab.isActive && tab.id !in TabIds(state.tabs)
    ensures var applied := ApplyAdd(state, tab);
      && Order(applied.groups) == TabIds(state.tabs) && Distinct(TabIds(state.tabs))
      && (forall id :: id in TabIds(state.tabs) ==> id in TabIds(applied.tabs))
      && Without(TabIds(applied.tabs), ToSet(TabIds(state.tabs))) == [tab.id]
  {
    ApplyAddIsReady(state, tab);
    WithoutThoseListed(TabIds(state.tabs), [tab.id]);
  }

  // A page opens as the last tab, unless it is open already, which focuses it.
  lemma OpenedPageIsLastOrFocused(state: TabsState, tab: Tab, names: seq<Tab> -> seq<string>)
    requires Settled(state) && tab.id !in TabIds(state.tabs)
    ensures RootsOk(state.groups) && RootsOk(ApplyAction(state, OpenPage(tab)).groups)
    ensures var r := TabsReducer(state, OpenPage(tab), names);
      if exists t :: t in state.tabs && t.kind == tab.kind
      then
        && TabIds(r.tabs) == TabIds(state.tabs)
        && exists t :: t in state.tabs && t.kind == tab.kind && r.activeTabId == Some(t.id)
      else TabIds(r.tabs) == TabIds(state.tabs) + [tab.id] && r.activeTabId == Some(tab.id)
  {
    var existing := KindIndex(state.tabs, tab.kind);
    ReducerKeepsSettled(state, OpenPage(tab), names);
    KindIndexFinds(state.tabs, tab.kind);
    if existing >= 0 {
      OpenPageFocuses(state, tab, existing);
    } else {
      AddedOrder(state, tab.(isActive := true));
    }
    ReducedAppends(state, OpenPage(tab), names);
  }

  lemma {:induction false} KindIndexIsOfTheKind(tabs: seq<Tab>, kind: TabKind)
    ensures KindIndex(tabs, kind) >= 0 ==> tabs[KindIndex(tabs, kind)].kind == kind
  {
    if tabs != [] {
      KindIndexIsOfTheKind(tabs[1..], kind);
    }
  }

  lemma OpenPageFocuses(state: TabsState, tab: Tab, existing: nat)
    requires Settled(state) && existing < |state.tabs| && existing == KindIndex(state.tabs, tab.kind)
    ensures var applied, t := Activate(state, state.tabs[existing].id), state.tabs[existing];
      && t in state.tabs && t.kind == tab.kind && applied.activeTabId == Some(t.id)
      && Order(applied.groups) == TabIds(state.tabs) == TabIds(applied.tabs) && Distinct(TabIds(state.tabs))
      && Without(TabIds(applied.tabs), ToSet(TabIds(state.tabs))) == []
  {
    var id := state.tabs[existing].id;
    KindIndexIsOfTheKind(state.tabs, tab.kind);
    ActivateKeepsTabs(state, id);
    assert TabIds(state.tabs)[existing] == id;
    WithoutAll(TabIds(state.tabs), ToSet(TabIds(state.tabs)));
  }

  // Whether a copy of the tab is opened.
  predicate OpensCopy(state: TabsState, sourceId: TabId) {
    TabIndex(state.tabs, sourceId) >= 0 && CanCopy(state.tabs[TabIndex(state.tabs, sourceId)])
  }

  // A copy is the last tab, or beside its original in the same tab of the
  // bar, and is active; other tabs keep their order.
  lemma DuplicatedTabOrder(state: TabsState, sourceId: TabId, newId: TabId, split: Option<Direction>,
          names: seq<Tab> -> seq<string>)
    requires Settled(state) && newId !in TabIds(state.tabs)
    ensures RootsOk(state.groups) && RootsOk(ApplyAction(state, Duplicate(sourceId, newId, split)).groups)
    ensures var r := TabsReducer(state, Duplicate(sourceId, newId, split), names);
      if !OpensCopy(state, sourceId) then TabIds(r.tabs) == TabIds(state.tabs) && r.activeTabId == state.activeTabId
      else
        && r.activeTabId == Some(newId)
        && TabIds(r.tabs) == (if split.None? then TabIds(state.tabs) + [newId]
                              else SplicedIds(TabIds(state.tabs), sourceId, [newId], IsBefore(split.value)))
  {
    var action := Duplicate(sourceId, newId, split);
    ReducerKeepsSettled(state, action, names);
    if !OpensCopy(state, sourceId) {
      NothingToAppend(state);
    } else if split.None? {
      UnsplitCopy(state, sourceId, newId);
    } else {
      SplitCopy(state, sourceId, newId, split.value);
    }
    hide ApplyDuplicate;
    hide Settled;
    hide RootsOk;
    ReducedAppends(state, action, names);
  }

  lemma NothingToAppend(state: TabsState)
    requires Settled(state)
    ensures Order(state.groups) == TabIds(state.tabs) && Distinct(TabIds(state.tabs))
    ensures Without(TabIds(state.tabs), ToSet(TabIds(state.tabs))) == []
  {
    WithoutAll(TabIds(state.tabs), ToSet(TabIds(state.tabs)));
  }

  lemma UnsplitCopy(state: TabsState, sourceId: TabId, newId: TabId)
    requires Settled(state) && RootsOk(state.groups) && newId !in TabIds(state.tabs) && OpensCopy(state, sourceId)
    ensures var applied := ApplyDuplicate(state, sourceId, newId, None);
      && applied.activeTabId == Some(newId) && Order(applied.groups) == TabIds(state.tabs)
      && Distinct(TabIds(state.tabs)) && (forall id :: id in TabIds(state.tabs) ==> id in TabIds(applied.tabs))
      && Without(TabIds(applied.tabs), ToSet(TabIds(state.tabs))) == [newId]
  {
    AddedOrder(state, DuplicateTabData(state.tabs[TabIndex(state.tabs, sourceId)], newId, state.tabs));
  }

  lemma SplitCopy(state: TabsState, sourceId: TabId, newId: TabId, direction: Direction)
    requires Settled(state) && RootsOk(state.groups) && newId !in TabIds(state.tabs) && OpensCopy(state, sourceId)
    ensures var applied := ApplyDuplicate(state, sourceId, newId, Some(direction));
      && applied.activeTabId == Some(newId)
      && Order(applied.groups) == SplicedIds(TabIds(state.tabs), sourceId, [newId], IsBefore(direction))
      && Distinct(Order(applied.groups)) && (forall id :: id in Order(applied.groups) ==> id in TabIds(applied.tabs))
      && Without(TabIds(applied.tabs), ToSet(Order(applied.groups))) == []
  {
    var groups, at := state.groups, FindGroup(state.groups, sourceId);
    var ids := TabIds(state.tabs);
    ApplyDuplicateIsReady(state, sourceId, newId, Some(direction));
    assert sourceId in Panes(groups[at]) && groups[at] in groups && GroupOk(groups[at]);
    SplitGroupOrder(groups, at, sourceId, newId, direction);
    SplicedIdsCount(ids, sourceId, [newId], IsBefore(direction));
    var order := SplicedIds(ids, sourceId, [newId], IsBefore(direction));
    assert multiset(ids + [newId]) == multiset(ids) + multiset([newId]);
    SameValues(order, ids + [newId]);
    assert forall id :: id in order <==> id in ToSet(order);
    assert forall id :: id in ids + [newId] <==> id in ToSet(ids + [newId]);
    WithoutAll(ids + [newId], ToSet(order));
  }

  lemma SplitGroupOrder(groups: seq<TabGroup>, at: nat, sourceId: TabId, newId: TabId, direction: Direction)
    requires Distinct(Order(groups)) && at < |groups| && sourceId in Panes(groups[at]) && Canonical(groups[at].root)
    ensures var root := InsertNextTo(groups[at].root, sourceId, Pane(newId), direction);
      Order(groups[at := groups[at].(root := root, zoomedTabId := None)])
      == SplicedIds(Order(groups), sourceId, [newId], IsBefore(direction))
  {
    var root := InsertNextTo(groups[at].root, sourceId, Pane(newId), direction);
    PanesAreInOrder(groups, at);
    InsertNextToSplicesTheOrder(groups[at].root, sourceId, Pane(newId), direction);
    OrderWithBeside(groups, at, groups[at].(root := root, zoomedTabId := None), sourceId, [newId], IsBefore(direction));
  }

  // ----- tabs closed -----

  // Closing tabs leaves the others in their order.
  lemma RemovedTabsOrder(state: TabsState, ids: set<TabId>, options: RemoveOptions, names: seq<Tab> -> seq<string>)
    requires Settled(state)
    ensures RootsOk(state.groups) && RootsOk(ApplyAction(state, Remove(ids, options)).groups)
    ensures TabIds(TabsReducer(state, Remove(ids, options), names).tabs) == Without(TabIds(state.tabs), ids)
  {
    var action := Remove(ids, options);
    ReducerKeepsSettled(state, action, names);
    ApplyRemoveIsReady(state, ids, options);
    RemovedOrder(state, ids, options);
    ReducedOrder(state, action, names);
  }

  lemma RemovedOrder(state: TabsState, ids: set<TabId>, options: RemoveOptions)
    requires Settled(state) && RootsOk(state.groups)
    ensures Order(ApplyRemove(state, ids, options).groups) == Without(TabIds(state.tabs), ids)
  {
    RemoveTabsKeepsTheRest(state.groups, ids, state.groupCount);
  }

  // ----- a tab of the bar laid out as a template -----

  lemma {:induction false} LonePanesOrder(groups: seq<TabGroup>, ids: seq<TabId>)
    requires |groups| == |ids| && forall k :: 0 <= k < |ids| ==> groups[k].root == Pane(ids[k])
    ensures Order(groups) == ids
  {
    if ids != [] {
      LonePanesOrder(groups[1..], ids[1..]);
      assert Panes(groups[0]) == [ids[0]] && ids == [ids[0]] + ids[1..];
    }
  }

  lemma LaysOutOrder(groups: seq<TabGroup>, index: nat, result: seq<TabGroup>, active: TabId, panes: seq<TabId>,
          leftOver: seq<TabId>)
    requires index < |groups| && LaysOut(groups, index, result, active, panes, leftOver)
    ensures Order(result) == Order(groups[..index]) + panes + leftOver + Order(groups[index + 1..])
  {
    var end := index + 1 + |leftOver|;
    var lone := result[index + 1..end];
    OrderAround(result, index);
    LonePanesOrder(lone, leftOver);
    assert result[index + 1..] == lone + result[end..];
    OrderAppend(lone, result[end..]);
    Associates(Order(groups[..index]) + panes, leftOver, Order(groups[index + 1..]));
  }

  // How many panes the template needs besides those it keeps.
  function Opened(existing: seq<TabId>, id: TabId, slots: nat): int {
    slots - |KeptPanes(existing, id, slots)|
  }

  // What stands in the place of the panes of a group that is laid out: those
  // kept, copies for the places left, and those left over.
  function InPlace(existing: seq<TabId>, id: TabId, slots: nat, more: seq<TabId>): seq<TabId>
    requires 0 <= Opened(existing, id, slots) <= |more|
  {
    var kept := KeptPanes(existing, id, slots);
    kept + more[..Opened(existing, id, slots)] + Without(existing, ToSet(kept))
  }

  lemma LaidOutOrder(state: TabsState, id: TabId, shape: LayoutShape, more: seq<TabId>)
    requires Settled(state) && ShapeHasPanes(shape)
    requires ApplyTemplate(state.groups, id, shape, more, state.groupCount).Some?
    ensures FindGroup(state.groups, id) >= 0
    ensures var groups, index := state.groups, FindGroup(state.groups, id);
      var existing, slots := Panes(groups[index]), CountPanes(shape);
      && 0 <= Opened(existing, id, slots) <= |more|
      && Order(ApplyTemplate(groups, id, shape, more, state.groupCount).value.groups)
         == Order(groups[..index]) + InPlace(existing, id, slots, more) + Order(groups[index + 1..])
      && multiset(InPlace(existing, id, slots, more))
         == multiset(existing) + multiset(more[..Opened(existing, id, slots)])
  {
    hide *;
    var groups, index := state.groups, FindGroup(state.groups, id);
    TemplateFindsTheGroup(groups, id, shape, more, state.groupCount);
    SettledIsReady(state);
    ApplyTemplateLosesNoPane(groups, state.groupCount, id, shape, more);
    var existing, slots := Panes(groups[index]), CountPanes(shape);
    var kept := KeptPanes(existing, id, slots);
    InPlaceIs(existing, id, slots, more);
    LaidOutLists(groups, index, ApplyTemplate(groups, id, shape, more, state.groupCount).value.groups, id, kept,
                 more[..slots - |kept|], Without(existing, ToSet(kept)), existing);
  }

  lemma LaidOutLists(groups: seq<TabGroup>, index: nat, result: seq<TabGroup>, active: TabId, kept: seq<TabId>,
          copies: seq<TabId>, leftOver: seq<TabId>, existing: seq<TabId>)
    requires index < |groups| && LaysOut(groups, index, result, active, kept + copies, leftOver)
    requires multiset(kept) + multiset(leftOver) == multiset(existing)
    ensures Order(result) == Order(groups[..index]) + (kept + copies + leftOver) + Order(groups[index + 1..])
    ensures multiset(kept + copies + leftOver) == multiset(existing) + multiset(copies)
  {
    hide LaysOut;
    hide Order;
    LaysOutOrder(groups, index, result, active, kept + copies, leftOver);
    Associates(Order(groups[..index]), kept + copies, leftOver);
  }

  lemma InPlaceIs(existing: seq<TabId>, id: TabId, slots: nat, more: seq<TabId>)
    requires |KeptPanes(existing, id, slots)| <= slots <= |KeptPanes(existing, id, slots)| + |more|
    ensures var kept := KeptPanes(existing, id, slots);
      && Opened(existing, id, slots) == slots - |kept|
      && InPlace(existing, id, slots, more)
         == kept + more[..slots - |kept|] + Without(existing, ToSet(kept))
  {
    hide KeptPanes;
    hide Without;
  }

  lemma TemplateFindsTheGroup(groups: seq<TabGroup>, id: TabId, shape: LayoutShape, more: seq<TabId>, groupCount: nat)
    requires ApplyTemplate(groups, id, shape, more, groupCount).Some?
    ensures FindGroup(groups, id) >= 0
  {
  }

  // The tabs listed after the template was laid out, and those still to be.
  lemma LaidOutAndLeft(before: seq<TabId>, own: seq<TabId>, after: seq<TabId>, laid: seq<TabId>, some: seq<TabId>,
          rest: seq<TabId>)
    requires Distinct(before + own + after + (some + rest)) && multiset(laid) == multiset(own) + multiset(some)
    ensures Distinct(before + laid + after)
    ensures forall id :: id in before + laid + after ==> id in before + own + after + (some + rest)
    ensures Without(before + own + after + (some + rest), ToSet(before + laid + after)) == rest
  {
    var ids, order := before + own + after, before + laid + after;
    assert ids + (some + rest) == (ids + some) + rest;
    DistinctAppend(ids + some, rest);
    assert multiset(order) == multiset(ids + some);
    SameValues(order, ids + some);
    assert ToSet(order) == ToSet(ids + some);
    WithoutThoseListed(ids + some, rest);
    forall id | id in order ensures id in ids + (some + rest) {
      assert id in ToSet(ids + some);
    }
  }

  lemma TemplateApplied(state: TabsState, id: TabId, shape: LayoutShape, newIds: seq<TabId>, more: seq<TabId>)
    requires Settled(state) && ShapeHasPanes(shape) && id in TabIds(state.tabs)
    requires more == if CanCopy(state.tabs[TabIndex(state.tabs, id)]) then newIds else []
    ensures var template := ApplyTemplate(state.groups, id, shape, more, state.groupCount);
      var applied := ApplyUseTemplate(state, id, shape, newIds);
      if template.None? then applied == state
      else
        && applied.groups == template.value.groups && applied.activeTabId == Some(id)
        && TabIds(applied.tabs) == TabIds(state.tabs) + more
  {
    hide ApplyTemplate;
    hide Settled;
    var template := ApplyTemplate(state.groups, id, shape, more, state.groupCount);
    if template.Some? {
      var copies := Copies(state.tabs[TabIndex(state.tabs, id)], more, state.tabs);
      TabIdsAppend(state.tabs, copies);
      var laidOut := TabsState(state.tabs + copies, state.activeTabId, template.value.groups,
                               template.value.groupCount);
      ActivateKeepsTabs(laidOut, id);
    }
  }

  // A template that fits the tab of the bar changes no other's place: its
  // panes come in the order above, and copies there is no place for come
  // last. One that does not fit changes nothing.
  lemma TemplateOrder(state: TabsState, id: TabId, shape: LayoutShape, newIds: seq<TabId>, more: seq<TabId>,
          names: seq<Tab> -> seq<string>)
    requires Settled(state) && Allowed(state, UseTemplate(id, shape, newIds)) && id in TabIds(state.tabs)
    requires more == if CanCopy(state.tabs[TabIndex(state.tabs, id)]) then newIds else []
    ensures RootsOk(state.groups) && RootsOk(ApplyAction(state, UseTemplate(id, shape, newIds)).groups)
    ensures FindGroup(state.groups, id) >= 0
    ensures var r, groups, index := TabsReducer(state, UseTemplate(id, shape, newIds), names), state.groups,
                                    FindGroup(state.groups, id);
      var existing, slots := Panes(groups[index]), CountPanes(shape);
      if !TemplateFits(state, id, shape, more)
          then TabIds(r.tabs) == TabIds(state.tabs) && r.activeTabId == state.activeTabId
      else
        && 0 <= Opened(existing, id, slots) <= |more|
        && TabIds(r.tabs) == Order(groups[..index]) + InPlace(existing, id, slots, more) + Order(groups[index + 1..])
                             + more[Opened(existing, id, slots)..]
        && r.activeTabId == Some(id)
  {
    hide Order;
    hide InPlace;
    hide Opened;
    hide CountPanes;
    hide Without;
    hide Distinct;
    hide Settle;
    hide Retitled;
    hide ApplyTemplate;
    var action := UseTemplate(id, shape, newIds);
    ReducerKeepsSettled(state, action, names);
    SettledPanes(state, id);
    TemplateAppliesWhenItFits(state, id, shape, more);
    TemplateApplied(state, id, shape, newIds, more);
    if TemplateFits(state, id, shape, more) {
      TemplateLists(state, id, shape, newIds, more);
    } else {
      NothingToAppend(state);
    }
    hide ApplyUseTemplate;
    hide TemplateFits;
    hide Settled;
    hide RootsOk;
    ReducedAppends(state, action, names);
  }

  lemma TemplateLists(state: TabsState, id: TabId, shape: LayoutShape, newIds: seq<TabId>, more: seq<TabId>)
    requires Settled(state) && Allowed(state, UseTemplate(id, shape, newIds)) && id in TabIds(state.tabs)
    requires more == if CanCopy(state.tabs[TabIndex(state.tabs, id)]) then newIds else []
    requires ApplyTemplate(state.groups, id, shape, more, state.groupCount).Some? && FindGroup(state.groups, id) >= 0
    ensures var applied, groups, index := ApplyUseTemplate(state, id, shape, newIds), state.groups,
                                          FindGroup(state.groups, id);
      var existing, slots := Panes(groups[index]), CountPanes(shape);
      && 0 <= Opened(existing, id, slots) <= |more|
      && Order(applied.groups)
         == Order(groups[..index]) + InPlace(existing, id, slots, more) + Order(groups[index + 1..])
      && Distinct(Order(applied.groups)) && (forall tab :: tab in Order(applied.groups) ==> tab in TabIds(applied.tabs))
      && Without(TabIds(applied.tabs), ToSet(Order(applied.groups))) == more[Opened(existing, id, slots)..]
  {
    hide *;
    MoreIsNew(state, id, shape, newIds, more);
    var groups, index := state.groups, FindGroup(state.groups, id);
    var existing, slots := Panes(groups[index]), CountPanes(shape);
    TemplateApplied(state, id, shape, newIds, more);
    LaidOutOrder(state, id, shape, more);
    OrderAround(groups, index);
    var n := Opened(existing, id, slots);
    assert more[..n] + more[n..] == more;
    LaidOutAndLeft(Order(groups[..index]), existing, Order(groups[index + 1..]), InPlace(existing, id, slots, more),
                   more[..n], more[n..]);
  }

  lemma MoreIsNew(state: TabsState, id: TabId, shape: LayoutShape, newIds: seq<TabId>, more: seq<TabId>)
    requires Settled(state) && Allowed(state, UseTemplate(id, shape, newIds)) && (more == newIds || more == [])
    ensures ShapeHasPanes(shape) && Order(state.groups) == TabIds(state.tabs) && Distinct(TabIds(state.tabs) + more)
  {
    DistinctAppend(TabIds(state.tabs), more);
  }
}
