# A verified model of the tTerm workspace

tTerm keeps its terminals in *tabs*. A tab of the bar is a *group*: a tree of splits whose leaves are panes,
one pane a terminal. Around that core sit several small protocols: guessing the echo of keys typed over a
slow link, telling which terminal a coding agent's session belongs to, running several lines one at a time,
following what is typed to know the command, splitting text into shell commands, filing saved profiles in
groups, replaying a recording and quoting dropped paths. This project models those parts in Dafny and proves
what they are for.

A component that the source writes as expressions is a module of functions with lemmas about them. Where the
source updates things step by step (a loop, an object with fields), a method or a class does the same steps
and is proved equal to such a function, so the lemmas hold of it.

`dafny verify dfyconfig.toml` checks everything.

| files | what they hold |
|---|---|
| `PaneTrees`, `PaneGeometry`, `PaneShares` | split trees: normalising, inserting beside, removing, resizing, the exact rectangles that result, and how freed room is shared |
| `TabGroups`, `PaneMoves`, `PanePlaces` | the groups of the bar: reconciling, focus, zoom, moving panes and groups, and where every pane is then |
| `PaneTemplates`, `SavedValues`, `TabGroupsPersistence`, `SavedLayouts` | laying a group out again, saving and restoring, and what comes of any saved layout |
| `TabTitles`, `TabsState`, `TabsStateProofs`, `TabsStateEffects`, `TabsActions`, `TabsGroups`, `TabsOrder`, `TabsFocus` | the reducer over 17 actions, the invariant it keeps, what each action makes of the tabs and of the groups, where the bar lists the tabs, and which pane is focused after a removal |
| `PaneLayout`, `PaneDividers`, `PanePixels`, `PaneFitting`, `PaneNavigation` | whole pixels: tiling, dividers, nearness to the exact rectangles, the least room for all panes, moving the focus |
| `PredictiveEcho`, `EchoPredictors`, `EchoProofs`, `EchoSteps`, `EchoExactness`, `EchoMasking` | predicted echo: the state machine, the object, safety over all runs, each step by keys, screen and clock, exactness over faithful runs, rows taken for masked |
| `AgentStatus`, `AgentHub`, `AgentNotices` | one agent tracker, all of them sharing one map of owners, and what each step shows and announces |
| `ProfileGroups`, `ProfileGroupsProofs`, `GroupTrees`, `GroupRoots`, `GroupFiling` | a forest from parent references that may be missing or go round in loops, and exactly which groups are its roots |
| `ComposerRun`, `ComposerRuns`, `ComposerSteps` | running lines one at a time, in every tab, and what each prompt and decision does |
| `CommandCapture`, `CaptureLaws`, `LogReplay`, `DroppedPaths` | the text and byte transformations |
| `ShellCommands`, `ShellLines`, `ShellScripts` | the scanner that splits text into shell commands, what it makes of each construct of a line, and scripts that split as they were written |
| `Sequences`, `JavaScriptText` | lists and strings as the source uses them |

Where the code and its own comments disagree, the model follows the code:

- `getFallbackTabId` (`src/lib/tabGroups.ts:201-222`) is meant to focus the group that takes the place of a closed one. It
  returns the focused pane that group had *before* closing, which may have been closed too; the focus can then land
  in another group. `FocusCanMissTheNextGroup` shows an input. `FocusMovesUpExactlyWhen` says when the group gets it:
  its focused pane was not closed, or fewer tabs before the active one were closed than the group keeps, or no
  later group is left.
- `splitShellCommands` (`src/lib/shellCommands.ts:22-23`) says that a case pattern's lone `)` closes no parenthesis. Inside
  open parentheses it closes one. A command then still splits as it was written unless it is a subshell that loses its
  own parenthesis that way: `CommandIsWholeExactlyWhen` says, for scripts of a grammar nested in any way, that it is
  whole if and only if, along its subshells with no block around them, a parenthesis is open after each inner script
  (`KeepsIn`). `LoneParenthesisEndsTheOther` is a smallest command that does not.
- The same scanner (`src/lib/shellCommands.ts:75-79`) knows no arithmetic: the shift in `echo $((1 << 2))` starts a
  here-document, and the command takes in the lines after it up to one that is `2` (`ShiftTakesTheLinesAfterIt`).
- The predictor (`src/lib/predictiveEcho.ts:79-84`) is said to show nothing on a masked row until the line is ended. It remembers one
  such row only. `MaskedRowIsForgottenExactlyWhen` says that ending the line or masking another row forgets it, and nothing
  else does; `OnlyOneRowIsRemembered` is a run in which a guess is then shown on the first row.

`buildGroupTree` (`src/lib/profileGroups.ts:41-45`) does put the group with the smallest id in each loop at the top
(`LeastOfALoopIsAtTop`). What its comment does not say is that a group which only hangs off a loop is put there too
when its id is smaller than those above it; `RootsAre` says exactly which groups are roots, and `TailCanBeCut` is a
smallest case.

## Model

| member | source | states |
|---|---|---|
| PaneTrees.ScaleToOneGivesShares | src/lib/tabGroups.ts:45-50 | sizes scaled are non-negative shares of one, whatever they were |
| PaneShares.ScaleToOneIsInProportion | src/lib/tabGroups.ts:46-50 | the shares are to one another as the sizes were, a negative size counting as none, and equal where no size is positive |
| PaneTrees.NormalizePaneTree | src/lib/tabGroups.ts:57-76 | the loop that collects children and sizes gives the normalised tree |
| PaneTrees.NormalizedIsCanonical | src/lib/tabGroups.ts:52-76 | a normalised tree has at least two children a split, none of its own orientation, sizes that are shares, and the same panes in the same order |
| PaneTrees.NormalizedTwice | src/lib/tabGroups.ts:57-76 | normalising twice changes nothing more |
| PaneGeometry.NormalizedKeepsPlaces | src/lib/tabGroups.ts:52-76 | every pane keeps exactly the rectangle it had |
| PaneGeometry.InsertNextToHalvesTheTarget | src/lib/tabGroups.ts:78-123 | the target's rectangle is cut in two equal halves on the asked side, the inserted tree is laid out in its half, and no other pane moves |
| PaneGeometry.InsertNextToSplicesTheOrder | src/lib/tabGroups.ts:78-123 | the pane order is the old one with the inserted panes next to the target; the tree is canonical |
| PaneTrees.RemoveFromTree | src/lib/tabGroups.ts:125-139 | the source's pushing of what is left of each child gives the tree with the panes removed |
| PaneTrees.RemovePanesKeepsTheRest | src/lib/tabGroups.ts:125-145 | exactly the other panes are left, in order, in a canonical tree; none is left exactly when all go |
| PaneGeometry.RemovePanesGrowsTheRest | src/lib/tabGroups.ts:125-145 | no pane that is left gets smaller in either direction |
| PaneShares.RemovedRoomIsShared | src/lib/tabGroups.ts:125-145 | the children of which something is left share the whole in the proportion of their old sizes, or evenly where those were all 0, and what is left of each is laid out in its part of any box |
| PanePlaces.RemoveTabsTrims | src/lib/tabGroups.ts:174-198 | the groups that keep a pane stay in their order, each without the panes gone; its active and zoomed panes stay if they are left, and else the nearest pane is active and nothing is zoomed |
| PaneTrees.ResizeSplitKeepsPanes | src/lib/tabGroups.ts:147-159 | resizing keeps the panes, their order and a canonical tree |
| PaneGeometry.ResizeSplitIsLocal | src/lib/tabGroups.ts:147-159 | only panes inside the split at the path move, and they share its rectangle by the new sizes |
| TabGroups.FindNearestPane | src/lib/tabGroups.ts:161-172 | the source's outward search finds the nearest pane as specified |
| TabGroups.NearestPaneIsNearest | src/lib/tabGroups.ts:161-172 | no pane left is closer to the one that went, and of two as close the later one is taken |
| TabGroups.RemoveTabsKeepsTheRest | src/lib/tabGroups.ts:174-198 | the groups stay in shape and exactly the other panes are left, in bar order |
| TabGroups.ReconcileGroups | src/lib/tabGroups.ts:224-254 | the loops over stale, repeated and missing ids give the reconciled groups |
| TabGroups.CollectStale | src/lib/tabGroups.ts:231-240 | the loop that notes ids seen finds exactly the panes to drop |
| TabGroups.ReconciledHoldsEachTabOnce | src/lib/tabGroups.ts:224-254 | whatever panes the groups held, each tab then has exactly one pane and no other pane is left |
| TabGroups.ReconciledKeepsMatching | src/lib/tabGroups.ts:224-254 | groups that match the tabs already are left alone |
| TabGroups.FocusPaneKeepsPanes | src/lib/tabGroups.ts:256-268 | focusing keeps every pane in place, puts the focused one in sight, and focusing again changes nothing |
| TabGroups.ToggleZoomShows | src/lib/tabGroups.ts:352-364 | one toggle shows the pane alone, or its whole group when it was zoomed or has no other pane, and touches no other group; two only focus it, whatever was focused or zoomed |
| TabGroups.MoveGroupMovesOne | src/lib/tabGroups.ts:366-381 | the group moved is at its new place and the others keep their order |
| PaneMoves.PlacePaneMovesOnePane | src/lib/tabGroups.ts:270-289 | one pane moves next to the target; no other pane changes places or is lost |
| PanePlaces.PlacePanePlaces | src/lib/tabGroups.ts:270-289 | in any box, the target's group is laid out as without the moved pane but for the target, which shares its room with that pane on the side asked for; the pane is active, nothing there is zoomed, the group it left goes on without it, and every other group is the same |
| PaneMoves.MergeGroupMovesOneGroup | src/lib/tabGroups.ts:291-313 | a whole group moves beside the target with its panes in order; none is lost |
| PanePlaces.MergeGroupPlaces | src/lib/tabGroups.ts:291-313 | in any box, the target shares its room with the whole merged tree on the side asked for; that group's active pane is active, nothing there is zoomed, and every other group is the same |
| PanePlaces.HalvesLie | src/lib/tabGroups.ts:78-94 | to the right or left of another a pane has half its width beside it, above or below half its height, in coordinates |
| PaneMoves.BreakOutPaneKeepsPanes | src/lib/tabGroups.ts:315-333 | breaking a pane out loses none and keeps the groups in shape |
| PaneMoves.BreakOutPaneLands | src/lib/tabGroups.ts:315-333 | the pane gets a group of its own right after the one it leaves, or at the index asked for within the bar; the group it leaves keeps the others and, if another was, its active pane; no other group changes |
| PanePlaces.BreakOutPanePlaces | src/lib/tabGroups.ts:315-333 | the group left is trimmed of that pane as by a removal, and the pane has a group of its own where it is put |
| PaneMoves.BreakOutPaneAddsOneGroup | src/lib/tabGroups.ts:315-333 | the only new group id is the one given |
| PaneMoves.UngroupPanesKeepsOrder | src/lib/tabGroups.ts:335-350 | ungrouping changes no pane's place in the order |
| PaneMoves.UngroupPanesSplitsTheGroup | src/lib/tabGroups.ts:335-350 | each pane has a group of its own in the group's place, the active one under the group's id, the others under new ones |
| PaneTemplates.FillShapeInOrder | src/lib/paneTemplates.ts:102-115 | the counter that walks the ids fills the shape as specified |
| PaneTemplates.Fill | src/lib/paneTemplates.ts:103-114 | each part of the shape takes its ids from where the counter stands |
| PaneTemplates.FillShapeUsesTheIdsInOrder | src/lib/paneTemplates.ts:84-115 | the filled tree is canonical and holds the first ids in order |
| PaneTemplates.FillShapeOfTree | src/lib/paneTemplates.ts:84-115 | a canonical tree comes back from its shape and its panes |
| PaneTemplates.KeptPanesAre | src/lib/paneTemplates.ts:181-188 | the panes kept are the first ones, or one fewer of them and then the active one |
| PaneTemplates.ApplyTemplateLosesNoPane | src/lib/paneTemplates.ts:165-203 | the kept panes and then the new ids fill the shape, the rest become single groups right after it, other groups are untouched and no pane is lost |
| PaneTemplates.AcceptedTemplatesAreStable | src/lib/paneTemplates.ts:117-145 | a template that is accepted is sound, within the limits, and reads back as itself |
| SavedLayouts.ShapeIsRead | src/lib/paneTemplates.ts:117-138 | a split of a template is read exactly when at most three are above it and it has an orientation and two children or more that are all read; its sizes become shares in the proportion of the usable ones |
| PaneTemplates.SavedLayoutComesBack | src/lib/paneTemplates.ts:92-145 | a tab's layout saved as a template is accepted exactly when it is split and within the limits, and then lays its panes out as they were |
| TabGroupsPersistence.RestoreGroups | src/lib/tabGroupsPersistence.ts:147-170 | the loop that grows the set of tabs seen gives the restored groups |
| TabGroupsPersistence.RestoredGroupsAreOk | src/lib/tabGroupsPersistence.ts:143-175 | any saved layout at all restores to canonical trees whose active and zoomed panes are theirs |
| SavedLayouts.SplitIsRead | src/lib/tabGroupsPersistence.ts:54-73 | a saved split is read exactly when it has an orientation, a list of sizes and children that are all read; a size that is missing or not positive is 0 |
| SavedLayouts.CurrentLayoutComesBack | src/lib/tabGroupsPersistence.ts:147-170 | exactly the known tabs a layout lists come back, group by group, each with the panes no earlier one has, its active and zoomed pane if they are left, and its places |
| SavedLayouts.DockviewIsRead | src/lib/tabGroupsPersistence.ts:91-139 | the split of an old grid holds the front of each stack, alternating from the grid's orientation with the sizes saved; the front of the active group is active, every other tab has a group of its own |
| TabGroupsPersistence.DockviewReader.Visit | src/lib/tabGroupsPersistence.ts:99-130 | the visit that pushes tabs behind and notes fronts gives the grid's split, tabs behind and fronts |
| TabGroupsPersistence.DockviewLosesNoTab | src/lib/tabGroupsPersistence.ts:89-140 | the tabs of an old grid come out once each, in the split or in groups of their own |
| TabGroupsPersistence.ReadOfSaved | src/lib/tabGroupsPersistence.ts:28-73 | a canonical tree saved reads back as itself |
| TabGroupsPersistence.RestoreOfSerialized | src/lib/tabGroupsPersistence.ts:28-175 | restoring what was saved gives exactly the trees, active panes and zooms of the saved tabs |
| TabGroupsPersistence.SavedGroupsWhole | src/lib/tabGroupsPersistence.ts:28-48 | with every tab saved, the groups saved are all of them as they were |
| SavedLayouts.SavedGroupHolds | src/lib/tabGroupsPersistence.ts:27-48 | a group is saved with the panes of its saved tabs, or not at all; its active and zoomed pane are saved if their tabs are, and else the first is active |
| TabTitles.GetDuplicateTabTitle | src/lib/tabsState.ts:118-126 | the search for a free title ends, with one that no tab has |
| TabTitles.DuplicateTitleIsFree | src/lib/tabsState.ts:118-126 | every smaller number is taken |
| TabsState.PushCopies | src/lib/tabsState.ts:164-191 | the loop that pushes copies for a template gives the copies |
| TabsState.CopiesHaveFreshTitles | src/lib/tabsState.ts:133-191 | copies get titles no other tab has, nor any other copy |
| TabsStateProofs.SettleSettles | src/lib/tabsState.ts:370-396 | settling puts any groups in step with any tabs: each tab in one pane of one group, listed in bar order, the active one marked, focused and in sight |
| TabsStateProofs.SettleKeepsSettled | src/lib/tabsState.ts:370-396 | a settled workspace is left exactly as it is |
| TabsStateProofs.ReducerKeepsSettled | src/lib/tabsState.ts:209-405 | each of the 17 actions, restoring any layout included, keeps the workspace settled |
| TabsStateProofs.ReachableIsSettled | src/lib/tabsState.ts:398-405 | so does every sequence of actions from an empty workspace |
| TabsStateProofs.ReachableHasActive | src/lib/tabsState.ts:398-405 | when restored sessions name their active tab, as those saved do, a tab is active exactly when there is a tab, after any actions |
| TabsStateEffects.ReducerKeepsTabs | src/lib/tabsState.ts:209-405 | exactly the tabs an action is meant to add or remove come or go |
| TabsActions.SetActiveFocuses | src/lib/tabsState.ts:277-278 | the tab chosen is active, exactly it is marked and counts as connected, its pane is focused in its group, and nothing else changes but automatic titles |
| TabsActions.SetActiveOfNone | src/lib/tabsState.ts:193-207 | choosing a tab that is not there changes nothing |
| TabsActions.ZoomShows | src/lib/tabsState.ts:351-355 | zooming shows the pane alone, or its whole group when it was zoomed or is alone there, makes it active and changes no other group |
| TabsActions.ResizeTouchesOneGroup | src/lib/tabsState.ts:356-364 | a drag changes the tree of that group only, neither tabs nor focus |
| TabsActions.ResizeSharesTheSplit | src/lib/tabsState.ts:356-364 | in any box, the split at the path shares its room by the new sizes and the panes around it stay; a path that leads nowhere changes nothing |
| TabsActions.RenameRenames | src/lib/tabsState.ts:307-315 | exactly the tab named gets the title, which is then its own; no other tab and no group changes |
| TabsActions.RenamePageRenames | src/lib/tabsState.ts:252-262 | exactly the pages of that kind get the title |
| TabsActions.UpdateUpdates | src/lib/tabsState.ts:316-326 | exactly the tab named becomes what the updater makes of it, with what is missing filled in and the active mark left where it is |
| TabsActions.OtherTabsAreCarriedOver | src/lib/tabsState.ts:209-368 | after any other action but a restored session, a tab that was there is as it was but for the active mark, and a new one reads as its action says: copies count on their title and their session's number |
| TabsActions.RestoreReads | src/lib/tabsState.ts:211-228 | exactly the saved tabs come back, each as saved, connected only if active or without a session |
| TabsStateEffects.PlaceBesideMovesOneTab | src/lib/tabsState.ts:327-331 | the tab placed is listed next to the target and is active; no other tab moves |
| TabsGroups.PlaceBesidePlaces | src/lib/tabsState.ts:327-331 | where every pane is after a tab is placed beside another: as PlacePanePlaces, with the tab active |
| TabsGroups.PlacedNowhere | src/lib/tabsState.ts:327-331 | placed beside itself or beside a tab that is not there, a tab is only made active |
| TabsStateEffects.MergeMovesOneGroup | src/lib/tabsState.ts:332-338 | the tabs merged are listed next to the target in their order; no other tab moves |
| TabsGroups.MergePlaces | src/lib/tabsState.ts:332-338 | where every pane is after a merge: as MergeGroupPlaces, with the merged group's pane active |
| TabsGroups.MergedNowhere | src/lib/tabsState.ts:332-338 | merging what is in one tab of the bar already, or is not there, changes nothing |
| TabsStateEffects.BreakOutMovesOneTab | src/lib/tabsState.ts:339-345 | the tab broken out is listed where its new group is put and is active; no other tab moves, and a lone pane stays where it is |
| TabsGroups.BreakOutPlaces | src/lib/tabsState.ts:339-345 | the tab broken out has a group of its own under the next id, the group it left is trimmed of it, every other is the same |
| TabsGroups.UngroupPlaces | src/lib/tabsState.ts:346-350 | ungrouping puts a group for each pane in the group's place and changes neither tabs nor focus |
| TabsStateEffects.MoveMovesOneGroup | src/lib/tabsState.ts:279-280 | the tabs of the group moved are listed at its new place, the others keep their order, and the focus stays |
| TabsGroups.MovePlaces | src/lib/tabsState.ts:279-280 | the group moved is the same at its new place, and so is every other |
| TabsOrder.AddedTabIsLast | src/lib/tabsState.ts:229-237 | a tab opened is the last one and is active |
| TabsOrder.OpenedPageIsLastOrFocused | src/lib/tabsState.ts:238-251 | so is a page, unless one of its kind is open, which becomes active instead |
| TabsGroups.OpenedAlone | src/lib/tabsState.ts:229-251 | a tab, a page or a copy without a split opens in a group of its own under the next id, after all others, which are the same |
| TabsOrder.DuplicatedTabOrder | src/lib/tabsState.ts:281-306 | a copy is last, or on the asked side of its original, and is active; what cannot be copied changes nothing |
| TabsGroups.DuplicatePlaces | src/lib/tabsState.ts:281-306 | in any box, a copy shares the room of its original on the side asked for, is active, and ends any zoom there; every other group is the same |
| TabsOrder.RemovedTabsOrder | src/lib/tabsState.ts:263-276 | the tabs left over a removal keep their order |
| TabsGroups.RemovePlaces | src/lib/tabsState.ts:263-276 | the groups that keep a pane are trimmed of those closed, and then only the active pane is focused |
| TabsOrder.TemplateOrder | src/lib/tabsState.ts:164-190 | a template lists, in the place of the tab of the bar, the panes it keeps, the copies it needs and the panes left over, and copies it has no place for last; one that does not fit changes nothing |
| TabsGroups.TemplatePlaces | src/lib/tabsState.ts:164-190 | in any box, a template lays the kept panes and the copies out as a tree of its very shape; panes left over follow in groups of their own, copies left over come last, every other group is the same |
| TabsStateEffects.OtherActionsKeepTheOrder | src/lib/tabsState.ts:252-364 | renaming, updating, activating, ungrouping, zooming and resizing reorder nothing |
| TabsStateEffects.GroupIdsAreNeverReused | src/lib/tabsState.ts:209-405 | a group after an action has an id it had or one past all handed out so far |
| TabsStateEffects.RestoredSession | src/lib/tabsState.ts:211-228 | restoring a session that saved some tabs gives the saved trees under new ids, in the old order |
| TabsStateEffects.RestoredWholeSession | src/lib/tabsState.ts:211-228 | restoring a session that saved every tab gives back the same workspace |
| TabsFocus.RemoveFocusesTheNextPane | src/lib/tabsState.ts:63-98 | which pane is focused after closing tabs, in all cases |
| TabsFocus.FocusMovesUpExactlyWhen | src/lib/tabGroups.ts:201-222 | the next group left gets the focus exactly when its focused pane is left, or fewer tabs were closed before the active one than it keeps, or no later group is left |
| TabsFocus.FocusCanMissTheNextGroup | src/lib/tabGroups.ts:201-222 | a workspace and a removal after which another group gets it |
| PaneLayout.LayoutBuilder.Visit | src/lib/paneLayout.ts:41-79 | filling the map and the list of dividers in place gives the specified layout |
| PaneLayout.LayoutPaneTree | src/lib/paneLayout.ts:37-79 | so does the whole layout |
| PaneLayout.LayoutTiles | src/lib/paneLayout.ts:37-79 | every pixel of the box is in exactly one pane or divider, none outside is in any, and the areas add up |
| PanePixels.PanesAreApart | src/lib/paneLayout.ts:37-79 | no pixel belongs to two panes |
| PaneDividers.DividersAre | src/lib/paneLayout.ts:37-79 | there is exactly one divider for each child of each split but the last, from where that child ends to where the next one starts, told its split's path, its orientation and the room its sizes are shares of |
| PaneDividers.PanesAreAt | src/lib/paneLayout.ts:37-79 | each pane has the area its path leads to |
| PanePixels.PanesAreWithin | src/lib/paneLayout.ts:37-79 | every pane lies inside the box |
| PanePixels.LayoutMapHoldsEachPane | src/lib/paneLayout.ts:41-79 | the returned map gives each pane of the tree its own box |
| PanePixels.LayoutIsNearPlace | src/lib/paneLayout.ts:37-79 | with any gap, rounding moves no edge by more than half a pixel a level of nesting from the same layout without rounding |
| PanePixels.UnspacedIsPlace | src/lib/paneLayout.ts:37-79 | which is, without gaps, the rectangles the tree means |
| PaneLayout.MinimumExtentIsNeeded | src/lib/paneLayout.ts:81-95 | a box smaller than the least extent leaves some pane under its minimum |
| PaneFitting.FitsExactlyWhen | src/lib/paneLayout.ts:81-95 | some sizes that are shares give every pane of the tree its minimum if and only if the box has the least extent in both directions |
| PaneLayout.DragSashSharesRoom | src/lib/paneLayout.ts:97-119 | a drag moves room between two children only, and brings neither under its minimum |
| PaneLayout.DragSashFollows | src/lib/paneLayout.ts:97-119 | the divider goes where the drag asks, and stops where a child is down to its minimum, or to what it has if that is less |
| PaneLayout.GetSplitAt | src/lib/paneLayout.ts:121-131 | the loop along the path finds the split there, if there is one |
| PaneNavigation.FoundPaneIsBest | src/lib/paneNavigation.ts:73-103 | the pane found is on that side, among the nearest, and shares most of the edge, or was used last of those that do; none is found only when none is there |
| PaneNavigation.CandidatesAre | src/lib/paneNavigation.ts:49-92 | which panes count as on a side: those shown that start at most two pixels before the active one ends there and meet it along that edge |
| PaneNavigation.SharedEdgeIs | src/lib/paneNavigation.ts:60-65 | the length two panes share is that of the rows, or columns, both have |
| PaneNavigation.NavigationStopsAtTheEdge | src/lib/paneNavigation.ts:50-103 | on any layout of ample panes, a pane is found exactly when the active one is not at that edge of the box |
| EchoPredictors.EchoPredictor.Type | src/lib/predictiveEcho.ts:136-152 | typing updates the fields as the state machine says, key by key |
| EchoPredictors.EchoPredictor.NextCol | src/lib/predictiveEcho.ts:298-311 | where the next key lands, starting over on another row |
| EchoPredictors.EchoPredictor.Insert | src/lib/predictiveEcho.ts:272-282 | a character is guessed only at the end of the text and before the last column |
| EchoPredictors.EchoPredictor.Erase | src/lib/predictiveEcho.ts:284-296 | a backspace is guessed only right of where typing started |
| EchoSteps.KeysGuessedExactlyWhen | src/lib/predictiveEcho.ts:272-318 | a character is guessed exactly where the row goes on blank or as typed with room for the cursor after it, a backspace exactly right of where typing started; what the guess is and where typing starts over |
| EchoSteps.TypeAddsOrDrops | src/lib/predictiveEcho.ts:136-152 | typing guesses every key or drops all guesses, which any key but backspaces and printable ones does; ending the line forgets a masked row |
| EchoPredictors.EchoPredictor.ValueAt | src/lib/predictiveEcho.ts:313-318 | the search from the last guess back finds what a column will hold |
| EchoPredictors.EchoPredictor.EchoedBefore | src/lib/predictiveEcho.ts:258-270 | the countdown finds the most guesses the line shows before the cursor |
| EchoPredictors.EchoPredictor.Reset | src/lib/predictiveEcho.ts:126-134 | forgetting clears every guess and makes the next ones tentative |
| EchoPredictors.EchoPredictor.Reconcile | src/lib/predictiveEcho.ts:154-190 | so does checking the guesses against the screen |
| EchoSteps.EchoConfirms | src/lib/predictiveEcho.ts:154-190 | the first key echoed takes those before it along, shows that its row echoes unless masked or suspect, and counts one part in eight in the smoothed round trip |
| EchoSteps.NoEchoMasksOrDoubts | src/lib/predictiveEcho.ts:154-190 | without an echo, a key shown as another character has the row taken for masked, and any other unlike line is in doubt since the first look that found it so |
| EchoSteps.NoEchoMovesTentative | src/lib/predictiveEcho.ts:236-270 | tentative guesses not shown just before the cursor are typed anew from there with their times, or all are dropped; a key shown as another makes the row suspect |
| EchoPredictors.EchoPredictor.Place | src/lib/predictiveEcho.ts:236-270 | so does moving tentative guesses |
| EchoPredictors.EchoPredictor.Expire | src/lib/predictiveEcho.ts:192-211 | so does dropping guesses that are late |
| EchoSteps.ExpiredRunGivesUp | src/lib/predictiveEcho.ts:192-211 | in every run, 150 ms of doubt drop every guess and show none; otherwise a first guess older than two seconds and four round trips takes all with it, and the row and what it echoed are kept exactly when it shows every guess; before that nothing changes |
| EchoPredictors.EchoPredictor.View | src/lib/predictiveEcho.ts:213-227 | what is shown is computed from the fields as specified |
| EchoSteps.ViewShowsCells | src/lib/predictiveEcho.ts:213-227 | guesses are shown exactly on a row that echoes, while neither tentative nor in doubt, the last one for each column, as stalled once older than half a second and two round trips |
| EchoProofs.RunKeepsOk | src/lib/predictiveEcho.ts:136-311 | in every run, against any screen, the pending keys go on one from the other from `base` and never left of `lineStart` |
| EchoProofs.ViewIsTheReplay | src/lib/predictiveEcho.ts:213-227 | in every run the cells and the cursor shown are what a line editor writes replaying the pending keys |
| EchoProofs.PendingIsTheLastTyped | src/lib/predictiveEcho.ts:136-257 | in every run the pending keys are the last ones typed, in order |
| EchoProofs.NothingShownWhereMasked | src/lib/predictiveEcho.ts:137-227 | on a row that masks what is typed with a character the user does not type, no run ever shows a guess |
| EchoProofs.NothingShownWhereSilent | src/lib/predictiveEcho.ts:137-227 | after any earlier run that was off that row, no run ever shows a guess at a prompt that echoes nothing |
| EchoProofs.NothingShownBeforeAnEcho | src/lib/predictiveEcho.ts:1-15 | in every run a guess is shown only on a row where the screen showed a key typed there echoed, and where typing did not start over since |
| EchoMasking.MutedRowStaysMuted | src/lib/predictiveEcho.ts:79-84 | once a row is taken for masked, nothing is shown while the cursor stays on it and the line is not ended |
| EchoMasking.MaskedRowStaysHidden | src/lib/predictiveEcho.ts:79-84 | nor is anything shown on it wherever the cursor goes in between, until the line is ended or another row is masked |
| EchoMasking.MaskedRowIsForgottenExactlyWhen | src/lib/predictiveEcho.ts:137-190 | of all events exactly those two end the memory of it |
| EchoMasking.OnlyOneRowIsRemembered | src/lib/predictiveEcho.ts:170-174 | a run in which another row is masked in between and a guess is shown on the first |
| EchoMasking.MaskedEchoMutes | src/lib/predictiveEcho.ts:166-175 | a key echoed as another one has the row taken for masked |
| EchoExactness.ReconcileLeavesTheUnechoed | src/lib/predictiveEcho.ts:154-190 | where a faithful row shows the first keys, a check leaves exactly the others, and neither doubts nor masks the row |
| EchoExactness.FaithfulRunIsExact | src/lib/predictiveEcho.ts:136-211 | in every run of typing without backspaces at a remote that echoes it, the pending keys are those not shown at the last check |
| EchoExactness.TypingStartsExact | src/lib/predictiveEcho.ts:272-311 | such a run begins with the first key typed on a blank row |
| EchoExactness.ExactViewCompletesTheRow | src/lib/predictiveEcho.ts:213-227 | once one key was echoed, the view completes the row: each key in its cell and the cursor after the last |
| AgentTrackers.AgentTracker.Report | src/lib/agentStatus.ts:114-139 | a report updates the tracker and the shared map as specified |
| AgentNotices.ReportTells | src/lib/agentStatus.ts:114-139 | of any tracker, what a report acted on sets, tells and announces: a working or waiting agent is shown, only a wait sets the timer, a finished or failed turn is announced at once, the end forgets all; other trackers are untouched, and one not acted on changes nothing |
| AgentNotices.ReportShows | src/lib/agentStatus.ts:114-139 | the status last told is then the report's, or none for idle, done, error and ended |
| AgentNotices.RunAnnounces | src/lib/agentStatus.ts:114-139 | in every run a terminal announces exactly, and in order, the turns reported to it as finished or failed and the waits whose timers went off |
| AgentTrackers.AgentTracker.Submit | src/lib/agentStatus.ts:109-112 | Enter is noted with its time |
| AgentTrackers.AgentTracker.WaitTimerFires | src/lib/agentStatus.ts:128-132 | the wait that lasted is announced once |
| AgentTrackers.AgentTracker.Claim | src/lib/agentStatus.ts:177-197 | so does claiming a session, and says whether the report is for this terminal |
| AgentNotices.ActsExactlyWhen | src/lib/agentStatus.ts:177-197 | a report on a session is for its owner, or, if nobody owns it and it does not end, for a terminal with an unspent Enter of the last ten seconds |
| AgentNotices.ActingTakesTheSession | src/lib/agentStatus.ts:177-206 | acting on a session nobody owns takes it and spends the Enter; acting on the end gives all sessions up; nothing else changes owner |
| AgentTrackers.AgentTracker.ReleaseSessions | src/lib/agentStatus.ts:199-206 | the loop over the sessions gives up all of them, and no one else's |
| AgentTrackers.AgentTracker.Reset | src/lib/agentStatus.ts:163-170 | the prompt's return clears the tracker and releases its sessions |
| AgentTrackers.AgentTracker.Dispose | src/lib/agentStatus.ts:172-175 | a closed terminal announces nothing more and gives its sessions up |
| AgentNotices.DisposeLeavesNothing | src/lib/agentStatus.ts:172-175 | a terminal that is closed owns nothing, has no timer and tells nothing |
| AgentTrackers.AgentTracker.Interrupt | src/lib/agentStatus.ts:141-149 | Esc or Ctrl+C stops an agent that does not report its stops |
| AgentNotices.InterruptStops | src/lib/agentStatus.ts:141-149 | an agent that does not report its stops is shown as stopped and its wait is not announced; of any other nothing changes |
| AgentTrackers.AgentTracker.Answer | src/lib/agentStatus.ts:151-161 | an answer sets an agent that does back to work |
| AgentNotices.AnswerResumes | src/lib/agentStatus.ts:151-161 | one that does is shown at work again after an answer to its wait; of any other nothing changes |
| AgentHub.RunKeepsAgreement | src/lib/agentStatus.ts:76-206 | with any number of trackers, in every run, the owner map and the trackers' sessions agree |
| AgentHub.EverySessionHasOneOwner | src/lib/agentStatus.ts:75-76 | no session is held by two terminals |
| AgentHub.OneTerminalActs | src/lib/agentStatus.ts:177-197 | in whatever order terminals hear of an addressed report, at most one acts on it, and one does exactly when one may |
| AgentHub.TakenWithinEnters | src/lib/agentStatus.ts:109-112 | no terminal takes more sessions than it was given Enters |
| AgentHub.RunKeepsTerminalsTold | src/lib/agentStatus.ts:114-139 | a timer only runs while its agent's wait is shown, and each terminal was last told the status and agent its tracker holds |
| AgentHub.AnnouncedWaitsAreShown | src/lib/agentStatus.ts:126-132 | a wait that is announced is the status the terminal was last told, in every run |
| AgentHub.ResetLeavesNothing | src/lib/agentStatus.ts:163-170 | after a reset the terminal was told of no agent and no status, and owns no session |
| AgentHub.SilentUntilAReport | src/lib/agentStatus.ts:99-107 | after a reset or the agent's end a terminal speaks for no agent until it acts on a report again, whatever happens in between |
| AgentHub.SilentOnceForgotten | src/lib/agentStatus.ts:99-107 | nor from ten seconds after a report that left nothing to show |
| AgentHub.SpeaksAfterAReport | src/lib/agentStatus.ts:99-107 | for ten seconds after a report acted on that does not end the agent it does, whatever is typed or reported, unless reset or ended |
| GroupTrees.Build | src/lib/profileGroups.ts:46-98 | grouping by parent, cutting loops, filing and counting in loops give the specified tree |
| GroupTrees.PlaceAll | src/lib/profileGroups.ts:61-84 | the loop that cuts loops ends and places everything |
| GroupTrees.GroupByParent | src/lib/profileGroups.ts:50-58 | the loop files each group under its declared parent, or at the top |
| GroupTrees.FileProfiles | src/lib/profileGroups.ts:86-94 | the loop files each profile in its group, or with those in none |
| ProfileGroupsProofs.EachGroupIsPlacedOnce | src/lib/profileGroups.ts:41-98 | for any parents, every group is in the tree exactly once, at the top or under its declared parent with the right depth and path, and one whose parents end is never detached |
| ProfileGroupsProofs.EachProfileIsShownOnce | src/lib/profileGroups.ts:86-148 | the profiles shown are those of the open groups, with nothing collapsed all of them, and the totals add up |
| GroupFiling.TreeIsFiled | src/lib/profileGroups.ts:46-98 | every node names the node above it as its parent and has its depth, its path and its own profiles in their order; one at the top has no parent there is, or its parents never end; the rest of the profiles are listed apart |
| GroupFiling.ParentExactlyWhen | src/lib/profileGroups.ts:50-58 | the parent a group names counts exactly when there is such a group besides itself |
| GroupTrees.ShowProfiles | src/lib/profileGroups.ts:129-148 | the visit that pushes profiles shows them group by group |
| GroupTrees.ListGroups | src/lib/profileGroups.ts:112-127 | the visit that pushes groups lists a group before those in it, without what is collapsed |
| GroupRoots.RootsAre | src/lib/profileGroups.ts:41-81 | a group is put at the top exactly when it has no parent, or its parents never end and none of them has a smaller id |
| GroupRoots.LeastOfALoopIsAtTop | src/lib/profileGroups.ts:41-45 | the group with the smallest id in a loop always is |
| GroupRoots.RootsOfTheTree | src/lib/profileGroups.ts:46-98 | the roots of the tree are exactly those groups, and roots and children alike are in the order of their names |
| GroupRoots.OnlyLoopsAreCutExactlyWhen | src/lib/profileGroups.ts:41-81 | no group off the loops is put at the top beside those without a parent exactly when each that hangs off a loop is below one with a smaller id |
| GroupRoots.TailCanBeCut | src/lib/profileGroups.ts:41-81 | groups for which one that is on no loop is put at the top, beside the least of the loop |
| ComposerRun.ChangesKeepOk | src/lib/composerRun.ts:40-104 | every change keeps the lines before the current one ended and those after it waiting, and no text changes |
| ComposerSteps.PromptEnds | src/lib/composerRun.ts:58-85 | whether a prompt ends the line under way and with which status, and what the run then is, line by line |
| ComposerSteps.CommentExactlyWhen | src/lib/composerRun.ts:77-84 | a line runs nothing exactly when a `#` is the first character that is no space |
| ComposerSteps.DecisionsDo | src/lib/composerRun.ts:87-105 | what retrying, going on and stopping make of a run that is held, under way or over |
| ComposerSteps.StartStarts | src/lib/composerRuns.ts:49-71 | a run starts exactly at a prompt with lines and no run going on, sends its first line and has its prompts followed; the reply says why not |
| ComposerSteps.ChangeIsKept | src/lib/composerRuns.ts:26-42 | what a run becomes is kept, its line sent when it starts one, and its prompts followed while it is active; with no terminal there it is stopped instead |
| ComposerBar.ComposerRuns.ApplyRun | src/lib/composerRuns.ts:26-42 | keeping a run and sending its line updates the maps as specified |
| ComposerBar.ComposerRuns.StartComposerRun | src/lib/composerRuns.ts:49-71 | a run starts, or why it does not |
| ComposerBar.ComposerRuns.PromptSeen | src/lib/composerRuns.ts:66-69 | a prompt followed changes the run as the line's end does |
| ComposerBar.ComposerRuns.RetryComposerRun | src/lib/composerRuns.ts:73-73 | a failed line runs again |
| ComposerBar.ComposerRuns.ContinueComposerRun | src/lib/composerRuns.ts:74-74 | a run goes on past a failed line |
| ComposerBar.ComposerRuns.StopComposerRun | src/lib/composerRuns.ts:75-75 | a run is stopped |
| ComposerBar.ComposerRuns.DismissComposerRun | src/lib/composerRuns.ts:77-84 | only a run that is over is forgotten |
| ComposerBar.NextKeepsOk | src/lib/composerRuns.ts:26-84 | prompts are followed exactly while a run is active, in every tab |
| ComposerBar.SendsInTurn | src/lib/composerRuns.ts:26-84 | a step sends at most one line, the one that then runs, after every line before it ended |
| ComposerBar.EachLineIsSentOnce | src/lib/composerRuns.ts:26-84 | in every run each line reached is sent once and once more a retry after it failed, and no other line is |
| CommandCapture.CaptureTerminalInput | src/lib/terminalCommandCapture.ts:29-133 | inserting plain runs at once does what an editor does key by key; the cursor stays in bounds |
| CommandCapture.RunGoesInAtOnce | src/lib/terminalCommandCapture.ts:79-88 | a run of plain text put in at once is that text typed character by character |
| CommandCapture.PressSequence | src/lib/terminalCommandCapture.ts:54-77 | each escape sequence moves or deletes as an editor of the text before and after the cursor does |
| CommandCapture.TypeKey | src/lib/terminalCommandCapture.ts:90-129 | each other key does as well, and Enter gives the command |
| CommandCapture.PiecesGiveTheWhole | src/lib/terminalCommandCapture.ts:34-133 | input cut anywhere but inside an escape sequence gives the same state and commands |
| CommandCapture.DeletesTheLastWord | src/lib/terminalCommandCapture.ts:118-123 | Ctrl+W deletes the longest end that is one word with space around it, or nothing |
| CaptureLaws.LeftUndoesRight | src/lib/terminalCommandCapture.ts:66-67 | Left then Right, or Right then Left, leaves everything as it was unless the first had nowhere to go |
| CaptureLaws.HomeAndEnd | src/lib/terminalCommandCapture.ts:68-69 | Home and End go to either end and change nothing else |
| CaptureLaws.TypedIsUndone | src/lib/terminalCommandCapture.ts:66-109 | a backspace, or Left and Delete, undoes a character typed |
| CaptureLaws.DeletesOne | src/lib/terminalCommandCapture.ts:70-109 | a backspace takes the character before the cursor, Delete the one after it |
| CaptureLaws.EnterGives | src/lib/terminalCommandCapture.ts:93-103 | Enter gives the whole trimmed line wherever the cursor is, unless it is blank or not known, and starts a new one |
| CaptureLaws.TypedLineIsGiven | src/lib/terminalCommandCapture.ts:79-103 | a line typed without control characters is given as typed |
| CaptureLaws.PastedLinesAreOneCommand | src/lib/terminalCommandCapture.ts:42-103 | a bracketed paste of several lines is one command |
| CaptureLaws.UnknownLineGivesNothing | src/lib/terminalCommandCapture.ts:73-129 | after a line is recalled or completed, whatever is typed gives no command until the line is ended or cleared |
| CaptureLaws.RecallsOrCompletes | src/lib/terminalCommandCapture.ts:73-129 | Up, Down, Tab and a lone escape leave a line that is not known |
| ShellScanner.ScanState.ScanLine | src/lib/shellCommands.ts:47-100 | scanning in place reads the line as specified, and always gets further |
| ShellScanner.ScanState.ReadNext | src/lib/shellCommands.ts:113-127 | a line of a here-document is not scanned; any other is, and the command stays open as long as anything is |
| ShellScanner.Split | src/lib/shellCommands.ts:102-136 | the loop over lines gives the commands |
| ShellCommandsProofs.CommandsKeepTheLines | src/lib/shellCommands.ts:102-136 | only blank lines between commands are dropped; every other line is kept, in order |
| ShellCommandsProofs.LineEndsAt | src/lib/shellCommands.ts:110-110 | a line ends at a line feed, at a return, or at both together |
| ShellCommandsProofs.NothingIsOpenBetween | src/lib/shellCommands.ts:120-131 | a command other than the last leaves nothing open; this holds of any reader of lines, as commands end there |
| ShellCommandsProofs.SplittingTwice | src/lib/shellCommands.ts:102-136 | the commands joined split into themselves, whatever reads the lines |
| ShellCommandsProofs.EachSplitsToItself | src/lib/shellCommands.ts:102-136 | so does each of them alone, whatever reads the lines |
| ShellLines.PlainIsPassed | src/lib/shellCommands.ts:47-100 | words that are no keywords where they stand, operators, redirections, escaped characters, closed quotes and closed parentheses leave open what was open |
| ShellLines.QuotedLinesArePassed | src/lib/shellCommands.ts:53-56 | any number of lines within an open quote change nothing |
| ShellLines.QuotedIsPassed | src/lib/shellCommands.ts:53-56 | quoted text changes nothing, escaped quotes in it included but within single quotes |
| ShellLines.CommentIsPassed | src/lib/shellCommands.ts:63-64 | plain text with a comment after it reads as the plain text alone |
| ShellLines.ThreeArePassed | src/lib/shellCommands.ts:72-74 | `<<<` opens nothing |
| ShellLines.PlainThenBackslashes | src/lib/shellCommands.ts:57-60 | a line goes on exactly when it ends in an odd number of backslashes outside quotes |
| ShellLines.OpenersAreRead | src/lib/shellCommands.ts:75-79 | `<<` and a delimiter word, with or without a dash, blanks, a backslash or quotes, opens a here-document with that word |
| ShellLines.BodyIsPassed | src/lib/shellCommands.ts:113-121 | whatever the lines of a here-document hold, they change nothing, and the first that is its word ends that document and no other |
| ShellLines.HeadOpens | src/lib/shellCommands.ts:28-45 | `if`, `while`, `for` and the like with a condition and `then` or `do` open one block; `elif` closes one and opens one |
| ShellLines.LeadWaits | src/lib/shellCommands.ts:28-45 | without `then` or `do` they wait for it |
| ShellLines.CloserCloses | src/lib/shellCommands.ts:39-40 | `fi`, `done`, `esac` or a brace closes one block |
| ShellLines.CaseOpens | src/lib/shellCommands.ts:37-38 | `case` with `in` after it opens one |
| ShellLines.WordsThatAreNoKeyword | src/lib/shellCommands.ts:28-96 | a word glued to a quote or a backslash is no keyword, nor is `case` without ` in` after it |
| ShellLines.ArmIsRead | src/lib/shellCommands.ts:67-71 | the parenthesis of a pattern closes one that is open, if any is, and none else |
| ShellScripts.ScriptReads | src/lib/shellCommands.ts:47-131 | what any script of the grammar leaves open after each of its lines, wherever it stands: after the last only the parentheses it leaves, and before that something more exactly when it stands in a block or keeps its parentheses |
| ShellScripts.ScriptIsOneExactlyWhen | src/lib/shellCommands.ts:1-9 | wherever it stands, a script is one command of its own exactly when it keeps the parentheses it opens and leaves those around it |
| ShellScripts.ScriptIsOne | src/lib/shellCommands.ts:1-9 | so is every script in which no pattern within parentheses closes one it did not open |
| ShellScripts.CommandIsWholeExactlyWhen | src/lib/shellCommands.ts:102-136 | a script on its own is one command exactly when, as a subshell, a parenthesis stays open after each script inside it that no block surrounds |
| ShellScripts.ScriptsSplitAsWritten | src/lib/shellCommands.ts:102-136 | scripts written one after the other split into exactly those scripts, each with all its lines, if and only if each keeps its parentheses |
| ShellScripts.TextSplitsAsWritten | src/lib/shellCommands.ts:102-136 | and so does the text of them |
| ShellScripts.LoneParenthesisEndsTheOther | src/lib/shellCommands.ts:67-71 | a subshell of one `case` with one arm and a lone `)` is two commands, cut after `esac` |
| ShellScripts.ShiftTakesTheLinesAfterIt | src/lib/shellCommands.ts:75-79 | a shift in arithmetic takes in exactly the lines up to one that is its right side |
| LogReplay.ParseReplayFrames | src/lib/terminalLogReplay.ts:14-43 | the loop over the buffer gives the frames |
| LogReplay.LittleIs | src/lib/terminalLogReplay.ts:14-43 | numbers are read with the least byte first |
| LogReplay.PrintedFramesParseBack | src/lib/terminalLogReplay.ts:1-43 | frames written in the documented format parse back, whatever follows |
| LogReplay.ParsedFramesPrintBack | src/lib/terminalLogReplay.ts:1-43 | frames parsed print as the bytes they were parsed from |
| LogReplay.ParsedFramesFit | src/lib/terminalLogReplay.ts:14-43 | every number parsed fits its field |
| LogReplay.PrefixGivesPrefix | src/lib/terminalLogReplay.ts:14-43 | a recording cut anywhere gives a prefix of its frames |
| LogReplay.BuildReplayTimeline | src/lib/terminalLogReplay.ts:53-72 | each frame plays after the one before by the recorded pause, shortened to the limit |
| LogReplay.TimelineKeepsTheLimit | src/lib/terminalLogReplay.ts:53-72 | the timeline never runs back, and no pause is longer than the limit |
| LogReplay.PausesAre | src/lib/terminalLogReplay.ts:53-72 | a pause plays as long as it was, but no longer than the limit, and not at all when time ran back |
| LogReplay.WithoutLimitAsRecorded | src/lib/terminalLogReplay.ts:53-72 | without a limit each frame of an ordered recording plays when it came |
| LogReplay.FramesPlayedBy | src/lib/terminalLogReplay.ts:79-89 | the binary search counts exactly the frames due by the time |
| DroppedPaths.DroppedPathsAreReadBack | src/lib/droppedPaths.ts:25-89 | a POSIX shell reads the text of a drop as exactly the non-empty paths, in order, whatever characters they hold |

## Left out

- Components, hooks, contexts, drag and drop, toasts and menus, and the Rust side: user interface and operating system around these cores.
- Real clocks and timers: the time is an argument, and a timer going off is a step of its own.
- Floating point: sizes, smoothed round trips and recorded times are real numbers, and `Math.round` is the floor of x + 1/2. Microsecond counts past 2^53, which JavaScript rounds, are exact here.
- UTF-16: a character stands for one unit, and surrogate pairs are not told apart.
- Ids are opaque; an empty string for an id, which the source takes for none, is not modelled. Group ids `group-1`, `group-2` and so on are their numbers.
- JSON: a saved layout or template is an already parsed tree in which any part may be missing, of another kind or out of range.
- Reference equality: the source returns the same object when nothing changed; equality here is of values, and no object is shared. Group nodes are values: filling a node in after it was put in the tree is not modelled, only the tree that results.
- The connection fields of a tab: a tab has an id, a kind, titles, a session number and whether it is active.
- Local titles (`src/lib/localTabTitle.ts`) are any function that changes titles only; they are gone over when the tabs changed in value.
- Names and ids of profile groups are compared by orders given as arguments, as `localeCompare` depends on the locale. Ids of groups are taken to be distinct, as the database has them. `groupAndDescendantIds`, `emptyGroupIds` and `normalizeGroupPath` are left out as simple walks.
- `sortPanesByReadingOrder` and `getSiblingPaneId` (`src/lib/paneNavigation.ts:26-48`), `normalizePaneTemplates` (`src/lib/paneTemplates.ts:148-163`), `slowerThan` (`src/lib/predictiveEcho.ts:104-114`), `parseAgentReport` (`src/lib/agentStatus.ts:17-26`), `parseShellIntegrationCommand` (`src/lib/terminalCommandCapture.ts:135-156`) and the formatting and font sizes of a replay: sorts, clamps and lookups that would add only easy members.
- Callbacks and listeners: what a tracker tells its terminal and what a composer run sends are logs; listeners that are only told that something changed are not modelled. The text sent for a line is the line.
- Quoting for PowerShell, cmd, WSL and Git Bash: no single grammar to read it back by.
- FaithfulRunIsExact: says nothing of runs with backspaces, because a key and its backspace can match at the same column before either is echoed, and nothing of tentative guesses, which are placed by what the line shows. A key that is echoed so late that it expires ends such a run: its guess is dropped, so the keys pending are then fewer than those not echoed.
- NothingShownWhereMasked: says nothing of a user who types the masking character itself.
- ScriptsSplitAsWritten: comments stand only after the plain text of a line of its own, there is at most one here-document a line, and a block's keywords on the first and last lines of its parts; a whole block on one line, or a keyword in the middle of one, is not among them. Nor is `<<` in arithmetic, which the scanner takes for a here-document.
- LayoutIsNearPlace: asks that no split get less room than its gaps, as LayoutTiles does.
- FitsExactlyWhen: asks for a minimum of at least one pixel each way, as the app's is (220 by 140).
- NavigationStopsAtTheEdge: asks that every pane be larger than the gap and the two-pixel tolerance, as smaller ones are skipped.
- LayoutTiles: asks that no split get less room than its gaps, as the source then gives boxes of negative size.
