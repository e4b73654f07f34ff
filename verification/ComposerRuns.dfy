// Each tab's line-by-line run and the prompts it follows
// (src/lib/composerRuns.ts). Whether a tab's terminal is there to send to is
// told with each step; what its terminal is sent is kept in a log.
module ComposerBar {
  import opened Sequences
  import opened ComposerRun

  datatype TabId = TabId(key: string)

  datatype Sent = Sent(tab: TabId, text: string)

  datatype Bar = Bar(runs: map<TabId, ComposerRun>, following: set<TabId>, sent: seq<Sent>)

  datatype ShellPromptState = Unmarked | Busy | Prompt

  datatype StartResult = Started | NotStarted(why: ShellPromptState)

  function StopFollowing(bar: Bar, tab: TabId): Bar {
    bar.(following := bar.following - {tab})
  }

  // The run has just started a line.
  predicate SendsLine(previous: ComposerRun, run: ComposerRun) {
    run.phase == Running && (previous.phase != Running || previous.current != run.current)
  }

  // Keeps the run as the tab's, and sends its line when it has just started
  // one. Without a terminal to send to the run before it is stopped instead.
  function Apply(bar: Bar, tab: TabId, previous: ComposerRun, run: ComposerRun, hasTarget: bool): Bar
    requires HasCurrent(previous) && HasCurrent(run)
    decreases if run.phase == Running then 1 else 0
  {
    if run == previous then bar
    else if SendsLine(previous, run) && !hasTarget then Apply(bar, tab, previous, StopRun(previous), hasTarget)
    else
      var told := if SendsLine(previous, run) then bar.(sent := bar.sent + [Sent(tab, run.lines[run.current].text)])
          else bar;
      var followed := if !IsRunActive(run) then StopFollowing(told, tab) else told;
      followed.(runs := followed.runs[tab := run])
  }

  predicate StartsRun(bar: Bar, tab: TabId, lines: seq<string>) {
    !(tab in bar.runs && IsRunActive(bar.runs[tab])) && lines != []
  }

  // `state` is what the shell marks: nothing when there is no terminal.
  function Start(bar: Bar, tab: TabId, lines: seq<string>, state: ShellPromptState): Bar {
    if state != Prompt || !StartsRun(bar, tab, lines) then bar
    else
      var run := StartRun(lines);
      Apply(bar.(following := bar.following + {tab}), tab, run.(phase := Done), run, true)
  }

  function StartReply(bar: Bar, tab: TabId, lines: seq<string>, state: ShellPromptState): StartResult {
    if state != Prompt then NotStarted(state)
    else if !StartsRun(bar, tab, lines) then NotStarted(Busy)
    else Started
  }

  function Dismiss(bar: Bar, tab: TabId): Bar {
    if tab !in bar.runs || IsRunActive(bar.runs[tab]) then bar else bar.(runs := bar.runs - {tab})
  }

  ghost predicate AllOk(bar: Bar) {
    forall tab :: tab in bar.runs ==> RunOk(bar.runs[tab])
  }

  // ----- the module's own maps -----

  class ComposerRuns {
    var runs: map<TabId, ComposerRun>
    var unsubscribers: set<TabId>
    var sent: seq<Sent>

    function State(): Bar
      reads this
    {
      Bar(runs, unsubscribers, sent)
    }

    constructor ()
      ensures State() == Bar(map[], {}, [])
    {
      runs, unsubscribers, sent := map[], {}, [];
    }

    method StopFollowingTab(tab: TabId)
      modifies this`unsubscribers
      ensures State() == StopFollowing(old(State()), tab)
    {
      unsubscribers := unsubscribers - {tab};
    }

    method ApplyRun(tab: TabId, previous: ComposerRun, run: ComposerRun, hasTarget: bool)
      requires HasCurrent(previous) && HasCurrent(run)
      modifies this
      ensures State() == Apply(old(State()), tab, previous, run, hasTarget)
      decreases if run.phase == Running then 1 else 0
    {
      if run == previous {
        return;
      }
      if SendsLine(previous, run) {
        if !hasTarget {
          ApplyRun(tab, previous, StopRun(previous), hasTarget);
          return;
        }
        sent := sent + [Sent(tab, run.lines[run.current].text)];
      }
      if !IsRunActive(run) {
        StopFollowingTab(tab);
      }
      runs := runs[tab := run];
    }

    method StartComposerRun(tab: TabId, lines: seq<string>, state: ShellPromptState) returns (reply: StartResult)
      modifies this
      ensures State() == Start(old(State()), tab, lines, state)
      ensures reply == StartReply(old(State()), tab, lines, state)
    {
      if state != Prompt {
        return NotStarted(state);
      }
      if (tab in runs && IsRunActive(runs[tab])) || lines == [] {
        return NotStarted(Busy);
      }
      StopFollowingTab(tab);
      var run := StartRun(lines);
      unsubscribers := unsubscribers + {tab};
      assert State() == old(State()).(following := old(State()).following + {tab});
      ApplyRun(tab, run.(phase := Done), run, true);
      return Started;
    }

    method PromptSeen(tab: TabId, event: PromptEvent, hasTarget: bool)
      requires AllOk(State())
      modifies this
      ensures State() == if tab in old(unsubscribers) && tab in old(runs)
                         then Apply(old(State()), tab, old(runs)[tab], PromptReached(old(runs)[tab], event),
                                    hasTarget) else old(State())
    {
      if tab in unsubscribers && tab in runs {
        ChangesKeepOk(runs[tab], event);
        ApplyRun(tab, runs[tab], PromptReached(runs[tab], event), hasTarget);
      }
    }

    method RetryComposerRun(tab: TabId, hasTarget: bool)
      requires AllOk(State())
      modifies this
      ensures State() == if tab in old(runs)
              then Apply(old(State()), tab, old(runs)[tab], RetryLine(old(runs)[tab]), hasTarget) else old(State())
    {
      if tab in runs {
        ApplyRun(tab, runs[tab], RetryLine(runs[tab]), hasTarget);
      }
    }

    method ContinueComposerRun(tab: TabId, hasTarget: bool)
      requires AllOk(State())
      modifies this
      ensures State() == if tab in old(runs)
              then Apply(old(State()), tab, old(runs)[tab], ContinueRun(old(runs)[tab]), hasTarget) else old(State())
    {
      if tab in runs {
        ChangesKeepOk(runs[tab], MarksEnded);
        ApplyRun(tab, runs[tab], ContinueRun(runs[tab]), hasTarget);
      }
    }

    method StopComposerRun(tab: TabId, hasTarget: bool)
      requires AllOk(State())
      modifies this
      ensures State() == if tab in old(runs)
              then Apply(old(State()), tab, old(runs)[tab], StopRun(old(runs)[tab]), hasTarget) else old(State())
    {
      if tab in runs {
        ApplyRun(tab, runs[tab], StopRun(runs[tab]), hasTarget);
      }
    }

    method DismissComposerRun(tab: TabId)
      modifies this`runs
      ensures State() == Dismiss(old(State()), tab)
    {
      if tab !in runs || IsRunActive(runs[tab]) {
        return;
      }
      runs := runs - {tab};
    }
  }

  // ----- runs of the bar -----

  datatype Step =
    | StartRequested(tab: TabId, lines: seq<string>, state: ShellPromptState)
    | PromptCame(tab: TabId, event: PromptEvent, hasTarget: bool)
    | RetryAsked(tab: TabId, hasTarget: bool)
    | ContinueAsked(tab: TabId, hasTarget: bool)
    | StopAsked(tab: TabId, hasTarget: bool)
    | DismissAsked(tab: TabId)

  // What the step makes of the tab's run, when it is about one.
  function Changed(run: ComposerRun, step: Step): ComposerRun
    requires HasCurrent(run)
  {
    match step
    case PromptCame(_, event, _) => PromptReached(run, event)
    case RetryAsked(_, _) => RetryLine(run)
    case ContinueAsked(_, _) => ContinueRun(run)
    case StopAsked(_, _) => StopRun(run)
    case _ => run
  }

  ghost function Next(bar: Bar, step: Step): Bar
    requires AllOk(bar)
  {
    match step
    case StartRequested(tab, lines, state) => Start(bar, tab, lines, state)
    case DismissAsked(tab) => Dismiss(bar, tab)
    case _ =>
      if step.tab !in bar.runs || (step.PromptCame? && step.tab !in bar.following) then bar
      else
        ChangedIsOk(bar.runs[step.tab], step);
        Apply(bar, step.tab, bar.runs[step.tab], Changed(bar.runs[step.tab], step), step.hasTarget)
  }

  lemma ChangedIsOk(run: ComposerRun, step: Step)
    requires RunOk(run)
    ensures RunOk(Changed(run, step)) && Texts(Changed(run, step)) == Texts(run)
  {
    ChangesKeepOk(run, if step.PromptCame? then step.event else MarksEnded);
  }

  // Every tab's run is as its phase says, and its prompts are followed
  // exactly while it is active.
  ghost predicate BarOk(bar: Bar) {
    AllOk(bar) && forall tab :: tab in bar.following <==> tab in bar.runs && IsRunActive(bar.runs[tab])
  }

  lemma ApplyKeepsOk(bar: Bar, tab: TabId, previous: ComposerRun, run: ComposerRun, hasTarget: bool)
    requires BarOk(bar) && tab in bar.runs && bar.runs[tab] == previous && RunOk(run)
    requires IsRunActive(run) ==> IsRunActive(previous)
    ensures BarOk(Apply(bar, tab, previous, run, hasTarget))
  {
    ChangesKeepOk(previous, MarksEnded);
  }

  lemma StartKeepsOk(bar: Bar, tab: TabId, lines: seq<string>, state: ShellPromptState)
    requires BarOk(bar)
    ensures BarOk(Start(bar, tab, lines, state))
    ensures state == Prompt && StartsRun(bar, tab, lines) ==>
              var after := Start(bar, tab, lines, state);
              after.runs == bar.runs[tab := StartRun(lines)] && after.sent == bar.sent + [Sent(tab, lines[0])]
  {
    if state == Prompt && StartsRun(bar, tab, lines) {
      StartIsOk(lines);
    }
  }

  lemma NextKeepsOk(bar: Bar, step: Step)
    requires BarOk(bar)
    ensures BarOk(Next(bar, step))
  {
    if step.StartRequested? {
      StartKeepsOk(bar, step.tab, step.lines, step.state);
    } else if !step.DismissAsked? && step.tab in bar.runs {
      var run := bar.runs[step.tab];
      ChangedIsOk(run, step);
      if step.PromptCame? && step.tab !in bar.following {
      } else {
        ApplyKeepsOk(bar, step.tab, run, Changed(run, step), step.hasTarget);
      }
    }
  }

  ghost function Run(bar: Bar, steps: seq<Step>): Bar
    requires BarOk(bar)
    ensures BarOk(Run(bar, steps))
    decreases |steps|
  {
    if steps == [] then bar
    else
      NextKeepsOk(bar, steps[0]);
      Run(Next(bar, steps[0]), steps[1..])
  }

  // The line the step sends in the tab, if any: what the log grew by.
  ghost predicate Sends(bar: Bar, step: Step, tab: TabId, i: int)
    requires BarOk(bar)
  {
    var after := Next(bar, step);
    && after.sent != bar.sent && step.tab == tab
    && tab in after.runs && after.runs[tab].phase == Running && after.runs[tab].current == i
  }

  // Why line `i` may go now: it is the first of a run, the one before it has
  // just ended or was left failed, or it failed itself and is to run again.
  ghost predicate MayGo(bar: Bar, step: Step, tab: TabId, i: int) {
    match step
    case StartRequested(_, lines, state) => i == 0 && state == Prompt && StartsRun(bar, tab, lines)
    case PromptCame(_, event, _) =>
      tab in bar.runs && bar.runs[tab].phase == Running && bar.runs[tab].current == i - 1 && HasCurrent(bar.runs[tab])
      && event.AtPrompt? && LineEnd(bar.runs[tab], event).Some? && !Fails(LineEnd(bar.runs[tab], event).value)
    case ContinueAsked(_, _) => tab in bar.runs && bar.runs[tab].phase == Failed && bar.runs[tab].current == i - 1
    case RetryAsked(_, _) => tab in bar.runs && bar.runs[tab].phase == Failed && bar.runs[tab].current == i
    case _ => false
  }

  lemma ApplySendsAtMostOne(bar: Bar, tab: TabId, previous: ComposerRun, run: ComposerRun, hasTarget: bool)
    requires HasCurrent(previous) && HasCurrent(run)
    ensures var after := Apply(bar, tab, previous, run, hasTarget);
            if run != previous && SendsLine(previous, run) && hasTarget
            then after.sent == bar.sent + [Sent(tab, run.lines[run.current].text)] && tab in after.runs
                && after.runs[tab] == run
            else after.sent == bar.sent
  {
  }

  // A step sends nothing, or one line, of the tab it is about; it is the
  // text of the line that then runs, every line before that line has ended,
  // and there is a reason for it to go.
  lemma SendsInTurn(bar: Bar, step: Step)
    requires BarOk(bar)
    ensures var after := Next(bar, step);
            after.sent == bar.sent ||
            (step.tab in after.runs && after.runs[step.tab].phase == Running &&
             var run := after.runs[step.tab];
             && HasCurrent(run) && after.sent == bar.sent + [Sent(step.tab, run.lines[run.current].text)]
             && (forall i :: 0 <= i < run.current ==> HasEnded(run.lines[i]))
             && MayGo(bar, step, step.tab, run.current))
  {
    NextKeepsOk(bar, step);
    if step.StartRequested? {
      StartKeepsOk(bar, step.tab, step.lines, step.state);
      if step.lines != [] {
        StartIsOk(step.lines);
      }
    } else if !step.DismissAsked? && step.tab in bar.runs {
      var run := bar.runs[step.tab];
      ChangedIsOk(run, step);
      ApplySendsAtMostOne(bar, step.tab, run, Changed(run, step), step.hasTarget);
      if step.PromptCame? {
        PromptMovesOnExactlyWhen(run, step.event);
      }
    }
  }

  // ----- each line is sent once, and once more for each retry -----

  function SentOnce(b: bool): nat {
    if b then 1 else 0
  }

  // How often the steps send line `i` of the tab's run.
  ghost function Sendings(bar: Bar, steps: seq<Step>, tab: TabId, i: int): nat
    requires BarOk(bar)
    decreases |steps|
  {
    if steps == [] then 0
    else
      NextKeepsOk(bar, steps[0]);
      SentOnce(Sends(bar, steps[0], tab, i)) + Sendings(Next(bar, steps[0]), steps[1..], tab, i)
  }

  // Line `i` had failed, and is to run again.
  predicate Retries(bar: Bar, step: Step, tab: TabId, i: int) {
    step.RetryAsked? && step.tab == tab && step.hasTarget && tab in bar.runs
    && bar.runs[tab].phase == Failed && bar.runs[tab].current == i
  }

  ghost function Retryings(bar: Bar, steps: seq<Step>, tab: TabId, i: int): nat
    requires BarOk(bar)
    decreases |steps|
  {
    if steps == [] then 0
    else
      NextKeepsOk(bar, steps[0]);
      SentOnce(Retries(bar, steps[0], tab, i)) + Retryings(Next(bar, steps[0]), steps[1..], tab, i)
  }

  // The steps go on with the tab's run: none starts another or forgets it.
  ghost predicate GoesOn(steps: seq<Step>, tab: TabId) {
    forall k :: 0 <= k < |steps| ==> steps[k].tab == tab ==> !steps[k].StartRequested? && !steps[k].DismissAsked?
  }

  predicate Reached(bar: Bar, tab: TabId, i: int) {
    tab in bar.runs && i <= bar.runs[tab].current
  }

  lemma StepSendsOnce(bar: Bar, step: Step, tab: TabId, i: nat)
    requires BarOk(bar) && tab in bar.runs && (step.tab == tab ==> !step.StartRequested? && !step.DismissAsked?)
    ensures var after := Next(bar, step);
            && tab in after.runs && Texts(after.runs[tab]) == Texts(bar.runs[tab])
            && SentOnce(Reached(bar, tab, i)) + SentOnce(Sends(bar, step, tab, i))
            == SentOnce(Reached(after, tab, i)) + SentOnce(Retries(bar, step, tab, i))
  {
    if step.tab == tab {
      var run := bar.runs[tab];
      ChangedIsOk(run, step);
      ApplySendsAtMostOne(bar, tab, run, Changed(run, step), step.hasTarget);
      ApplyKeepsTheLines(bar, tab, run, Changed(run, step), step.hasTarget);
      if step.PromptCame? {
        PromptMovesOnExactlyWhen(run, step.event);
      }
    } else {
      OthersUnchanged(bar, step, tab);
    }
  }

  lemma OthersUnchanged(bar: Bar, step: Step, tab: TabId)
    requires BarOk(bar) && tab in bar.runs && step.tab != tab
    ensures tab in Next(bar, step).runs && Next(bar, step).runs[tab] == bar.runs[tab]
  {
    if step.StartRequested? {
      StartKeepsOk(bar, step.tab, step.lines, step.state);
    } else if !step.DismissAsked? && step.tab in bar.runs {
      ChangedIsOk(bar.runs[step.tab], step);
      ApplyLeavesOthers(bar, step.tab, bar.runs[step.tab], Changed(bar.runs[step.tab], step), step.hasTarget, tab);
    }
  }

  lemma ApplyLeavesOthers(bar: Bar, tab: TabId, previous: ComposerRun, run: ComposerRun, hasTarget: bool, other: TabId)
    requires HasCurrent(previous) && HasCurrent(run) && other in bar.runs && other != tab
    ensures other in Apply(bar, tab, previous, run, hasTarget).runs
            && Apply(bar, tab, previous, run, hasTarget).runs[other] == bar.runs[other]
  {
  }

  lemma ApplyKeepsTheLines(bar: Bar, tab: TabId, previous: ComposerRun, run: ComposerRun, hasTarget: bool)
    requires RunOk(previous) && RunOk(run) && tab in bar.runs && bar.runs[tab] == previous
             && Texts(run) == Texts(previous)
    ensures var after := Apply(bar, tab, previous, run, hasTarget);
            && tab in after.runs && Texts(after.runs[tab]) == Texts(previous)
            && after.runs[tab] == if run != previous && SendsLine(previous, run) && !hasTarget then StopRun(previous)
               else run
  {
    ChangesKeepOk(previous, MarksEnded);
  }

  // From the start of a run until another is started, whatever happens in
  // this tab and the others: each line the run has reached is sent once, and
  // once more for each retry after it failed; no other line is sent.
  lemma {:induction false} EachLineIsSentOnce(bar: Bar, steps: seq<Step>, tab: TabId, i: nat)
    requires BarOk(bar) && tab in bar.runs && GoesOn(steps, tab)
    ensures var after := Run(bar, steps);
            && tab in after.runs && Texts(after.runs[tab]) == Texts(bar.runs[tab])
            && SentOnce(Reached(bar, tab, i)) + Sendings(bar, steps, tab, i)
            == SentOnce(Reached(after, tab, i)) + Retryings(bar, steps, tab, i)
    decreases |steps|
  {
    if steps != [] {
      NextKeepsOk(bar, steps[0]);
      StepSendsOnce(bar, steps[0], tab, i);
      EachLineIsSentOnce(Next(bar, steps[0]), steps[1..], tab, i);
    }
  }
}
