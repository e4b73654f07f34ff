// What each prompt and each decision makes of a run, line by line
// (src/lib/composerRun.ts, src/lib/composerRuns.ts).
module ComposerSteps {
  import opened Sequences
  import opened JavaScriptText
  import opened ComposerRun
  import opened ComposerBar

  // ----- a line that ends -----

  // Line `i` as told; every other line is as it was.
  predicate LineBecomes(lines: seq<RunLine>, before: seq<RunLine>, i: int, status: LineStatus, exitCode: Option<int>) {
    && |lines| == |before|
    && forall k :: 0 <= k < |before| ==>
         lines[k] == if k == i then RunLine(before[i].text, status, exitCode) else before[k]
  }

  // The line under way ended with this status. A status that is not 0 holds
  // the run there; with another, or none, the next line is under way, or the
  // run is over after the last.
  predicate EndedWith(after: ComposerRun, run: ComposerRun, exitCode: Option<int>)
    requires HasCurrent(run)
  {
    var i := run.current;
    if exitCode.Some? && exitCode.value != 0
    then
      LineBecomes(after.lines, run.lines, i, LineFailed, exitCode) && (after.phase, after.current) == (Failed, i)
    else
      && |after.lines| == |run.lines| && after.lines[i] == RunLine(run.lines[i].text, Succeeded, exitCode)
      && (if i + 1 < |run.lines|
          then
            && (after.phase, after.current) == (Phase.Running, i + 1)
            && after.lines[i + 1] == RunLine(run.lines[i + 1].text, LineRunning, None)
          else (after.phase, after.current) == (Done, i))
      && forall k :: 0 <= k < |run.lines| && k != i && k != i + 1 ==> after.lines[k] == run.lines[k]
  }

  // A `#` with nothing but space before it.
  predicate IsOnlyComment(text: string) {
    exists k :: 0 <= k < |text| && text[k] == '#' && forall j :: 0 <= j < k ==> IsSpace(text[j])
  }

  lemma {:induction false} CommentExactlyWhen(text: string)
    ensures IsComment(text) <==> IsOnlyComment(text)
  {
    if text != "" && IsSpace(text[0]) {
      CommentExactlyWhen(text[1..]);
      if IsComment(text) {
        var k :| 0 <= k < |text| - 1 && text[1..][k] == '#' && forall j :: 0 <= j < k ==> IsSpace(text[1..][j]);
        assert text[k + 1] == '#' && forall j :: 0 < j < k + 1 ==> text[j] == text[1..][j - 1];
      }
      if IsOnlyComment(text) {
        var k :| 0 <= k < |text| && text[k] == '#' && forall j :: 0 <= j < k ==> IsSpace(text[j]);
        assert text[1..][k - 1] == '#' && forall j :: 0 <= j < k - 1 ==> text[1..][j] == text[j + 1];
      }
    }
  }

  // A prompt ends the line under way unless the shell marks that it ran
  // nothing; then only a comment ends, with no status, or a line the shell
  // could not take, with the status it gave. A run that is held or over is
  // left as it is.
  lemma PromptEnds(run: ComposerRun, exitCode: Option<int>, startedCommand: Option<bool>, status: Option<int>)
    requires RunOk(run)
    ensures var after := PromptReached(run, AtPrompt(exitCode, startedCommand, status));
      if run.phase != Phase.Running then after == run
      else if startedCommand != Some(false) then EndedWith(after, run, exitCode)
      else if IsOnlyComment(run.lines[run.current].text) then EndedWith(after, run, None)
      else if status.Some? && status.value != 0 then EndedWith(after, run, status)
      else after == run
  {
    CommentExactlyWhen(run.lines[run.current].text);
  }

  // ----- decisions -----

  // The run goes on with line `i`, or is over where there is none.
  predicate GoesOnWith(after: ComposerRun, run: ComposerRun, i: int) {
    if i < |run.lines|
    then LineBecomes(after.lines, run.lines, i, LineRunning, None) && (after.phase, after.current) == (Phase.Running, i)
    else after.lines == run.lines && (after.phase, after.current) == (Done, |run.lines| - 1)
  }

  // The line under way is left unfinished; nothing else of a run that is held
  // changes, but that it is stopped. One that is over stays so.
  predicate IsStopped(after: ComposerRun, run: ComposerRun)
    requires HasCurrent(run)
  {
    match run.phase
    case Running =>
      && LineBecomes(after.lines, run.lines, run.current, Unfinished, run.lines[run.current].exitCode)
      && (after.phase, after.current) == (Stopped, run.current)
    case Failed => after == run.(phase := Stopped)
    case _ => after == run
  }

  // A line that failed runs again, or is passed over; a run that is stopped,
  // or whose shell marks nothing any more, sends no further line. A run that
  // is not held has nothing to decide.
  lemma DecisionsDo(run: ComposerRun)
    requires RunOk(run)
    ensures if run.phase == Failed then GoesOnWith(RetryLine(run), run, run.current) else RetryLine(run) == run
    ensures if run.phase == Failed then GoesOnWith(ContinueRun(run), run, run.current + 1) else ContinueRun(run) == run
    ensures IsStopped(StopRun(run), run) && IsStopped(PromptReached(run, MarksEnded), run)
  {
  }

  // ----- the runs of all tabs -----

  // A run starts exactly in a tab whose shell is at its prompt and that has
  // no run going on; the reply says why not. Its first line is sent at once,
  // its prompts are followed, and no other tab is touched.
  lemma StartStarts(bar: Bar, tab: TabId, lines: seq<string>, state: ShellPromptState)
    ensures var after, reply := Start(bar, tab, lines, state), StartReply(bar, tab, lines, state);
      var busy := tab in bar.runs && (bar.runs[tab].phase == Phase.Running || bar.runs[tab].phase == Failed);
      if state == Prompt && !busy && lines != []
      then
        && reply == Started && tab in after.runs && after.runs == bar.runs[tab := after.runs[tab]]
        && GoesOnWith(after.runs[tab], ComposerRun(PendingLines(lines), Done, 0), 0)
        && after.sent == bar.sent + [Sent(tab, lines[0])] && after.following == bar.following + {tab}
      else after == bar && reply == NotStarted(if state != Prompt then state else Busy)
  {
    if state == Prompt && StartsRun(bar, tab, lines) {
      StartIsOk(lines);
    }
  }

  // Only a run that is over is forgotten, and nothing else changes.
  lemma DismissForgets(bar: Bar, tab: TabId)
    ensures Dismiss(bar, tab)
         == if tab in bar.runs && (bar.runs[tab].phase == Done || bar.runs[tab].phase == Stopped)
            then bar.(runs := bar.runs - {tab}) else bar
  {
  }

  // The run that `next` would be goes on with a line the one before did not have.
  predicate StartsALine(run: ComposerRun, next: ComposerRun) {
    next.phase == Phase.Running && (run.phase != Phase.Running || run.current != next.current)
  }

  // What a tab's run becomes is kept, its line is sent when it starts one,
  // and a run that is over is followed no longer. With no terminal there the
  // run is stopped instead of starting a line.
  lemma ChangeIsKept(bar: Bar, tab: TabId, run: ComposerRun, next: ComposerRun, hasTarget: bool)
    requires RunOk(run) && RunOk(next) && tab in bar.runs && bar.runs[tab] == run
    ensures var after := Apply(bar, tab, run, next, hasTarget);
      if StartsALine(run, next) && next != run && !hasTarget
      then
        && tab in after.runs && IsStopped(after.runs[tab], run) && after.sent == bar.sent
        && after.runs == bar.runs[tab := after.runs[tab]]
        && (run.phase == Phase.Running || run.phase == Failed ==> after.following == bar.following - {tab})
      else
        && after.runs == bar.runs[tab := next]
        && after.sent == (if next != run && StartsALine(run, next)
                          then bar.sent + [Sent(tab, next.lines[next.current].text)] else bar.sent)
        && (next != run && (next.phase == Done || next.phase == Stopped) ==> after.following == bar.following - {tab})
        && (next == run || next.phase == Phase.Running || next.phase == Failed ==> after.following == bar.following)
  {
    DecisionsDo(run);
    assert bar.runs[tab := run] == bar.runs;
  }
}
