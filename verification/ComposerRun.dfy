// One run of the compose bar (src/lib/composerRun.ts) as a value: its lines with
// how each ended, which of them is current, and whether the run goes on, waits
// for a decision or is over.
module ComposerRun {
  import opened Sequences
  import opened JavaScriptText

  datatype LineStatus = Pending | LineRunning | Succeeded | LineFailed | Unfinished

  datatype RunLine = RunLine(text: string, status: LineStatus, exitCode: Option<int>)

  datatype Phase = Running | Failed | Done | Stopped

  // `current` indexes the line under way, or whose failure holds the run.
  datatype ComposerRun = ComposerRun(lines: seq<RunLine>, phase: Phase, current: int)

  // `startedCommand` says whether the shell marked that it ran something,
  // where it marks that at all; `status` is what it gave with the prompt.
  datatype PromptEvent =
    | AtPrompt(exitCode: Option<int>, startedCommand: Option<bool>, status: Option<int>)
    | MarksEnded

  // Makes `index` the current line, or finishes a run that has no such line.
  function RunFrom(lines: seq<RunLine>, index: nat): ComposerRun {
    if index >= |lines| then ComposerRun(lines, Done, |lines| - 1)
    else ComposerRun(lines[index := RunLine(lines[index].text, LineRunning, None)], Running, index)
  }

  function PendingLines(lines: seq<string>): (r: seq<RunLine>)
    ensures |r| == |lines| && forall i :: 0 <= i < |r| ==> r[i] == RunLine(lines[i], Pending, None)
  {
    seq(|lines|, i requires 0 <= i < |lines| => RunLine(lines[i], Pending, None))
  }

  function StartRun(lines: seq<string>): ComposerRun {
    RunFrom(PendingLines(lines), 0)
  }

  predicate HasCurrent(run: ComposerRun) {
    0 <= run.current < |run.lines|
  }

  function WithStatus(run: ComposerRun, line: RunLine): seq<RunLine>
    requires HasCurrent(run)
  {
    run.lines[run.current := line]
  }

  // No status, which a line without a command gives, is no failure.
  predicate Fails(exitCode: Option<int>) {
    exitCode.Some? && exitCode.value != 0
  }

  function FinishLine(run: ComposerRun, exitCode: Option<int>): ComposerRun
    requires HasCurrent(run)
  {
    if run.phase != Running then run
    else
      var lines := WithStatus(run,
                              RunLine(run.lines[run.current].text, if Fails(exitCode) then LineFailed
                                      else Succeeded, exitCode));
      if Fails(exitCode) then run.(lines := lines, phase := Failed) else RunFrom(lines, run.current + 1)
  }

  predicate IsComment(text: string) {
    var line := TrimStart(text);
    line != "" && line[0] == '#'
  }

  // Whether the prompt ends the running line, and with which exit code: one
  // after which the shell marks that it ran nothing does so only for a
  // comment, which runs nothing, or a line the shell could not parse.
  function LineEnd(run: ComposerRun, event: PromptEvent): Option<Option<int>>
    requires HasCurrent(run) && event.AtPrompt?
  {
    if run.phase != Running then None
    else if event.startedCommand != Some(false) then Some(event.exitCode)
    else if IsComment(run.lines[run.current].text) then Some(None)
    else if Fails(event.status) then Some(event.status)
    else None
  }

  function PromptReached(run: ComposerRun, event: PromptEvent): ComposerRun
    requires HasCurrent(run)
  {
    if event.MarksEnded? then StopRun(run)
    else if event.startedCommand != Some(false) then FinishLine(run, event.exitCode)
    else if run.phase != Running then run
    else if IsComment(run.lines[run.current].text) then FinishLine(run, None)
    else if Fails(event.status) then FinishLine(run, event.status)
    else run
  }

  function RetryLine(run: ComposerRun): ComposerRun
    requires HasCurrent(run)
  {
    if run.phase != Failed then run else RunFrom(run.lines, run.current)
  }

  function ContinueRun(run: ComposerRun): ComposerRun
    requires HasCurrent(run)
  {
    if run.phase != Failed then run else RunFrom(run.lines, run.current + 1)
  }

  // Takes the lines that still wait off the run; the shell is left to finish the
  // one it has.
  function StopRun(run: ComposerRun): ComposerRun
    requires HasCurrent(run)
  {
    if run.phase == Running then
      run.(lines := WithStatus(run, run.lines[run.current].(status := Unfinished)), phase := Stopped)
    else if run.phase == Failed then run.(phase := Stopped)
    else run
  }

  // Some line is still to be sent or to end.
  predicate IsRunActive(run: ComposerRun) {
    run.phase == Running || run.phase == Failed
  }

  // ----- what every run keeps -----

  predicate HasEnded(line: RunLine) {
    line.status == Succeeded || line.status == LineFailed
  }

  // Lines before the current one have ended and lines after it wait; the
  // current one is as the phase says.
  ghost predicate RunOk(run: ComposerRun) {
    && HasCurrent(run)
    && (forall i :: 0 <= i < run.current ==> HasEnded(run.lines[i]))
    && (forall i :: run.current < i < |run.lines| ==> run.lines[i] == RunLine(run.lines[i].text, Pending, None))
    && match run.phase
       case Running => run.lines[run.current].status == LineRunning
       case Failed => run.lines[run.current].status == LineFailed && Fails(run.lines[run.current].exitCode)
       case Done => run.current == |run.lines| - 1 && HasEnded(run.lines[run.current])
       case Stopped => run.lines[run.current].status == Unfinished || run.lines[run.current].status == LineFailed
  }

  function Texts(run: ComposerRun): (texts: seq<string>)
    ensures |texts| == |run.lines| && forall i :: 0 <= i < |texts| ==> texts[i] == run.lines[i].text
  {
    seq(|run.lines|, i requires 0 <= i < |run.lines| => run.lines[i].text)
  }

  lemma StartIsOk(lines: seq<string>)
    requires lines != []
    ensures RunOk(StartRun(lines)) && StartRun(lines).phase == Running && StartRun(lines).current == 0
    ensures Texts(StartRun(lines)) == lines
  {
  }

  // Everything before line `index` has ended and everything after it waits.
  ghost predicate Split(lines: seq<RunLine>, index: nat) {
    && (forall i :: 0 <= i < index && i < |lines| ==> HasEnded(lines[i]))
    && (forall i :: index < i < |lines| ==> lines[i] == RunLine(lines[i].text, Pending, None))
  }

  lemma RunFromIsOk(lines: seq<RunLine>, index: nat)
    requires 0 < |lines| && index <= |lines| && Split(lines, index)
    ensures RunOk(RunFrom(lines, index)) && Texts(RunFrom(lines, index)) == Texts(ComposerRun(lines, Done, 0))
  {
  }

  lemma FinishIsOk(run: ComposerRun, exitCode: Option<int>)
    requires RunOk(run)
    ensures RunOk(FinishLine(run, exitCode)) && Texts(FinishLine(run, exitCode)) == Texts(run)
  {
    if run.phase == Running && !Fails(exitCode) {
      var lines := WithStatus(run, RunLine(run.lines[run.current].text, Succeeded, exitCode));
      RunFromIsOk(lines, run.current + 1);
    }
  }

  lemma StopIsOk(run: ComposerRun)
    requires RunOk(run)
    ensures RunOk(StopRun(run)) && Texts(StopRun(run)) == Texts(run)
  {
  }

  lemma PromptIsOk(run: ComposerRun, event: PromptEvent)
    requires RunOk(run)
    ensures RunOk(PromptReached(run, event)) && Texts(PromptReached(run, event)) == Texts(run)
  {
    if event.MarksEnded? {
      StopIsOk(run);
    } else if event.startedCommand != Some(false) {
      FinishIsOk(run, event.exitCode);
    } else if run.phase == Running {
      FinishIsOk(run, None);
      FinishIsOk(run, event.status);
    }
  }

  lemma RetryIsOk(run: ComposerRun)
    requires RunOk(run)
    ensures RunOk(RetryLine(run)) && Texts(RetryLine(run)) == Texts(run)
    ensures RunOk(ContinueRun(run)) && Texts(ContinueRun(run)) == Texts(run)
  {
    if run.phase == Failed {
      RunFromIsOk(run.lines, run.current);
      RunFromIsOk(run.lines, run.current + 1);
    }
  }

  lemma ChangesKeepOk(run: ComposerRun, event: PromptEvent)
    requires RunOk(run)
    ensures RunOk(PromptReached(run, event)) && RunOk(RetryLine(run)) && RunOk(ContinueRun(run)) && RunOk(StopRun(run))
    ensures Texts(PromptReached(run, event)) == Texts(run) && Texts(StopRun(run)) == Texts(run)
    ensures Texts(RetryLine(run)) == Texts(run) && Texts(ContinueRun(run)) == Texts(run)
  {
    StopIsOk(run);
    PromptIsOk(run, event);
    RetryIsOk(run);
  }

  // A prompt moves on exactly when it ends the line without failing it; one
  // that fails it leaves the run waiting there.
  lemma PromptMovesOnExactlyWhen(run: ComposerRun, event: PromptEvent)
    requires RunOk(run)
    ensures var next := PromptReached(run, event);
            && (next.phase == Running && next.current != run.current
                <==>
                event.AtPrompt? && LineEnd(run, event).Some? && !Fails(LineEnd(run, event).value)
                && run.current + 1 < |run.lines|)
            && (next != run && next.phase == Failed
                <==> event.AtPrompt? && LineEnd(run, event).Some? && Fails(LineEnd(run, event).value))
            && (next.phase == Running && next.current != run.current ==>
                  next.current == run.current + 1 && next.lines[run.current].status == Succeeded)
            && (next.phase == Running && next.current == run.current ==> next == run)
  {
  }
}
