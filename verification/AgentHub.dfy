// All the terminals together (src/lib/agentStatus.ts): whatever is typed and
// reported in whichever of them, each session has one owner, an addressed
// report is acted on once, and no terminal takes more sessions than it was
// given Enters.
module AgentHub {
  import opened Sequences
  import opened AgentStatus

  datatype Hub = Hub(trackers: seq<Tracker>, owners: map<string, nat>)

  datatype Step =
    | Opened
    | Submitted(i: nat, now: int)
    | Reported(i: nat, report: AgentReport, now: int)
    | Interrupted(i: nat)
    | Answered(i: nat)
    | WasReset(i: nat)
    | Disposed(i: nat)
    | WaitFired(i: nat)

  function At(hub: Hub, i: nat): Shared<nat>
    requires i < |hub.trackers|
  {
    Shared(hub.trackers[i], hub.owners)
  }

  // One step of one terminal, which sees the map all of them share.
  function StepOf(step: Step, s: Shared<nat>): Shared<nat>
    requires !step.Opened?
  {
    match step
    case Submitted(_, now) => s.(tracker := Submit(s.tracker, now))
    case Reported(i, report, now) => Report(i, s, report, now)
    case Interrupted(_) => s.(tracker := Interrupt(s.tracker))
    case Answered(_) => s.(tracker := Answer(s.tracker))
    case WasReset(i) => Reset(i, s)
    case Disposed(i) => Dispose(i, s)
    case WaitFired(_) => s.(tracker := WaitTimerFires(s.tracker))
  }

  function Put(hub: Hub, i: nat, s: Shared<nat>): Hub
    requires i < |hub.trackers|
  {
    Hub(hub.trackers[i := s.tracker], s.owners)
  }

  function Apply(hub: Hub, step: Step): Hub {
    if step.Opened? then hub.(trackers := hub.trackers + [FRESH])
    else if step.i >= |hub.trackers| then hub
    else Put(hub, step.i, StepOf(step, At(hub, step.i)))
  }

  function Run(hub: Hub, steps: seq<Step>): Hub
    decreases |steps|
  {
    if steps == [] then hub else Run(Apply(hub, steps[0]), steps[1..])
  }

  const EMPTY := Hub([], map[])

  // ----- the map and the trackers agree -----

  // The sessions this terminal holds are those the map says are its own.
  ghost predicate Holds(i: nat, s: Shared<nat>) {
    forall session :: session in s.tracker.sessions <==> session in s.owners && s.owners[session] == i
  }

  ghost predicate Agree(hub: Hub) {
    && (forall i :: 0 <= i < |hub.trackers| ==> Holds(i, At(hub, i)))
    && forall session :: session in hub.owners ==> hub.owners[session] < |hub.trackers|
  }

  // A step of one terminal leaves alone what others own.
  ghost predicate OthersKept(me: nat, before: map<string, nat>, after: map<string, nat>) {
    && (forall session :: session in before && before[session] != me ==>
          session in after && after[session] == before[session])
    && (forall session :: session in after && after[session] != me ==>
          session in before && after[session] == before[session])
  }

  lemma ReportKeepsHolding(i: nat, s: Shared<nat>, report: AgentReport, now: int)
    requires Holds(i, s)
    ensures Holds(i, Report(i, s, report, now)) && OthersKept(i, s.owners, Report(i, s, report, now).owners)
  {
    if Acts(i, s, report, now) {
      var claimed := if report.session.Some? then Claim(i, s, report.session.value, report.state, now) else s;
      assert Holds(i, claimed) && OthersKept(i, s.owners, claimed.owners);
      if report.state == Ended {
        ResetKeepsHolding(i, claimed.(tracker := claimed.tracker.(waitTimer := None)));
      } else {
        assert Follow(claimed.tracker, report, now).sessions == claimed.tracker.sessions;
      }
    }
  }

  lemma ResetKeepsHolding(i: nat, s: Shared<nat>)
    requires Holds(i, s)
    ensures Holds(i, Reset(i, s)) && OthersKept(i, s.owners, Reset(i, s).owners)
    ensures Holds(i, Dispose(i, s)) && OthersKept(i, s.owners, Dispose(i, s).owners)
    ensures forall session :: session in Reset(i, s).owners ==> session in s.owners && s.owners[session] != i
  {
  }

  lemma StepKeepsHolding(step: Step, s: Shared<nat>)
    requires !step.Opened? && Holds(step.i, s)
    ensures Holds(step.i, StepOf(step, s)) && OthersKept(step.i, s.owners, StepOf(step, s).owners)
  {
    if step.Reported? {
      ReportKeepsHolding(step.i, s, step.report, step.now);
    } else if step.WasReset? || step.Disposed? {
      ResetKeepsHolding(step.i, s);
    }
  }

  lemma PutKeepsAgreement(hub: Hub, i: nat, s: Shared<nat>)
    requires Agree(hub) && i < |hub.trackers| && Holds(i, s) && OthersKept(i, hub.owners, s.owners)
    ensures Agree(Put(hub, i, s))
  {
    var after := Put(hub, i, s);
    forall j | 0 <= j < |after.trackers| ensures Holds(j, At(after, j)) {
      if j != i {
        assert Holds(j, At(hub, j));
      }
    }
  }

  lemma ApplyKeepsAgreement(hub: Hub, step: Step)
    requires Agree(hub)
    ensures Agree(Apply(hub, step))
  {
    if step.Opened? {
      var after := Apply(hub, step);
      forall j | 0 <= j < |after.trackers| ensures Holds(j, At(after, j)) {
        if j < |hub.trackers| {
          assert Holds(j, At(hub, j));
        }
      }
    } else if step.i < |hub.trackers| {
      assert Holds(step.i, At(hub, step.i));
      StepKeepsHolding(step, At(hub, step.i));
      PutKeepsAgreement(hub, step.i, StepOf(step, At(hub, step.i)));
    }
  }

  // In every run each session is held by exactly the terminal the map names.
  lemma {:induction false} RunKeepsAgreement(hub: Hub, steps: seq<Step>)
    requires Agree(hub)
    ensures Agree(Run(hub, steps))
    decreases |steps|
  {
    if steps != [] {
      ApplyKeepsAgreement(hub, steps[0]);
      RunKeepsAgreement(Apply(hub, steps[0]), steps[1..]);
    }
  }

  lemma EverySessionHasOneOwner(steps: seq<Step>, i: nat, j: nat, session: string)
    requires var hub := Run(EMPTY, steps); i < |hub.trackers| && j < |hub.trackers|
    requires var hub := Run(EMPTY, steps); session in hub.trackers[i].sessions && session in hub.trackers[j].sessions
    ensures i == j && session in Run(EMPTY, steps).owners && Run(EMPTY, steps).owners[session] == i
  {
    RunKeepsAgreement(EMPTY, steps);
    var hub := Run(EMPTY, steps);
    assert Holds(i, At(hub, i)) && Holds(j, At(hub, j));
  }

  // ----- a report that reaches every terminal -----

  function Deliver(hub: Hub, order: seq<nat>, report: AgentReport, now: int): Hub
    decreases |order|
  {
    if order == [] then hub else Deliver(Apply(hub, Reported(order[0], report, now)), order[1..], report, now)
  }

  // Those who act on it, in the order they hear of it.
  function ActedOn(hub: Hub, order: seq<nat>, report: AgentReport, now: int): seq<nat>
    requires forall k :: 0 <= k < |order| ==> order[k] < |hub.trackers|
    decreases |order|
  {
    if order == [] then []
    else
      (if Acts(order[0], At(hub, order[0]), report, now) then [order[0]] else [])
      + ActedOn(Apply(hub, Reported(order[0], report, now)), order[1..], report, now)
  }

  predicate MayActOn(hub: Hub, i: nat, session: string, state: ReportState, now: int)
    requires i < |hub.trackers|
  {
    if session in hub.owners then hub.owners[session] == i else state != Ended && MayClaim(hub.trackers[i], now)
  }

  // Once one terminal acted, the report finds no other that would.
  lemma ActingSettlesIt(hub: Hub, i: nat, report: AgentReport, now: int)
    requires Agree(hub) && i < |hub.trackers| && report.session.Some? && Acts(i, At(hub, i), report, now)
    ensures var after := Apply(hub, Reported(i, report, now));
            forall j :: 0 <= j < |after.trackers| && j != i
                ==> !MayActOn(after, j, report.session.value, report.state, now)
  {
    assert Holds(i, At(hub, i));
    var session := report.session.value;
    var claimed := Claim(i, At(hub, i), session, report.state, now);
    if report.state == Ended {
      assert Holds(i, claimed);
      ResetKeepsHolding(i, claimed.(tracker := claimed.tracker.(waitTimer := None)));
    } else {
      assert claimed.owners[session] == i;
    }
  }

  lemma {:induction false} NobodyActs(hub: Hub, order: seq<nat>, report: AgentReport, now: int)
    requires report.session.Some?
    requires forall k :: 0 <= k < |order| ==> order[k] < |hub.trackers|
    requires forall k :: 0 <= k < |order| ==> !MayActOn(hub, order[k], report.session.value, report.state, now)
    ensures ActedOn(hub, order, report, now) == []
    decreases |order|
  {
    if order != [] {
      assert !MayActOn(hub, order[0], report.session.value, report.state, now);
      assert Apply(hub, Reported(order[0], report, now)) == hub;
      NobodyActs(hub, order[1..], report, now);
    }
  }

  // In whatever order the terminals hear of a report on a session, one acts
  // on it when one of them owns it or, of a session not heard of before,
  // has an Enter to spend; and never two.
  lemma {:induction false} OneTerminalActs(hub: Hub, order: seq<nat>, report: AgentReport, now: int)
    requires Agree(hub) && report.session.Some? && Distinct(order)
    requires forall k :: 0 <= k < |order| ==> order[k] < |hub.trackers|
    ensures |ActedOn(hub, order, report, now)| <= 1
    ensures |ActedOn(hub, order, report, now)| == 1 <==>
              exists k :: 0 <= k < |order| && MayActOn(hub, order[k], report.session.value, report.state, now)
    decreases |order|
  {
    if order != [] {
      var i, rest := order[0], order[1..];
      var after := Apply(hub, Reported(i, report, now));
      if Acts(i, At(hub, i), report, now) {
        ActingSettlesIt(hub, i, report, now);
        NobodyActs(after, rest, report, now);
        assert MayActOn(hub, order[0], report.session.value, report.state, now);
      } else {
        assert after == hub;
        OneTerminalActs(hub, rest, report, now);
        assert !MayActOn(hub, i, report.session.value, report.state, now);
        if k :| 0 <= k < |order| && MayActOn(hub, order[k], report.session.value, report.state, now) {
          assert rest[k - 1] == order[k];
        }
      }
    }
  }

  // ----- no more sessions than Enters -----

  function SessionsOf(hub: Hub, i: nat): set<string> {
    if i < |hub.trackers| then hub.trackers[i].sessions else {}
  }

  // How many sessions the terminal took in the run.
  function Taken(hub: Hub, steps: seq<Step>, i: nat): nat
    decreases |steps|
  {
    if steps == [] then 0
    else |SessionsOf(Apply(hub, steps[0]), i) - SessionsOf(hub, i)| + Taken(Apply(hub, steps[0]), steps[1..], i)
  }

  function Enters(steps: seq<Step>, i: nat): nat {
    if steps == [] then 0
    else (if steps[0].Submitted? && steps[0].i == i then 1 else 0) + Enters(steps[1..], i)
  }

  function Unspent(hub: Hub, i: nat): nat {
    if i < |hub.trackers| && hub.trackers[i].submittedAt.Some? then 1 else 0
  }

  lemma StepTakesAtMostOne(step: Step, s: Shared<nat>)
    requires !step.Opened?
    ensures var t, u := s.tracker, StepOf(step, s).tracker;
            && (u.sessions <= t.sessions
                || (t.submittedAt.Some? && u.submittedAt.None?
                    && exists session :: u.sessions == t.sessions + {session}))
            && (u.submittedAt.Some? ==> t.submittedAt.Some? || step.Submitted?)
  {
    if step.Reported? && step.report.session.Some? {
      assert s.tracker.sessions + {step.report.session.value} == s.tracker.sessions + {step.report.session.value};
    }
  }

  lemma ApplySpendsOnePerSession(hub: Hub, step: Step, i: nat)
    ensures |SessionsOf(Apply(hub, step), i) - SessionsOf(hub, i)| + Unspent(Apply(hub, step), i)
         <= Unspent(hub, i) + Enters([step], i)
  {
    var before, after := SessionsOf(hub, i), SessionsOf(Apply(hub, step), i);
    if step.Opened? {
      assert after - before == {};
    } else if step.i == i && i < |hub.trackers| {
      StepTakesAtMostOne(step, At(hub, i));
      if after <= before {
        assert after - before == {};
      } else {
        var session :| after == before + {session};
        assert after - before <= {session};
        if session !in before {
          assert after - before == {session};
        }
      }
    } else {
      assert after - before == {};
    }
  }

  // No terminal takes more sessions than it was given Enters.
  lemma {:induction false} TakenWithinEnters(hub: Hub, steps: seq<Step>, i: nat)
    ensures Taken(hub, steps, i) + Unspent(Run(hub, steps), i) <= Unspent(hub, i) + Enters(steps, i)
    decreases |steps|
  {
    if steps != [] {
      ApplySpendsOnePerSession(hub, steps[0], i);
      TakenWithinEnters(Apply(hub, steps[0]), steps[1..], i);
      assert Enters([steps[0]], i) + Enters(steps[1..], i) == Enters(steps, i) by {
        assert Enters([], i) == 0;
      }
    }
  }

  // ----- a wait to announce -----

  // A wait is only to be announced while the tab shows that agent waiting,
  // and what the tab shows is about the agent that runs.
  predicate Armed(t: Tracker) {
    && (t.waitTimer.Some? ==> t.status == Some(Status(t.waitTimer.value, Waiting)))
    && (t.status.Some? ==> t.agent == Some(t.status.value.agent) && t.status.value.activity in {Processing, Waiting})
  }

  // What a terminal was told last of all that it is told of that kind.
  function LastStatus(notices: seq<Notice>): Option<Status> {
    if notices == [] then None
    else if notices[|notices| - 1].OnStatus? then notices[|notices| - 1].status
    else LastStatus(notices[..|notices| - 1])
  }

  function LastAgent(notices: seq<Notice>): Option<string> {
    if notices == [] then None
    else if notices[|notices| - 1].OnAgent? then notices[|notices| - 1].running
    else LastAgent(notices[..|notices| - 1])
  }

  ghost predicate UpToDate(t: Tracker) {
    LastStatus(t.notices) == t.status && LastAgent(t.notices) == t.agent
  }

  lemma TellsLast(notices: seq<Notice>, n: Notice)
    ensures LastStatus(notices + [n]) == if n.OnStatus? then n.status else LastStatus(notices)
    ensures LastAgent(notices + [n]) == if n.OnAgent? then n.running else LastAgent(notices)
  {
    assert (notices + [n])[..|notices|] == notices;
  }

  lemma SetKeepsUpToDate(t: Tracker, status: Option<Status>, agent: Option<string>)
    requires UpToDate(t)
    ensures UpToDate(SetStatus(t, status)) && UpToDate(SetAgent(t, agent))
  {
    TellsLast(t.notices, OnStatus(status));
    TellsLast(t.notices, OnAgent(agent));
  }

  lemma AnnounceKeepsUpToDate(t: Tracker, agent: string, state: ReportState)
    requires UpToDate(t)
    ensures UpToDate(Announce(t, agent, state))
  {
    TellsLast(t.notices, OnAnnounce(agent, state));
  }

  lemma FollowKeepsUpToDate(t: Tracker, report: AgentReport, now: int)
    requires UpToDate(t) && report.state != Ended
    ensures UpToDate(Follow(t, report, now))
  {
    var heard := t.(waitTimer := None, lastReportAt := Some(now));
    SetKeepsUpToDate(heard, None, Some(report.agent));
    var named := SetAgent(heard, Some(report.agent));
    SetKeepsUpToDate(named, None, None);
    SetKeepsUpToDate(named, Some(Status(report.agent, report.state)), None);
    AnnounceKeepsUpToDate(SetStatus(named, None), report.agent, report.state);
  }

  lemma ResetKeepsUpToDate(i: nat, s: Shared<nat>)
    requires UpToDate(s.tracker)
    ensures UpToDate(Reset(i, s).tracker)
  {
    var bare := ReleaseSessions(i, s.(tracker := s.tracker.(waitTimer := None))).tracker.(lastReportAt := None);
    SetKeepsUpToDate(bare, None, None);
    SetKeepsUpToDate(SetStatus(bare, None), None, None);
  }

  lemma ReportKeepsArmed(i: nat, s: Shared<nat>, report: AgentReport, now: int)
    requires Armed(s.tracker)
    ensures Armed(Report(i, s, report, now).tracker)
  {
    hide Acts;
    if Acts(i, s, report, now) {
      var claimed := if report.session.Some? then Claim(i, s, report.session.value, report.state, now) else s;
      if report.state != Ended {
        FollowIsArmed(claimed.tracker, report, now);
      }
    }
  }

  lemma FollowIsArmed(t: Tracker, report: AgentReport, now: int)
    requires report.state != Ended
    ensures Armed(Follow(t, report, now))
  {
  }

  lemma StepKeepsArmed(step: Step, s: Shared<nat>)
    requires !step.Opened? && Armed(s.tracker)
    ensures Armed(StepOf(step, s).tracker)
  {
    hide Report;
    if step.Reported? {
      ReportKeepsArmed(step.i, s, step.report, step.now);
    }
  }

  lemma StepKeepsUpToDate(step: Step, s: Shared<nat>)
    requires !step.Opened? && UpToDate(s.tracker)
    ensures UpToDate(StepOf(step, s).tracker)
  {
    match step {
      case Submitted(_, _) =>
      case Reported(i, report, now) =>
        if Acts(i, s, report, now) {
          var claimed := if report.session.Some? then Claim(i, s, report.session.value, report.state, now) else s;
          if report.state == Ended {
            ResetKeepsUpToDate(i, claimed.(tracker := claimed.tracker.(waitTimer := None)));
          } else {
            FollowKeepsUpToDate(claimed.tracker, report, now);
          }
        }
      case Interrupted(_) => SetKeepsUpToDate(s.tracker.(waitTimer := None), None, None);
      case Answered(_) =>
        if s.tracker.status.Some? {
          SetKeepsUpToDate(s.tracker.(waitTimer := None), Some(Status(s.tracker.status.value.agent, Processing)), None);
        }
      case WasReset(i) => ResetKeepsUpToDate(i, s);
      case Disposed(i) =>
      case WaitFired(_) =>
        if s.tracker.waitTimer.Some? {
          AnnounceKeepsUpToDate(s.tracker.(waitTimer := None), s.tracker.waitTimer.value, Waiting);
        }
    }
  }

  ghost predicate AllTold(hub: Hub) {
    forall i :: 0 <= i < |hub.trackers| ==> Armed(hub.trackers[i]) && UpToDate(hub.trackers[i])
  }

  // In every run a timer only runs while its agent's wait is shown, and each
  // terminal was last told the status and the agent its tracker holds.
  lemma {:induction false} RunKeepsTerminalsTold(hub: Hub, steps: seq<Step>)
    requires AllTold(hub)
    ensures AllTold(Run(hub, steps))
    decreases |steps|
  {
    if steps != [] {
      var step := steps[0];
      if !step.Opened? && step.i < |hub.trackers| {
        StepKeepsArmed(step, At(hub, step.i));
        StepKeepsUpToDate(step, At(hub, step.i));
      }
      RunKeepsTerminalsTold(Apply(hub, step), steps[1..]);
    }
  }

  // So in every run a wait that is announced is what the terminal was last
  // told, of the agent it was last told runs there.
  lemma AnnouncedWaitsAreShown(steps: seq<Step>, i: nat)
    requires i < |Run(EMPTY, steps).trackers| && Run(EMPTY, steps).trackers[i].waitTimer.Some?
    ensures var t := Run(EMPTY, steps).trackers[i];
            var after := Apply(Run(EMPTY, steps), WaitFired(i)).trackers[i];
            && after.notices == t.notices + [OnAnnounce(t.waitTimer.value, Waiting)] && after.waitTimer.None?
            && LastStatus(after.notices) == Some(Status(t.waitTimer.value, Waiting))
            && LastAgent(after.notices) == t.waitTimer
  {
    RunKeepsTerminalsTold(EMPTY, steps);
    var t := Run(EMPTY, steps).trackers[i];
    TellsLast(t.notices, OnAnnounce(t.waitTimer.value, Waiting));
  }

  // Back at the shell's prompt a terminal is left with nothing: no agent, no
  // status, no wait to announce and no session, and it was told so.
  lemma ResetLeavesNothing(steps: seq<Step>, i: nat)
    requires i < |Run(EMPTY, steps).trackers|
    ensures var after := Apply(Run(EMPTY, steps), WasReset(i));
            && after.trackers[i].waitTimer.None? && after.trackers[i].sessions == {}
            && LastStatus(after.trackers[i].notices).None? && LastAgent(after.trackers[i].notices).None?
            && forall session :: session in after.owners ==> after.owners[session] != i
  {
    RunKeepsTerminalsTold(EMPTY, steps);
    RunKeepsAgreement(EMPTY, steps);
    var hub := Run(EMPTY, steps);
    assert Holds(i, At(hub, i));
    ResetKeepsUpToDate(i, At(hub, i));
    ResetKeepsHolding(i, At(hub, i));
  }

  // ----- when a terminal speaks for its agent -----

  // The report comes to this terminal, and it acts on it.
  predicate ActsIn(hub: Hub, step: Step, i: nat) {
    step.Reported? && step.i == i && i < |hub.trackers| && Acts(i, At(hub, i), step.report, step.now)
  }

  // In the run the terminal acts on no report.
  predicate HearsNothing(hub: Hub, steps: seq<Step>, i: nat)
    decreases |steps|
  {
    steps == [] || (!ActsIn(hub, steps[0], i) && HearsNothing(Apply(hub, steps[0]), steps[1..], i))
  }

  // In the run the terminal is not reset, its agent does not end, and what
  // it acts on comes no earlier than `since`.
  predicate StaysHeard(hub: Hub, steps: seq<Step>, i: nat, since: int)
    decreases |steps|
  {
    || steps == []
    || (&& steps[0] != WasReset(i)
        && (ActsIn(hub, steps[0], i) ==> steps[0].report.state != Ended && steps[0].now >= since)
        && StaysHeard(Apply(hub, steps[0]), steps[1..], i, since))
  }

  // Nothing is shown, and the last report acted on came at `heard`, if one did.
  predicate ShowsNothingSince(t: Tracker, heard: Option<int>) {
    t.status.None? && (t.lastReportAt.None? || t.lastReportAt == heard)
  }

  lemma StepShowsNothing(hub: Hub, step: Step, i: nat, heard: Option<int>)
    requires i < |hub.trackers| && ShowsNothingSince(hub.trackers[i], heard) && !ActsIn(hub, step, i)
    ensures i < |Apply(hub, step).trackers| && ShowsNothingSince(Apply(hub, step).trackers[i], heard)
  {
  }

  lemma {:induction false} ShowsNothingUntilHeard(hub: Hub, steps: seq<Step>, i: nat, heard: Option<int>)
    requires i < |hub.trackers| && ShowsNothingSince(hub.trackers[i], heard) && HearsNothing(hub, steps, i)
    ensures i < |Run(hub, steps).trackers| && ShowsNothingSince(Run(hub, steps).trackers[i], heard)
    decreases |steps|
  {
    if steps != [] {
      StepShowsNothing(hub, steps[0], i, heard);
      ShowsNothingUntilHeard(Apply(hub, steps[0]), steps[1..], i, heard);
    }
  }

  // Back at the shell's prompt, or with its agent ended, a terminal speaks
  // for no agent at any time until it acts on a report again.
  lemma SilentUntilAReport(hub: Hub, last: Step, steps: seq<Step>, i: nat, now: int)
    requires i < |hub.trackers| && (last == WasReset(i) || (ActsIn(hub, last, i) && last.report.state == Ended))
    requires HearsNothing(Apply(hub, last), steps, i)
    ensures i < |Run(Apply(hub, last), steps).trackers|
    ensures !SpeaksForAgent(Run(Apply(hub, last), steps).trackers[i], now)
  {
    ShowsNothingUntilHeard(Apply(hub, last), steps, i, None);
  }

  // A report that leaves nothing to show is forgotten when its time is up.
  lemma SilentOnceForgotten(hub: Hub, last: Step, steps: seq<Step>, i: nat, now: int)
    requires i < |hub.trackers| && ActsIn(hub, last, i) && last.report.state in {Done, Error, Idle}
    requires HearsNothing(Apply(hub, last), steps, i) && now >= last.now + AGENT_ECHO_WINDOW_MS
    ensures i < |Run(Apply(hub, last), steps).trackers|
    ensures !SpeaksForAgent(Run(Apply(hub, last), steps).trackers[i], now)
  {
    ShowsNothingUntilHeard(Apply(hub, last), steps, i, Some(last.now));
  }

  lemma StepStaysHeard(hub: Hub, step: Step, i: nat, since: int)
    requires i < |hub.trackers| && hub.trackers[i].lastReportAt.Some? && hub.trackers[i].lastReportAt.value >= since
    requires step != WasReset(i) && (ActsIn(hub, step, i) ==> step.report.state != Ended && step.now >= since)
    ensures i < |Apply(hub, step).trackers|
    ensures var t := Apply(hub, step).trackers[i]; t.lastReportAt.Some? && t.lastReportAt.value >= since
  {
  }

  lemma {:induction false} RunStaysHeard(hub: Hub, steps: seq<Step>, i: nat, since: int)
    requires i < |hub.trackers| && hub.trackers[i].lastReportAt.Some? && hub.trackers[i].lastReportAt.value >= since
    requires StaysHeard(hub, steps, i, since)
    ensures i < |Run(hub, steps).trackers|
    ensures var t := Run(hub, steps).trackers[i]; t.lastReportAt.Some? && t.lastReportAt.value >= since
    decreases |steps|
  {
    if steps != [] {
      StepStaysHeard(hub, steps[0], i, since);
      RunStaysHeard(Apply(hub, steps[0]), steps[1..], i, since);
    }
  }

  // Whatever is typed or reported after it, a report acted on that does not
  // end the agent has the terminal speak for it for ten seconds, unless the
  // terminal is reset or the agent ends before.
  lemma SpeaksAfterAReport(hub: Hub, heard: Step, steps: seq<Step>, i: nat, now: int)
    requires i < |hub.trackers| && ActsIn(hub, heard, i) && heard.report.state != Ended
    requires StaysHeard(Apply(hub, heard), steps, i, heard.now) && now < heard.now + AGENT_ECHO_WINDOW_MS
    ensures i < |Run(Apply(hub, heard), steps).trackers|
    ensures SpeaksForAgent(Run(Apply(hub, heard), steps).trackers[i], now)
  {
    RunStaysHeard(Apply(hub, heard), steps, i, heard.now);
  }
}
