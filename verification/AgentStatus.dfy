// Following the reports of coding agents in terminals (src/lib/agentStatus.ts):
// one tracker a terminal, and one map, shared by all of them, that says which
// terminal each session belongs to. A timer that is set is a field here, and
// its going off a step of its own.
module AgentStatus {
  import opened Sequences

  datatype ReportState = Processing | Waiting | Done | Error | Idle | Ended

  // Without a session a report concerns whichever terminal hears it; with one,
  // the terminal has to be found out.
  datatype AgentReport = AgentReport(agent: string, state: ReportState, session: Option<string>)

  datatype Status = Status(agent: string, activity: ReportState)

  // What a tracker tells its terminal.
  datatype Notice =
    | OnStatus(status: Option<Status>)
    | OnAgent(running: Option<string>)
    | OnAnnounce(agent: string, state: ReportState)

  const AGENT_CLAIM_WINDOW_MS := 10000
  const AGENT_ECHO_WINDOW_MS := 10000
  const AGENTS_REPORTING_STOPS: set<string> := {"codex", "opencode", "pi"}

  // `waitTimer` is the agent whose wait is announced when it goes off.
  datatype Tracker = Tracker(
    status: Option<Status>,
    agent: Option<string>,
    lastReportAt: Option<int>,
    waitTimer: Option<string>,
    submittedAt: Option<int>,
    sessions: set<string>,
    notices: seq<Notice>)

  const FRESH := Tracker(None, None, None, None, None, {}, [])

  // A tracker and the map it shares with the others, who are told apart by T.
  datatype Shared<T> = Shared(tracker: Tracker, owners: map<string, T>)

  // ----- what the steps do -----

  function SetAgent(t: Tracker, agent: Option<string>): Tracker {
    if t.agent == agent then t else t.(agent := agent, notices := t.notices + [OnAgent(agent)])
  }

  function SetStatus(t: Tracker, status: Option<Status>): Tracker {
    if t.status == status then t else t.(status := status, notices := t.notices + [OnStatus(status)])
  }

  function Announce(t: Tracker, agent: string, state: ReportState): Tracker {
    t.(notices := t.notices + [OnAnnounce(agent, state)])
  }

  predicate SpeaksForAgent(t: Tracker, now: int) {
    t.status.Some? || (t.lastReportAt.Some? && now - t.lastReportAt.value < AGENT_ECHO_WINDOW_MS)
  }

  function Submit(t: Tracker, now: int): Tracker {
    t.(submittedAt := Some(now))
  }

  function Interrupt(t: Tracker): Tracker {
    if t.status.None? || t.status.value.agent in AGENTS_REPORTING_STOPS then t
    else SetStatus(t.(waitTimer := None), None)
  }

  function Answer(t: Tracker): Tracker {
    if t.status.None? || t.status.value.activity != Waiting || t.status.value.agent !in AGENTS_REPORTING_STOPS then t
    else SetStatus(t.(waitTimer := None), Some(Status(t.status.value.agent, Processing)))
  }

  function WaitTimerFires(t: Tracker): Tracker {
    if t.waitTimer.None? then t else Announce(t.(waitTimer := None), t.waitTimer.value, Waiting)
  }

  function ReleaseSession<T(==)>(me: T, s: Shared<T>, session: string): Shared<T> {
    Shared(s.tracker.(sessions := s.tracker.sessions - {session}),
           if session in s.owners && s.owners[session] == me then s.owners - {session} else s.owners)
  }

  function ReleaseSessions<T(==)>(me: T, s: Shared<T>): Shared<T> {
    Shared(s.tracker.(sessions := {}),
           map session | session in s.owners
               && !(session in s.tracker.sessions && s.owners[session] == me) :: s.owners[session])
  }

  function Reset<T(==)>(me: T, s: Shared<T>): Shared<T> {
    var r := ReleaseSessions(me, s.(tracker := s.tracker.(waitTimer := None)));
    r.(tracker := SetAgent(SetStatus(r.tracker.(lastReportAt := None), None), None))
  }

  function Dispose<T(==)>(me: T, s: Shared<T>): Shared<T> {
    ReleaseSessions(me, s.(tracker := s.tracker.(waitTimer := None)))
  }

  // Enter was typed shortly before, and no session taken since.
  predicate MayClaim(t: Tracker, now: int) {
    t.submittedAt.Some? && now - t.submittedAt.value <= AGENT_CLAIM_WINDOW_MS
  }

  // Whether a report on the session is for this terminal.
  predicate IsFor<T(==)>(me: T, s: Shared<T>, session: string, state: ReportState, now: int) {
    if session in s.owners then s.owners[session] == me else state != Ended && MayClaim(s.tracker, now)
  }

  function Claim<T(==)>(me: T, s: Shared<T>, session: string, state: ReportState, now: int): Shared<T> {
    if !IsFor(me, s, session, state, now) then s
    else if session in s.owners then (if state == Ended then ReleaseSession(me, s, session) else s)
    else Shared(s.tracker.(submittedAt := None, sessions := s.tracker.sessions + {session}), s.owners[session := me])
  }

  // The report is acted on.
  predicate Acts<T(==)>(me: T, s: Shared<T>, report: AgentReport, now: int) {
    report.session.None? || IsFor(me, s, report.session.value, report.state, now)
  }

  // What a report for this terminal that does not end its agent makes of it.
  function Follow(t: Tracker, report: AgentReport, now: int): Tracker
    requires report.state != Ended
  {
    var heard := SetAgent(t.(waitTimer := None, lastReportAt := Some(now)), Some(report.agent));
    match report.state
    case Idle => SetStatus(heard, None)
    case Processing => SetStatus(heard, Some(Status(report.agent, Processing)))
    case Waiting => SetStatus(heard, Some(Status(report.agent, Waiting))).(waitTimer := Some(report.agent))
    case _ => Announce(SetStatus(heard, None), report.agent, report.state)
  }

  function Report<T(==)>(me: T, s: Shared<T>, report: AgentReport, now: int): Shared<T> {
    if !Acts(me, s, report, now) then s
    else
      var claimed := if report.session.Some? then Claim(me, s, report.session.value, report.state, now) else s;
      if report.state == Ended then Reset(me, claimed.(tracker := claimed.tracker.(waitTimer := None)))
      else claimed.(tracker := Follow(claimed.tracker, report, now))
  }
}

// The tracker as an object that updates its own fields and the shared map.
module AgentTrackers {
  import opened Sequences
  import opened AgentStatus
  import Spec = AgentStatus

  // One map for all trackers: who acts on the reports of a session.
  class SessionOwners {
    var owners: map<string, AgentTracker>

    constructor ()
      ensures owners == map[]
    {
      owners := map[];
    }
  }

  // The fields are those of `Tracker`, and `State` and `Both` collect them for
  // the contracts.
  class AgentTracker {
    const registry: SessionOwners
    var status: Option<Status>
    var agent: Option<string>
    var lastReportAt: Option<int>
    var waitTimer: Option<string>
    var submittedAt: Option<int>
    var sessions: set<string>
    var notices: seq<Notice>

    function State(): Tracker
      reads this
    {
      Tracker(status, agent, lastReportAt, waitTimer, submittedAt, sessions, notices)
    }

    function Both(): Shared<AgentTracker>
      reads this, registry
    {
      Shared(State(), registry.owners)
    }

    constructor (registry: SessionOwners)
      ensures this.registry == registry && State() == FRESH
    {
      this.registry := registry;
      status, agent, lastReportAt, waitTimer, submittedAt := None, None, None, None, None;
      sessions, notices := {}, [];
    }

    method SpeaksForAgent(now: int) returns (speaks: bool)
      ensures speaks == Spec.SpeaksForAgent(State(), now)
    {
      if status.Some? {
        return true;
      }
      return lastReportAt.Some? && now - lastReportAt.value < AGENT_ECHO_WINDOW_MS;
    }

    method Submit(now: int)
      modifies this
      ensures State() == Spec.Submit(old(State()), now)
    {
      submittedAt := Some(now);
    }

    method Report(report: AgentReport, now: int)
      modifies this, registry
      ensures Both() == Spec.Report(this, old(Both()), report, now)
    {
      if report.session.Some? {
        var isFor := Claim(report.session.value, report.state, now);
        if !isFor {
          return;
        }
      }
      CancelWait();
      if report.state == Ended {
        Reset();
        return;
      }
      lastReportAt := Some(now);
      SetAgent(Some(report.agent));
      if report.state == Idle {
        SetStatus(None);
        return;
      }
      if report.state == Processing || report.state == Waiting {
        SetStatus(Some(Status(report.agent, report.state)));
        if report.state == Waiting {
          waitTimer := Some(report.agent);
        }
        return;
      }
      SetStatus(None);
      notices := notices + [OnAnnounce(report.agent, report.state)];
    }

    method WaitTimerFires()
      modifies this
      ensures State() == Spec.WaitTimerFires(old(State()))
    {
      if waitTimer.Some? {
        notices := notices + [OnAnnounce(waitTimer.value, Waiting)];
        waitTimer := None;
      }
    }

    method Interrupt()
      modifies this
      ensures State() == Spec.Interrupt(old(State()))
    {
      if status.None? || status.value.agent in AGENTS_REPORTING_STOPS {
        return;
      }
      CancelWait();
      SetStatus(None);
    }

    method Answer()
      modifies this
      ensures State() == Spec.Answer(old(State()))
    {
      if status.None? || status.value.activity != Waiting || status.value.agent !in AGENTS_REPORTING_STOPS {
        return;
      }
      var asking := status.value.agent;
      CancelWait();
      SetStatus(Some(Status(asking, Processing)));
    }

    method Reset()
      modifies this, registry
      ensures Both() == Spec.Reset(this, old(Both()))
    {
      CancelWait();
      ReleaseSessions();
      lastReportAt := None;
      SetStatus(None);
      SetAgent(None);
    }

    method Dispose()
      modifies this, registry
      ensures Both() == Spec.Dispose(this, old(Both()))
    {
      CancelWait();
      ReleaseSessions();
    }

    method Claim(session: string, state: ReportState, now: int) returns (isFor: bool)
      modifies this, registry
      ensures isFor == IsFor(this, old(Both()), session, state, now)
      ensures Both() == Spec.Claim(this, old(Both()), session, state, now)
    {
      if session in registry.owners && registry.owners[session] == this {
        if state == Ended {
          ReleaseSession(session);
        }
        return true;
      }
      if session in registry.owners || state == Ended {
        return false;
      }
      if submittedAt.None? || now - submittedAt.value > AGENT_CLAIM_WINDOW_MS {
        return false;
      }
      submittedAt := None;
      registry.owners := registry.owners[session := this];
      sessions := sessions + {session};
      return true;
    }

    method ReleaseSession(session: string)
      modifies this`sessions, registry
      ensures Both() == Spec.ReleaseSession(this, old(Both()), session)
    {
      if session in registry.owners && registry.owners[session] == this {
        registry.owners := registry.owners - {session};
      }
      sessions := sessions - {session};
    }

    method ReleaseSessions()
      modifies this`sessions, registry
      ensures Both() == Spec.ReleaseSessions(this, old(Both()))
    {
      ghost var before := registry.owners;
      var left := sessions;
      while left != {}
        invariant left == sessions <= old(sessions)
        invariant registry.owners ==
          map session | session in before
              && !(session in old(sessions) - left && before[session] == this) :: before[session]
        decreases |left|
      {
        var session :| session in left;
        ReleaseSession(session);
        left := left - {session};
      }
    }

    method CancelWait()
      modifies this`waitTimer
      ensures waitTimer == None
    {
      if waitTimer.None? {
        return;
      }
      waitTimer := None;
    }

    method SetAgent(next: Option<string>)
      modifies this`agent, this`notices
      ensures State() == Spec.SetAgent(old(State()), next)
    {
      if agent == next {
        return;
      }
      agent := next;
      notices := notices + [OnAgent(next)];
    }

    method SetStatus(next: Option<Status>)
      modifies this`status, this`notices
      ensures State() == Spec.SetStatus(old(State()), next)
    {
      if status == next {
        return;
      }
      status := next;
      notices := notices + [OnStatus(next)];
    }
  }
}
