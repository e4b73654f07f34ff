// What each step tells a terminal and announces to the user, and to whom a
// report comes (src/lib/agentStatus.ts).
module AgentNotices {
  import opened Sequences
  import opened AgentStatus
  import opened AgentHub

  // ----- notices added -----

  // The announcements among the notices.
  function Announced(notices: seq<Notice>): seq<Notice> {
    if notices == [] then []
    else (if notices[0].OnAnnounce? then [notices[0]] else []) + Announced(notices[1..])
  }

  lemma {:induction false} AnnouncedAppend(a: seq<Notice>, b: seq<Notice>)
    ensures Announced(a + b) == Announced(a) + Announced(b)
  {
    if a == [] {
      assert a + b == b;
    } else {
      AnnouncedAppend(a[1..], b);
      assert (a + b)[1..] == a[1..] + b;
      Associates(if a[0].OnAnnounce? then [a[0]] else [], Announced(a[1..]), Announced(b));
    }
  }

  // The notices of `after` are those of `t` and then more, which announce
  // `news` and tell of a status or an agent only where it changed.
  predicate Adds(after: Tracker, t: Tracker, news: seq<Notice>) {
    && t.notices <= after.notices
    && var more := after.notices[|t.notices|..];
       && Announced(more) == news
       && forall k :: 0 <= k < |more| ==>
            && (more[k].OnStatus? ==> after.status != t.status && more[k] == OnStatus(after.status))
            && (more[k].OnAgent? ==> after.agent != t.agent && more[k] == OnAgent(after.agent))
  }

  lemma NothingAnnounced(more: seq<Notice>)
    requires forall k :: 0 <= k < |more| ==> !more[k].OnAnnounce?
    ensures Announced(more) == []
  {
    if more != [] {
      NothingAnnounced(more[1..]);
    }
  }

  // Tells of the status or of the agent, which changed.
  predicate TellsOfAChange(n: Notice, after: Tracker, t: Tracker) {
    || (n == OnStatus(after.status) && after.status != t.status)
    || (n == OnAgent(after.agent) && after.agent != t.agent)
  }

  // Changes told, and then the news announced.
  lemma SetAdds(after: Tracker, t: Tracker, told: seq<Notice>, news: seq<Notice>)
    requires after.notices == t.notices + told + news
             && forall k :: 0 <= k < |told| ==> TellsOfAChange(told[k], after, t)
    requires news == [] || (|news| == 1 && news[0].OnAnnounce?)
    ensures Adds(after, t, news)
  {
    assert after.notices[|t.notices|..] == told + news;
    NothingAnnounced(told);
    AnnouncedAppend(told, news);
    if news != [] {
      assert news[1..] == [];
      assert Announced(news) == [news[0]] + Announced(news[1..]);
    }
  }

  // ----- a report -----

  // What a report that does not end its agent comes to: while the agent works
  // or waits that is its status, and only a wait sets the timer; a finished or
  // failed turn is announced at once.
  predicate Heard(after: Tracker, t: Tracker, report: AgentReport, now: int) {
    && after.agent == Some(report.agent)
    && after.status == (match report.state
                        case Processing => Some(Status(report.agent, Processing))
                        case Waiting => Some(Status(report.agent, Waiting))
                        case _ => None)
    && after.waitTimer == (if report.state == Waiting then Some(report.agent) else None)
    && after.lastReportAt == Some(now)
    && Adds(after, t, if report.state == Done || report.state == Error then [OnAnnounce(report.agent, report.state)]
            else [])
  }

  lemma FollowIsHeard(t: Tracker, report: AgentReport, now: int)
    requires report.state != Ended
    ensures Heard(Follow(t, report, now), t, report, now)
  {
    hide Adds;
    hide Announced;
    var after := Follow(t, report, now);
    SetAdds(after, t, (if t.agent == after.agent then [] else [OnAgent(after.agent)])
                      + (if t.status == after.status then [] else [OnStatus(after.status)]),
            if report.state == Done || report.state == Error then [OnAnnounce(report.agent, report.state)] else []);
  }

  // Everything forgotten, with nothing announced.
  predicate Forgets(after: Tracker, t: Tracker) {
    && (after.agent, after.status, after.waitTimer, after.lastReportAt, after.sessions) == (None, None, None, None, {})
    && after.submittedAt == t.submittedAt && Adds(after, t, [])
  }

  lemma ResetForgets(me: nat, s: Shared<nat>)
    ensures Forgets(Reset(me, s).tracker, s.tracker)
    ensures forall session :: session in s.owners && !(session in s.tracker.sessions && s.owners[session] == me) ==>
      session in Reset(me, s).owners && Reset(me, s).owners[session] == s.owners[session]
  {
    var after := Reset(me, s).tracker;
    SetAdds(after, s.tracker, (if s.tracker.status == after.status then [] else [OnStatus(after.status)])
                              + (if s.tracker.agent == after.agent then [] else [OnAgent(after.agent)]), []);
  }

  lemma AddsAfterClaim(after: Tracker, claimed: Tracker, t: Tracker, news: seq<Notice>)
    requires Adds(after, claimed, news)
    requires (claimed.notices, claimed.status, claimed.agent) == (t.notices, t.status, t.agent)
    ensures Adds(after, t, news)
  {
  }

  lemma ClaimTellsNothing(me: nat, s: Shared<nat>, session: string, state: ReportState, now: int)
    ensures var t, claimed := s.tracker, Claim(me, s, session, state, now).tracker;
      (claimed.notices, claimed.status, claimed.agent) == (t.notices, t.status, t.agent)
  {
  }

  // A report a terminal acts on makes it show and announce this; the other
  // terminals are left as they were. One it does not act on changes nothing.
  lemma ReportTells(hub: Hub, i: nat, report: AgentReport, now: int)
    requires i < |hub.trackers|
    ensures var t, next := hub.trackers[i], Apply(hub, Reported(i, report, now));
      && |next.trackers| == |hub.trackers|
      && (forall j :: 0 <= j < |hub.trackers| && j != i ==> next.trackers[j] == hub.trackers[j])
      && if !ActsIn(hub, Reported(i, report, now), i) then next == hub
         else if report.state == Ended then
           next.trackers[i].submittedAt == t.submittedAt && Forgets(next.trackers[i], t)
         else Heard(next.trackers[i], t, report, now)
  {
    var s := At(hub, i);
    if Acts(i, s, report, now) {
      var claimed := if report.session.Some? then Claim(i, s, report.session.value, report.state, now) else s;
      if report.session.Some? {
        ClaimTellsNothing(i, s, report.session.value, report.state, now);
      }
      if report.state == Ended {
        ResetForgets(i, claimed.(tracker := claimed.tracker.(waitTimer := None)));
        AddsAfterClaim(Report(i, s, report, now).tracker, claimed.tracker.(waitTimer := None), s.tracker, []);
      } else {
        FollowIsHeard(claimed.tracker, report, now);
        HeardAfterClaim(Report(i, s, report, now).tracker, claimed.tracker, s.tracker, report, now);
      }
    }
  }

  lemma HeardAfterClaim(after: Tracker, claimed: Tracker, t: Tracker, report: AgentReport, now: int)
    requires Heard(after, claimed, report, now)
    requires (claimed.notices, claimed.status, claimed.agent) == (t.notices, t.status, t.agent)
    ensures Heard(after, t, report, now)
  {
  }

  // So the status and the agent the terminal was last told are those the
  // report gives.
  lemma ReportShows(hub: Hub, i: nat, report: AgentReport, now: int)
    requires i < |hub.trackers| && AllTold(hub) && ActsIn(hub, Reported(i, report, now), i)
    ensures var after := Apply(hub, Reported(i, report, now)).trackers[i];
      && LastStatus(after.notices) == (match report.state
                                       case Processing => Some(Status(report.agent, Processing))
                                       case Waiting => Some(Status(report.agent, Waiting))
                                       case _ => None)
      && LastAgent(after.notices) == if report.state == Ended then None else Some(report.agent)
  {
    hide Adds;
    hide LastStatus;
    hide LastAgent;
    ReportTells(hub, i, report, now);
    RunKeepsTerminalsTold(hub, [Reported(i, report, now)]);
    OneStep(hub, Reported(i, report, now));
  }

  lemma OneStep(hub: Hub, step: Step)
    ensures Run(hub, [step]) == Apply(hub, step)
  {
    assert [step][1..] == [];
  }

  // ----- to whom a report comes -----

  // A report on no session is for every terminal that hears it. One on a
  // session is for its owner; one that nobody owns, and that does not end, is
  // for a terminal in which Enter was typed within ten seconds and that took
  // no session since.
  lemma ActsExactlyWhen(hub: Hub, i: nat, report: AgentReport, now: int)
    requires i < |hub.trackers|
    ensures ActsIn(hub, Reported(i, report, now), i)
       <==> match report.session
            case None => true
            case Some(session) =>
              if session in hub.owners then hub.owners[session] == i
              else report.state != Ended && hub.trackers[i].submittedAt.Some?
                   && now - hub.trackers[i].submittedAt.value <= 10000
  {
  }

  // Acting on a session that nobody owns takes it, for that Enter only;
  // acting on one's own changes no owner, unless the agent ends, which gives
  // all of the terminal's sessions up.
  lemma ActingTakesTheSession(hub: Hub, i: nat, report: AgentReport, now: int)
    requires Agree(hub) && i < |hub.trackers| && ActsIn(hub, Reported(i, report, now), i)
    ensures var next := Apply(hub, Reported(i, report, now));
      if report.state == Ended
      then next.owners == (map session | session in hub.owners && hub.owners[session] != i :: hub.owners[session])
      else if report.session.Some? && report.session.value !in hub.owners
      then next.owners == hub.owners[report.session.value := i] && next.trackers[i].submittedAt == None
      else next.owners == hub.owners && next.trackers[i].submittedAt == hub.trackers[i].submittedAt
  {
    assert Holds(i, At(hub, i));
  }

  // ----- the user's own keys -----

  // Esc or Ctrl+C: an agent that would not report the stop itself is shown as
  // stopped, and no wait of it is announced; of any other nothing changes.
  lemma InterruptStops(hub: Hub, i: nat)
    requires i < |hub.trackers|
    ensures var t, next := hub.trackers[i], Apply(hub, Interrupted(i));
      if t.status.Some? && t.status.value.agent !in {"codex", "opencode", "pi"}
      then next == hub.(trackers := hub.trackers[i := next.trackers[i]])
           && next.trackers[i] == t.(status := None, waitTimer := None, notices := t.notices + [OnStatus(None)])
      else next == hub
  {
    assert hub.trackers[i := hub.trackers[i]] == hub.trackers;
  }

  // An answer to an agent that would report a refusal itself: it is shown at
  // work again, and its wait is not announced; of any other nothing changes.
  lemma AnswerResumes(hub: Hub, i: nat)
    requires i < |hub.trackers|
    ensures var t, next := hub.trackers[i], Apply(hub, Answered(i));
      if t.status.Some? && t.status.value.activity == Waiting && t.status.value.agent in {"codex", "opencode", "pi"}
      then
        var status := Some(Status(t.status.value.agent, Processing));
        && next == hub.(trackers := hub.trackers[i := next.trackers[i]])
        && next.trackers[i] == t.(status := status, waitTimer := None, notices := t.notices + [OnStatus(status)])
      else next == hub
  {
    assert hub.trackers[i := hub.trackers[i]] == hub.trackers;
  }

  // A terminal that is closed owns nothing, has no timer and tells nothing.
  lemma DisposeLeavesNothing(hub: Hub, i: nat)
    requires Agree(hub) && i < |hub.trackers|
    ensures var t, next := hub.trackers[i], Apply(hub, Disposed(i));
      && next.trackers == hub.trackers[i := t.(waitTimer := None, sessions := {})]
      && next.owners == map session | session in hub.owners && hub.owners[session] != i :: hub.owners[session]
  {
    assert Holds(i, At(hub, i));
  }

  // Notifications of the agent itself repeat what it reported while it is
  // shown at work or waiting, and for ten seconds after each report.
  lemma SpeaksExactlyWhen(t: Tracker, now: int)
    ensures SpeaksForAgent(t, now) <==> t.status.Some? || (t.lastReportAt.Some? && now < t.lastReportAt.value + 10000)
  {
  }

  // ----- announcements of a run -----

  // What one step has a terminal announce: a turn finished or failed, or a
  // wait whose timer went off.
  function News(hub: Hub, step: Step, i: nat): seq<Notice>
    requires i < |hub.trackers|
  {
    if ActsIn(hub, step, i) && (step.report.state == Done || step.report.state == Error)
    then [OnAnnounce(step.report.agent, step.report.state)]
    else if step == WaitFired(i) && hub.trackers[i].waitTimer.Some?
    then [OnAnnounce(hub.trackers[i].waitTimer.value, Waiting)]
    else []
  }

  function AllNews(hub: Hub, steps: seq<Step>, i: nat): seq<Notice>
    decreases |steps|
  {
    if steps == [] then []
    else (if i < |hub.trackers| then News(hub, steps[0], i) else []) + AllNews(Apply(hub, steps[0]), steps[1..], i)
  }

  // The announcements a terminal has made so far.
  function AnnouncedBy(hub: Hub, i: nat): seq<Notice> {
    if i < |hub.trackers| then Announced(hub.trackers[i].notices) else []
  }

  lemma AddedNews(after: Tracker, t: Tracker, news: seq<Notice>)
    requires t.notices <= after.notices && Announced(after.notices[|t.notices|..]) == news
    ensures Announced(after.notices) == Announced(t.notices) + news
  {
    assert after.notices == t.notices + after.notices[|t.notices|..];
    AnnouncedAppend(t.notices, after.notices[|t.notices|..]);
  }

  lemma OneMoreNotice(after: Tracker, t: Tracker, n: Notice)
    requires after.notices == t.notices + [n]
    ensures Announced(after.notices) == Announced(t.notices) + if n.OnAnnounce? then [n] else []
  {
    AnnouncedAppend(t.notices, [n]);
    assert [n][1..] == [];
    assert Announced([n]) == (if n.OnAnnounce? then [n] else []) + Announced([n][1..]);
  }

  lemma ReportAnnounces(hub: Hub, step: Step, i: nat)
    requires i < |hub.trackers| && step.Reported? && step.i == i
    ensures AnnouncedBy(Apply(hub, step), i) == AnnouncedBy(hub, i) + News(hub, step, i)
  {
    ReportTells(hub, i, step.report, step.now);
    hide Apply;
    hide ActsIn;
    hide Announced;
    if ActsIn(hub, step, i) {
      AddedNews(Apply(hub, step).trackers[i], hub.trackers[i], News(hub, step, i));
    }
  }

  lemma OwnStepAnnounces(hub: Hub, step: Step, i: nat)
    requires i < |hub.trackers| && !step.Opened? && step.i == i
    ensures AnnouncedBy(Apply(hub, step), i) == AnnouncedBy(hub, i) + News(hub, step, i)
  {
    hide Announced;
    var t, after := hub.trackers[i], Apply(hub, step).trackers[i];
    match step {
      case Submitted(_, _) =>
      case Reported(_, _, _) => ReportAnnounces(hub, step, i);
      case Interrupted(_) =>
        if after != t {
          OneMoreNotice(after, t, OnStatus(None));
        }
      case Answered(_) =>
        if after != t {
          OneMoreNotice(after, t, OnStatus(after.status));
        }
      case WasReset(_) =>
        ResetForgets(i, At(hub, i));
        AddedNews(after, t, []);
      case Disposed(_) =>
      case WaitFired(_) =>
        if t.waitTimer.Some? {
          OneMoreNotice(after, t, OnAnnounce(t.waitTimer.value, Waiting));
        }
    }
  }

  lemma StepAnnounces(hub: Hub, step: Step, i: nat)
    ensures AnnouncedBy(Apply(hub, step), i)
         == AnnouncedBy(hub, i) + if i < |hub.trackers| then News(hub, step, i) else []
  {
    if i < |hub.trackers| && !step.Opened? && step.i == i {
      OwnStepAnnounces(hub, step, i);
    }
  }

  // In every run a terminal announces exactly, and in order, the turns that
  // were reported to it as finished or failed and the waits whose timers
  // went off.
  lemma {:induction false} RunAnnounces(hub: Hub, steps: seq<Step>, i: nat)
    ensures AnnouncedBy(Run(hub, steps), i) == AnnouncedBy(hub, i) + AllNews(hub, steps, i)
    decreases |steps|
  {
    hide Apply;
    hide News;
    hide AnnouncedBy;
    if steps != [] {
      StepAnnounces(hub, steps[0], i);
      RunAnnounces(Apply(hub, steps[0]), steps[1..], i);
    }
  }
}
