/**
 How the two views of the patrol mission relate: as long as commands and ticks do not overlap, the
 two threads do exactly what the mission with atomic commands and ticks does.
 */
module PatrolRefinement {
  import opened Wrappers
  import opened Patrol
  import opened PatrolThreads

  /** The part of a mission that is behind the lock. */
  function Shown(m: Mission): Shared {
    Shared(m.status, m.phase, m.waypoints, m.home, m.totalLoops, m.currentLoop, m.index, m.tolerance, m.lastGoal,
           m.goalSentAt)
  }

  // ---------- one advance ----------

  /**
   The sections of an advance that nothing interrupts add up to the atomic one, at the time the
   goal is recorded.
   */
  lemma UninterruptedAdvance(m: Mission, now: real, s0: State, s1: State, s2: State, s3: State, s4: State, s5: State)
    requires m.Ok() && m.Active() && s0.timer == TSnapshot && s0.shared == Shown(m)
    requires TimerStep(s0, s1) && TimerStep(s1, s2) && TimerStep(s2, s3) && TimerStep(s3, s4)
    requires TimerStepAt(s4, s5, None, now)
    ensures s5.timer == TIdle && s5.shared == Shown(Advance(m, now))
    ensures s0.published <= s5.published
    ensures m.published + s5.published[|s0.published|..] == Advance(m, now).published
  {
    hide TimerStep;
    AdvanceSection(s0, s1);
    AdvanceSection(s1, s2);
    AdvanceSection(s2, s3);
    AdvanceSection(s3, s4);
    hide Decide;
    WrittenAdvance(m, now);
  }

  /** Where a section other than the record and the judgement goes does not depend on pose and clock. */
  lemma AdvanceSection(s: State, s': State)
    requires TimerStep(s, s') && !s.timer.TRecord? && !s.timer.TJudge?
    ensures TimerStepAt(s, s', None, 0.0)
  {
  }

  /** The write, the status and the record of an advance, against the atomic one. */
  lemma WrittenAdvance(m: Mission, now: real)
    requires m.Ok() && m.Active()
    ensures var shared := Shown(m);
      var m' := Advance(m, now);
      match Decide(shared)
      case GiveUp(status) =>
        m' == Stop(m, status) && Shown(m') == shared.Cleared().(status := status) && status == Completed
      case GoHome =>
        && shared.home.Some? && m'.published == m.published + [shared.home.value]
        && Shown(m') == Written(shared, shared).(status := ReturningHome).Recorded(shared.home.value, now)
      case Nothing => false
      case waypoint =>
        && 0 <= waypoint.WaypointIndex() < |shared.waypoints|
        && m'.published == m.published + [shared.waypoints[waypoint.WaypointIndex()]]
        && Shown(m') ==
           Written(shared, shared).(status := Running).Recorded(shared.waypoints[waypoint.WaypointIndex()], now)
  {
  }

  // ---------- behaviours without overlap ----------

  /** The tick has changed nothing so far, and may still end without a change. */
  predicate Reading(t: Timer) {
    t.TIdle? || t.TDecide? || t.TJudge?
  }

  /**
   Commands and ticks that act run to their end before the other thread moves. Between the sections
   of a command the timer may poll, and judge that there is nothing to do.
   */
  ghost predicate SerialStep(s: State, s': State) {
    || (CommandStep(s, s') && s.timer == TIdle)
    || (TimerStep(s, s') && (s.cmd == CIdle || Reading(s'.timer)))
  }

  ghost predicate Serial(run: seq<State>) {
    run != [] && forall k :: 0 <= k < |run| - 1 ==> SerialStep(run[k], run[k + 1])
  }

  ghost predicate SameSoFar(s: State, m: Mission) {
    s.shared == Shown(m) && s.published == m.published
  }

  /** A start for `plan` that is under way; `sent` is what it has published. */
  ghost predicate Starts(s: State, m: Mission, plan: Plan, home: Goal, sent: seq<Goal>) {
    && !m.Active() && |plan.waypoints| >= 2 && plan.loops > 0 && plan.home == home
    && MIN_TOLERANCE <= plan.tolerance <= MAX_TOLERANCE
    && s.shared.(status := Starting).Recorded(home, 0.0) == Shown(Begin(m, plan, 0.0))
    && s.published == m.published + sent
  }

  /** Where the threads stand relative to the mission `m` before the command or tick under way. */
  ghost predicate Matches(s: State, m: Mission)
    requires m.SharedOk()
  {
    match s.cmd
    case CIdle => TimerMatches(s, m)
    case CStartSet(home) => Reading(s.timer) && exists plan :: Starts(s, m, plan, home, [])
    case CStartPublish(home) =>
      Reading(s.timer) && s.shared.status == Starting && exists plan :: Starts(s, m, plan, home, [])
    case CStartRecord(home) =>
      Reading(s.timer) && s.shared.status == Starting && exists plan :: Starts(s, m, plan, home, [home])
    case CStopClear(status) =>
      Reading(s.timer) && m.Active() && SameSoFar(s, m) && (status == Stopped || status == Aborted)
    case CStopSet(status) =>
      && Reading(s.timer) && m.Active() && (status == Stopped || status == Aborted)
      && s.shared == Shown(m).Cleared() && s.published == m.published
  }

  ghost predicate TimerMatches(s: State, m: Mission)
    requires m.SharedOk()
  {
    match s.timer
    case TIdle => SameSoFar(s, m)
    case TDecide => m.Active() && SameSoFar(s, m)
    case TJudge(tolerance, sentAt) =>
      m.Active() && SameSoFar(s, m) && tolerance == m.tolerance && sentAt == m.goalSentAt
    case TSnapshot => m.Active() && HasArrived(m) && SameSoFar(s, m)
    case TAdvance(snap) => m.Active() && HasArrived(m) && SameSoFar(s, m) && snap == s.shared
    case TSet(status, goal) => m.Active() && HasArrived(m) && Advanced(s, m, status, goal, [goal])
    case TPublish(goal) => m.Active() && HasArrived(m) && Advanced(s, m, s.shared.status, goal, [goal])
    case TRecord(goal) => m.Active() && HasArrived(m) && Advanced(s, m, s.shared.status, goal, [])
    case TStopClear(status) => m.Active() && SameSoFar(s, m) && GivesUp(m, status)
    case TStopSet(status) =>
      m.Active() && GivesUp(m, status) && s.shared == Shown(m).Cleared() && s.published == m.published
  }

  ghost predicate HasArrived(m: Mission) {
    exists pose :: Arrived(m, pose)
  }

  ghost predicate TimedOut(m: Mission) {
    exists now :: Expired(m, now)
  }

  predicate Expired(m: Mission, now: real) {
    m.goalSentAt.Some? && now - m.goalSentAt.value > TIMEOUT
  }

  /** Once `status` is set, `missing` published and `goal` recorded, the advance is complete. */
  ghost predicate Advanced(s: State, m: Mission, status: Status, goal: Goal, missing: seq<Goal>)
    requires m.SharedOk()
  {
    && Shown(Advance(m, 0.0)) == s.shared.(status := status).Recorded(goal, 0.0)
    && Advance(m, 0.0).published == s.published + missing
  }

  /** A tick stops the mission as failed when it times out, and as completed when it arrives home. */
  ghost predicate GivesUp(m: Mission, status: Status)
    requires m.SharedOk()
  {
    || (status == Failed && TimedOut(m))
    || (status == Completed && HasArrived(m) && Advance(m, 0.0) == Stop(m, Completed))
  }

  // ---------- the events behind a serial behaviour ----------

  /** A request that parses to a plan. */
  function RequestFor(plan: Plan): Request {
    Request(Some(seq(|plan.waypoints|, k requires 0 <= k < |plan.waypoints| => RawOf(plan.waypoints[k]))), plan.loops,
            RawOf(plan.home), Num(plan.tolerance))
  }

  function RawOf(g: Goal): RawPose {
    Fields(Num(g.x), Num(g.y), Num(g.yaw))
  }

  lemma RequestParses(plan: Plan)
    requires |plan.waypoints| >= 2 && plan.loops > 0 && MIN_TOLERANCE <= plan.tolerance <= MAX_TOLERANCE
    ensures WellFormed(RequestFor(plan)) && ParsedPlan(RequestFor(plan)) == plan
  {
    assert ParsedPlan(RequestFor(plan)).waypoints == plan.waypoints;
  }

  lemma AfterOneMore(events: seq<Event>, e: Event)
    ensures After(events + [e]).0 == Step(After(events).0, e)
  {
    assert (events + [e])[..|events|] == events;
  }

  /** The clock of an advance that publishes shows only in the time of the goal. */
  lemma AdvanceClock(m: Mission, now: real)
    requires m.Ok() && m.Active() && Advance(m, 0.0).goalSentAt == Some(0.0)
    ensures Advance(m, now) == Advance(m, 0.0).(goalSentAt := Some(now))
  {
  }

  lemma CommandRefines(s: State, s': State, events: seq<Event>) returns (events': seq<Event>)
    requires Matches(s, After(events).0) && CommandStep(s, s') && s.timer == TIdle
    ensures events <= events' && Matches(s', After(events').0)
  {
    hide After, WellFormed, ParsedPlan, RequestFor;
    var m := After(events).0;
    events' := events;
    match s.cmd {
      case CIdle =>
        if StartSection(s, s') {
          StartMatches(s, s', m);
        }
      case CStartSet(home) =>
        var plan :| Starts(s, m, plan, home, []);
        assert Starts(s', m, plan, home, []);
      case CStartPublish(home) =>
        var plan :| Starts(s, m, plan, home, []);
        assert Starts(s', m, plan, home, [home]);
      case CStartRecord(home) =>
        var plan :| Starts(s, m, plan, home, [home]);
        var now :| s'.shared == s.shared.Recorded(home, now);
        RequestParses(plan);
        events' := events + [StartCmd(RequestFor(plan), now)];
        AfterOneMore(events, StartCmd(RequestFor(plan), now));
        assert Shown(Begin(m, plan, now)) == Shown(Begin(m, plan, 0.0)).Recorded(home, now);
      case CStopClear(_) =>
      case CStopSet(status) =>
        var e := if status == Stopped then StopCmd else NavGoalCmd;
        events' := events + [e];
        AfterOneMore(events, e);
    }
  }

  lemma StartMatches(s: State, s': State, m: Mission)
    requires m.SharedOk() && SameSoFar(s, m) && StartSection(s, s') && s'.published == s.published
    ensures exists plan :: Starts(s', m, plan, s'.cmd.home, [])
  {
    var plan := Plan(s'.shared.waypoints, s'.shared.totalLoops, s'.cmd.home, s'.shared.tolerance);
    assert Starts(s', m, plan, s'.cmd.home, []);
  }

  /** Writing back a fresh snapshot begins exactly the atomic advance. */
  lemma SnapshotAdvances(s: State, s': State, m: Mission)
    requires m.Ok() && m.Active() && s.timer == TAdvance(s.shared) && SameSoFar(s, m) && TimerStep(s, s')
    ensures s'.timer.TSet? || s'.timer.TStopClear?
    ensures s'.timer.TSet? ==> Advanced(s', m, s'.timer.status, s'.timer.goal, [s'.timer.goal])
    ensures s'.timer.TStopClear? ==>
      SameSoFar(s', m) && s'.timer.status == Completed && Advance(m, 0.0) == Stop(m, Completed)
  {
    hide TimerStep;
    AdvanceSection(s, s');
    hide Decide, Written;
    WrittenAdvance(m, 0.0);
  }

  /** Judging with the mission's own tolerance and time is what the atomic tick does. */
  lemma JudgedMatches(s: State, s': State, m: Mission)
    requires m.Ok() && m.Active() && SameSoFar(s, m) && s.timer == TJudge(m.tolerance, m.goalSentAt)
    requires TimerStep(s, s')
    ensures SameSoFar(s', m)
    ensures s'.timer == TIdle || s'.timer == TSnapshot || s'.timer == TStopClear(Failed)
    ensures s'.timer == TSnapshot ==> HasArrived(m)
    ensures s'.timer == TStopClear(Failed) ==> TimedOut(m)
  {
    hide StandsAt;
    var pose, now :| TimerStepAt(s, s', pose, now);
    assert Arrived(m, pose) <==> StandsAt(pose, m.lastGoal, m.tolerance);
    assert s'.timer == TStopClear(Failed) ==> Expired(m, now);
  }

  lemma TimerRefines(s: State, s': State, events: seq<Event>) returns (events': seq<Event>)
    requires Matches(s, After(events).0) && TimerStep(s, s') && s.cmd == CIdle
    ensures events <= events' && Matches(s', After(events').0)
  {
    hide After, Step, Advance, Decide, Written, StandsAt, Arrived, Mission.SharedOk;
    var m := After(events).0;
    events' := events;
    match s.timer {
      case TJudge(_, _) =>
        JudgedMatches(s, s', m);
      case TAdvance(_) =>
        SnapshotAdvances(s, s', m);
      case TRecord(goal) =>
        var pose, now :| TimerStepAt(s, s', pose, now);
        events' := AdvanceDone(s, m, goal, events, now);
      case TStopSet(status) =>
        events' := StopDone(m, status, events);
      case _ =>
    }
  }

  /** A recorded advance is the atomic tick at the time of the record. */
  lemma AdvanceDone(s: State, m: Mission, goal: Goal, events: seq<Event>, now: real) returns (events': seq<Event>)
    requires m == After(events).0 && m.Active() && HasArrived(m) && Advanced(s, m, s.shared.status, goal, [])
    ensures events <= events'
    ensures Shown(After(events').0) == s.shared.Recorded(goal, now) && After(events').0.published == s.published
  {
    hide After, Advance, StandsAt, Mission.SharedOk;
    var pose :| Arrived(m, pose);
    events' := events + [TimerTick(pose, now)];
    AfterOneMore(events, TimerTick(pose, now));
    AdvanceClock(m, now);
  }

  /** A stop by the timer is the atomic tick that times out or arrives home. */
  lemma StopDone(m: Mission, status: Status, events: seq<Event>) returns (events': seq<Event>)
    requires m == After(events).0 && m.Active() && GivesUp(m, status)
    ensures events <= events' && After(events').0 == Stop(m, status)
  {
    hide After, Advance, StandsAt, Mission.SharedOk;
    var e: Event;
    if status == Failed {
      var now :| Expired(m, now);
      e := TimerTick(None, now);
      NoPose(m);
    } else {
      var pose :| Arrived(m, pose);
      e := TimerTick(pose, 0.0);
    }
    events' := events + [e];
    AfterOneMore(events, e);
  }

  lemma NoPose(m: Mission)
    ensures !Arrived(m, None)
  {
  }

  /** A tick that only reads may fall between two sections of a command. */
  lemma PollRefines(s: State, s': State, m: Mission)
    requires m.SharedOk() && Matches(s, m) && TimerStep(s, s') && s.cmd != CIdle && Reading(s'.timer)
    ensures Matches(s', m)
  {
    ReadingChangesNothing(s, s');
    match s.cmd {
      case CStartSet(home) =>
        var plan :| Starts(s, m, plan, home, []);
        assert Starts(s', m, plan, home, []);
      case CStartPublish(home) =>
        var plan :| Starts(s, m, plan, home, []);
        assert Starts(s', m, plan, home, []);
      case CStartRecord(home) =>
        var plan :| Starts(s, m, plan, home, [home]);
        assert Starts(s', m, plan, home, [home]);
      case _ =>
    }
  }

  lemma ReadingChangesNothing(s: State, s': State)
    requires TimerStep(s, s') && Reading(s.timer)
    ensures s'.shared == s.shared && s'.published == s.published && s'.cmd == s.cmd
  {
  }

  /** Every behaviour without overlap is one of the mission with atomic commands and ticks. */
  lemma {:induction false} SerialRefines(run: seq<State>) returns (events: seq<Event>)
    requires Serial(run) && Initial(run[0])
    ensures Matches(run[|run| - 1], After(events).0)
    decreases |run|
  {
    hide Matches, CommandStep, TimerStep, After;
    var n := |run| - 1;
    if n == 0 {
      events := [];
      InitialMatches(run[0]);
    } else {
      var before := SerialRefines(run[..n]);
      assert SerialStep(run[n - 1], run[n]);
      if CommandStep(run[n - 1], run[n]) && run[n - 1].timer == TIdle {
        events := CommandRefines(run[n - 1], run[n], before);
      } else if run[n - 1].cmd == CIdle {
        events := TimerRefines(run[n - 1], run[n], before);
      } else {
        events := before;
        PollRefines(run[n - 1], run[n], After(before).0);
      }
    }
  }

  lemma InitialMatches(s: State)
    requires Initial(s)
    ensures Matches(s, After([]).0)
  {
  }

  /**
   The goals of the two threads: whenever both are idle after a behaviour without overlap, the
   published goals and the shared state are those of a mission with atomic events, so they are
   prefixes of the itineraries of its runs.
   */
  lemma SerialGoals(run: seq<State>) returns (events: seq<Event>)
    requires Serial(run) && Initial(run[0])
    requires run[|run| - 1].cmd == CIdle && run[|run| - 1].timer == TIdle
    ensures var (m, log) := After(events);
      var s := run[|run| - 1];
      && s.shared == Shown(m)
      && ValidLog(log) && s.published == AllGoals(log)
      && (s.shared.status == Completed <==>
            log != [] && log[|log| - 1].arrivals == GoalCount(log[|log| - 1].plan))
  {
    events := SerialRefines(run);
    PublishedGoals(events);
  }
}
