/**
 The patrol mission as two threads that interleave between lock sections: the command thread and
 the timer thread. Each step below is one section; values read in a section are kept as a snapshot.
 */
module PatrolThreads {
  import opened Wrappers
  import opened Patrol

  /** The fields behind the lock. */
  datatype Shared = Shared(status: Status, phase: Phase, waypoints: seq<Goal>, home: Option<Goal>, totalLoops: int,
                           currentLoop: int, index: int, tolerance: real, lastGoal: Option<Goal>,
                           sentAt: Option<real>)
  {
    predicate Active() {
      status == Starting || status == Running || status == ReturningHome
    }

    ghost predicate Ok() {
      && ((waypoints == [] && totalLoops == 0) || (|waypoints| >= 2 && totalLoops > 0))
      && currentLoop >= 0 && index >= -1 && tolerance > 0.0
    }

    /** First section of _stop_patrol. */
    function Cleared(): Shared {
      this.(phase := NoPhase, waypoints := [], totalLoops := 0, currentLoop := 0, index := -1, sentAt := None)
    }

    /** Last section of _publish_goal. */
    function Recorded(goal: Goal, now: real): Shared {
      this.(lastGoal := Some(goal), sentAt := Some(now))
    }
  }

  /** What the command thread does next. */
  datatype Command =
    | CIdle
    | CStartSet(home: Goal)        // mission fields written, status not yet
    | CStartPublish(home: Goal)
    | CStartRecord(home: Goal)     // home is on the topic, but not yet the last goal
    | CStopClear(status: Status)   // found active, fields not yet cleared
    | CStopSet(status: Status)

  /** What the timer thread does next. */
  datatype Timer =
    | TIdle
    | TDecide                      // found active
    | TJudge(tolerance: real, sentAt: Option<real>)  // holds these two; distance and clock not yet judged
    | TSnapshot                    // about to advance
    | TAdvance(snap: Shared)       // holds the snapshot of _advance_patrol_goal
    | TSet(status: Status, goal: Goal)
    | TPublish(goal: Goal)
    | TRecord(goal: Goal)
    | TStopClear(status: Status)
    | TStopSet(status: Status)

  datatype State = State(shared: Shared, cmd: Command, timer: Timer, published: seq<Goal>)

  const OFF := Shared(Idle, NoPhase, [], None, 0, 0, -1, 0.25, None, None)

  ghost predicate Initial(s: State) {
    && s.shared == OFF
    && s.cmd == CIdle && s.timer == TIdle && s.published == []
  }

  // ---------- advancing from a snapshot ----------

  /** Which branch _advance_patrol_goal takes for a snapshot. */
  datatype Decision = FirstWaypoint | NextWaypoint(index: int) | NextLoop(loop: int) | GoHome
                    | GiveUp(status: Status) | Nothing
  {
    predicate ToWaypoint() {
      FirstWaypoint? || NextWaypoint? || NextLoop?
    }

    /** The index the branch uses on the snapshot's waypoints. */
    function WaypointIndex(): int
      requires ToWaypoint()
    {
      if NextWaypoint? then index else 0
    }
  }

  function Decide(snap: Shared): Decision {
    match snap.phase
    case GoHomeStart => if snap.waypoints == [] then GiveUp(Failed) else FirstWaypoint
    case OnPatrol =>
      if snap.index < |snap.waypoints| - 1 then NextWaypoint(snap.index + 1)
      else if snap.currentLoop < snap.totalLoops then NextLoop(snap.currentLoop + 1)
      else if snap.home == None then GiveUp(Failed)
      else GoHome
    case ReturnHomeEnd => GiveUp(Completed)
    case NoPhase => Nothing
  }

  /** No advance indexes outside the waypoints of its own snapshot. */
  lemma AdvanceInBounds(snap: Shared)
    requires snap.Ok()
    ensures Decide(snap).ToWaypoint() ==> 0 <= Decide(snap).WaypointIndex() < |snap.waypoints|
    ensures Decide(snap).NextLoop? ==> Decide(snap).loop >= 0
  {
  }

  /** The write of the advance: only the fields its branch assigns, into whatever is shared by now. */
  function Written(now: Shared, snap: Shared): Shared {
    match Decide(snap)
    case FirstWaypoint => now.(phase := OnPatrol, currentLoop := 1, index := 0)
    case NextWaypoint(i) => now.(index := i)
    case NextLoop(loop) => now.(currentLoop := loop, index := 0)
    case GoHome => now.(phase := ReturnHomeEnd)
    case _ => now
  }

  /** What patrol_tick does once it has the last goal, the pose of the robot and the clock. */
  function Judged(tolerance: real, sentAt: Option<real>, goal: Option<Goal>, pose: Option<(real, real)>,
                  now: real): Timer {
    if StandsAt(pose, goal, tolerance) then TSnapshot
    else if sentAt.Some? && now - sentAt.value > TIMEOUT then TStopClear(Failed)
    else TIdle
  }

  // ---------- steps ----------

  ghost predicate CommandStep(s: State, s': State) {
    && s'.timer == s.timer
    && match s.cmd
       case CIdle =>
         && s'.published == s.published
         && (|| StartSection(s, s')
             || (s'.shared == s.shared && s'.cmd == CIdle)
             || (s.shared.Active() && s'.shared == s.shared
                 && (s'.cmd == CStopClear(Stopped) || s'.cmd == CStopClear(Aborted))))
       case CStartSet(home) =>
         s'.shared == s.shared.(status := Starting) && s'.cmd == CStartPublish(home) && s'.published == s.published
       case CStartPublish(home) =>
         s'.shared == s.shared && s'.cmd == CStartRecord(home) && s'.published == s.published + [home]
       case CStartRecord(home) =>
         (exists now :: s'.shared == s.shared.Recorded(home, now)) && s'.cmd == CIdle && s'.published == s.published
       case CStopClear(status) =>
         s'.shared == s.shared.Cleared() && s'.cmd == CStopSet(status) && s'.published == s.published
       case CStopSet(status) =>
         s'.shared == s.shared.(status := status) && s'.cmd == CIdle && s'.published == s.published
  }

  /** The locked section of _start_patrol, for some well-formed request. */
  ghost predicate StartSection(s: State, s': State) {
    && !s.shared.Active() && s'.cmd.CStartSet?
    && |s'.shared.waypoints| >= 2 && s'.shared.totalLoops > 0
    && MIN_TOLERANCE <= s'.shared.tolerance <= MAX_TOLERANCE
    && s'.shared == s.shared.(phase := GoHomeStart, waypoints := s'.shared.waypoints, home := Some(s'.cmd.home),
                              totalLoops := s'.shared.totalLoops, currentLoop := 0, index := -1,
                              tolerance := s'.shared.tolerance)
  }

  /** A step of the timer thread that finds the robot at `pose` and the clock at `now`, if it looks. */
  ghost predicate TimerStepAt(s: State, s': State, pose: Option<(real, real)>, now: real) {
    && s'.cmd == s.cmd
    && match s.timer
       case TIdle =>
         s'.shared == s.shared && s'.published == s.published
         && s'.timer == if s.shared.Active() then TDecide else TIdle
       case TDecide =>
         s'.shared == s.shared && s'.published == s.published
         && s'.timer == TJudge(s.shared.tolerance, s.shared.sentAt)
       case TJudge(tolerance, sentAt) =>
         s'.shared == s.shared && s'.published == s.published
         && s'.timer == Judged(tolerance, sentAt, s.shared.lastGoal, pose, now)
       case TSnapshot =>
         s'.shared == s.shared && s'.published == s.published && s'.timer == TAdvance(s.shared)
       case TAdvance(snap) =>
         && s'.published == s.published && s'.shared == Written(s.shared, snap)
         && (match Decide(snap)
             case GoHome => snap.home.Some? && s'.timer == TSet(ReturningHome, snap.home.value)
             case GiveUp(status) => s'.timer == TStopClear(status)
             case Nothing => s'.timer == TIdle
             case waypoint =>
               && 0 <= waypoint.WaypointIndex() < |snap.waypoints|
               && s'.timer == TSet(Running, snap.waypoints[waypoint.WaypointIndex()]))
       case TSet(status, goal) =>
         s'.shared == s.shared.(status := status) && s'.timer == TPublish(goal) && s'.published == s.published
       case TPublish(goal) =>
         s'.shared == s.shared && s'.timer == TRecord(goal) && s'.published == s.published + [goal]
       case TRecord(goal) =>
         s'.shared == s.shared.Recorded(goal, now) && s'.timer == TIdle && s'.published == s.published
       case TStopClear(status) =>
         s'.shared == s.shared.Cleared() && s'.timer == TStopSet(status) && s'.published == s.published
       case TStopSet(status) =>
         s'.shared == s.shared.(status := status) && s'.timer == TIdle && s'.published == s.published
  }

  ghost predicate TimerStep(s: State, s': State) {
    exists pose, now :: TimerStepAt(s, s', pose, now)
  }

  ghost predicate Next(s: State, s': State) {
    CommandStep(s, s') || TimerStep(s, s')
  }

  ghost predicate Behaviour(run: seq<State>) {
    run != [] && forall k :: 0 <= k < |run| - 1 ==> Next(run[k], run[k + 1])
  }

  // ---------- what survives every interleaving ----------

  /** The shared invariant, also of the snapshot in flight, and only inactive statuses in a stop. */
  ghost predicate Inv(s: State) {
    && s.shared.Ok()
    && (s.timer.TAdvance? ==> s.timer.snap.Ok())
    // nothing is the last goal before something has been published
    && (s.shared.lastGoal.Some? || s.timer.TRecord? || s.cmd.CStartRecord? ==> s.published != [])
    && (s.timer.TSet? ==> s.timer.status == Running || s.timer.status == ReturningHome)
    && (s.timer.TStopClear? || s.timer.TStopSet? ==> s.timer.status == Failed || s.timer.status == Completed)
    && (s.cmd.CStopClear? || s.cmd.CStopSet? ==> s.cmd.status == Stopped || s.cmd.status == Aborted)
  }

  lemma NextKeepsInv(s: State, s': State)
    requires Inv(s) && Next(s, s')
    ensures Inv(s')
  {
    if pose, now :| TimerStepAt(s, s', pose, now) {
      if s.timer.TAdvance? {
        AdvanceInBounds(s.timer.snap);
      }
    }
  }

  /** Every state of every interleaving keeps the shared invariant, and each advance stays in bounds. */
  lemma {:induction false} SharedInvariant(run: seq<State>)
    requires Behaviour(run) && Initial(run[0])
    ensures forall k :: 0 <= k < |run| ==> Inv(run[k])
    ensures forall k :: 0 <= k < |run| && run[k].timer.TAdvance? && Decide(run[k].timer.snap).ToWaypoint() ==>
      0 <= Decide(run[k].timer.snap).WaypointIndex() < |run[k].timer.snap.waypoints|
    decreases |run|
  {
    hide Next, Shared.Ok, Decide;
    var n := |run| - 1;
    if n > 0 {
      SharedInvariant(run[..n]);
      NextKeepsInv(run[n - 1], run[n]);
    } else {
      InitialInv(run[0]);
    }
    forall k | 0 <= k < |run|
      ensures Inv(run[k])
    {
      if k < n {
        assert run[k] == run[..n][k];
      }
    }
    forall k | 0 <= k < |run| && run[k].timer.TAdvance?
      ensures Decide(run[k].timer.snap).ToWaypoint() ==>
        0 <= Decide(run[k].timer.snap).WaypointIndex() < |run[k].timer.snap.waypoints|
    {
      AdvanceInBounds(run[k].timer.snap);
    }
  }

  lemma InitialInv(s: State)
    requires Initial(s)
    ensures Inv(s)
  {
  }

  /** The timer thread is never stuck: wherever the robot is, it has a next step. */
  lemma TimerProceeds(s: State, pose: Option<(real, real)>, now: real) returns (s': State)
    requires Inv(s)
    ensures TimerStepAt(s, s', pose, now) && TimerStep(s, s')
  {
    match s.timer {
      case TIdle => s' := s.(timer := if s.shared.Active() then TDecide else TIdle);
      case TDecide => s' := s.(timer := TJudge(s.shared.tolerance, s.shared.sentAt));
      case TJudge(tolerance, sentAt) => s' := s.(timer := Judged(tolerance, sentAt, s.shared.lastGoal, pose, now));
      case TSnapshot => s' := s.(timer := TAdvance(s.shared));
      case TAdvance(snap) =>
        AdvanceInBounds(snap);
        s' := s.(shared := Written(s.shared, snap),
                 timer := match Decide(snap)
                          case GoHome => TSet(ReturningHome, snap.home.value)
                          case GiveUp(status) => TStopClear(status)
                          case Nothing => TIdle
                          case waypoint => TSet(Running, snap.waypoints[waypoint.WaypointIndex()]));
      case TSet(status, goal) => s' := s.(shared := s.shared.(status := status), timer := TPublish(goal));
      case TPublish(goal) => s' := s.(timer := TRecord(goal), published := s.published + [goal]);
      case TRecord(goal) => s' := s.(shared := s.shared.Recorded(goal, now), timer := TIdle);
      case TStopClear(status) => s' := s.(shared := s.shared.Cleared(), timer := TStopSet(status));
      case TStopSet(status) => s' := s.(shared := s.shared.(status := status), timer := TIdle);
    }
    assert TimerStepAt(s, s', pose, now);
  }

  // ---------- when a stop lasts ----------

  predicate Resumes(snap: Shared) {
    Decide(snap).ToWaypoint() || Decide(snap).GoHome?
  }

  /** The timer is past its activity check and holds, or is about to take, a snapshot it will resume from. */
  predicate TimerLive(s: State) {
    match s.timer
    case TDecide => Resumes(s.shared) && s.shared.lastGoal.Some?
    case TJudge(_, _) => Resumes(s.shared) && s.shared.lastGoal.Some?
    case TSnapshot => Resumes(s.shared)
    case TAdvance(snap) => Resumes(snap)
    case TSet(_, _) => true
    case _ => false
  }

  /** A run in which only the timer moves. */
  ghost predicate TimerRun(run: seq<State>) {
    run != [] && forall k :: 0 <= k < |run| - 1 ==> TimerStep(run[k], run[k + 1])
  }

  /** The mission can become active again with no further command. */
  ghost predicate CanRevive(s: State) {
    exists run: seq<State> :: TimerRun(run) && run[0] == s && run[|run| - 1].shared.Active()
  }

  lemma QuietStep(s: State, s': State)
    requires Inv(s) && TimerStep(s, s') && !s.shared.Active() && !TimerLive(s)
    ensures Inv(s') && !s'.shared.Active() && !TimerLive(s')
  {
    NextKeepsInv(s, s');
  }

  lemma {:induction false} QuietRun(run: seq<State>)
    requires TimerRun(run) && Inv(run[0]) && !run[0].shared.Active() && !TimerLive(run[0])
    ensures !run[|run| - 1].shared.Active()
    decreases |run|
  {
    if |run| > 1 {
      assert TimerStep(run[0], run[1]);
      QuietStep(run[0], run[1]);
      forall k | 0 <= k < |run[1..]| - 1
        ensures TimerStep(run[1..][k], run[1..][k + 1])
      {
        assert TimerStep(run[k + 1], run[k + 2]);
      }
      QuietRun(run[1..]);
    }
  }

  lemma Prepend(s: State, s': State)
    requires TimerStep(s, s') && CanRevive(s')
    ensures CanRevive(s)
  {
    var run: seq<State> :| TimerRun(run) && run[0] == s' && run[|run| - 1].shared.Active();
    var longer := [s] + run;
    forall k | 0 <= k < |longer| - 1
      ensures TimerStep(longer[k], longer[k + 1])
    {
      if k > 0 {
        assert TimerStep(run[k - 1], run[k]);
      }
    }
    assert TimerRun(longer) && longer[|longer| - 1] == run[|run| - 1];
  }

  /** A live timer revives the mission within five steps, with the robot standing on its last goal. */
  lemma LiveRevives(s: State)
    requires Inv(s) && TimerLive(s)
    ensures CanRevive(s)
    decreases
      match s.timer case TDecide => 4 case TJudge(_, _) => 3 case TSnapshot => 2 case TAdvance(_) => 1 case _ => 0
  {
    var pose := match s.shared.lastGoal case Some(goal) => Some((goal.x, goal.y)) case None => None;
    var s' := TimerProceeds(s, pose, 0.0);
    NextKeepsInv(s, s');
    if s.timer.TSet? {
      assert s'.shared.Active();
      assert TimerRun([s']);
      assert [s'][|[s']| - 1].shared.Active();
    } else {
      LiveRevives(s');
    }
    Prepend(s, s');
  }

  /**
   After a stop the mission stays inactive under every schedule of the timer if and only if the
   timer holds no live snapshot.
   */
  lemma StopLastsExactly(s: State)
    requires Inv(s) && !s.shared.Active()
    ensures CanRevive(s) <==> TimerLive(s)
  {
    if TimerLive(s) {
      LiveRevives(s);
    } else {
      forall run: seq<State> | TimerRun(run) && run[0] == s
        ensures !run[|run| - 1].shared.Active()
      {
        QuietRun(run);
      }
    }
  }

  /** No snapshot in flight, and nothing to resume from. */
  predicate Settled(s: State) {
    s.shared.phase == NoPhase && !TimerLive(s) && (s.cmd.CStopSet? || (s.cmd.CIdle? && !s.shared.Active()))
  }

  /** Once settled, a stop in progress completes and lasts under every interleaving, until a new start. */
  lemma SettledStays(s: State, s': State)
    requires Inv(s) && Settled(s) && Next(s, s') && !StartSection(s, s')
    ensures Inv(s') && Settled(s')
  {
    NextKeepsInv(s, s');
  }

  lemma {:induction false} SettledForever(run: seq<State>)
    requires Behaviour(run) && Inv(run[0]) && Settled(run[0])
    requires forall k :: 0 <= k < |run| - 1 ==> !StartSection(run[k], run[k + 1])
    ensures forall k :: 0 <= k < |run| ==> Settled(run[k])
    ensures Inv(run[|run| - 1])
    decreases |run|
  {
    var n := |run| - 1;
    if n > 0 {
      var before := run[..n];
      forall k | 0 <= k < |before| - 1
        ensures Next(before[k], before[k + 1]) && !StartSection(before[k], before[k + 1])
      {
        assert Next(run[k], run[k + 1]) && !StartSection(run[k], run[k + 1]);
      }
      SettledForever(before);
      assert Next(run[n - 1], run[n]) && !StartSection(run[n - 1], run[n]);
      SettledStays(run[n - 1], run[n]);
      forall k | 0 <= k < |run|
        ensures Settled(run[k])
      {
        if k < n {
          assert run[k] == before[k];
        }
      }
    }
  }

  /** A stop that clears the mission while the timer is between ticks settles it. */
  lemma StopBetweenTicksSettles(s: State, s': State)
    requires Inv(s) && s.cmd.CStopClear? && CommandStep(s, s') && !TimerHolds(s.timer)
    ensures Settled(s')
  {
  }

  predicate TimerHolds(t: Timer) {
    t.TAdvance? || t.TSet?
  }

  // ---------- runs, piece by piece ----------

  /** Some behaviour goes from `s` to `t`. */
  ghost predicate Leads(s: State, t: State) {
    exists run: seq<State> :: Behaviour(run) && run[0] == s && run[|run| - 1] == t
  }

  /** Some behaviour goes from power-on to `s`. */
  ghost predicate Reachable(s: State) {
    exists s0 :: Initial(s0) && Leads(s0, s)
  }

  lemma LeadsNext(s: State, t: State)
    requires Next(s, t)
    ensures Leads(s, t)
  {
    var run := [s, t];
    assert Behaviour(run) && run[0] == s && run[|run| - 1] == t;
  }

  lemma LeadsOn(s: State, t: State, u: State)
    requires Leads(s, t) && Leads(t, u)
    ensures Leads(s, u)
  {
    hide Next;
    var before :| Behaviour(before) && before[0] == s && before[|before| - 1] == t;
    var after :| Behaviour(after) && after[0] == t && after[|after| - 1] == u;
    var run := before + after[1..];
    forall k | 0 <= k < |run| - 1
      ensures Next(run[k], run[k + 1])
    {
      if k < |before| - 1 {
        assert Next(before[k], before[k + 1]);
      } else {
        var j := k - (|before| - 1);
        assert run[k] == after[j] && Next(after[j], after[j + 1]);
      }
    }
    assert Behaviour(run) && run[0] == s && run[|run| - 1] == u;
  }

  lemma LeadsByTimer(s: State, t: State, u: State, pose: Option<(real, real)>)
    requires Leads(s, t) && TimerStepAt(t, u, pose, 0.0)
    ensures Leads(s, u)
  {
    assert TimerStep(t, u);
    LeadsNext(t, u);
    LeadsOn(s, t, u);
  }

  /** The state after a start with one loop has set its status. */
  function Begun(s: State, waypoints: seq<Goal>, home: Goal): State {
    s.(shared := s.shared.(status := Starting, phase := GoHomeStart, waypoints := waypoints, home := Some(home),
                           totalLoops := 1, currentLoop := 0, index := -1, tolerance := 0.25),
       cmd := CStartPublish(home))
  }

  lemma StartBegins(s: State, waypoints: seq<Goal>, home: Goal)
    requires s.cmd == CIdle && !s.shared.Active() && |waypoints| >= 2
    ensures Leads(s, Begun(s, waypoints, home))
  {
    var t := Begun(s, waypoints, home);
    var u := t.(shared := t.shared.(status := s.shared.status), cmd := CStartSet(home));
    assert StartSection(s, u) && CommandStep(u, t);
    LeadsNext(s, u);
    LeadsNext(u, t);
    LeadsOn(s, u, t);
  }

  /** The state after a start has published and recorded home. */
  function HomeSent(s: State, home: Goal): State {
    s.(shared := s.shared.Recorded(home, 0.0), cmd := CIdle, published := s.published + [home])
  }

  lemma StartEnds(s: State, home: Goal)
    requires s.cmd == CStartPublish(home)
    ensures Leads(s, HomeSent(s, home))
  {
    var u := s.(cmd := CStartRecord(home), published := s.published + [home]);
    assert CommandStep(s, u);
    assert CommandStep(u, HomeSent(s, home)) by {
      assert HomeSent(s, home).shared == u.shared.Recorded(home, 0.0);
    }
    LeadsNext(s, u);
    LeadsNext(u, HomeSent(s, home));
    LeadsOn(s, u, HomeSent(s, home));
  }

  /** Up to its write, a tick with the robot at its last goal changes nothing. */
  lemma TickArrives(s: State, pose: Option<(real, real)>)
    requires s.timer == TIdle && s.shared.Active() && StandsAt(pose, s.shared.lastGoal, s.shared.tolerance)
    ensures Leads(s, s.(timer := TAdvance(s.shared)))
  {
    var t1, t2 := s.(timer := TDecide), s.(timer := TJudge(s.shared.tolerance, s.shared.sentAt));
    var t3, t4 := s.(timer := TSnapshot), s.(timer := TAdvance(s.shared));
    assert TimerStepAt(s, t1, pose, 0.0);
    assert TimerStep(s, t1);
    LeadsNext(s, t1);
    LeadsByTimer(s, t1, t2, pose);
    LeadsByTimer(s, t2, t3, pose);
    LeadsByTimer(s, t3, t4, pose);
  }

  /** The status an advance sets and the goal it publishes, unless it gives up. */
  function Outcome(snap: Shared): (Status, Goal)
    requires snap.Ok() && Resumes(snap)
  {
    if Decide(snap).GoHome? then (ReturningHome, snap.home.value)
    else (Running, snap.waypoints[Decide(snap).WaypointIndex()])
  }

  /** The state after a whole tick that nothing interrupts, with the robot at its last goal. */
  function Ticked(s: State): State
    requires s.shared.Ok() && Resumes(s.shared)
  {
    var (status, goal) := Outcome(s.shared);
    s.(shared := Written(s.shared, s.shared).(status := status).Recorded(goal, 0.0), published := s.published + [goal])
  }

  lemma TickAdvances(s: State, pose: Option<(real, real)>)
    requires s.shared.Ok() && s.timer == TIdle && s.shared.Active() && Resumes(s.shared)
    requires StandsAt(pose, s.shared.lastGoal, s.shared.tolerance)
    ensures Leads(s, Ticked(s))
  {
    hide Leads;
    TickArrives(s, pose);
    var (status, goal) := Outcome(s.shared);
    var t0 := s.(timer := TAdvance(s.shared));
    var t1 := s.(shared := Written(s.shared, s.shared), timer := TSet(status, goal));
    var t2 := t1.(shared := t1.shared.(status := status), timer := TPublish(goal));
    var t3 := t2.(timer := TRecord(goal), published := s.published + [goal]);
    LeadsByTimer(s, t0, t1, pose);
    LeadsByTimer(s, t1, t2, pose);
    LeadsByTimer(s, t2, t3, pose);
    LeadsByTimer(s, t3, Ticked(s), pose);
  }

  /** The last tick of a patrol. */
  lemma TickCompletes(s: State, pose: Option<(real, real)>)
    requires s.timer == TIdle && s.shared.status == ReturningHome && s.shared.phase == ReturnHomeEnd
    requires StandsAt(pose, s.shared.lastGoal, s.shared.tolerance)
    ensures Leads(s, s.(shared := s.shared.Cleared().(status := Completed)))
  {
    hide Leads;
    TickArrives(s, pose);
    var t0 := s.(timer := TAdvance(s.shared));
    var t1 := s.(timer := TStopClear(Completed));
    var t2 := s.(shared := s.shared.Cleared(), timer := TStopSet(Completed));
    LeadsByTimer(s, t0, t1, pose);
    LeadsByTimer(s, t1, t2, pose);
    LeadsByTimer(s, t2, s.(shared := s.shared.Cleared().(status := Completed)), pose);
  }

  function PoseOf(goal: Goal): Option<(real, real)> {
    Some((goal.x, goal.y))
  }

  // ---------- a stop that is lost ----------

  /** From power-on: a patrol has started, and with the robot at home the timer is about to advance. */
  lemma AboutToAdvance(a: Goal, b: Goal, home: Goal) returns (s: State)
    ensures Reachable(s) && s.cmd == CIdle && s.timer == TAdvance(s.shared)
    ensures s.shared == Shared(Starting, GoHomeStart, [a, b], Some(home), 1, 0, -1, 0.25, Some(home), Some(0.0))
  {
    hide Leads;
    var s0 := State(OFF, CIdle, TIdle, []);
    var s1 := Begun(s0, [a, b], home);
    var s2 := HomeSent(s1, home);
    StartBegins(s0, [a, b], home);
    StartEnds(s1, home);
    TickArrives(s2, PoseOf(home));
    s := s2.(timer := TAdvance(s2.shared));
    LeadsOn(s0, s1, s2);
    LeadsOn(s0, s2, s);
    assert Initial(s0);
  }

  /**
   A stop can be lost: the timer takes its snapshot on the way home, the command thread stops the
   mission completely, and the timer then writes its advance back and sets the mission running,
   although no start was accepted and the waypoints are gone.
   */
  lemma StopCanBeLost(a: Goal, b: Goal, home: Goal) returns (s: State, run: seq<State>)
    ensures Reachable(s) && s.cmd == CIdle && s.shared.status == Stopped
    ensures TimerRun(run) && run[0] == s
    ensures run[|run| - 1].shared.status == Running && run[|run| - 1].shared.waypoints == []
  {
    var s0 := AboutToAdvance(a, b, home);
    var s1 := s0.(cmd := CStopClear(Stopped));
    var s2 := s1.(shared := s0.shared.Cleared(), cmd := CStopSet(Stopped));
    s := s2.(shared := s2.shared.(status := Stopped), cmd := CIdle);
    assert CommandStep(s0, s1) && CommandStep(s1, s2) && CommandStep(s2, s);
    ReachNext(s0, s1);
    ReachNext(s1, s2);
    ReachNext(s2, s);
    hide Reachable, CommandStep;
    var t1 := s.(shared := Written(s.shared, s0.shared), timer := TSet(Running, a));
    var t2 := t1.(shared := t1.shared.(status := Running), timer := TPublish(a));
    assert TimerStepAt(s, t1, None, 0.0) && TimerStepAt(t1, t2, None, 0.0);
    run := [s, t1, t2];
  }

  lemma ReachNext(s: State, t: State)
    requires Reachable(s) && Next(s, t)
    ensures Reachable(t)
  {
    hide Initial, Leads, Next;
    var s0 :| Initial(s0) && Leads(s0, s);
    LeadsNext(s, t);
    LeadsOn(s0, s, t);
  }

  // ---------- a start that is overtaken ----------

  /** A start has set its status and not yet published home, and the timer is between ticks. */
  ghost predicate JustStarted(s: State) {
    && s.cmd.CStartPublish? && s.timer == TIdle
    && s.shared.status == Starting && s.shared.phase == GoHomeStart && s.shared.waypoints != []
  }

  /** A run of the timer alone, with the robot standing at `pose`. */
  ghost predicate StandingRun(run: seq<State>, pose: Option<(real, real)>) {
    run != [] && forall k :: 0 <= k < |run| - 1 ==> StandingStep(run[k], run[k + 1], pose)
  }

  ghost predicate StandingStep(s: State, s': State, pose: Option<(real, real)>) {
    exists now :: TimerStepAt(s, s', pose, now)
  }

  /** Before home is published, the timer publishes another goal. */
  ghost predicate Overtaken(s: State, pose: Option<(real, real)>) {
    exists run: seq<State> :: StandingRun(run, pose) && run[0] == s && run[|run| - 1].published != s.published
  }

  /** The tick at most gives up: nothing is published, and nothing resumes. */
  ghost predicate Harmless(s0: State, s: State) {
    && s.published == s0.published
    && (|| (s.shared == s0.shared &&
            (s.timer == TIdle || s.timer == TDecide || s.timer == TStopClear(Failed) ||
             s.timer == TJudge(s0.shared.tolerance, s0.shared.sentAt)))
        || (s.shared == s0.shared.Cleared() && s.timer == TStopSet(Failed))
        || (s.shared == s0.shared.Cleared().(status := Failed) && s.timer == TIdle))
  }

  lemma HarmlessStep(s0: State, s: State, s': State, pose: Option<(real, real)>)
    requires Harmless(s0, s) && StandingStep(s, s', pose)
    requires !StandsAt(pose, s0.shared.lastGoal, s0.shared.tolerance)
    ensures Harmless(s0, s')
  {
    hide StandsAt;
  }

  lemma {:induction false} HarmlessRun(s0: State, run: seq<State>, pose: Option<(real, real)>)
    requires JustStarted(s0) && StandingRun(run, pose) && run[0] == s0
    requires !StandsAt(pose, s0.shared.lastGoal, s0.shared.tolerance)
    ensures Harmless(s0, run[|run| - 1])
    decreases |run|
  {
    hide StandsAt, StandingStep;
    var n := |run| - 1;
    if n > 0 {
      HarmlessRun(s0, run[..n], pose);
      HarmlessStep(s0, run[n - 1], run[n], pose);
    }
  }

  /** With the robot at the last goal the tick publishes the first waypoint. */
  lemma OvertakingRun(s: State, pose: Option<(real, real)>) returns (run: seq<State>)
    requires Inv(s) && JustStarted(s)
    requires StandsAt(pose, s.shared.lastGoal, s.shared.tolerance)
    ensures StandingRun(run, pose) && run[0] == s
    ensures run[|run| - 1].published == s.published + [s.shared.waypoints[0]]
  {
    var goal := s.shared.waypoints[0];
    var t1, t2 := s.(timer := TDecide), s.(timer := TJudge(s.shared.tolerance, s.shared.sentAt));
    var t3, t4 := s.(timer := TSnapshot), s.(timer := TAdvance(s.shared));
    var t5 := s.(shared := Written(s.shared, s.shared), timer := TSet(Running, goal));
    var t6 := t5.(shared := t5.shared.(status := Running), timer := TPublish(goal));
    var t7 := t6.(timer := TRecord(goal), published := s.published + [goal]);
    run := [s, t1, t2, t3, t4, t5, t6, t7];
    assert TimerStepAt(s, t1, pose, 0.0) && TimerStepAt(t1, t2, pose, 0.0) && TimerStepAt(t2, t3, pose, 0.0);
    assert TimerStepAt(t3, t4, pose, 0.0) && TimerStepAt(t4, t5, pose, 0.0) && TimerStepAt(t5, t6, pose, 0.0);
    assert TimerStepAt(t6, t7, pose, 0.0);
  }

  /**
   A start that has set its status is overtaken by a tick if and only if the robot stands within the
   new tolerance of the last goal, a goal of an earlier run.
   */
  lemma OvertakenExactly(s: State, pose: Option<(real, real)>)
    requires Inv(s) && JustStarted(s)
    ensures Overtaken(s, pose) <==> StandsAt(pose, s.shared.lastGoal, s.shared.tolerance)
  {
    if StandsAt(pose, s.shared.lastGoal, s.shared.tolerance) {
      var run := OvertakingRun(s, pose);
    } else if run: seq<State> :| StandingRun(run, pose) && run[0] == s && run[|run| - 1].published != s.published {
      HarmlessRun(s, run, pose);
    }
  }

  /** The first start after power-on is safe: as long as nothing has been published, there is no last goal. */
  lemma FirstStartIsSafe(run: seq<State>, pose: Option<(real, real)>)
    requires Behaviour(run) && Initial(run[0])
    requires var s := run[|run| - 1]; JustStarted(s) && s.published == []
    ensures !Overtaken(run[|run| - 1], pose)
  {
    SharedInvariant(run);
    OvertakenExactly(run[|run| - 1], pose);
  }

  /** A whole patrol over two waypoints, from power-on to its completion at home. */
  lemma PatrolCompletes(a: Goal, b: Goal, home: Goal) returns (s: State)
    ensures Reachable(s) && s.cmd == CIdle && s.timer == TIdle && s.shared.status == Completed
    ensures s.shared.lastGoal == Some(home) && s.published == [home, a, b, home]
  {
    hide Leads;
    var s0 := State(OFF, CIdle, TIdle, []);
    var s1 := Begun(s0, [a, b], home);
    var s2 := HomeSent(s1, home);
    StartBegins(s0, [a, b], home);
    StartEnds(s1, home);
    LeadsOn(s0, s1, s2);
    TickAdvances(s2, PoseOf(home));
    var s3 := Ticked(s2);
    LeadsOn(s0, s2, s3);
    TickAdvances(s3, PoseOf(a));
    var s4 := Ticked(s3);
    LeadsOn(s0, s3, s4);
    TickAdvances(s4, PoseOf(b));
    var s5 := Ticked(s4);
    LeadsOn(s0, s4, s5);
    TickCompletes(s5, PoseOf(home));
    s := s5.(shared := s5.shared.Cleared().(status := Completed));
    LeadsOn(s0, s5, s);
    assert Initial(s0);
  }

  /**
   From power-on: a patrol completes at home, and with the robot still there the next start is
   overtaken. Its first waypoint is published before its home, and the mission is running towards
   that waypoint while the robot is sent home.
   */
  lemma NextStartOvertaken(a: Goal, b: Goal, home: Goal, c: Goal, d: Goal, home': Goal) returns (s: State, t: State)
    ensures Reachable(s) && JustStarted(s) && Overtaken(s, PoseOf(home))
    ensures Leads(s, t) && t.cmd == CIdle && t.timer == TIdle
    ensures t.published == [home, a, b, home] + [c, home']
    ensures t.shared.status == Running && t.shared.index == 0 && t.shared.lastGoal == Some(home')
  {
    hide Leads, Overtaken, Inv;
    var done := PatrolCompletes(a, b, home);
    s := Begun(done, [c, d], home');
    StartBegins(done, [c, d], home');
    ReachOn(done, s);
    ReachableInv(s);
    OvertakenExactly(s, PoseOf(home));
    TickAdvances(s, PoseOf(home));
    StartEnds(Ticked(s), home');
    t := HomeSent(Ticked(s), home');
    LeadsOn(s, Ticked(s), t);
  }

  lemma ReachOn(s: State, t: State)
    requires Reachable(s) && Leads(s, t)
    ensures Reachable(t)
  {
    hide Initial, Leads;
    var s0 :| Initial(s0) && Leads(s0, s);
    LeadsOn(s0, s, t);
  }

  lemma ReachableInv(s: State)
    requires Reachable(s)
    ensures Inv(s)
  {
    hide Next, Inv, Initial;
    var s0 :| Initial(s0) && Leads(s0, s);
    var run :| Behaviour(run) && run[0] == s0 && run[|run| - 1] == s;
    SharedInvariant(run);
  }
}
