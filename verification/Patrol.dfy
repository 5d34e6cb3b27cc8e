/** The patrol mission with atomic commands and ticks: state, operations, and whole-run guarantees. */
module Patrol {
  import opened Wrappers
  import opened Arithmetic

  datatype Goal = Goal(x: real, y: real, yaw: real)

  datatype Status = Idle | Starting | Running | ReturningHome | Failed | Completed | Stopped | Aborted

  datatype Phase = NoPhase | GoHomeStart | OnPatrol | ReturnHomeEnd

  const TIMEOUT := 180.0
  const MIN_TOLERANCE := 0.05
  const MAX_TOLERANCE := 2.0

  // ---------- requests ----------

  /** A JSON value where a finite number is expected. */
  datatype RawNum = Missing | Bad | Num(value: real)

  /** A JSON value where a position object is expected. */
  datatype RawPose = NotAnObject | Fields(x: RawNum, y: RawNum, yaw: RawNum)

  /** The payload of patrol_start; a missing or non-list waypoint field is None. */
  datatype Request = Request(waypoints: Option<seq<RawPose>>, loops: int, home: RawPose, tolerance: RawNum)

  datatype Plan = Plan(waypoints: seq<Goal>, loops: int, home: Goal, tolerance: real)

  function ParsePose(raw: RawPose): Option<Goal> {
    if raw.Fields? && raw.x.Num? && raw.y.Num? && !raw.yaw.Bad?
    then Some(Goal(raw.x.value, raw.y.value, if raw.yaw.Num? then raw.yaw.value else 0.0))
    else None
  }

  /** The value of the range that is nearest to `v`. */
  function Clamp(v: real, lo: real, hi: real): (c: real)
    requires lo <= hi
    ensures lo <= c <= hi
    ensures (c > v ==> c == lo) && (c < v ==> c == hi)
  {
    var m := if v < hi then v else hi;
    if m > lo then m else lo
  }

  /** What a request must satisfy before the lock is taken. */
  ghost predicate WellFormed(req: Request) {
    && req.waypoints.Some? && |req.waypoints.value| >= 2 && req.loops > 0
    && (forall k :: 0 <= k < |req.waypoints.value| ==> ParsePose(req.waypoints.value[k]).Some?)
    && ParsePose(req.home).Some? && !req.tolerance.Bad?
  }

  ghost function ParsedPlan(req: Request): (plan: Plan)
    requires WellFormed(req)
    ensures ValidPlan(plan) && MIN_TOLERANCE <= plan.tolerance <= MAX_TOLERANCE
  {
    var raw := req.waypoints.value;
    Plan(seq(|raw|, k requires 0 <= k < |raw| => ParsePose(raw[k]).value), req.loops, ParsePose(req.home).value,
         Clamp(if req.tolerance.Num? then req.tolerance.value else 0.25, MIN_TOLERANCE, MAX_TOLERANCE))
  }

  /** A request made of plain numbers is taken over as it is; a missing yaw is 0 and a missing tolerance 0.25. */
  lemma PlainRequest(w: seq<Goal>, loops: int, home: Goal, tolerance: RawNum)
    requires |w| >= 2 && loops > 0 && tolerance != Bad && (tolerance.Num? ==> 0.05 <= tolerance.value <= 2.0)
    ensures var raw := seq(|w|, k requires 0 <= k < |w| => Fields(Num(w[k].x), Num(w[k].y), Num(w[k].yaw)));
      var req := Request(Some(raw), loops, Fields(Num(home.x), Num(home.y), Missing), tolerance);
      && WellFormed(req)
      && ParsedPlan(req) ==
         Plan(w, loops, Goal(home.x, home.y, 0.0), if tolerance == Missing then 0.25 else tolerance.value)
  {
    var raw := seq(|w|, k requires 0 <= k < |w| => Fields(Num(w[k].x), Num(w[k].y), Num(w[k].yaw)));
    var req := Request(Some(raw), loops, Fields(Num(home.x), Num(home.y), Missing), tolerance);
    assert ParsedPlan(req).waypoints == w;
  }

  ghost predicate ValidPlan(plan: Plan) {
    |plan.waypoints| >= 2 && plan.loops > 0 && plan.tolerance > 0.0
  }

  // ---------- mission state ----------

  datatype Mission = Mission(status: Status, phase: Phase, waypoints: seq<Goal>, home: Option<Goal>, totalLoops: int,
                             currentLoop: int, index: int, tolerance: real, goalSentAt: Option<real>,
                             lastGoal: Option<Goal>, published: seq<Goal>)
  {
    predicate Active() {
      status == Starting || status == Running || status == ReturningHome
    }

    /** Waypoints and loops come and go together, and the counters never underflow. */
    ghost predicate SharedOk() {
      && ((waypoints == [] && totalLoops == 0) || (|waypoints| >= 2 && totalLoops > 0))
      && currentLoop >= 0 && index >= -1
    }

    ghost predicate Ok() {
      && SharedOk() && tolerance > 0.0
      && (phase == GoHomeStart <==> status == Starting)
      && (phase == OnPatrol <==> status == Running)
      && (phase == ReturnHomeEnd <==> status == ReturningHome)
      && (phase == NoPhase ==>
            waypoints == [] && totalLoops == 0 && currentLoop == 0 && index == -1 && goalSentAt == None)
      && (phase != NoPhase ==> waypoints != [] && home.Some? && goalSentAt.Some? && lastGoal.Some?)
      && (phase == OnPatrol ==> 1 <= currentLoop <= totalLoops && 0 <= index < |waypoints|)
    }
  }

  const INITIAL := Mission(Idle, NoPhase, [], None, 0, 0, -1, 0.25, None, None, [])

  // ---------- operations as functions of the state ----------

  function Publish(m: Mission, goal: Goal, now: real): Mission {
    m.(lastGoal := Some(goal), goalSentAt := Some(now), published := m.published + [goal])
  }

  function Stop(m: Mission, status: Status): Mission {
    m.(status := status, phase := NoPhase, waypoints := [], totalLoops := 0, currentLoop := 0, index := -1,
       goalSentAt := None)
  }

  function Begin(m: Mission, plan: Plan, now: real): Mission {
    Publish(m.(status := Starting, phase := GoHomeStart, waypoints := plan.waypoints, home := Some(plan.home),
               totalLoops := plan.loops, currentLoop := 0, index := -1, tolerance := plan.tolerance), plan.home, now)
  }

  function Advance(m: Mission, now: real): Mission
    requires m.SharedOk()
  {
    match m.phase
    case GoHomeStart =>
      if m.waypoints == [] then Stop(m, Failed)
      else Publish(m.(phase := OnPatrol, currentLoop := 1, index := 0, status := Running), m.waypoints[0], now)
    case OnPatrol =>
      if m.index < |m.waypoints| - 1 then
        Publish(m.(index := m.index + 1, status := Running), m.waypoints[m.index + 1], now)
      else if m.currentLoop < m.totalLoops then
        Publish(m.(currentLoop := m.currentLoop + 1, index := 0, status := Running), m.waypoints[0], now)
      else if m.home == None then Stop(m, Failed)
      else Publish(m.(phase := ReturnHomeEnd, status := ReturningHome), m.home.value, now)
    case ReturnHomeEnd => Stop(m, Completed)
    case NoPhase => m
  }

  /** The robot's pose is known and within tolerance of the last goal. */
  predicate Arrived(m: Mission, pose: Option<(real, real)>) {
    StandsAt(pose, m.lastGoal, m.tolerance)
  }

  predicate StandsAt(pose: Option<(real, real)>, goal: Option<Goal>, tolerance: real) {
    pose.Some? && goal.Some? && DistSq(pose.value, goal.value) <= tolerance * tolerance
  }

  /** In lengths: the robot stands at a goal when its distance `d` to it is at most the tolerance. */
  lemma StandsWithinTolerance(pose: (real, real), goal: Goal, tolerance: real, d: real)
    requires d >= 0.0 && tolerance >= 0.0
    requires d * d == (pose.0 - goal.x) * (pose.0 - goal.x) + (pose.1 - goal.y) * (pose.1 - goal.y)
    ensures StandsAt(Some(pose), Some(goal), tolerance) <==> d <= tolerance
  {
    RootLe(d, tolerance);
  }

  /** A robot that stands at a goal is within the tolerance of it along each axis. */
  lemma StandsNearOnBothAxes(pose: (real, real), goal: Goal, tolerance: real)
    requires tolerance >= 0.0 && StandsAt(Some(pose), Some(goal), tolerance)
    ensures -tolerance <= pose.0 - goal.x <= tolerance && -tolerance <= pose.1 - goal.y <= tolerance
  {
    var dx, dy := pose.0 - goal.x, pose.1 - goal.y;
    SquareBound(dx, dy, tolerance);
    SquareBound(dy, dx, tolerance);
  }

  lemma SquareBound(x: real, y: real, t: real)
    requires t >= 0.0 && x * x + y * y <= t * t
    ensures -t <= x <= t
  {
    assert y * y >= 0.0;
    assert (-x) * (-x) == x * x;
    if x >= 0.0 {
      RootLe(x, t);
    } else {
      RootLe(-x, t);
    }
  }

  function DistSq(pose: (real, real), goal: Goal): real {
    (pose.0 - goal.x) * (pose.0 - goal.x) + (pose.1 - goal.y) * (pose.1 - goal.y)
  }

  function Tick(m: Mission, pose: Option<(real, real)>, now: real): Mission
    requires m.SharedOk()
  {
    if !m.Active() then m
    else if Arrived(m, pose) then Advance(m, now)
    else if m.goalSentAt.Some? && now - m.goalSentAt.value > TIMEOUT then Stop(m, Failed)
    else m
  }

  // ---------- the mission object ----------

  class PatrolMission {
    var status: Status
    var phase: Phase
    var waypoints: seq<Goal>
    var home: Option<Goal>
    var totalLoops: int
    var currentLoop: int
    var currentWaypointIndex: int
    var waypointTolerance: real
    var goalSentAt: Option<real>
    var lastGoal: Option<Goal>
    var goalTopic: seq<Goal>

    ghost function State(): Mission
      reads this
    {
      Mission(status, phase, waypoints, home, totalLoops, currentLoop, currentWaypointIndex, waypointTolerance,
              goalSentAt, lastGoal, goalTopic)
    }

    constructor ()
      ensures State() == INITIAL
    {
      status, phase, waypoints, home := Idle, NoPhase, [], None;
      totalLoops, currentLoop, currentWaypointIndex := 0, 0, -1;
      waypointTolerance, goalSentAt, lastGoal, goalTopic := 0.25, None, None, [];
    }

    predicate IsPatrolActive()
      reads this
    {
      status == Starting || status == Running || status == ReturningHome
    }

    method SetPatrolState(status: Status)
      modifies this`status
      ensures State() == old(State()).(status := status)
    {
      this.status := status;
    }

    method PublishGoal(goal: Goal, now: real)
      modifies this`goalTopic, this`lastGoal, this`goalSentAt
      ensures State() == Publish(old(State()), goal, now)
    {
      goalTopic := goalTopic + [goal];
      lastGoal := Some(goal);
      goalSentAt := Some(now);
    }

    method StopPatrol(status: Status)
      modifies this
      ensures State() == Stop(old(State()), status)
    {
      phase := NoPhase;
      waypoints := [];
      totalLoops := 0;
      currentLoop := 0;
      currentWaypointIndex := -1;
      goalSentAt := None;
      SetPatrolState(status);
    }

    /** The normalisation loop of _start_patrol. */
    method NormalizeWaypoints(raw: seq<RawPose>) returns (ok: bool, goals: seq<Goal>)
      ensures ok <==> forall k :: 0 <= k < |raw| ==> ParsePose(raw[k]).Some?
      ensures ok ==> |goals| == |raw| && forall k :: 0 <= k < |raw| ==> ParsePose(raw[k]) == Some(goals[k])
    {
      goals := [];
      var k := 0;
      while k < |raw|
        invariant 0 <= k <= |raw| && |goals| == k
        invariant forall j :: 0 <= j < k ==> ParsePose(raw[j]) == Some(goals[j])
      {
        var goal := ParsePose(raw[k]);
        if goal == None {
          return false, [];
        }
        goals := goals + [goal.value];
        k := k + 1;
      }
      ok := true;
    }

    /** _start_patrol: accepted exactly for a well-formed request while no mission is active. */
    method StartPatrol(req: Request, now: real) returns (ok: bool)
      modifies this
      ensures ok <==> WellFormed(req) && !old(State()).Active()
      ensures State() == if ok then Begin(old(State()), ParsedPlan(req), now) else old(State())
    {
      hide WellFormed, ParsedPlan;
      var parsed := ParseStart(req);
      if parsed == None || IsPatrolActive() {
        return false;
      }
      BeginPatrol(parsed.value, now);
      ok := true;
    }

    /** The assignments of an accepted start. */
    method BeginPatrol(plan: Plan, now: real)
      modifies this
      ensures State() == Begin(old(State()), plan, now)
    {
      waypoints := plan.waypoints;
      home := Some(plan.home);
      totalLoops := plan.loops;
      currentLoop := 0;
      currentWaypointIndex := -1;
      waypointTolerance := plan.tolerance;
      phase := GoHomeStart;
      SetPatrolState(Starting);
      PublishGoal(plan.home, now);
    }

    /** The checks _start_patrol makes before it looks at the mission. */
    method ParseStart(req: Request) returns (plan: Option<Plan>)
      ensures plan == if WellFormed(req) then Some(ParsedPlan(req)) else None
    {
      if req.waypoints == None || |req.waypoints.value| < 2 {
        return None;
      }
      if req.loops <= 0 {
        return None;
      }
      if req.home == NotAnObject {
        return None;
      }
      var valid, normalized := NormalizeWaypoints(req.waypoints.value);
      if !valid {
        return None;
      }
      var normalizedHome := ParsePose(req.home);
      if normalizedHome == None || req.tolerance == Bad {
        return None;
      }
      var tolerance := Clamp(if req.tolerance.Num? then req.tolerance.value else 0.25, MIN_TOLERANCE, MAX_TOLERANCE);
      assert normalized == ParsedPlan(req).waypoints;
      plan := Some(Plan(normalized, req.loops, normalizedHome.value, tolerance));
    }

    /** _advance_patrol_goal; no indexing error is possible in a state that meets the shared invariant. */
    method AdvancePatrolGoal(now: real)
      requires State().SharedOk()
      modifies this
      ensures State() == Advance(old(State()), now)
    {
      var phase, totalLoops, waypoints := this.phase, this.totalLoops, this.waypoints;
      var currentLoop, index, home := this.currentLoop, this.currentWaypointIndex, this.home;
      if phase == GoHomeStart {
        if waypoints == [] {
          StopPatrol(Failed);
          return;
        }
        this.phase := OnPatrol;
        this.currentLoop := 1;
        this.currentWaypointIndex := 0;
        SetPatrolState(Running);
        PublishGoal(waypoints[0], now);
        return;
      }
      if phase == OnPatrol {
        if index < |waypoints| - 1 {
          var nextIndex := index + 1;
          this.currentWaypointIndex := nextIndex;
          SetPatrolState(Running);
          PublishGoal(waypoints[nextIndex], now);
          return;
        }
        if currentLoop < totalLoops {
          var nextLoop := currentLoop + 1;
          this.currentLoop := nextLoop;
          this.currentWaypointIndex := 0;
          SetPatrolState(Running);
          PublishGoal(waypoints[0], now);
          return;
        }
        if home == None {
          StopPatrol(Failed);
          return;
        }
        this.phase := ReturnHomeEnd;
        SetPatrolState(ReturningHome);
        PublishGoal(home.value, now);
        return;
      }
      if phase == ReturnHomeEnd {
        StopPatrol(Completed);
      }
    }

    /** patrol_tick; distances are compared squared, and without a map pose only the timeout is judged. */
    method PatrolTick(pose: Option<(real, real)>, now: real)
      requires State().SharedOk()
      modifies this
      ensures State() == Tick(old(State()), pose, now)
      ensures (goalTopic != old(goalTopic) || (status == Completed && old(status) != Completed)) &&
              old(waypointTolerance) >= 0.0 ==>
        && old(IsPatrolActive()) && pose.Some? && old(lastGoal).Some?
        && -old(waypointTolerance) <= pose.value.0 - old(lastGoal).value.x <= old(waypointTolerance)
        && -old(waypointTolerance) <= pose.value.1 - old(lastGoal).value.y <= old(waypointTolerance)
    {
      if waypointTolerance >= 0.0 && StandsAt(pose, lastGoal, waypointTolerance) {
        StandsNearOnBothAxes(pose.value, lastGoal.value, waypointTolerance);
      }
      if !IsPatrolActive() {
        return;
      }
      var tolerance, sentAt, goal := waypointTolerance, goalSentAt, lastGoal;
      if goal.Some? && pose.Some? {
        var dx, dy := pose.value.0 - goal.value.x, pose.value.1 - goal.value.y;
        if dx * dx + dy * dy <= tolerance * tolerance {
          AdvancePatrolGoal(now);
          return;
        }
      }
      if sentAt.Some? && now - sentAt.value > TIMEOUT {
        StopPatrol(Failed);
      }
    }

    /** The patrol_stop and nav_goal branches of cmd_loop, as far as the mission goes. */
    method Interrupt(status: Status)
      modifies this
      ensures State() == if old(State()).Active() then Stop(old(State()), status) else old(State())
    {
      if IsPatrolActive() {
        StopPatrol(status);
      }
    }
  }

  // ---------- runs of events ----------

  /** One atomic command or tick. */
  datatype Event =
    | StartCmd(req: Request, now: real)
    | StopCmd
    | NavGoalCmd
    | TimerTick(pose: Option<(real, real)>, now: real)

  ghost function Step(m: Mission, e: Event): Mission
    requires m.SharedOk()
  {
    match e
    case StartCmd(req, now) => if WellFormed(req) && !m.Active() then Begin(m, ParsedPlan(req), now) else m
    case StopCmd => if m.Active() then Stop(m, Stopped) else m
    case NavGoalCmd => if m.Active() then Stop(m, Aborted) else m
    case TimerTick(pose, now) => Tick(m, pose, now)
  }

  /** One accepted start: its plan, when it was accepted, and how many goals have been reached since. */
  datatype Run = Run(plan: Plan, startedAt: real, arrivals: nat)

  /** The record kept beside the mission: a new run per accepted start, one more arrival per advance. */
  ghost function Record(m: Mission, log: seq<Run>, e: Event): seq<Run> {
    match e
    case StartCmd(req, now) =>
      if WellFormed(req) && !m.Active() then log + [Run(ParsedPlan(req), now, 0)] else log
    case TimerTick(pose, _) =>
      if m.Active() && Arrived(m, pose) && log != [] then
        log[|log| - 1 := log[|log| - 1].(arrivals := log[|log| - 1].arrivals + 1)]
      else log
    case _ => log
  }

  function Repeat(w: seq<Goal>, n: nat): (r: seq<Goal>)
    ensures |r| == n * |w|
  {
    if n == 0 then [] else
      assert n * |w| == (n - 1) * |w| + |w|;
      Repeat(w, n - 1) + w
  }

  /** Goals of a complete patrol. */
  function GoalCount(plan: Plan): int {
    plan.loops * |plan.waypoints| + 2
  }

  /** The goals of a complete patrol: home, the waypoints once per loop, home. */
  ghost function Itinerary(plan: Plan): (r: seq<Goal>)
    requires plan.loops > 0
    ensures |r| == GoalCount(plan)
  {
    [plan.home] + Repeat(plan.waypoints, plan.loops) + [plan.home]
  }

  ghost function GoalsOf(run: Run): seq<Goal>
    requires run.plan.loops > 0
  {
    var it := Itinerary(run.plan);
    it[..if run.arrivals + 1 < |it| then run.arrivals + 1 else |it|]
  }

  ghost predicate ValidLog(log: seq<Run>) {
    forall k :: 0 <= k < |log| ==>
      ValidPlan(log[k].plan) && log[k].arrivals <= |Itinerary(log[k].plan)|
  }

  ghost function AllGoals(log: seq<Run>): seq<Goal>
    requires ValidLog(log)
  {
    if log == [] then [] else AllGoals(log[..|log| - 1]) + GoalsOf(log[|log| - 1])
  }

  /** How many goals of its itinerary an active mission has reached. */
  ghost function Reached(m: Mission): int {
    match m.phase
    case NoPhase => 0
    case GoHomeStart => 0
    case OnPatrol => 1 + (m.currentLoop - 1) * |m.waypoints| + m.index
    case ReturnHomeEnd => 1 + m.totalLoops * |m.waypoints|
  }

  ghost predicate SamePlan(m: Mission, plan: Plan) {
    m.waypoints == plan.waypoints && m.totalLoops == plan.loops && m.home == Some(plan.home)
  }

  /** The published goals are the logged runs' prefixes, and the mission matches its last run. */
  ghost predicate Traced(m: Mission, log: seq<Run>) {
    && m.Ok() && ValidLog(log) && m.published == AllGoals(log)
    && (m.Active() ==>
          && log != [] && SamePlan(m, log[|log| - 1].plan)
          && log[|log| - 1].arrivals == Reached(m)
          && Reached(m) < |Itinerary(log[|log| - 1].plan)|
          && m.lastGoal == Some(Itinerary(log[|log| - 1].plan)[Reached(m)]))
    && (m.status == Completed <==>
          log != [] && log[|log| - 1].arrivals == |Itinerary(log[|log| - 1].plan)|)
  }

  // ---------- the itinerary ----------

  lemma {:induction false} RepeatAt(w: seq<Goal>, n: nat, loop: nat, i: nat)
    requires loop < n && i < |w|
    ensures 0 <= loop * |w| + i < n * |w| && Repeat(w, n)[loop * |w| + i] == w[i]
  {
    assert n * |w| == (n - 1) * |w| + |w|;
    if loop < n - 1 {
      RepeatAt(w, n - 1, loop, i);
    }
  }

  lemma ItineraryAt(plan: Plan, loop: nat, i: nat)
    requires ValidPlan(plan) && 1 <= loop <= plan.loops && i < |plan.waypoints|
    ensures var k := 1 + (loop - 1) * |plan.waypoints| + i;
      0 <= k < |Itinerary(plan)| - 1 && Itinerary(plan)[k] == plan.waypoints[i]
  {
    RepeatAt(plan.waypoints, plan.loops, loop - 1, i);
  }

  lemma ItineraryEnds(plan: Plan)
    requires ValidPlan(plan)
    ensures Itinerary(plan)[0] == plan.home && Itinerary(plan)[|Itinerary(plan)| - 1] == plan.home
  {
  }

  // ---------- every event keeps the trace ----------

  lemma StopTraced(m: Mission, log: seq<Run>, status: Status)
    requires Traced(m, log) && m.Active() && (status == Failed || status == Stopped || status == Aborted)
    ensures Traced(Stop(m, status), log)
  {
    hide Itinerary, AllGoals;
  }

  /** An accepted start in the record: its home joins the list of goals. */
  lemma BeginLogged(log: seq<Run>, plan: Plan, now: real)
    requires ValidLog(log) && ValidPlan(plan)
    ensures ValidLog(log + [Run(plan, now, 0)])
    ensures AllGoals(log + [Run(plan, now, 0)]) == AllGoals(log) + [plan.home]
  {
    ItineraryEnds(plan);
    hide Itinerary;
    assert (log + [Run(plan, now, 0)])[..|log|] == log;
    assert GoalsOf(Run(plan, now, 0)) == [plan.home];
  }

  lemma BeginTraced(m: Mission, log: seq<Run>, plan: Plan, now: real)
    requires Traced(m, log) && !m.Active() && ValidPlan(plan)
    ensures Traced(Begin(m, plan, now), log + [Run(plan, now, 0)])
  {
    hide Itinerary, AllGoals, ValidLog;
    BeginLogged(log, plan, now);
    ItineraryEnds(plan);
  }

  /** Where an advance leads: one goal further along the itinerary, or to completion after the last. */
  lemma AdvanceStep(m: Mission, plan: Plan, now: real)
    requires m.Ok() && m.Active() && ValidPlan(plan) && SamePlan(m, plan)
    ensures Reached(m) + 1 <= |Itinerary(plan)|
    ensures var m' := Advance(m, now);
      if Reached(m) + 1 < |Itinerary(plan)|
      then && m'.Ok() && m'.Active() && SamePlan(m', plan) && Reached(m') == Reached(m) + 1
           && m'.lastGoal == Some(Itinerary(plan)[Reached(m) + 1])
           && m'.goalSentAt == Some(now)
           && m'.published == m.published + [Itinerary(plan)[Reached(m) + 1]]
      else m' == Stop(m, Completed)
  {
    hide Itinerary, Repeat;
    match m.phase {
      case GoHomeStart =>
        ItineraryAt(plan, 1, 0);
      case OnPatrol =>
        ItineraryAt(plan, m.currentLoop, m.index);
        if m.index < |m.waypoints| - 1 {
          ItineraryAt(plan, m.currentLoop, m.index + 1);
        } else if m.currentLoop < m.totalLoops {
          ItineraryAt(plan, m.currentLoop + 1, 0);
          NextLoop(m.currentLoop, |m.waypoints|);
        } else {
          ItineraryEnds(plan);
          NextLoop(m.currentLoop, |m.waypoints|);
        }
      case ReturnHomeEnd =>
    }
  }

  lemma NextLoop(loop: int, n: nat)
    ensures (loop - 1) * n + n == loop * n
  {
  }

  /** One more arrival in the record: the next goal of the itinerary, if one is left, joins the list. */
  lemma ArrivalLogged(log: seq<Run>)
    requires ValidLog(log) && log != [] && log[|log| - 1].arrivals < |Itinerary(log[|log| - 1].plan)|
    ensures var last := log[|log| - 1];
      var log' := log[|log| - 1 := last.(arrivals := last.arrivals + 1)];
      var it := Itinerary(last.plan);
      && ValidLog(log')
      && AllGoals(log') == AllGoals(log) + (if last.arrivals + 1 < |it| then [it[last.arrivals + 1]] else [])
  {
    hide Itinerary;
    var n := |log| - 1;
    var last := log[n];
    var log' := log[n := last.(arrivals := last.arrivals + 1)];
    var it := Itinerary(last.plan);
    assert log'[..n] == log[..n];
    assert last.arrivals + 1 < |it| ==> it[..last.arrivals + 2] == it[..last.arrivals + 1] + [it[last.arrivals + 1]];
  }

  lemma ArrivalTraced(m: Mission, log: seq<Run>, now: real)
    requires Traced(m, log) && m.Active()
    ensures var last := log[|log| - 1];
      Traced(Advance(m, now), log[|log| - 1 := last.(arrivals := last.arrivals + 1)])
  {
    hide Itinerary, Advance, Reached, AllGoals, ValidLog;
    PlanOfLast(log);
    AdvanceStep(m, log[|log| - 1].plan, now);
    ArrivalLogged(log);
  }

  lemma PlanOfLast(log: seq<Run>)
    requires ValidLog(log) && log != []
    ensures ValidPlan(log[|log| - 1].plan)
  {
  }

  lemma StepTraced(m: Mission, log: seq<Run>, e: Event)
    requires Traced(m, log)
    ensures Traced(Step(m, e), Record(m, log, e))
  {
    hide Itinerary, AllGoals, ParsedPlan, Advance;
    match e {
      case StartCmd(req, now) =>
        if WellFormed(req) && !m.Active() {
          BeginTraced(m, log, ParsedPlan(req), now);
        }
      case StopCmd =>
        if m.Active() {
          StopTraced(m, log, Stopped);
        }
      case NavGoalCmd =>
        if m.Active() {
          StopTraced(m, log, Aborted);
        }
      case TimerTick(pose, now) =>
        if m.Active() && Arrived(m, pose) {
          ArrivalTraced(m, log, now);
        } else if m.Active() && now - m.goalSentAt.value > TIMEOUT {
          StopTraced(m, log, Failed);
        }
    }
  }

  /** Mission and record after a list of events from power-on. */
  ghost function After(events: seq<Event>): (s: (Mission, seq<Run>))
    ensures Traced(s.0, s.1)
  {
    if events == [] then
      (INITIAL, [])
    else
      var s := After(events[..|events| - 1]);
      StepTraced(s.0, s.1, events[|events| - 1]);
      (Step(s.0, events[|events| - 1]), Record(s.0, s.1, events[|events| - 1]))
  }

  /**
   For every list of commands and ticks: the goals published are, run after run, a prefix of the
   run's itinerary, one goal longer than the arrivals so far; and the mission reads completed
   exactly when the last run has arrived loops * |waypoints| + 2 times.
   */
  lemma PublishedGoals(events: seq<Event>)
    ensures var (m, log) := After(events);
      && m.Ok() && ValidLog(log)
      && m.published == AllGoals(log)
      && (m.status == Completed <==>
            log != [] &&
            log[|log| - 1].arrivals == GoalCount(log[|log| - 1].plan))
  {
    var s := After(events);
    hide After;
    assert Traced(s.0, s.1);
  }

  // ---------- deadline ----------

  /** Events carry increasing times from `boot` on, and ticks are never more than `gap` apart. */
  ghost predicate WellTimed(events: seq<Event>, gap: real, boot: real) {
    if events == [] then gap >= 0.0
    else
      var before := events[..|events| - 1];
      WellTimed(before, gap, boot) &&
      match events[|events| - 1]
      case StartCmd(_, now) => now >= LastTick(before, boot)
      case TimerTick(_, now) => LastTick(before, boot) <= now <= LastTick(before, boot) + gap
      case _ => true
  }

  /** Time of the last tick; the first reading of the clock, `boot`, stands for it before there is one. */
  ghost function LastTick(events: seq<Event>, boot: real): real {
    if events == [] then boot
    else match events[|events| - 1]
      case TimerTick(_, now) => now
      case _ => LastTick(events[..|events| - 1], boot)
  }

  /** How long `n` goals may take. */
  ghost function Allowance(n: int, gap: real): real {
    n as real * (TIMEOUT + gap)
  }

  /** Each goal may take three minutes and one gap between ticks. */
  lemma AllowanceInSeconds(n: int, gap: real)
    ensures Allowance(n, gap) == n as real * 180.0 + n as real * gap
  {
  }

  ghost predicate OnSchedule(m: Mission, log: seq<Run>, tick: real, gap: real)
    requires Traced(m, log)
  {
    m.Active() ==>
      var run := log[|log| - 1];
      && m.goalSentAt.value <= run.startedAt + Allowance(run.arrivals, gap)
      && tick <= m.goalSentAt.value + TIMEOUT
  }

  lemma {:induction false} StaysOnSchedule(events: seq<Event>, gap: real, boot: real)
    requires WellTimed(events, gap, boot)
    ensures gap >= 0.0
    ensures OnSchedule(After(events).0, After(events).1, LastTick(events, boot), gap)
  {
    hide Itinerary, AllGoals, ParsedPlan, Allowance;
    if events != [] {
      var before, e := events[..|events| - 1], events[|events| - 1];
      StaysOnSchedule(before, gap, boot);
      var (m, log) := After(before);
      StepTraced(m, log, e);
      StepOnSchedule(m, log, e, LastTick(before, boot), gap);
      assert After(events) == (Step(m, e), Record(m, log, e));
    }
  }

  lemma StepOnSchedule(m: Mission, log: seq<Run>, e: Event, tick: real, gap: real)
    requires Traced(m, log) && OnSchedule(m, log, tick, gap) && gap >= 0.0
    requires e.StartCmd? ==> e.now >= tick
    requires e.TimerTick? ==> tick <= e.now <= tick + gap
    ensures Traced(Step(m, e), Record(m, log, e))
    ensures OnSchedule(Step(m, e), Record(m, log, e), if e.TimerTick? then e.now else tick, gap)
  {
    StepTraced(m, log, e);
    hide Itinerary, AllGoals, ParsedPlan, Advance, Traced, Allowance;
    if e.TimerTick? && m.Active() && Arrived(m, e.pose) {
      ArrivalOnSchedule(m, log, tick, e.now, gap);
    } else if e.StartCmd? {
      StartOnSchedule(m, log, e, tick, gap);
    }
  }

  lemma StartOnSchedule(m: Mission, log: seq<Run>, e: Event, tick: real, gap: real)
    requires Traced(m, log) && OnSchedule(m, log, tick, gap) && e.StartCmd? && e.now >= tick
    requires Traced(Step(m, e), Record(m, log, e))
    ensures OnSchedule(Step(m, e), Record(m, log, e), tick, gap)
  {
    hide Itinerary, AllGoals, ParsedPlan, Traced;
    assert Allowance(0, gap) == 0.0;
  }

  lemma ArrivalOnSchedule(m: Mission, log: seq<Run>, tick: real, now: real, gap: real)
    requires Traced(m, log) && OnSchedule(m, log, tick, gap) && m.Active() && now <= tick + gap
    requires var last := log[|log| - 1];
      Traced(Advance(m, now), log[|log| - 1 := last.(arrivals := last.arrivals + 1)])
    ensures var last := log[|log| - 1];
      OnSchedule(Advance(m, now), log[|log| - 1 := last.(arrivals := last.arrivals + 1)], now, gap)
  {
    var k := log[|log| - 1].arrivals;
    AdvanceStep(m, log[|log| - 1].plan, now);
    OneMoreShare(k, gap);
    hide Itinerary, AllGoals, ParsedPlan, Advance, Allowance;
  }

  lemma OneMoreShare(k: nat, gap: real)
    ensures Allowance(k + 1, gap) == Allowance(k, gap) + TIMEOUT + gap
  {
    var c := TIMEOUT + gap;
    assert (k + 1) as real * c == k as real * c + c;
  }

  lemma {:induction false} MoreShares(k: nat, n: nat, gap: real)
    requires k + 1 <= n && 0.0 <= gap
    ensures Allowance(k, gap) + TIMEOUT + gap <= Allowance(n, gap)
    decreases n
  {
    OneMoreShare(n - 1, gap);
    hide Allowance;
    if k + 1 < n {
      MoreShares(k, n - 1, gap);
    }
  }

  /**
   Deadline: a run still active at its last tick has started at most
   (loops * |waypoints| + 2) * (180 + gap) seconds before.
   */
  lemma RunEndsInTime(events: seq<Event>, gap: real, boot: real)
    requires WellTimed(events, gap, boot) && After(events).0.Active()
    ensures After(events).1 != []
    ensures var run := After(events).1[|After(events).1| - 1];
      LastTick(events, boot) <= run.startedAt + Allowance(GoalCount(run.plan), gap)
  {
    hide GoalCount, Itinerary, AllGoals, Reached, OnSchedule, Allowance;
    var (m, log) := After(events);
    hide After;
    StaysOnSchedule(events, gap, boot);
    ScheduleBound(m, log, LastTick(events, boot), gap);
  }

  lemma ScheduleBound(m: Mission, log: seq<Run>, tick: real, gap: real)
    requires Traced(m, log) && m.Active() && OnSchedule(m, log, tick, gap) && gap >= 0.0
    ensures var run := log[|log| - 1];
      tick <= run.startedAt + Allowance(GoalCount(run.plan), gap)
  {
    hide GoalCount, Itinerary, AllGoals, Reached, Allowance;
    var run := log[|log| - 1];
    MoreShares(run.arrivals, |Itinerary(run.plan)|, gap);
  }
}
