/** The collision monitor: simulated motion, collision time, and the choice of the safest action. */
module CollisionMonitor {
  import opened Wrappers
  import opened Arithmetic
  import opened P = Polygon

  datatype Velocity = Velocity(x: real, y: real, tw: real) {
    /** What operator< compares. */
    function NormSq(): real {
      x * x + y * y + tw * tw
    }

    function Times(mul: real): Velocity {
      Velocity(x * mul, y * mul, tw * mul)
    }

    predicate IsZero() {
      x == 0.0 && y == 0.0 && tw == 0.0
    }
  }

  datatype Pose = Pose(x: real, y: real, theta: real)

  datatype ActionType = DoNothing | Stop | Slowdown | Approach

  datatype Action = Action(kind: ActionType, vel: Velocity)

  const ZERO := Velocity(0.0, 0.0, 0.0)

  /** The trigonometric functions of the platform. */
  datatype Trig = Trig(cos: real -> real, sin: real -> real)

  // ---------- kinematics ----------

  function ProjectState(trig: Trig, dt: real, pose: Pose, vel: Velocity): (Pose, Velocity) {
    var theta := vel.tw * dt;
    (Pose(pose.x + vel.x * dt, pose.y + vel.y * dt, pose.theta + theta),
     Velocity(vel.x * trig.cos(theta) - vel.y * trig.sin(theta),
              vel.x * trig.sin(theta) + vel.y * trig.cos(theta), vel.tw))
  }

  function TransformPoint(trig: Trig, pose: Pose, p: Point): Point {
    var mx, my := p.x - pose.x, p.y - pose.y;
    Point(mx * trig.cos(pose.theta) + my * trig.sin(pose.theta),
          -mx * trig.sin(pose.theta) + my * trig.cos(pose.theta))
  }

  function TransformPoints(trig: Trig, pose: Pose, points: seq<Point>): (r: seq<Point>)
    ensures |r| == |points|
  {
    seq(|points|, k requires 0 <= k < |points| => TransformPoint(trig, pose, points[k]))
  }

  /** The trigonometric functions are a point of the unit circle at every angle. */
  ghost predicate OnUnitCircle(trig: Trig, theta: real) {
    trig.cos(theta) * trig.cos(theta) + trig.sin(theta) * trig.sin(theta) == 1.0
  }

  /** Seen from a pose, what lies `ahead` along its heading and `left` of it is at (ahead, left). */
  lemma SeenFromPose(trig: Trig, pose: Pose, ahead: real, left: real)
    requires OnUnitCircle(trig, pose.theta)
    ensures var c, s := trig.cos(pose.theta), trig.sin(pose.theta);
      TransformPoint(trig, pose, Point(pose.x + ahead * c - left * s, pose.y + ahead * s + left * c)) ==
        Point(ahead, left)
  {
    Unrotated(ahead, left, trig.cos(pose.theta), trig.sin(pose.theta));
  }

  lemma Unrotated(a: real, l: real, c: real, s: real)
    requires c * c + s * s == 1.0
    ensures (a * c - l * s) * c + (a * s + l * c) * s == a
    ensures -(a * c - l * s) * s + (a * s + l * c) * c == l
  {
    assert (a * c - l * s) * c + (a * s + l * c) * s == a * (c * c + s * s);
    assert -(a * c - l * s) * s + (a * s + l * c) * c == l * (c * c + s * s);
  }

  /** The addition laws, and the values at zero. */
  ghost predicate AddsAngles(trig: Trig) {
    && trig.cos(0.0) == 1.0 && trig.sin(0.0) == 0.0
    && (forall a, b :: Sum(trig.cos, a, b) == trig.cos(a) * trig.cos(b) - trig.sin(a) * trig.sin(b))
    && (forall a, b :: Sum(trig.sin, a, b) == trig.sin(a) * trig.cos(b) + trig.cos(a) * trig.sin(b))
  }

  function Sum(f: real -> real, a: real, b: real): real {
    f(a + b)
  }

  /** The velocity (x, y) turned by `theta`. */
  function Turned(trig: Trig, vel: Velocity, theta: real): Velocity {
    Velocity(vel.x * trig.cos(theta) - vel.y * trig.sin(theta), vel.x * trig.sin(theta) + vel.y * trig.cos(theta),
             vel.tw)
  }

  lemma TurnedTwice(trig: Trig, vel: Velocity, a: real, b: real)
    requires AddsAngles(trig)
    ensures Turned(trig, Turned(trig, vel, a), b) == Turned(trig, vel, a + b)
  {
    hide AddsAngles;
    AngleAdded(trig, a, b);
    RotationsAdd(vel.x, vel.y, trig.cos(a), trig.sin(a), trig.cos(b), trig.sin(b));
  }

  lemma AngleAdded(trig: Trig, a: real, b: real)
    requires AddsAngles(trig)
    ensures trig.cos(a + b) == trig.cos(a) * trig.cos(b) - trig.sin(a) * trig.sin(b)
    ensures trig.sin(a + b) == trig.sin(a) * trig.cos(b) + trig.cos(a) * trig.sin(b)
  {
    assert Sum(trig.cos, a, b) == trig.cos(a + b) && Sum(trig.sin, a, b) == trig.sin(a + b);
  }

  lemma NotTurned(trig: Trig, vel: Velocity)
    requires AddsAngles(trig)
    ensures Turned(trig, vel, 0.0) == vel
  {
  }

  lemma ProjectedState(trig: Trig, dt: real, pose: Pose, vel: Velocity)
    ensures var (pose', vel') := ProjectState(trig, dt, pose, vel);
      && pose'.x == pose.x + vel.x * dt && pose'.y == pose.y + vel.y * dt && pose'.theta == pose.theta + vel.tw * dt
      && vel' == Turned(trig, vel, vel.tw * dt)
  {
  }

  lemma RotationsAdd(x: real, y: real, c: real, s: real, d: real, t: real)
    ensures (x * c - y * s) * d - (x * s + y * c) * t == x * (c * d - s * t) - y * (s * d + c * t)
    ensures (x * c - y * s) * t + (x * s + y * c) * d == x * (s * d + c * t) + y * (c * d - s * t)
  {
  }

  /**
   The simulated robot turns at the commanded rate and drives along its own heading: after `k` steps
   its pose is turned by k * dt * tw, its velocity is the command turned by as much, and every step
   moves it by that velocity for dt.
   */
  lemma {:induction false} DrivesAlongHeading(trig: Trig, dt: real, vel: Velocity, k: nat)
    requires AddsAngles(trig)
    ensures var (pose, v) := Simulated(trig, dt, vel, k);
      && pose.theta == k as real * (vel.tw * dt)
      && v == Turned(trig, vel, pose.theta)
      && var next := Simulated(trig, dt, vel, k + 1).0;
      next.x == pose.x + v.x * dt && next.y == pose.y + v.y * dt
  {
    hide AddsAngles, Turned, Simulated;
    NextState(trig, dt, vel, k);
    if k == 0 {
      FirstState(trig, dt, vel);
      NotTurned(trig, vel);
    } else {
      DrivesAlongHeading(trig, dt, vel, k - 1);
      NextState(trig, dt, vel, k - 1);
      var (pose, v) := Simulated(trig, dt, vel, k - 1);
      var (pose', v') := Simulated(trig, dt, vel, k);
      TurnKeepsRate(trig, vel, pose.theta);
      var step := vel.tw * dt;
      assert v.tw * dt == step;
      assert v' == Turned(trig, v, step) && pose'.theta == pose.theta + step;
      TurnedTwice(trig, vel, pose.theta, step);
      OneMoreStep(k, step);
    }
  }

  lemma FirstState(trig: Trig, dt: real, vel: Velocity)
    ensures Simulated(trig, dt, vel, 0) == (Pose(0.0, 0.0, 0.0), vel)
  {
  }

  lemma NextState(trig: Trig, dt: real, vel: Velocity, k: nat)
    ensures var (pose, v) := Simulated(trig, dt, vel, k);
      var (pose', v') := Simulated(trig, dt, vel, k + 1);
      && pose'.x == pose.x + v.x * dt && pose'.y == pose.y + v.y * dt && pose'.theta == pose.theta + v.tw * dt
      && v' == Turned(trig, v, v.tw * dt)
  {
    var (pose, v) := Simulated(trig, dt, vel, k);
    ProjectedState(trig, dt, pose, v);
    hide ProjectState, Turned;
  }

  lemma TurnKeepsRate(trig: Trig, vel: Velocity, theta: real)
    ensures Turned(trig, vel, theta).tw == vel.tw
  {
  }

  lemma OneMoreStep(k: nat, step: real)
    requires k > 0
    ensures (k - 1) as real * step + step == k as real * step
  {
  }

  // ---------- what a polygon reports ----------

  /** The configuration of a polygon, with the outline it will use on the next check. */
  datatype View = View(action: ActionType, maxPoints: int, slowdownRatio: real, timeBeforeCollision: real,
                       simulationTimeStep: real, outline: seq<Point>)

  ghost function CountInside(outline: seq<Point>, points: seq<Point>): nat {
    if points == [] then 0
    else CountInside(outline, points[..|points| - 1]) + (if Inside(outline, points[|points| - 1]) then 1 else 0)
  }

  /** The count is the number of indices whose point lies inside. */
  lemma {:induction false} CountIsCardinality(outline: seq<Point>, points: seq<Point>)
    ensures CountInside(outline, points) == |set k | 0 <= k < |points| && Inside(outline, points[k])|
  {
    hide Inside;
    if points != [] {
      var n := |points| - 1;
      CountIsCardinality(outline, points[..n]);
      var before := set k | 0 <= k < |points[..n]| && Inside(outline, points[..n][k]);
      var all := set k | 0 <= k < |points| && Inside(outline, points[k]);
      assert all == if Inside(outline, points[n]) then before + {n} else before;
    }
  }

  /** A scene outside the bounding box of an outline has no point inside it. */
  lemma {:induction false} FarSceneCountsNone(outline: seq<Point>, points: seq<Point>, lo: Point, hi: Point)
    requires forall v :: v in outline ==> lo.x <= v.x <= hi.x && lo.y <= v.y <= hi.y
    requires forall p :: p in points ==> p.x < lo.x || p.x > hi.x || p.y < lo.y || p.y > hi.y
    ensures CountInside(outline, points) == 0
  {
    hide Inside;
    if points != [] {
      FarSceneCountsNone(outline, points[..|points| - 1], lo, hi);
      OutsideBoxIsOutside(outline, points[|points| - 1], lo, hi);
    }
  }

  /** Pose and velocity after `k` simulation steps. */
  function Simulated(trig: Trig, dt: real, vel: Velocity, k: nat): (Pose, Velocity) {
    if k == 0 then (Pose(0.0, 0.0, 0.0), vel)
    else
      var s := Simulated(trig, dt, vel, k - 1);
      ProjectState(trig, dt, s.0, s.1)
  }

  /** Simulation step number `k` (counted from 0) finds a collision. */
  ghost predicate CollidesAt(v: View, trig: Trig, points: seq<Point>, vel: Velocity, k: nat) {
    var pose := Simulated(trig, v.simulationTimeStep, vel, k + 1).0;
    CountInside(v.outline, TransformPoints(trig, pose, points)) > v.maxPoints
  }

  /** Step `k` is still within the time horizon. */
  predicate WithinHorizon(v: View, k: nat) {
    k as real * v.simulationTimeStep <= v.timeBeforeCollision
  }

  /** `k` is the first step with a collision, and no step up to it is past the horizon. */
  ghost predicate FirstCollision(v: View, trig: Trig, points: seq<Point>, vel: Velocity, k: nat) {
    && CollidesAt(v, trig, points, vel, k)
    && (forall j: nat :: j <= k ==> WithinHorizon(v, j))
    && forall j: nat :: j < k ==> !CollidesAt(v, trig, points, vel, j)
  }

  /** getCollisionTime: the time of the first simulated collision, or -1. */
  ghost function CollisionTime(v: View, trig: Trig, points: seq<Point>, vel: Velocity): real {
    if k: nat :| FirstCollision(v, trig, points, vel, k) then k as real * v.simulationTimeStep else -1.0
  }

  lemma FirstIsUnique(v: View, trig: Trig, points: seq<Point>, vel: Velocity, j: nat, k: nat)
    requires FirstCollision(v, trig, points, vel, j) && FirstCollision(v, trig, points, vel, k)
    ensures j == k
  {
    hide CollidesAt;
  }

  // ---------- when the simulation ends ----------

  /** The simulation loop ends in its round `k`: past the horizon, or at a collision. */
  ghost predicate LeavesAt(v: View, trig: Trig, points: seq<Point>, vel: Velocity, k: nat) {
    && (!WithinHorizon(v, k) || CollidesAt(v, trig, points, vel, k))
    && forall j: nat :: j < k ==> WithinHorizon(v, j) && !CollidesAt(v, trig, points, vel, j)
  }

  /** The simulation loop ends at all. */
  ghost predicate Settles(v: View, trig: Trig, points: seq<Point>, vel: Velocity) {
    exists k: nat :: LeavesAt(v, trig, points, vel, k)
  }

  /** A round that would end the loop means that some round does. */
  lemma {:induction false} FirstExit(v: View, trig: Trig, points: seq<Point>, vel: Velocity, i: nat, n: nat)
    requires i <= n && (!WithinHorizon(v, n) || CollidesAt(v, trig, points, vel, n))
    requires forall j: nat :: j < i ==> WithinHorizon(v, j) && !CollidesAt(v, trig, points, vel, j)
    ensures Settles(v, trig, points, vel)
    decreases n - i
  {
    hide CollidesAt, WithinHorizon;
    if !WithinHorizon(v, i) || CollidesAt(v, trig, points, vel, i) {
      assert LeavesAt(v, trig, points, vel, i);
    } else {
      FirstExit(v, trig, points, vel, i + 1, n);
    }
  }

  /** With a positive step the horizon is passed in time. */
  lemma HorizonPassed(v: View) returns (n: nat)
    requires v.simulationTimeStep > 0.0
    ensures !WithinHorizon(v, n)
  {
    var q := v.timeBeforeCollision / v.simulationTimeStep;
    DivideBack(v.timeBeforeCollision, v.simulationTimeStep);
    n := if q < 0.0 then 0 else q.Floor + 1;
    ScaleLt(q, n as real, v.simulationTimeStep);
  }

  lemma HorizonNeverPassed(v: View, k: nat)
    requires v.simulationTimeStep <= 0.0 <= v.timeBeforeCollision
    ensures WithinHorizon(v, k)
  {
    ScaleLe(0.0, k as real, -v.simulationTimeStep);
  }

  /** The simulation ends if and only if time moves forward, the horizon is negative, or some step collides. */
  lemma SettlesExactly(v: View, trig: Trig, points: seq<Point>, vel: Velocity)
    ensures Settles(v, trig, points, vel) <==>
      v.simulationTimeStep > 0.0 || v.timeBeforeCollision < 0.0 ||
      exists k: nat :: CollidesAt(v, trig, points, vel, k)
  {
    hide CollidesAt;
    if v.simulationTimeStep > 0.0 {
      var n := HorizonPassed(v);
      FirstExit(v, trig, points, vel, 0, n);
    } else if v.timeBeforeCollision < 0.0 {
      assert !WithinHorizon(v, 0);
      FirstExit(v, trig, points, vel, 0, 0);
    } else if n: nat :| CollidesAt(v, trig, points, vel, n) {
      FirstExit(v, trig, points, vel, 0, n);
    } else if k: nat :| LeavesAt(v, trig, points, vel, k) {
      HorizonNeverPassed(v, k);
    }
  }

  /** The robot is moved before it is looked at: round 0 judges the scene from where one step takes it. */
  lemma FirstRoundLooksAhead(v: View, trig: Trig, points: seq<Point>, vel: Velocity, pose: Pose)
    requires pose.x == vel.x * v.simulationTimeStep && pose.y == vel.y * v.simulationTimeStep
    requires pose.theta == vel.tw * v.simulationTimeStep
    ensures CollidesAt(v, trig, points, vel, 0) <==>
      CountInside(v.outline, TransformPoints(trig, pose, points)) > v.maxPoints
  {
    hide CountInside, TransformPoints, Turned, Simulated;
    FirstState(trig, v.simulationTimeStep, vel);
    NextState(trig, v.simulationTimeStep, vel, 0);
    CollidesCase(v, trig, points, vel, 0, pose);
  }

  /** With a step of zero the robot is never moved. */
  lemma {:induction false} ZeroStepStays(trig: Trig, vel: Velocity, k: nat)
    ensures Simulated(trig, 0.0, vel, k).0 == Pose(0.0, 0.0, 0.0)
  {
    if k > 0 {
      ZeroStepStays(trig, vel, k - 1);
    }
  }

  /** For a step of zero the condition can be checked before the call: the scene as it is collides or not. */
  lemma ZeroStepSettles(v: View, trig: Trig, points: seq<Point>, vel: Velocity)
    requires v.simulationTimeStep == 0.0
    ensures Settles(v, trig, points, vel) <==>
      v.timeBeforeCollision < 0.0 ||
      CountInside(v.outline, TransformPoints(trig, Pose(0.0, 0.0, 0.0), points)) > v.maxPoints
  {
    SettlesExactly(v, trig, points, vel);
    hide TransformPoints, CountInside, Simulated;
    forall k: nat
      ensures CollidesAt(v, trig, points, vel, k) <==>
        CountInside(v.outline, TransformPoints(trig, Pose(0.0, 0.0, 0.0), points)) > v.maxPoints
    {
      ZeroStepStays(trig, vel, k + 1);
    }
    assert CollidesAt(v, trig, points, vel, 0) <==>
      CountInside(v.outline, TransformPoints(trig, Pose(0.0, 0.0, 0.0), points)) > v.maxPoints;
  }

  /** With no points in sight nothing collides, so a step that is not positive never ends the simulation. */
  lemma EmptySceneHangs(v: View, trig: Trig, vel: Velocity)
    requires v.simulationTimeStep <= 0.0 <= v.timeBeforeCollision && v.maxPoints >= 0
    ensures !Settles(v, trig, [], vel)
  {
    SettlesExactly(v, trig, [], vel);
    forall k: nat
      ensures !CollidesAt(v, trig, [], vel, k)
    {
      assert TransformPoints(trig, Simulated(trig, v.simulationTimeStep, vel, k + 1).0, []) == [];
    }
  }

  /** The share of its speed an approaching robot keeps lies in [0, 1]. */
  lemma ApproachRatio(v: View, trig: Trig, points: seq<Point>, vel: Velocity)
    requires v.timeBeforeCollision != 0.0 && CollisionTime(v, trig, points, vel) >= 0.0
    ensures 0.0 <= CollisionTime(v, trig, points, vel) / v.timeBeforeCollision <= 1.0
  {
    hide CollidesAt;
    var t := CollisionTime(v, trig, points, vel);
    var k: nat :| FirstCollision(v, trig, points, vel, k);
    forall j: nat | FirstCollision(v, trig, points, vel, j)
      ensures j == k
    {
      FirstIsUnique(v, trig, points, vel, j, k);
    }
    assert t == k as real * v.simulationTimeStep && WithinHorizon(v, k);
    UnitFraction(t, v.timeBeforeCollision, t / v.timeBeforeCollision);
  }

  ghost predicate Overfull(v: View, points: seq<Point>) {
    CountInside(v.outline, points) > v.maxPoints
  }

  ghost predicate StopTriggered(v: View, points: seq<Point>) {
    v.action == Stop && Overfull(v, points)
  }

  /** The slower velocity a polygon asks for; a zero time horizon gives NaN, which never compares lower. */
  ghost function Proposal(v: View, trig: Trig, points: seq<Point>, vel: Velocity): Option<Velocity> {
    if v.action == Slowdown && Overfull(v, points) then Some(vel.Times(v.slowdownRatio))
    else if v.action == Approach && v.timeBeforeCollision != 0.0 && CollisionTime(v, trig, points, vel) >= 0.0
    then Some(vel.Times(CollisionTime(v, trig, points, vel) / v.timeBeforeCollision))
    else None
  }

  // ---------- choosing the action ----------

  ghost function Choose(act: Action, v: View, trig: Trig, points: seq<Point>, vel: Velocity): Action {
    if act.kind == Stop then act
    else if StopTriggered(v, points) then Action(Stop, ZERO)
    else match Proposal(v, trig, points, vel)
      case None => act
      case Some(s) => if s.NormSq() < act.vel.NormSq() then Action(v.action, s) else act
  }

  ghost function ChooseAll(views: seq<View>, trig: Trig, points: seq<Point>, vel: Velocity): Action {
    if views == [] then Action(DoNothing, vel)
    else Choose(ChooseAll(views[..|views| - 1], trig, points, vel), views[|views| - 1], trig, points, vel)
  }

  /** Once stopped, later polygons change nothing: leaving the loop early is sound. */
  lemma {:induction false} StopIsFinal(views: seq<View>, n: nat, trig: Trig, points: seq<Point>, vel: Velocity)
    requires n <= |views| && ChooseAll(views[..n], trig, points, vel).kind == Stop
    ensures ChooseAll(views, trig, points, vel) == ChooseAll(views[..n], trig, points, vel)
    decreases |views|
  {
    if n == |views| {
      assert views[..n] == views;
    } else {
      assert views[..|views| - 1][..n] == views[..n];
      StopIsFinal(views[..|views| - 1], n, trig, points, vel);
    }
  }

  /** A single point inside a STOP polygon that tolerates none stops the robot, whatever else is configured. */
  lemma OnePointStops(views: seq<View>, v: View, trig: Trig, points: seq<Point>, k: nat, vel: Velocity)
    requires v in views && v.action == Stop && v.maxPoints == 0 && k < |points| && Inside(v.outline, points[k])
    ensures ChooseAll(views, trig, points, vel) == Action(Stop, ZERO)
  {
    hide Inside, CountInside, ChooseAll;
    CountIsCardinality(v.outline, points);
    var inside := set j | 0 <= j < |points| && Inside(v.outline, points[j]);
    assert k in inside;
    assert StopTriggered(v, points);
    SafestAction(views, trig, points, vel);
  }

  /** The outline lies in a box that no point of the scene lies in. */
  ghost predicate SceneAvoids(v: View, points: seq<Point>) {
    exists lo: Point, hi: Point :: Avoids(v, points, lo, hi)
  }

  ghost predicate Avoids(v: View, points: seq<Point>, lo: Point, hi: Point) {
    && (forall p :: p in v.outline ==> lo.x <= p.x <= hi.x && lo.y <= p.y <= hi.y)
    && (forall p :: p in points ==> p.x < lo.x || p.x > hi.x || p.y < lo.y || p.y > hi.y)
  }

  /** With stop and slowdown polygons only, a scene away from all outlines leaves the command alone. */
  lemma {:induction false} FarSceneDoesNothing(views: seq<View>, trig: Trig, points: seq<Point>, vel: Velocity)
    requires forall v :: v in views ==> v.action != Approach && v.maxPoints >= 0 && SceneAvoids(v, points)
    ensures ChooseAll(views, trig, points, vel) == Action(DoNothing, vel)
  {
    hide Inside;
    if views != [] {
      var n := |views| - 1;
      FarSceneDoesNothing(views[..n], trig, points, vel);
      assert views[n] in views && SceneAvoids(views[n], points);
      var lo, hi :| Avoids(views[n], points, lo, hi);
      FarSceneCountsNone(views[n].outline, points, lo, hi);
      hide CountInside;
    }
  }

  /**
   What a triggered polygon asks for: a slowdown the given share of the command, an approach the
   velocity that takes the whole horizon for what the command covers until the collision.
   */
  lemma ProposalMeans(v: View, trig: Trig, points: seq<Point>, vel: Velocity)
    ensures var t := CollisionTime(v, trig, points, vel);
      match Proposal(v, trig, points, vel)
      case None => true
      case Some(s) =>
        if v.action == Slowdown
        then s.x == vel.x * v.slowdownRatio && s.y == vel.y * v.slowdownRatio && s.tw == vel.tw * v.slowdownRatio
        else
          && s.x * v.timeBeforeCollision == vel.x * t && s.y * v.timeBeforeCollision == vel.y * t
          && s.tw * v.timeBeforeCollision == vel.tw * t
  {
    hide CollisionTime;
    var t := CollisionTime(v, trig, points, vel);
    if v.action == Approach && v.timeBeforeCollision != 0.0 {
      ShareBack(vel.x, t, v.timeBeforeCollision);
      ShareBack(vel.y, t, v.timeBeforeCollision);
      ShareBack(vel.tw, t, v.timeBeforeCollision);
    }
  }

  lemma ShareBack(a: real, t: real, b: real)
    requires b != 0.0
    ensures (a * (t / b)) * b == a * t
  {
    var q := t / b;
    assert q * b == t;
    assert (a * q) * b == a * (q * b);
  }

  /** The speeds compared are lengths: linear and angular velocity together. */
  lemma SlowerIsShorter(v: Velocity, w: Velocity, d: real, e: real)
    requires d >= 0.0 && d * d == v.x * v.x + v.y * v.y + v.tw * v.tw
    requires e >= 0.0 && e * e == w.x * w.x + w.y * w.y + w.tw * w.tw
    ensures v.NormSq() < w.NormSq() <==> d < e
  {
    RootLe(e, d);
  }

  /** Every approach polygon the loop reaches before a stop ends its simulation. */
  ghost predicate Answers(views: seq<View>, trig: Trig, points: seq<Point>, vel: Velocity) {
    forall k :: (0 <= k < |views| && views[k].action == Approach &&
                 ChooseAll(views[..k], trig, points, vel).kind != Stop) ==> Settles(views[k], trig, points, vel)
  }

  /** Positive steps on all approach polygons are enough for every scene and command. */
  lemma PositiveStepsAnswer(views: seq<View>, trig: Trig, points: seq<Point>, vel: Velocity)
    requires forall v :: v in views && v.action == Approach ==> v.simulationTimeStep > 0.0
    ensures Answers(views, trig, points, vel)
  {
    forall k | 0 <= k < |views| && views[k].action == Approach
      ensures Settles(views[k], trig, points, vel)
    {
      SettlesExactly(views[k], trig, points, vel);
    }
  }

  /** `s` is the input velocity or one of the proposals. */
  ghost predicate Candidate(views: seq<View>, trig: Trig, points: seq<Point>, vel: Velocity, s: Velocity) {
    s == vel || exists v :: v in views && Proposal(v, trig, points, vel) == Some(s)
  }

  /**
   Any triggered STOP polygon, wherever it stands, gives STOP at zero velocity. Otherwise the
   action is a candidate of least norm, and differs from doing nothing exactly when some proposal
   is strictly slower than the input.
   */
  lemma {:induction false} SafestAction(views: seq<View>, trig: Trig, points: seq<Point>, vel: Velocity)
    ensures var act := ChooseAll(views, trig, points, vel);
      if exists v :: v in views && StopTriggered(v, points) then act == Action(Stop, ZERO)
      else
        && act.kind != Stop
        && Candidate(views, trig, points, vel, act.vel)
        && (forall s :: Candidate(views, trig, points, vel, s) ==> act.vel.NormSq() <= s.NormSq())
        && (act.kind == DoNothing ==> act.vel == vel)
        && (act.kind != DoNothing ==> act.vel.NormSq() < vel.NormSq())
  {
    if views != [] {
      var n := |views| - 1;
      var v := views[n];
      hide Proposal, StopTriggered, Velocity.NormSq;
      SafestAction(views[..n], trig, points, vel);
      ProposalKind(v, trig, points, vel);
      assert views == views[..n] + [v];
      var act := ChooseAll(views, trig, points, vel);
      if !(exists u :: u in views && StopTriggered(u, points)) {
        assert forall u :: u in views[..n] ==> u in views;
        forall s | Candidate(views, trig, points, vel, s)
          ensures act.vel.NormSq() <= s.NormSq()
        {
          if !Candidate(views[..n], trig, points, vel, s) {
            assert Proposal(v, trig, points, vel) == Some(s);
          }
        }
      }
    }
  }

  lemma ProposalKind(v: View, trig: Trig, points: seq<Point>, vel: Velocity)
    ensures Proposal(v, trig, points, vel).Some? ==> v.action == Slowdown || v.action == Approach
    ensures StopTriggered(v, points) ==> v.action == Stop
  {
  }

  /** Two orders of the same polygons agree on stopping and on the speed that remains. */
  lemma OrderIndependent(views: seq<View>, views': seq<View>, trig: Trig, points: seq<Point>, vel: Velocity)
    requires forall v :: v in views <==> v in views'
    ensures var act, act' := ChooseAll(views, trig, points, vel), ChooseAll(views', trig, points, vel);
      (act.kind == Stop <==> act'.kind == Stop) && act.vel.NormSq() == act'.vel.NormSq()
  {
    SafestAction(views, trig, points, vel);
    SafestAction(views', trig, points, vel);
    hide ChooseAll, Proposal, StopTriggered, Velocity.NormSq;
    var act, act' := ChooseAll(views, trig, points, vel), ChooseAll(views', trig, points, vel);
    if !(exists v :: v in views && StopTriggered(v, points)) {
      assert Candidate(views', trig, points, vel, act.vel);
      assert Candidate(views, trig, points, vel, act'.vel);
    }
  }

  /** Every slowdown keeps the direction of the command. */
  ghost predicate NonNegativeRatios(views: seq<View>) {
    forall v :: v in views && v.action == Slowdown ==> v.slowdownRatio >= 0.0
  }

  /** Every candidate is then the command slowed down, never reversed. */
  lemma CandidateIsScaled(views: seq<View>, trig: Trig, points: seq<Point>, vel: Velocity, s: Velocity)
    returns (r: real)
    requires NonNegativeRatios(views) && Candidate(views, trig, points, vel, s)
    ensures r >= 0.0 && s == vel.Times(r)
  {
    if s == vel {
      r := 1.0;
    } else {
      hide CollisionTime;
      var v :| v in views && Proposal(v, trig, points, vel) == Some(s);
      if v.action == Slowdown {
        r := v.slowdownRatio;
      } else {
        ApproachRatio(v, trig, points, vel);
        r := CollisionTime(v, trig, points, vel) / v.timeBeforeCollision;
      }
    }
  }

  lemma TimesNormSq(vel: Velocity, r: real)
    ensures vel.Times(r).NormSq() == vel.NormSq() * (r * r)
  {
    SquareOfProduct(vel.x, r);
    SquareOfProduct(vel.y, r);
    SquareOfProduct(vel.tw, r);
    assert vel.NormSq() * (r * r) ==
      (vel.x * vel.x) * (r * r) + (vel.y * vel.y) * (r * r) + (vel.tw * vel.tw) * (r * r);
  }

  lemma SquareOfProduct(a: real, b: real)
    ensures (a * b) * (a * b) == (a * a) * (b * b)
  {
    assert (a * b) * (a * b) == a * (b * (a * b));
  }

  /** Slowed down by factors that are not negative, a velocity is determined by its norm. */
  lemma SameNormSameVelocity(vel: Velocity, r: real, r': real)
    requires r >= 0.0 && r' >= 0.0 && vel.Times(r).NormSq() == vel.Times(r').NormSq()
    ensures vel.Times(r) == vel.Times(r')
  {
    TimesNormSq(vel, r);
    TimesNormSq(vel, r');
    if vel.IsZero() {
      assert vel.Times(r) == vel.Times(r') == ZERO;
    } else {
      NormPositive(vel);
      hide Velocity.NormSq;
      EqualSquares(vel.NormSq(), r, r');
    }
  }

  lemma NormPositive(vel: Velocity)
    requires !vel.IsZero()
    ensures vel.NormSq() > 0.0
  {
    assert vel.NormSq() == Square(vel.x) + Square(vel.y) + Square(vel.tw);
    SquareSign(vel.x);
    SquareSign(vel.y);
    SquareSign(vel.tw);
    hide Square;
  }

  function Square(x: real): real {
    Product(x, x)
  }

  lemma ProductOfPositives(a: real, b: real)
    requires a > 0.0 && b > 0.0
    ensures Product(a, b) > 0.0
  {
  }

  lemma SquareOfOpposite(x: real)
    ensures Square(-x) == Square(x) && Square(0.0) == 0.0
  {
  }

  lemma SquareSign(x: real)
    ensures Square(x) >= 0.0 && (x != 0.0 ==> Square(x) > 0.0)
  {
    hide Product;
    SquareOfOpposite(x);
    if x > 0.0 {
      ProductOfPositives(x, x);
    } else if x < 0.0 {
      ProductOfPositives(-x, -x);
    }
  }

  lemma EqualSquares(n: real, r: real, r': real)
    requires n > 0.0 && r >= 0.0 && r' >= 0.0 && n * (r * r) == n * (r' * r')
    ensures r == r'
  {
    CancelLe(r * r, r' * r', n);
    CancelLe(r' * r', r * r, n);
    var e, s := r - r', r + r';
    assert e * s == r * r - r' * r';
    SignOfProduct(e, s);
  }

  /** With ratios that are not negative, the order of the polygons does not change the velocity either. */
  lemma VelocityOrderIndependent(views: seq<View>, views': seq<View>, trig: Trig, points: seq<Point>, vel: Velocity)
    requires NonNegativeRatios(views) && forall v :: v in views <==> v in views'
    ensures ChooseAll(views, trig, points, vel).vel == ChooseAll(views', trig, points, vel).vel
  {
    SafestAction(views, trig, points, vel);
    SafestAction(views', trig, points, vel);
    OrderIndependent(views, views', trig, points, vel);
    hide ChooseAll, Proposal, StopTriggered, Velocity.NormSq;
    var act, act' := ChooseAll(views, trig, points, vel), ChooseAll(views', trig, points, vel);
    if !(exists v :: v in views && StopTriggered(v, points)) {
      var r := CandidateIsScaled(views, trig, points, vel, act.vel);
      var r' := CandidateIsScaled(views', trig, points, vel, act'.vel);
      SameNormSameVelocity(vel, r, r');
    }
  }

  /** A slowdown polygon that every scene overfills. */
  function AlwaysSlow(ratio: real): View {
    View(Slowdown, -1, ratio, 0.0, 0.1, [])
  }

  /** With a negative ratio the order can decide whether the robot drives forwards or backwards. */
  lemma NegativeRatioReverses(trig: Trig)
    ensures var forwards, backwards := AlwaysSlow(0.5), AlwaysSlow(-0.5);
      var vel := Velocity(1.0, 0.0, 0.0);
      && ChooseAll([forwards, backwards], trig, [], vel).vel == Velocity(0.5, 0.0, 0.0)
      && ChooseAll([backwards, forwards], trig, [], vel).vel == Velocity(-0.5, 0.0, 0.0)
  {
    FirstOfTwo(AlwaysSlow(0.5), AlwaysSlow(-0.5), trig);
    FirstOfTwo(AlwaysSlow(-0.5), AlwaysSlow(0.5), trig);
  }

  lemma FirstOfTwo(v: View, w: View, trig: Trig)
    requires (v == AlwaysSlow(0.5) && w == AlwaysSlow(-0.5)) || (v == AlwaysSlow(-0.5) && w == AlwaysSlow(0.5))
    ensures ChooseAll([v, w], trig, [], Velocity(1.0, 0.0, 0.0)).vel == Velocity(v.slowdownRatio, 0.0, 0.0)
  {
    var vel := Velocity(1.0, 0.0, 0.0);
    assert [v, w][..1] == [v] && [v][..0] == [];
    assert ChooseAll([], trig, [], vel) == Action(DoNothing, vel);
    assert ChooseAll([v], trig, [], vel) == Action(Slowdown, vel.Times(v.slowdownRatio));
    assert ChooseAll([v, w], trig, [], vel) == Choose(ChooseAll([v], trig, [], vel), w, trig, [], vel);
  }

  // ---------- the objects ----------

  class Polygon {
    const action: ActionType
    const maxPoints: int
    const slowdownRatio: real
    const timeBeforeCollision: real
    const simulationTimeStep: real
    const trig: Trig
    var footprint: Option<seq<Point>>  // what the footprint subscriber holds, if there is one
    var poly: seq<Point>

    constructor (action: ActionType, maxPoints: int, slowdownRatio: real, timeBeforeCollision: real,
                 simulationTimeStep: real, trig: Trig, poly: seq<Point>)
      ensures this.action == action && this.maxPoints == maxPoints && this.slowdownRatio == slowdownRatio
      ensures this.timeBeforeCollision == timeBeforeCollision && this.simulationTimeStep == simulationTimeStep
      ensures this.trig == trig && this.poly == poly && this.footprint == None
    {
      this.action, this.maxPoints, this.slowdownRatio := action, maxPoints, slowdownRatio;
      this.timeBeforeCollision, this.simulationTimeStep := timeBeforeCollision, simulationTimeStep;
      this.trig, this.poly, this.footprint := trig, poly, None;
    }

    /** The outline the next check will use: approach polygons first adopt the footprint. */
    function CurrentView(): View
      reads this
    {
      View(action, maxPoints, slowdownRatio, timeBeforeCollision, simulationTimeStep,
                                 if action == Approach && footprint.Some? then footprint.value else poly)
    }

    method UpdatePolygon()
      modifies this`poly
      ensures poly == if footprint.Some? then footprint.value else old(poly)
    {
      if footprint.Some? {
        poly := footprint.value;
      }
    }

    /** isPointInside: one pass over the edges, starting with the closing one. */
    method IsPointInside(point: Point) returns (res: bool)
      ensures res == Inside(poly, point)
    {
      hide Flips, XInter;
      var polySize := |poly|;
      res := false;
      var i := polySize - 1;
      var j := 0;
      while j < polySize
        invariant 0 <= j <= polySize
        invariant i == if j == 0 then polySize - 1 else j - 1
        invariant j > 0 ==> res == Parity([poly[polySize - 1]] + poly[..j], point)
        invariant j == 0 ==> !res
      {
        ghost var path := [poly[polySize - 1]] + poly[..j + 1];
        assert path[..j + 1] == [poly[polySize - 1]] + poly[..j];
        FlipsCase(poly[i], poly[j], point);
        if (point.y <= poly[i].y) == (point.y > poly[j].y) {
          var xInter := XInter(poly[i], poly[j], point);
          if xInter > point.x {
            res := !res;
          }
        }
        i := j;
        j := j + 1;
      }
      assert poly[..polySize] == poly;
    }

    method GetPointsInside(points: seq<Point>) returns (num: nat)
      ensures num == CountInside(poly, points)
      ensures num == |set k | 0 <= k < |points| && Inside(poly, points[k])|
    {
      hide Inside;
      CountIsCardinality(poly, points);
      num := 0;
      var k := 0;
      while k < |points|
        invariant 0 <= k <= |points| && num == CountInside(poly, points[..k])
      {
        var inside := IsPointInside(points[k]);
        if inside {
          num := num + 1;
        }
        assert points[..k + 1][..k] == points[..k];
        k := k + 1;
      }
      assert points[..|points|] == points;
    }

    /** getCollisionTime, for every input on which its loop ends. */
    method GetCollisionTime(points: seq<Point>, velocity: Velocity) returns (t: real)
      requires CurrentView().outline == poly && Settles(CurrentView(), trig, points, velocity)
      ensures t == CollisionTime(CurrentView(), trig, points, velocity)
    {
      hide CollidesAt, ProjectState, Inside, CountInside;
      ghost var v := CurrentView();
      ghost var last: nat :| LeavesAt(v, trig, points, velocity, last);
      var pose := Pose(0.0, 0.0, 0.0);
      var vel := velocity;
      var time := 0.0;
      ghost var k: nat := 0;
      while time <= timeBeforeCollision
        invariant time == k as real * simulationTimeStep
        invariant (pose, vel) == Simulated(trig, simulationTimeStep, velocity, k)
        invariant k <= last
        decreases last - k
      {
        var projected := ProjectState(trig, simulationTimeStep, pose, vel);
        pose, vel := projected.0, projected.1;
        var transformed := TransformPoints(trig, pose, points);
        var num := GetPointsInside(transformed);
        CollidesCase(v, trig, points, velocity, k, pose);
        if num > maxPoints {
          IsFirst(v, trig, points, velocity, k, last);
          return time;
        }
        time := time + simulationTimeStep;
        k := k + 1;
      }
      IsNone(v, trig, points, velocity, k, last);
      t := -1.0;
    }
  }

  lemma FlipsCase(a: Point, b: Point, p: Point)
    ensures Flips(a, b, p) <==> Straddles(a, b, p) && XInter(a, b, p) > p.x
  {
  }

  lemma CollidesCase(v: View, trig: Trig, points: seq<Point>, vel: Velocity, k: nat, pose: Pose)
    requires pose == Simulated(trig, v.simulationTimeStep, vel, k + 1).0
    ensures CollidesAt(v, trig, points, vel, k) <==>
      CountInside(v.outline, TransformPoints(trig, pose, points)) > v.maxPoints
  {
    hide Simulated, CountInside, TransformPoints;
  }

  lemma IsFirst(v: View, trig: Trig, points: seq<Point>, vel: Velocity, k: nat, last: nat)
    requires LeavesAt(v, trig, points, vel, last) && k <= last
    requires WithinHorizon(v, k) && CollidesAt(v, trig, points, vel, k)
    ensures FirstCollision(v, trig, points, vel, k)
    ensures CollisionTime(v, trig, points, vel) == k as real * v.simulationTimeStep
  {
    hide CollidesAt, WithinHorizon;
    assert FirstCollision(v, trig, points, vel, k);
    forall j: nat | FirstCollision(v, trig, points, vel, j)
      ensures j == k
    {
      FirstIsUnique(v, trig, points, vel, j, k);
    }
  }

  lemma IsNone(v: View, trig: Trig, points: seq<Point>, vel: Velocity, k: nat, last: nat)
    requires LeavesAt(v, trig, points, vel, last) && k <= last && !WithinHorizon(v, k)
    ensures forall j: nat :: !FirstCollision(v, trig, points, vel, j)
    ensures CollisionTime(v, trig, points, vel) == -1.0
  {
    hide CollidesAt, WithinHorizon;
  }

  class CollisionMonitor {
    var processActive: bool
    var polygons: seq<Polygon>
    var robotActionPrev: Action
    var stopStamp: real
    var stopPubTimeout: real
    const trig: Trig

    constructor (polygons: seq<Polygon>, trig: Trig, stopPubTimeout: real)
      ensures this.polygons == polygons && this.trig == trig && !processActive
      ensures robotActionPrev == Action(DoNothing, Velocity(-1.0, -1.0, -1.0))
    {
      this.polygons, this.trig, this.stopPubTimeout := polygons, trig, stopPubTimeout;
      this.processActive, this.stopStamp := false, 0.0;
      this.robotActionPrev := Action(DoNothing, Velocity(-1.0, -1.0, -1.0));
    }

    ghost predicate Valid()
      reads this, polygons
    {
      forall k :: 0 <= k < |polygons| ==> polygons[k].trig == trig
    }

    ghost function Views(): (v: seq<View>)
      reads this, polygons
      ensures |v| == |polygons|
    {
      seq(|polygons|, k requires 0 <= k < |polygons| reads this, polygons => polygons[k].CurrentView())
    }

    method ProcessStopSlowdown(polygon: Polygon, points: seq<Point>, vel: Velocity, act: Action)
      returns (changed: bool, act': Action)
      requires act.kind != Stop && (polygon.action == Stop || polygon.action == Slowdown)
      ensures act' == Choose(act, polygon.CurrentView(), trig, points, vel)
      ensures changed <==> act' != act
    {
      act' := act;
      var num := polygon.GetPointsInside(points);
      if num > polygon.maxPoints {
        if polygon.action == Stop {
          return true, Action(Stop, ZERO);
        }
        var safeVel := vel.Times(polygon.slowdownRatio);
        if safeVel.NormSq() < act.vel.NormSq() {
          return true, Action(Slowdown, safeVel);
        }
      }
      changed := false;
    }

    method ProcessApproach(polygon: Polygon, points: seq<Point>, vel: Velocity, act: Action)
      returns (changed: bool, act': Action)
      requires act.kind != Stop && polygon.action == Approach
      requires polygon.trig == trig && Settles(polygon.CurrentView(), trig, points, vel)
      modifies polygon`poly
      ensures polygon.poly == if polygon.footprint.Some? then polygon.footprint.value else old(polygon.poly)
      ensures polygon.CurrentView() == old(polygon.CurrentView()) && polygon.CurrentView().outline == polygon.poly
      ensures act' == Choose(act, polygon.CurrentView(), trig, points, vel)
      ensures changed <==> act' != act
    {
      hide CollisionTime, Velocity.NormSq;
      act' := act;
      changed := false;
      polygon.UpdatePolygon();
      var collisionTime := polygon.GetCollisionTime(points, vel);
      if collisionTime >= 0.0 {
        var tbc := polygon.timeBeforeCollision;
        if tbc == 0.0 {
          // 0/0 is NaN: no comparison with it succeeds
          return;
        }
        var safeVel := vel.Times(collisionTime / tbc);
        if safeVel.NormSq() < act.vel.NormSq() {
          return true, Action(Approach, safeVel);
        }
      }
    }

    /** process: chooses the action over all polygons and publishes it, whenever the source returns. */
    method Process(cmdVelIn: Velocity, points: seq<Point>, now: real) returns (published: Option<Velocity>)
      requires Valid() && (processActive ==> Answers(Views(), trig, points, cmdVelIn))
      modifies this`robotActionPrev, this`stopStamp, polygons
      ensures Valid() && (polygons == old(polygons) && Views() == old(Views()))
      ensures !processActive ==>
        published == None && robotActionPrev == old(robotActionPrev) && stopStamp == old(stopStamp)
      ensures processActive ==>
        && robotActionPrev == ChooseAll(old(Views()), trig, points, cmdVelIn)
        && (published.Some? ==> published.value == robotActionPrev.vel)
        && (published.None? <==>
              robotActionPrev.vel.IsZero() && old(robotActionPrev).vel.IsZero() &&
              now - old(stopStamp) > stopPubTimeout)
        && stopStamp == (if robotActionPrev.vel.IsZero() && !old(robotActionPrev).vel.IsZero()
                         then now else old(stopStamp))
    {
      published := None;
      if !processActive {
        return;
      }
      var act := SelectAction(cmdVelIn, points);
      published := PublishVelocity(act, now);
      robotActionPrev := act;
    }

    /** The polygon loop of process. */
    method SelectAction(cmdVelIn: Velocity, points: seq<Point>) returns (act: Action)
      requires Valid() && Answers(Views(), trig, points, cmdVelIn)
      modifies polygons
      ensures Valid() && Views() == old(Views())
      ensures act == ChooseAll(Views(), trig, points, cmdVelIn)
    {
      hide Choose;
      ghost var views := Views();
      act := Action(DoNothing, cmdVelIn);
      var k := 0;
      while k < |polygons|
        invariant 0 <= k <= |polygons|
        invariant Valid() && Views() == views
        invariant act == ChooseAll(views[..k], trig, points, cmdVelIn)
      {
        if act.kind == Stop {
          StopIsFinal(views, k, trig, points, cmdVelIn);
          return;
        }
        var polygon := polygons[k];
        assert views[k] == polygon.CurrentView();
        assert views[..k + 1][..k] == views[..k];
        act := Consider(polygon, points, cmdVelIn, act);
        k := k + 1;
      }
      assert views[..|polygons|] == views;
    }

    /** One polygon of the loop. */
    method Consider(polygon: Polygon, points: seq<Point>, cmdVelIn: Velocity, act: Action) returns (act': Action)
      requires act.kind != Stop && polygon.trig == trig
      requires polygon.action == Approach ==> Settles(polygon.CurrentView(), trig, points, cmdVelIn)
      modifies polygon`poly
      ensures polygon.CurrentView() == old(polygon.CurrentView())
      ensures act' == Choose(act, polygon.CurrentView(), trig, points, cmdVelIn)
    {
      hide Choose;
      var changed;
      match polygon.action {
        case Stop => changed, act' := ProcessStopSlowdown(polygon, points, cmdVelIn, act);
        case Slowdown => changed, act' := ProcessStopSlowdown(polygon, points, cmdVelIn, act);
        case Approach => changed, act' := ProcessApproach(polygon, points, cmdVelIn, act);
        case DoNothing =>
          act' := act;
          IdlePolygon(act, polygon.CurrentView(), trig, points, cmdVelIn);
      }
    }

    method PublishVelocity(act: Action, now: real) returns (published: Option<Velocity>)
      modifies this`stopStamp
      ensures published.Some? ==> published.value == act.vel
      ensures published.None? <==>
        act.vel.IsZero() && robotActionPrev.vel.IsZero() && now - old(stopStamp) > stopPubTimeout
      ensures stopStamp == if act.vel.IsZero() && !robotActionPrev.vel.IsZero() then now else old(stopStamp)
    {
      if act.vel.IsZero() {
        if !robotActionPrev.vel.IsZero() {
          stopStamp := now;
        } else if now - stopStamp > stopPubTimeout {
          return None;
        }
      }
      published := Some(act.vel);
    }
  }

  lemma IdlePolygon(act: Action, v: View, trig: Trig, points: seq<Point>, vel: Velocity)
    requires v.action == DoNothing
    ensures Choose(act, v, trig, points, vel) == act
  {
  }
}
