/** The boustrophedon coverage planner: dilation, free runs, waypoints, thinning, and the validator. */
module Coverage {
  import opened Arithmetic
  import opened GridIndex
  import opened RollingWindow

  datatype Waypoint = Waypoint(x: real, y: real, yaw: real)

  const PI := 3.141592653589793
  const MIN_CLEARANCE := 0.3
  const MIN_RUN := 3

  /** An occupancy grid message. */
  datatype Map = Map(width: nat, height: nat, resolution: real, originX: real, originY: real, data: seq<int>) {
    ghost predicate Valid() {
      resolution > 0.0 && |data| == width * height
    }

    predicate Contains(x: int, y: int) {
      0 <= x < width && 0 <= y < height
    }

    predicate Blocked(x: int, y: int)
      requires Valid() && Contains(x, y)
    {
      IdxInRange(width, height, x, y);
      IsObstacle(data[Idx(width, x, y)])
    }

    /** The message reports the cell as unknown, or as more than 50 percent occupied. */
    predicate Holds(x: int, y: int) {
      0 <= Idx(width, x, y) < |data| && (data[Idx(width, x, y)] == -1 || data[Idx(width, x, y)] > 50)
    }

    /** No blocked cell of the map lies within Chebyshev distance `n` of (x, y), the cell itself included. */
    ghost predicate Clear(n: int, x: int, y: int)
      requires Valid()
    {
      forall u, v :: Contains(u, v) && Near(n, x, y, u, v) ==> !Blocked(u, v)
    }

    /** The centre of a cell, heading `yaw`. */
    function At(x: int, y: int, yaw: real): Waypoint {
      Waypoint(CentreOf(x, originX, resolution), CentreOf(y, originY, resolution), yaw)
    }
  }

  /** Unknown, or more than half occupied. */
  predicate IsObstacle(v: int) {
    v == -1 || v > 50
  }

  predicate Near(n: int, x: int, y: int, u: int, v: int) {
    (u == x && v == y) || (-n <= u - x <= n && -n <= v - y <= n)
  }

  // ---------- _inflate_obstacles ----------

  /** One row of the dilated grid: 100 near an obstacle, 0 elsewhere. */
  function InflatedRow(grid: Map, n: int, y: int): (row: seq<int>)
    requires grid.Valid() && 0 <= y < grid.height
    ensures |row| == grid.width
    ensures forall x :: 0 <= x < grid.width ==> (row[x] == 0 <==> grid.Clear(n, x, y))
  {
    seq(grid.width, x requires 0 <= x < grid.width =>
      if exists u, v :: 0 <= u < grid.width && 0 <= v < grid.height && Near(n, x, y, u, v) && grid.Blocked(u, v)
      then 100 else 0)
  }

  // ---------- _find_free_segments ----------

  /** Cells s .. e-1 are a maximal run of free cells, long enough to be used. */
  ghost predicate IsRun(row: seq<int>, s: int, e: int) {
    && 0 <= s && s + MIN_RUN <= e <= |row|
    && (forall k :: s <= k < e ==> row[k] == 0)
    && (s == 0 || row[s - 1] != 0) && (e == |row| || row[e] != 0)
  }

  /** Where the free run that ends just before `i` starts; `i` itself when there is none. */
  ghost function RunStart(row: seq<int>, i: nat): (s: nat)
    requires i <= |row|
    ensures s <= i && (forall k :: s <= k < i ==> row[k] == 0) && (s == 0 || row[s - 1] != 0)
  {
    if i == 0 || row[i - 1] != 0 then i else RunStart(row, i - 1)
  }

  /** The runs that have ended before `i`, left to right. */
  ghost function ClosedRuns(row: seq<int>, i: nat): seq<(int, int)>
    requires i <= |row|
  {
    if i == 0 then [] else ClosedRuns(row, i - 1) + ClosedAt(row, i - 1)
  }

  /** The run that cell `i` ends, if it ends a long enough one. */
  ghost function ClosedAt(row: seq<int>, i: nat): seq<(int, int)>
    requires i < |row|
  {
    var s := RunStart(row, i);
    if row[i] != 0 && i - s >= MIN_RUN then [(s, i)] else []
  }

  ghost function FreeRuns(row: seq<int>): seq<(int, int)> {
    var s := RunStart(row, |row|);
    ClosedRuns(row, |row|) + (if |row| - s >= MIN_RUN then [(s, |row| as int)] else [])
  }

  method FindFreeSegments(row: seq<int>) returns (segments: seq<(int, int)>)
    ensures segments == FreeRuns(row)
  {
    segments := [];
    var inSegment := false;
    var start := 0;
    var i := 0;
    while i < |row|
      invariant 0 <= i <= |row| && segments == ClosedRuns(row, i)
      invariant inSegment <==> RunStart(row, i) < i
      invariant inSegment ==> start == RunStart(row, i)
    {
      if row[i] == 0 {
        if !inSegment {
          start := i;
          inSegment := true;
        }
      } else {
        if inSegment {
          if i - start >= MIN_RUN {
            segments := segments + [(start, i)];
          }
          inSegment := false;
        }
      }
      i := i + 1;
    }
    if inSegment && |row| - start >= MIN_RUN {
      segments := segments + [(start, |row|)];
    }
  }

  lemma RunStartUnique(row: seq<int>, s: nat, i: nat)
    requires s <= i <= |row| && (forall k :: s <= k < i ==> row[k] == 0) && (s == 0 || row[s - 1] != 0)
    ensures RunStart(row, i) == s
  {
    var t := RunStart(row, i);
    assert t < s ==> t <= s - 1 < i;
    assert s < t ==> s <= t - 1 < i;
  }

  lemma {:induction false} ClosedRunsExact(row: seq<int>, i: nat, s: int, e: int)
    requires i <= |row|
    ensures (s, e) in ClosedRuns(row, i) <==> IsRun(row, s, e) && e < i
    decreases i
  {
    if i > 0 {
      ClosedRunsExact(row, i - 1, s, e);
      if e == i - 1 && IsRun(row, s, e) {
        RunStartUnique(row, s, e);
      }
    }
  }

  /** The segments of a row are exactly its maximal free runs of at least three cells. */
  lemma FreeRunsExact(row: seq<int>, s: int, e: int)
    ensures (s, e) in FreeRuns(row) <==> IsRun(row, s, e)
  {
    ClosedRunsExact(row, |row|, s, e);
    if e == |row| && IsRun(row, s, e) {
      RunStartUnique(row, s, e);
    }
  }

  // ---------- _generate_boustrophedon ----------

  /** The two ends of a run in driving order. */
  function RunEnds(grid: Map, y: int, run: (int, int), direction: int): (ends: seq<Waypoint>)
    ensures |ends| == 2
  {
    if direction == 1 then [grid.At(run.0, y, 0.0), grid.At(run.1 - 1, y, 0.0)]
    else [grid.At(run.1 - 1, y, PI), grid.At(run.0, y, PI)]
  }

  function RowWaypoints(grid: Map, y: int, runs: seq<(int, int)>, direction: int): seq<Waypoint> {
    if runs == [] then []
    else RowWaypoints(grid, y, runs[..|runs| - 1], direction) + RunEnds(grid, y, runs[|runs| - 1], direction)
  }

  /** The sweep from row `y` on; the direction turns after each row that had a run. */
  ghost function Sweep(grid: Map, n: int, stripe: int, y: nat, direction: int): seq<Waypoint>
    requires grid.Valid() && stripe >= 1
    decreases grid.height - y
  {
    if y >= grid.height then []
    else
      var runs := FreeRuns(InflatedRow(grid, n, y));
      RowWaypoints(grid, y, runs, direction)
      + Sweep(grid, n, stripe, y + stripe, if runs == [] then direction else -direction)
  }

  function StripeCells(robotWidth: real, overlap: real, resolution: real): (c: int)
    requires resolution > 0.0
    ensures c >= 1
  {
    var c := Trunc(robotWidth * (1.0 - overlap) / resolution);
    if c > 1 then c else 1
  }

  function InflationCells(robotWidth: real, resolution: real): int
    requires resolution > 0.0
  {
    Trunc((robotWidth / 2.0 + MIN_CLEARANCE) / resolution)
  }

  method GenerateBoustrophedon(grid: Map, robotWidth: real, overlap: real)
    returns (optimized: seq<Waypoint>, ghost raw: seq<Waypoint>)
    requires grid.Valid()
    ensures raw == Sweep(grid, InflationCells(robotWidth, grid.resolution),
                         StripeCells(robotWidth, overlap, grid.resolution), 0, 1)
    ensures optimized == Thinned(raw)
  {
    hide Thinned, Sweep, StripeCells, InflationCells;
    var stripe := StripeCells(robotWidth, overlap, grid.resolution);
    var n := InflationCells(robotWidth, grid.resolution);
    var waypoints := SweepLoop(grid, n, stripe);
    raw := waypoints;
    optimized := OptimizeWaypoints(waypoints);
  }

  /** The row loop. */
  method SweepLoop(grid: Map, n: int, stripe: int) returns (waypoints: seq<Waypoint>)
    requires grid.Valid() && stripe >= 1
    ensures waypoints == Sweep(grid, n, stripe, 0, 1)
  {
    hide FreeRuns, RunEnds, RowWaypoints, InflatedRow, Sweep, Map.Valid, IsRun;
    waypoints := [];
    var y: nat := 0;
    var direction := 1;
    while y < grid.height
      invariant direction == 1 || direction == -1
      invariant waypoints + Sweep(grid, n, stripe, y, direction) == Sweep(grid, n, stripe, 0, 1)
      decreases grid.height - y
    {
      SweepStep(grid, n, stripe, y, direction);
      var row, turn := SweepRow(grid, n, y, direction);
      waypoints := waypoints + row;
      if turn {
        direction := -direction;
      }
      y := y + stripe;
    }
    SweepEnd(grid, n, stripe, y, direction);
  }

  /** One stripe: its waypoints, and whether the direction turns after it. */
  method SweepRow(grid: Map, n: int, y: nat, direction: int) returns (row: seq<Waypoint>, turn: bool)
    requires grid.Valid() && y < grid.height
    ensures row == RowWaypoints(grid, y, FreeRuns(InflatedRow(grid, n, y)), direction)
    ensures turn <==> FreeRuns(InflatedRow(grid, n, y)) != []
  {
    hide FreeRuns, RunEnds, RowWaypoints, InflatedRow, IsRun;
    var runs := FindFreeSegments(InflatedRow(grid, n, y));
    row := RowLoop(grid, y, runs, direction);
    turn := runs != [];
  }

  lemma SweepStep(grid: Map, n: int, stripe: int, y: nat, direction: int)
    requires grid.Valid() && stripe >= 1 && y < grid.height
    ensures var runs := FreeRuns(InflatedRow(grid, n, y));
      Sweep(grid, n, stripe, y, direction) == RowWaypoints(grid, y, runs, direction)
        + Sweep(grid, n, stripe, y + stripe, if runs == [] then direction else -direction)
  {
    hide FreeRuns, InflatedRow, RunEnds, RowWaypoints;
  }

  lemma SweepEnd(grid: Map, n: int, stripe: int, y: nat, direction: int)
    requires grid.Valid() && stripe >= 1 && y >= grid.height
    ensures Sweep(grid, n, stripe, y, direction) == []
  {
  }

  /** The segment loop of one row. */
  method RowLoop(grid: Map, y: int, runs: seq<(int, int)>, direction: int) returns (row: seq<Waypoint>)
    ensures row == RowWaypoints(grid, y, runs, direction)
  {
    hide RunEnds, World;
    row := [];
    var i := 0;
    while i < |runs|
      invariant 0 <= i <= |runs| && row == RowWaypoints(grid, y, runs[..i], direction)
    {
      var xStart, xEnd := runs[i].0, runs[i].1;
      var yWorld := World(y as real + 0.5, grid.originY, grid.resolution);
      var left := World(xStart as real + 0.5, grid.originX, grid.resolution);
      var right := World(xEnd as real - 0.5, grid.originX, grid.resolution);
      RunEndsAt(grid, y, runs[i], direction);
      RowExtend(grid, y, runs, i, direction);
      if direction == 1 {
        row := row + [Waypoint(left, yWorld, 0.0), Waypoint(right, yWorld, 0.0)];
      } else {
        row := row + [Waypoint(right, yWorld, PI), Waypoint(left, yWorld, PI)];
      }
      i := i + 1;
    }
    assert runs[..|runs|] == runs;
  }

  /** World coordinate of a place given in cells from the origin. */
  function World(cells: real, origin: real, resolution: real): real {
    origin + cells * resolution
  }

  lemma RunEndsAt(grid: Map, y: int, run: (int, int), direction: int)
    ensures var yWorld := World(y as real + 0.5, grid.originY, grid.resolution);
      var left := World(run.0 as real + 0.5, grid.originX, grid.resolution);
      var right := World(run.1 as real - 0.5, grid.originX, grid.resolution);
      RunEnds(grid, y, run, direction) ==
        if direction == 1 then [Waypoint(left, yWorld, 0.0), Waypoint(right, yWorld, 0.0)]
        else [Waypoint(right, yWorld, PI), Waypoint(left, yWorld, PI)]
  {
    hide CentreOf, World;
    CellCentre(run.0, grid.originX, grid.resolution);
    CellCentre(run.1 - 1, grid.originX, grid.resolution);
    CellCentre(y, grid.originY, grid.resolution);
    assert (run.1 - 1) as real + 0.5 == run.1 as real - 0.5;
  }

  lemma CellCentre(m: int, origin: real, resolution: real)
    ensures CentreOf(m, origin, resolution) == World(m as real + 0.5, origin, resolution)
  {
  }

  lemma RowExtend(grid: Map, y: int, runs: seq<(int, int)>, i: nat, direction: int)
    requires i < |runs|
    ensures RowWaypoints(grid, y, runs[..i + 1], direction) ==
      RowWaypoints(grid, y, runs[..i], direction) + RunEnds(grid, y, runs[i], direction)
  {
    hide RunEnds;
    assert runs[..i + 1][..i] == runs[..i];
  }

  // ---------- _optimize_waypoints ----------

  function Cross(a: Waypoint, b: Waypoint, c: Waypoint): real {
    (b.x - a.x) * (c.y - b.y) - (b.y - a.y) * (c.x - b.x)
  }

  /** The middle point turns the path by more than the threshold. */
  predicate Turns(a: Waypoint, b: Waypoint, c: Waypoint) {
    var cross := Cross(a, b, c);
    cross > 0.01 || -cross > 0.01
  }

  /** The first point and the turning points before index `i`. */
  function KeptBefore(w: seq<Waypoint>, i: nat): seq<Waypoint>
    requires 1 <= i < |w|
  {
    if i == 1 then [w[0]]
    else KeptBefore(w, i - 1) + (if Turns(w[i - 2], w[i - 1], w[i]) then [w[i - 1]] else [])
  }

  function Thinned(w: seq<Waypoint>): seq<Waypoint> {
    if |w| < 3 then w else KeptBefore(w, |w| - 1) + [w[|w| - 1]]
  }

  method OptimizeWaypoints(waypoints: seq<Waypoint>) returns (optimized: seq<Waypoint>)
    ensures optimized == Thinned(waypoints)
  {
    if |waypoints| < 3 {
      return waypoints;
    }
    hide Cross;
    optimized := [waypoints[0]];
    var i := 1;
    while i < |waypoints| - 1
      invariant 1 <= i < |waypoints| && optimized == KeptBefore(waypoints, i)
    {
      var cross := Cross(waypoints[i - 1], waypoints[i], waypoints[i + 1]);
      if cross > 0.01 || -cross > 0.01 {
        optimized := optimized + [waypoints[i]];
      }
      i := i + 1;
    }
    optimized := optimized + [waypoints[|waypoints| - 1]];
  }

  lemma {:induction false} KeptAreOriginal(w: seq<Waypoint>, i: nat, p: Waypoint)
    requires 1 <= i < |w| && p in KeptBefore(w, i)
    ensures p in w
    decreases i
  {
    hide Turns;
    if i > 1 && p in KeptBefore(w, i - 1) {
      KeptAreOriginal(w, i - 1, p);
    }
  }

  lemma {:induction false} TurnsAreKept(w: seq<Waypoint>, i: nat, k: nat)
    requires 1 <= i < |w| && 1 <= k < i && Turns(w[k - 1], w[k], w[k + 1])
    ensures w[k] in KeptBefore(w, i)
    decreases i
  {
    hide Turns;
    if k < i - 1 {
      TurnsAreKept(w, i - 1, k);
    }
  }

  lemma {:induction false} FirstIsKept(w: seq<Waypoint>, i: nat)
    requires 1 <= i < |w|
    ensures KeptBefore(w, i) != [] && KeptBefore(w, i)[0] == w[0]
    decreases i
  {
    hide Turns;
    if i > 1 {
      FirstIsKept(w, i - 1);
    }
  }

  /** Thinning invents no point, keeps both ends, and keeps every point where the path turns. */
  lemma ThinnedKeepsShape(w: seq<Waypoint>)
    ensures forall p :: p in Thinned(w) ==> p in w
    ensures w != [] ==> Thinned(w) != [] && Thinned(w)[0] == w[0] && Thinned(w)[|Thinned(w)| - 1] == w[|w| - 1]
    ensures forall k :: 1 <= k < |w| - 1 && Turns(w[k - 1], w[k], w[k + 1]) ==> w[k] in Thinned(w)
  {
    hide Turns;
    if |w| >= 3 {
      FirstIsKept(w, |w| - 1);
      forall p | p in KeptBefore(w, |w| - 1)
        ensures p in w
      {
        KeptAreOriginal(w, |w| - 1, p);
      }
      forall k | 1 <= k < |w| - 1 && Turns(w[k - 1], w[k], w[k + 1])
        ensures w[k] in Thinned(w)
      {
        TurnsAreKept(w, |w| - 1, k);
      }
    }
  }

  // ---------- validate_waypoints ----------

  datatype Verdict = Accepted | TooFew | TooMany | OutsideMap(index: nat) | InObstacle(index: nat)

  /** The first test on one waypoint. */
  ghost predicate InMap(grid: Map, p: Waypoint)
    requires grid.resolution > 0.0
  {
    grid.Contains(CellOf(p.x, grid.originX, grid.resolution), CellOf(p.y, grid.originY, grid.resolution))
  }

  /** Both tests on one waypoint; a cell the message holds no data for passes the second one. */
  ghost predicate OnFreeCell(grid: Map, p: Waypoint)
    requires grid.resolution > 0.0
  {
    var x, y := CellOf(p.x, grid.originX, grid.resolution), CellOf(p.y, grid.originY, grid.resolution);
    grid.Contains(x, y) && (0 <= Idx(grid.width, x, y) < |grid.data| ==> !IsObstacle(grid.data[Idx(grid.width, x, y)]))
  }

  method ValidateWaypoints(waypoints: seq<Waypoint>, grid: Map) returns (v: Verdict)
    requires grid.resolution > 0.0
    ensures v == TooFew <==> |waypoints| < 2
    ensures v == TooMany <==> |waypoints| > 1000
    ensures v == Accepted <==>
      2 <= |waypoints| <= 1000 && forall k :: 0 <= k < |waypoints| ==> OnFreeCell(grid, waypoints[k])
    ensures v.OutsideMap? || v.InObstacle? ==>
      v.index < |waypoints| && (v.OutsideMap? <==> !InMap(grid, waypoints[v.index])) &&
      !OnFreeCell(grid, waypoints[v.index]) &&
      forall k :: 0 <= k < v.index ==> OnFreeCell(grid, waypoints[k])
  {
    if |waypoints| < 2 {
      return TooFew;
    }
    if |waypoints| > 1000 {
      return TooMany;
    }
    hide CellOf, Idx;
    var i := 0;
    while i < |waypoints|
      invariant 0 <= i <= |waypoints|
      invariant forall k :: 0 <= k < i ==> OnFreeCell(grid, waypoints[k])
    {
      var xCell := CellOf(waypoints[i].x, grid.originX, grid.resolution);
      var yCell := CellOf(waypoints[i].y, grid.originY, grid.resolution);
      if !(0 <= xCell < grid.width && 0 <= yCell < grid.height) {
        return OutsideMap(i);
      }
      var gridIndex := Idx(grid.width, xCell, yCell);
      IdxNonNegative(grid.width, xCell, yCell);
      if gridIndex < |grid.data| {
        var cellValue := grid.data[gridIndex];
        if cellValue > 50 || cellValue == -1 {
          return InObstacle(i);
        }
      }
      i := i + 1;
    }
    v := Accepted;
  }

  lemma IdxNonNegative(w: nat, x: nat, y: nat)
    ensures Idx(w, x, y) >= 0
  {
  }

  // ---------- generated waypoints are valid ----------

  /** A waypoint stands on the centre of a map cell that is clear of obstacles by more than `n` cells. */
  ghost predicate SafeWaypoint(grid: Map, n: int, p: Waypoint)
    requires grid.Valid()
  {
    exists x, y :: grid.Contains(x, y) && grid.Clear(n, x, y) && p == grid.At(x, y, p.yaw)
  }

  lemma SafeIsOnFreeCell(grid: Map, n: int, p: Waypoint)
    requires grid.Valid() && SafeWaypoint(grid, n, p)
    ensures OnFreeCell(grid, p)
  {
    hide CellOf, CentreOf, Idx;
    var x, y :| grid.Contains(x, y) && grid.Clear(n, x, y) && p == grid.At(x, y, p.yaw);
    MapWorldRoundTrip(x, grid.originX, grid.resolution);
    MapWorldRoundTrip(y, grid.originY, grid.resolution);
    assert Near(n, x, y, x, y);
  }

  lemma RunEndsSafe(grid: Map, n: int, y: nat, run: (int, int), direction: int, p: Waypoint)
    requires grid.Valid() && y < grid.height && run in FreeRuns(InflatedRow(grid, n, y))
    requires p in RunEnds(grid, y, run, direction)
    ensures SafeWaypoint(grid, n, p)
  {
    hide CentreOf, Idx, FreeRuns;
    RunCellSafe(grid, n, y, run, run.0, p.yaw);
    RunCellSafe(grid, n, y, run, run.1 - 1, p.yaw);
    hide SafeWaypoint, InflatedRow;
  }

  lemma RunCellSafe(grid: Map, n: int, y: nat, run: (int, int), x: int, yaw: real)
    requires grid.Valid() && y < grid.height && run in FreeRuns(InflatedRow(grid, n, y))
    requires x == run.0 || x == run.1 - 1
    ensures SafeWaypoint(grid, n, grid.At(x, y, yaw))
  {
    FreeRunsExact(InflatedRow(grid, n, y), run.0, run.1);
    hide CentreOf, Idx, FreeRuns;
    assert grid.Contains(x, y) && grid.Clear(n, x, y);
  }

  lemma {:induction false} RowSafe(grid: Map, n: int, y: nat, runs: seq<(int, int)>, direction: int, p: Waypoint)
    requires grid.Valid() && y < grid.height
    requires forall r :: r in runs ==> r in FreeRuns(InflatedRow(grid, n, y))
    requires p in RowWaypoints(grid, y, runs, direction)
    ensures SafeWaypoint(grid, n, p)
  {
    hide FreeRuns, RunEnds, SafeWaypoint;
    var k := |runs| - 1;
    if p in RunEnds(grid, y, runs[k], direction) {
      RunEndsSafe(grid, n, y, runs[k], direction, p);
    } else {
      RowSafe(grid, n, y, runs[..k], direction, p);
    }
  }

  lemma {:induction false} SweepSafe(grid: Map, n: int, stripe: int, y: nat, direction: int, p: Waypoint)
    requires grid.Valid() && stripe >= 1 && p in Sweep(grid, n, stripe, y, direction)
    ensures SafeWaypoint(grid, n, p)
    decreases grid.height - y
  {
    hide FreeRuns, SafeWaypoint;
    var runs := FreeRuns(InflatedRow(grid, n, y));
    if p in RowWaypoints(grid, y, runs, direction) {
      RowSafe(grid, n, y, runs, direction, p);
    } else {
      SweepSafe(grid, n, stripe, y + stripe, if runs == [] then direction else -direction, p);
    }
  }

  /**
   Every generated waypoint is clear of occupied and unknown cells by more than the inflation
   distance, so the validator can only object to the number of waypoints.
   */
  lemma BoustrophedonIsSafe(grid: Map, n: int, stripe: int)
    requires grid.Valid() && stripe >= 1
    ensures forall p :: p in Thinned(Sweep(grid, n, stripe, 0, 1)) ==> SafeWaypoint(grid, n, p) && OnFreeCell(grid, p)
  {
    hide FreeRuns, SafeWaypoint, Thinned, OnFreeCell;
    var raw := Sweep(grid, n, stripe, 0, 1);
    ThinnedKeepsShape(raw);
    forall p | p in Thinned(raw)
      ensures SafeWaypoint(grid, n, p) && OnFreeCell(grid, p)
    {
      SweepSafe(grid, n, stripe, 0, 1, p);
      SafeIsOnFreeCell(grid, n, p);
    }
  }

  /** Truncation never loses a whole unit. */
  lemma TruncReaches(q: real)
    ensures q < Trunc(q) as real + 1.0
    ensures q >= 0.0 ==> Trunc(q) as real <= q
  {
  }

  /** In metres: along some axis farther than half the robot plus 0.3 from the centre of any blocked cell. */
  ghost predicate ClearInMetres(grid: Map, robotWidth: real, p: Waypoint)
    requires grid.Valid()
  {
    forall u, v :: grid.Contains(u, v) && grid.Holds(u, v) ==>
      Length(p.x - CentreOf(u, grid.originX, grid.resolution)) > robotWidth / 2.0 + 0.3 ||
      Length(p.y - CentreOf(v, grid.originY, grid.resolution)) > robotWidth / 2.0 + 0.3
  }

  lemma HoldsIsBlocked(grid: Map, u: int, v: int)
    requires grid.Valid() && grid.Contains(u, v)
    ensures grid.Holds(u, v) <==> grid.Blocked(u, v)
  {
    IdxInRange(grid.width, grid.height, u, v);
  }

  lemma SafeIsClearInMetres(grid: Map, robotWidth: real, p: Waypoint)
    requires grid.Valid() && SafeWaypoint(grid, InflationCells(robotWidth, grid.resolution), p)
    ensures ClearInMetres(grid, robotWidth, p)
  {
    hide CentreOf, Idx, InflationCells, Map.Blocked, Map.Holds;
    var n := InflationCells(robotWidth, grid.resolution);
    var x, y :| grid.Contains(x, y) && grid.Clear(n, x, y) && p == grid.At(x, y, p.yaw);
    forall u, v | grid.Contains(u, v) && grid.Holds(u, v)
      ensures Length(p.x - CentreOf(u, grid.originX, grid.resolution)) > robotWidth / 2.0 + 0.3 ||
              Length(p.y - CentreOf(v, grid.originY, grid.resolution)) > robotWidth / 2.0 + 0.3
    {
      HoldsIsBlocked(grid, u, v);
      assert !Near(n, x, y, u, v);
      if Abs(u - x) > n && u != x {
        CellsApart(x, u, grid.originX, robotWidth, grid.resolution);
      } else {
        CellsApart(y, v, grid.originY, robotWidth, grid.resolution);
      }
    }
  }

  lemma CellsApart(x: int, u: int, origin: real, robotWidth: real, resolution: real)
    requires resolution > 0.0 && u != x && Abs(u - x) > InflationCells(robotWidth, resolution)
    ensures Length(CentreOf(x, origin, resolution) - CentreOf(u, origin, resolution)) > robotWidth / 2.0 + 0.3
  {
    var reach := robotWidth / 2.0 + MIN_CLEARANCE;
    var q := reach / resolution;
    DivideBack(reach, resolution);
    TruncReaches(q);
    CentresApart(x, u, origin, resolution);
    hide CentreOf;
    var k := Abs(u - x) as real;
    assert q < k;
    ScaledUnder(q, k, reach, resolution);
  }

  /** Cell centres are as far apart as their numbers, times the resolution. */
  lemma CentresApart(x: int, u: int, origin: real, resolution: real)
    requires resolution > 0.0
    ensures Length(CentreOf(x, origin, resolution) - CentreOf(u, origin, resolution)) == Abs(u - x) as real * resolution
  {
    var d := (x - u) as real;
    assert CentreOf(x, origin, resolution) - CentreOf(u, origin, resolution) == d * resolution;
    LengthOfProduct(d, resolution);
  }

  /** The centre of a cell is as far from its lower edge as from its upper one. */
  lemma CentreIsMiddle(m: int, origin: real, resolution: real)
    ensures CentreOf(m, origin, resolution) - (origin + m as real * resolution) ==
            (origin + (m as real + 1.0) * resolution) - CentreOf(m, origin, resolution)
  {
  }

  /** Stripes are no wider than the robot less the overlap, unless they are one cell, and no narrower than needed. */
  lemma StripeInMetres(robotWidth: real, overlap: real, resolution: real)
    requires resolution > 0.0
    ensures var c := StripeCells(robotWidth, overlap, resolution) as real;
      && (c == 1.0 || c * resolution <= robotWidth * (1.0 - overlap))
      && robotWidth * (1.0 - overlap) < (c + 1.0) * resolution
  {
    var width := robotWidth * (1.0 - overlap);
    var q := width / resolution;
    var c := StripeCells(robotWidth, overlap, resolution);
    DivideBack(width, resolution);
    TruncReaches(q);
    ScaledUnder(q, c as real + 1.0, width, resolution);
    if c > 1 {
      ScaleLe(c as real, q, resolution);
    }
  }

  /** The generate_coverage command with the boustrophedon pattern: planning, then validation. */
  method PlanAndValidate(grid: Map, robotWidth: real, overlap: real) returns (waypoints: seq<Waypoint>, v: Verdict)
    requires grid.Valid()
    ensures v == if |waypoints| < 2 then TooFew else if |waypoints| > 1000 then TooMany else Accepted
    ensures forall p :: p in waypoints ==>
      SafeWaypoint(grid, InflationCells(robotWidth, grid.resolution), p) && ClearInMetres(grid, robotWidth, p)
  {
    hide SafeWaypoint, OnFreeCell, Sweep, Thinned, ClearInMetres;
    ghost var raw;
    waypoints, raw := GenerateBoustrophedon(grid, robotWidth, overlap);
    BoustrophedonIsSafe(grid, InflationCells(robotWidth, grid.resolution),
                        StripeCells(robotWidth, overlap, grid.resolution));
    forall p | p in waypoints
      ensures ClearInMetres(grid, robotWidth, p)
    {
      SafeIsClearInMetres(grid, robotWidth, p);
    }
    v := ValidateWaypoints(waypoints, grid);
  }

  // ---------- every stripe is swept ----------

  /** `w` visits the two ends of the run one after the other, in one of the two directions. */
  ghost predicate Brackets(grid: Map, y: int, run: (int, int), w: seq<Waypoint>, k: int) {
    0 <= k < |w| - 1 && (w[k..k + 2] == RunEnds(grid, y, run, 1) || w[k..k + 2] == RunEnds(grid, y, run, -1))
  }

  lemma SlideRight<T>(s: seq<T>, t: seq<T>, k: nat, n: nat)
    requires k + n <= |t|
    ensures (s + t)[|s| + k..|s| + k + n] == t[k..k + n]
  {
  }

  lemma SliceLeft<T>(s: seq<T>, t: seq<T>, k: nat, n: nat)
    requires k + n <= |s|
    ensures (s + t)[k..k + n] == s[k..k + n]
  {
  }

  lemma {:induction false} RowBrackets(grid: Map, y: int, runs: seq<(int, int)>, direction: int, run: (int, int))
    returns (k: int)
    requires run in runs && (direction == 1 || direction == -1)
    ensures Brackets(grid, y, run, RowWaypoints(grid, y, runs, direction), k)
  {
    hide RunEnds;
    var n := |runs| - 1;
    var before := RowWaypoints(grid, y, runs[..n], direction);
    var w := RowWaypoints(grid, y, runs, direction);
    var ends := RunEnds(grid, y, runs[n], direction);
    assert w == before + ends;
    if run == runs[n] {
      k := |before|;
      SlideRight(before, ends, 0, 2);
      assert ends[0..2] == ends;
    } else {
      k := RowBrackets(grid, y, runs[..n], direction, run);
      SliceLeft(before, ends, k, 2);
    }
  }

  /** Each usable free run of each stripe row is driven from end to end by two consecutive raw waypoints. */
  lemma {:induction false} SweepCoversStripes(grid: Map, n: int, stripe: int, y: nat, direction: int, j: nat,
                                              run: (int, int)) returns (k: int)
    requires grid.Valid() && stripe >= 1 && (direction == 1 || direction == -1)
    requires 0 <= j * stripe && y + j * stripe < grid.height
    requires IsRun(InflatedRow(grid, n, y + j * stripe), run.0, run.1)
    ensures Brackets(grid, y + j * stripe, run, Sweep(grid, n, stripe, y, direction), k)
    decreases j
  {
    hide RunEnds, RowWaypoints, FreeRuns, IsRun;
    assert 0 <= j * stripe;
    var runs := FreeRuns(InflatedRow(grid, n, y));
    var row := RowWaypoints(grid, y, runs, direction);
    var turned := if runs == [] then direction else -direction;
    var rest := Sweep(grid, n, stripe, y + stripe, turned);
    SweepStep(grid, n, stripe, y, direction);
    hide InflatedRow, Sweep;
    if j == 0 {
      FreeRunsExact(InflatedRow(grid, n, y), run.0, run.1);
      k := RowBrackets(grid, y, runs, direction, run);
      SliceLeft(row, rest, k, 2);
    } else {
      assert j * stripe == stripe + (j - 1) * stripe;
      assert 0 <= (j - 1) * stripe;
      var i := SweepCoversStripes(grid, n, stripe, y + stripe, turned, j - 1, run);
      k := |row| + i;
      SlideRight(row, rest, i, 2);
    }
  }
}
