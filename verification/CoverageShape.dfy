/** The shape of a boustrophedon plan in coordinates: its rows, its turns, and which points thinning keeps. */
module CoverageShape {
  import opened Arithmetic
  import opened GridIndex
  import opened RollingWindow
  import opened Coverage

  // ---------- the turn test, in coordinates ----------

  lemma TurnsBySize(a: Waypoint, b: Waypoint, c: Waypoint)
    ensures Turns(a, b, c) <==> Length(Cross(a, b, c)) > 0.01
  {
    hide Cross;
  }

  lemma CrossAfterLevel(a: Waypoint, b: Waypoint, c: Waypoint)
    requires a.y == b.y
    ensures Cross(a, b, c) == Product(b.x - a.x, c.y - b.y)
  {
    assert (b.y - a.y) * (c.x - b.x) == 0.0 by {
      assert b.y - a.y == 0.0;
    }
  }

  lemma CrossBeforeLevel(a: Waypoint, b: Waypoint, c: Waypoint)
    requires b.y == c.y
    ensures Length(Cross(a, b, c)) == Length(Product(b.y - a.y, c.x - b.x))
  {
    assert (b.x - a.x) * (c.y - b.y) == 0.0 by {
      assert c.y - b.y == 0.0;
    }
  }

  /** After a level leg, the middle point is kept when leg length times climb exceeds 0.01. */
  lemma LevelThenAnywhere(a: Waypoint, b: Waypoint, c: Waypoint)
    requires a.y == b.y
    ensures Turns(a, b, c) <==> Product(Length(b.x - a.x), Length(c.y - b.y)) > 0.01
  {
    hide Product, Cross, Turns;
    TurnsBySize(a, b, c);
    CrossAfterLevel(a, b, c);
    LengthProduct(b.x - a.x, c.y - b.y);
  }

  /** Before a level leg, the same with climb and leg exchanged. */
  lemma AnywhereThenLevel(a: Waypoint, b: Waypoint, c: Waypoint)
    requires b.y == c.y
    ensures Turns(a, b, c) <==> Product(Length(b.y - a.y), Length(c.x - b.x)) > 0.01
  {
    hide Product, Cross, Turns;
    TurnsBySize(a, b, c);
    CrossBeforeLevel(a, b, c);
    LengthProduct(b.y - a.y, c.x - b.x);
  }

  /** A right-angled corner whose legs have a product of lengths above 0.01 stays in the thinned list. */
  lemma CornerIsKept(w: seq<Waypoint>, k: nat)
    requires 1 <= k < |w| - 1
    requires var a, b, c := w[k - 1], w[k], w[k + 1];
      || (a.y == b.y && b.x == c.x && Product(Length(b.x - a.x), Length(c.y - b.y)) > 0.01)
      || (a.x == b.x && b.y == c.y && Product(Length(b.y - a.y), Length(c.x - b.x)) > 0.01)
    ensures w[k] in Thinned(w)
  {
    hide Turns, Thinned, Product, Length;
    if w[k - 1].y == w[k].y {
      LevelThenAnywhere(w[k - 1], w[k], w[k + 1]);
    }
    if w[k].y == w[k + 1].y {
      AnywhereThenLevel(w[k - 1], w[k], w[k + 1]);
    }
    ThinnedKeepsShape(w);
  }

  /** Three points on one line: the middle one does not turn. */
  lemma StraightIsNoTurn(a: Waypoint, b: Waypoint, c: Waypoint, dx: real, dy: real, s: real, t: real)
    requires b.x == a.x + s * dx && b.y == a.y + s * dy && c.x == a.x + t * dx && c.y == a.y + t * dy
    ensures !Turns(a, b, c)
  {
    var u := t - s;
    assert c.x - b.x == u * dx && c.y - b.y == u * dy;
    assert (s * dx) * (u * dy) == (s * dy) * (u * dx);
  }

  lemma {:induction false} NothingTurns(w: seq<Waypoint>, i: nat)
    requires 1 <= i < |w| && forall k :: 1 <= k < i ==> !Turns(w[k - 1], w[k], w[k + 1])
    ensures KeptBefore(w, i) == [w[0]]
    decreases i
  {
    hide Turns;
    if i > 1 {
      NothingTurns(w, i - 1);
    }
  }

  /** Point `k` of the path lies `place` times (dx, dy) from the first one. */
  ghost predicate OnStraight(w: seq<Waypoint>, k: nat, place: real, dx: real, dy: real)
    requires k < |w|
  {
    w[k].x == w[0].x + place * dx && w[k].y == w[0].y + place * dy
  }

  /** A path along one line is thinned to its two ends. */
  lemma StraightPathThins(w: seq<Waypoint>, places: seq<real>, dx: real, dy: real)
    requires |w| >= 3 && |places| == |w|
    requires forall k :: 0 <= k < |w| ==> OnStraight(w, k, places[k], dx, dy)
    ensures Thinned(w) == [w[0], w[|w| - 1]]
  {
    hide Turns, OnStraight;
    forall k | 1 <= k < |w| - 1
      ensures !Turns(w[k - 1], w[k], w[k + 1])
    {
      StraightTriple(w, k, dx, dy, places[k - 1], places[k], places[k + 1]);
    }
    NothingTurns(w, |w| - 1);
  }

  lemma StraightTriple(w: seq<Waypoint>, k: nat, dx: real, dy: real, p: real, q: real, r: real)
    requires 1 <= k < |w| - 1
    requires OnStraight(w, k - 1, p, dx, dy) && OnStraight(w, k, q, dx, dy) && OnStraight(w, k + 1, r, dx, dy)
    ensures !Turns(w[k - 1], w[k], w[k + 1])
  {
    hide Turns;
    Relative(w[0].x, p, q, dx);
    Relative(w[0].x, p, r, dx);
    Relative(w[0].y, p, q, dy);
    Relative(w[0].y, p, r, dy);
    StraightIsNoTurn(w[k - 1], w[k], w[k + 1], dx, dy, q - p, r - p);
  }

  lemma Relative(x: real, p: real, q: real, d: real)
    ensures x + q * d == (x + p * d) + (q - p) * d
  {
  }

  // ---------- the pairs of a sweep ----------

  /** One run is driven level, left to right heading 0, or right to left heading pi. */
  lemma DrivingOrder(grid: Map, y: int, run: (int, int), direction: int)
    requires grid.resolution > 0.0 && run.0 < run.1
    ensures var ends := RunEnds(grid, y, run, direction);
      && ends[0].y == ends[1].y == CentreOf(y, grid.originY, grid.resolution)
      && Length(ends[1].x - ends[0].x) == (run.1 - 1 - run.0) as real * grid.resolution
      && (if direction == 1 then ends[0].x <= ends[1].x && ends[0].yaw == 0.0 == ends[1].yaw
          else ends[0].x >= ends[1].x && ends[0].yaw == PI == ends[1].yaw)
  {
    CentresApart(run.1 - 1, run.0, grid.originX, grid.resolution);
    CentresApart(run.0, run.1 - 1, grid.originX, grid.resolution);
    CentresOrdered(run.0, run.1 - 1, grid.originX, grid.resolution);
    hide CentreOf;
  }

  lemma CentresOrdered(x: int, u: int, origin: real, resolution: real)
    requires resolution > 0.0 && x <= u
    ensures CentreOf(x, origin, resolution) <= CentreOf(u, origin, resolution)
  {
    ScaleLe(x as real + 0.5, u as real + 0.5, resolution);
  }

  lemma {:induction false} RowPairs(grid: Map, y: int, runs: seq<(int, int)>, direction: int, i: nat)
    ensures |RowWaypoints(grid, y, runs, direction)| == 2 * |runs|
    ensures i < |runs| ==>
      RowWaypoints(grid, y, runs, direction)[2 * i..2 * i + 2] == RunEnds(grid, y, runs[i], direction)
  {
    hide RunEnds;
    if runs != [] {
      var n := |runs| - 1;
      RowPairs(grid, y, runs[..n], direction, i);
      var before, ends := RowWaypoints(grid, y, runs[..n], direction), RunEnds(grid, y, runs[n], direction);
      if i < n {
        SliceLeft(before, ends, 2 * i, 2);
      } else if i == n {
        SlideRight(before, ends, 0, 2);
        assert ends[0..2] == ends;
      }
    }
  }

  /** How many of the `j` stripe rows from `y` on have a usable run. */
  ghost function UsedRows(grid: Map, n: int, stripe: int, y: nat, j: nat): nat
    requires grid.Valid() && stripe >= 1 && (j > 0 ==> y + (j - 1) * stripe < grid.height)
    decreases j
  {
    if j == 0 then 0
    else
      StripeBelow(y, j, stripe, grid.height);
      (if FreeRuns(InflatedRow(grid, n, y)) != [] then 1 else 0) + UsedRows(grid, n, stripe, y + stripe, j - 1)
  }

  lemma StripeBelow(y: nat, j: nat, stripe: int, height: nat)
    requires stripe >= 1 && j > 0 && y + (j - 1) * stripe < height
    ensures y < height && (j > 1 ==> y + stripe + (j - 2) * stripe < height)
  {
    NonNegProduct(j - 1, stripe);
    assert (j - 1) * stripe == stripe + (j - 2) * stripe;
  }

  /** The direction after `used` rows that had a run. */
  function DirectionAfter(direction: int, used: nat): int {
    if used % 2 == 0 then direction else -direction
  }

  /** Waypoints 2i and 2i + 1 of a sweep are the ends of one run of stripe row `j`, driven in its direction. */
  ghost predicate IsPair(grid: Map, n: int, stripe: int, y: nat, direction: int, i: nat, j: nat, run: (int, int))
    requires grid.Valid() && stripe >= 1
  {
    var w := Sweep(grid, n, stripe, y, direction);
    && 2 * i + 1 < |w| && 0 <= j * stripe && y + j * stripe < grid.height
    && (j > 0 ==> y + (j - 1) * stripe < grid.height)
    && IsRun(InflatedRow(grid, n, y + j * stripe), run.0, run.1)
    && w[2 * i..2 * i + 2] ==
       RunEnds(grid, y + j * stripe, run, DirectionAfter(direction, UsedRows(grid, n, stripe, y, j)))
  }

  lemma {:induction false} SweepPairs(grid: Map, n: int, stripe: int, y: nat, direction: int, i: nat)
    returns (j: nat, run: (int, int))
    requires grid.Valid() && stripe >= 1 && 2 * i < |Sweep(grid, n, stripe, y, direction)|
    ensures IsPair(grid, n, stripe, y, direction, i, j, run)
    decreases grid.height - y
  {
    hide RunEnds, RowWaypoints, FreeRuns, IsRun;
    var runs := FreeRuns(InflatedRow(grid, n, y));
    var row := RowWaypoints(grid, y, runs, direction);
    var turned := if runs == [] then direction else -direction;
    var rest := Sweep(grid, n, stripe, y + stripe, turned);
    SweepStep(grid, n, stripe, y, direction);
    RowPairs(grid, y, runs, direction, i);
    if i < |runs| {
      j, run := 0, runs[i];
      FreeRunsExact(InflatedRow(grid, n, y), run.0, run.1);
      assert run in runs;
      SliceLeft(row, rest, 2 * i, 2);
    } else {
      var j', run' := SweepPairs(grid, n, stripe, y + stripe, turned, i - |runs|);
      j, run := j' + 1, run';
      NextPair(grid, n, stripe, y, direction, i, j', run);
    }
  }

  /** A pair of the rest of a sweep, seen from one stripe earlier. */
  lemma NextPair(grid: Map, n: int, stripe: int, y: nat, direction: int, i: nat, j: nat, run: (int, int))
    requires grid.Valid() && stripe >= 1 && y < grid.height && i >= |FreeRuns(InflatedRow(grid, n, y))|
    requires var runs := FreeRuns(InflatedRow(grid, n, y));
      IsPair(grid, n, stripe, y + stripe, if runs == [] then direction else -direction, i - |runs|, j, run)
    ensures IsPair(grid, n, stripe, y, direction, i, j + 1, run)
  {
    hide RunEnds, RowWaypoints, FreeRuns, IsRun, Sweep, InflatedRow;
    var runs := FreeRuns(InflatedRow(grid, n, y));
    var row := RowWaypoints(grid, y, runs, direction);
    var turned := if runs == [] then direction else -direction;
    var rest := Sweep(grid, n, stripe, y + stripe, turned);
    SweepStep(grid, n, stripe, y, direction);
    RowPairs(grid, y, runs, direction, 0);
    assert (j + 1) * stripe == stripe + j * stripe;
    SlideRight(row, rest, 2 * (i - |runs|), 2);
    assert (j + 1 - 1) * stripe == j * stripe;
    assert j > 0 ==> j * stripe == stripe + (j - 1) * stripe;
  }

  // ---------- what thinning keeps of a sweep ----------

  /** Both waypoints of a pair, in coordinates: level, and at least two cells apart. */
  lemma PairIsLevel(grid: Map, n: int, stripe: int, i: nat) returns (j: nat)
    requires grid.Valid() && stripe >= 1 && 2 * i < |Sweep(grid, n, stripe, 0, 1)|
    ensures var w := Sweep(grid, n, stripe, 0, 1);
      && 2 * i + 1 < |w|
      && w[2 * i].y == w[2 * i + 1].y == CentreOf(j * stripe, grid.originY, grid.resolution)
      && Length(w[2 * i + 1].x - w[2 * i].x) >= 2.0 * grid.resolution
  {
    hide Sweep, InflatedRow, CentreOf, RunEnds, Length, IsPair, IsRun;
    var run;
    j, run := SweepPairs(grid, n, stripe, 0, 1, i);
    var d := PairAt(grid, n, stripe, i, j, run);
    DrivingOrder(grid, j * stripe, run, d);
    ScaleLe(2.0, (run.1 - 1 - run.0) as real, grid.resolution);
  }

  lemma PairAt(grid: Map, n: int, stripe: int, i: nat, j: nat, run: (int, int)) returns (d: int)
    requires grid.Valid() && stripe >= 1 && IsPair(grid, n, stripe, 0, 1, i, j, run)
    ensures var w := Sweep(grid, n, stripe, 0, 1);
      var ends := RunEnds(grid, j * stripe, run, d);
      2 * i + 1 < |w| && w[2 * i] == ends[0] && w[2 * i + 1] == ends[1] && run.0 + 3 <= run.1
  {
    hide Sweep, InflatedRow, RunEnds;
    var w := Sweep(grid, n, stripe, 0, 1);
    d := DirectionAfter(1, UsedRows(grid, n, stripe, 0, j));
    var pair := w[2 * i..2 * i + 2];
    assert pair[0] == w[2 * i] && pair[1] == w[2 * i + 1];
  }

  /** Two different stripe rows are at least one stripe apart. */
  lemma RowsApart(grid: Map, stripe: int, j: nat, j': nat)
    requires grid.resolution > 0.0 && stripe >= 1
    ensures var y, y' := CentreOf(j * stripe, grid.originY, grid.resolution),
                         CentreOf(j' * stripe, grid.originY, grid.resolution);
      y == y' || Length(y' - y) >= stripe as real * grid.resolution
  {
    if j != j' {
      CentresApart(j' * stripe, j * stripe, grid.originY, grid.resolution);
      hide CentreOf;
      if j < j' {
        ProductStep(j, j', stripe);
      } else {
        ProductStep(j', j, stripe);
      }
      ScaleLe(stripe as real, Abs(j * stripe - j' * stripe) as real, grid.resolution);
    }
  }

  /** At a change of row both waypoints turn, once two cells times one stripe exceed 0.01 square metres. */
  lemma RowChangeTurns(grid: Map, n: int, stripe: int, i: nat)
    requires grid.Valid() && stripe >= 1 && 2 * i + 2 < |Sweep(grid, n, stripe, 0, 1)|
    requires Product(2.0 * grid.resolution, stripe as real * grid.resolution) > 0.01
    requires var w := Sweep(grid, n, stripe, 0, 1); w[2 * i + 1].y != w[2 * i + 2].y
    ensures var w := Sweep(grid, n, stripe, 0, 1);
      && 2 * i + 3 < |w|
      && Turns(w[2 * i], w[2 * i + 1], w[2 * i + 2]) && Turns(w[2 * i + 1], w[2 * i + 2], w[2 * i + 3])
  {
    hide Sweep, CentreOf, Turns, Length, Product;
    var w := Sweep(grid, n, stripe, 0, 1);
    var j := PairIsLevel(grid, n, stripe, i);
    var j' := PairIsLevel(grid, n, stripe, i + 1);
    RowsApart(grid, stripe, j, j');
    var climb := w[2 * i + 2].y - w[2 * i + 1].y;
    LevelThenAnywhere(w[2 * i], w[2 * i + 1], w[2 * i + 2]);
    AnywhereThenLevel(w[2 * i + 1], w[2 * i + 2], w[2 * i + 3]);
    var cells, rise := 2.0 * grid.resolution, stripe as real * grid.resolution;
    ScaleLe(0.0, stripe as real, grid.resolution);
    ProductMonotone(cells, rise, Length(w[2 * i + 1].x - w[2 * i].x), Length(climb));
    ProductMonotone(cells, rise, Length(w[2 * i + 3].x - w[2 * i + 2].x), Length(climb));
    ProductCommutes(Length(w[2 * i + 3].x - w[2 * i + 2].x), Length(climb));
  }

  /**
   The plan that is returned still has both ends of every change of row, provided two cells times one
   stripe exceed the threshold of 0.01 square metres.
   */
  lemma PlanKeepsRowChanges(grid: Map, n: int, stripe: int, i: nat)
    requires grid.Valid() && stripe >= 1 && 2 * i + 2 < |Sweep(grid, n, stripe, 0, 1)|
    requires Product(2.0 * grid.resolution, stripe as real * grid.resolution) > 0.01
    requires var w := Sweep(grid, n, stripe, 0, 1); w[2 * i + 1].y != w[2 * i + 2].y
    ensures var w := Sweep(grid, n, stripe, 0, 1);
      w[2 * i + 1] in Thinned(w) && w[2 * i + 2] in Thinned(w)
  {
    hide Sweep, Turns, Thinned;
    RowChangeTurns(grid, n, stripe, i);
    ThinnedKeepsShape(Sweep(grid, n, stripe, 0, 1));
  }

  /** Within one row nothing turns: the waypoints between its two ends are the ones that thinning drops. */
  lemma WithinRowNoTurn(a: Waypoint, b: Waypoint, c: Waypoint)
    requires a.y == b.y == c.y
    ensures !Turns(a, b, c)
  {
    LevelThenAnywhere(a, b, c);
    assert Product(Length(b.x - a.x), 0.0) == 0.0;
  }

  // ---------- a fine map ----------

  lemma ThreeFreeCells(row: seq<int>)
    requires row == [0, 0, 0]
    ensures FreeRuns(row) == [(0, 3)]
  {
    assert RunStart(row, 0) == 0 && RunStart(row, 1) == 0 && RunStart(row, 2) == 0 && RunStart(row, 3) == 0;
    assert ClosedAt(row, 0) == [] && ClosedAt(row, 1) == [] && ClosedAt(row, 2) == [];
    assert ClosedRuns(row, 0) == [] && ClosedRuns(row, 1) == [] && ClosedRuns(row, 2) == [] && ClosedRuns(row, 3) == [];
  }

  /** A free map of two rows of three cells of 5 cm. */
  function FineMap(): Map {
    Map(3, 2, 0.05, 0.0, 0.0, [0, 0, 0, 0, 0, 0])
  }

  lemma FineRow(n: int, y: nat)
    requires y < 2
    ensures FineMap().Valid() && FreeRuns(InflatedRow(FineMap(), n, y)) == [(0, 3)]
  {
    var row := InflatedRow(FineMap(), n, y);
    forall u, v | FineMap().Contains(u, v)
      ensures !FineMap().Blocked(u, v)
    {
      IdxInRange(3, 2, u, v);
    }
    assert FineMap().Clear(n, 0, y) && FineMap().Clear(n, 1, y) && FineMap().Clear(n, 2, y);
    assert row == [0, 0, 0];
    ThreeFreeCells(row);
  }

  lemma FineSweep(n: int)
    ensures FineMap().Valid()
    ensures Sweep(FineMap(), n, 1, 0, 1) == RunEnds(FineMap(), 0, (0, 3), 1) + RunEnds(FineMap(), 1, (0, 3), -1)
  {
    hide InflatedRow, RunEnds, FreeRuns;
    FineRow(n, 0);
    FineRow(n, 1);
    SweepStep(FineMap(), n, 1, 0, 1);
    SweepStep(FineMap(), n, 1, 1, -1);
    SweepEnd(FineMap(), n, 1, 2, 1);
    OneRun(0, 1);
    OneRun(1, -1);
  }

  lemma OneRun(y: int, direction: int)
    ensures RowWaypoints(FineMap(), y, [(0, 3)], direction) == RunEnds(FineMap(), y, (0, 3), direction)
  {
    hide RunEnds;
    assert [(0, 3)][..0] == [];
    assert RowWaypoints(FineMap(), y, [], direction) == [];
  }

  /** On a fine map the corners do fall below the threshold: the two rows are returned as one diagonal. */
  lemma FineMapLosesCorners(n: int)
    ensures FineMap().Valid()
    ensures var w := Sweep(FineMap(), n, 1, 0, 1);
      |w| == 4 && Thinned(w) == [w[0], w[3]]
  {
    FineSweep(n);
    hide Sweep;
    var w := Sweep(FineMap(), n, 1, 0, 1);
    assert w[0] == Waypoint(0.025, 0.025, 0.0) && w[1] == Waypoint(0.125, 0.025, 0.0);
    assert w[2] == Waypoint(0.125, 0.075, PI) && w[3] == Waypoint(0.025, 0.075, PI);
    NothingTurns(w, 3);
  }
}
