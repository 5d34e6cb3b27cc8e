/** The spiral coverage pattern: which cells it visits, how often, in what order, and when it validates. */
module Spiral {
  import opened Arithmetic
  import opened GridIndex
  import opened RollingWindow
  import opened Coverage

  /** A waypoint before its cell is turned into world coordinates. */
  datatype Stop = Stop(x: int, y: int, yaw: real)

  /** The in-map cells among the `n` cells that start at (x, y) and step by (dx, dy). */
  function Walk(w: nat, h: nat, x: int, y: int, dx: int, dy: int, n: nat, yaw: real): seq<Stop>
    decreases n
  {
    if n == 0 then []
    else (if 0 <= x < w && 0 <= y < h then [Stop(x, y, yaw)] else []) + Walk(w, h, x + dx, y + dy, dx, dy, n - 1, yaw)
  }

  /** The four edges of ring `l`. */
  ghost function Ring(w: nat, h: nat, l: nat): seq<Stop> {
    var cx, cy, n := w / 2, h / 2, 2 * l + 1;
    Walk(w, h, cx - l, cy - l, 1, 0, n, 0.0) + Walk(w, h, cx + l, cy - l, 0, 1, n, PI / 2.0)
    + (Walk(w, h, cx + l, cy + l, -1, 0, n, PI) + Walk(w, h, cx - l, cy + l, 0, -1, n, -PI / 2.0))
  }

  /** Rings 1 to `l`. */
  ghost function Rings(w: nat, h: nat, l: nat): seq<Stop> {
    if l == 0 then [] else Rings(w, h, l - 1) + Ring(w, h, l)
  }

  function MaxLayer(w: nat, h: nat): nat {
    (if w >= h then w else h) / 2
  }

  ghost function Placed(grid: Map, s: seq<Stop>): seq<Waypoint> {
    seq(|s|, k requires 0 <= k < |s| => grid.At(s[k].x, s[k].y, s[k].yaw))
  }

  // ---------- _generate_spiral ----------

  method GenerateSpiral(grid: Map) returns (waypoints: seq<Waypoint>)
    ensures waypoints == Placed(grid, Rings(grid.width, grid.height, MaxLayer(grid.width, grid.height)))
  {
    hide Ring, Map.At;
    var centreX, centreY := grid.width / 2, grid.height / 2;
    waypoints := [];
    var layer := 1;
    var maxLayer := MaxLayer(grid.width, grid.height);
    while layer <= maxLayer
      invariant 1 <= layer <= maxLayer + 1
      invariant waypoints == Placed(grid, Rings(grid.width, grid.height, layer - 1))
    {
      var n := 2 * layer + 1;
      var top := DriveEdge(grid, centreX - layer, centreY - layer, 1, 0, n, 0.0);
      var right := DriveEdge(grid, centreX + layer, centreY - layer, 0, 1, n, PI / 2.0);
      var bottom := DriveEdge(grid, centreX + layer, centreY + layer, -1, 0, n, PI);
      var left := DriveEdge(grid, centreX - layer, centreY + layer, 0, -1, n, -PI / 2.0);
      RingPlaced(grid, layer, top, right, bottom, left);
      waypoints := waypoints + (top + right + (bottom + left));
      layer := layer + 1;
    }
  }

  lemma RingPlaced(grid: Map, l: nat, top: seq<Waypoint>, right: seq<Waypoint>, bottom: seq<Waypoint>,
                   left: seq<Waypoint>)
    requires var cx, cy, n := grid.width / 2, grid.height / 2, 2 * l + 1;
      && top == Placed(grid, Walk(grid.width, grid.height, cx - l, cy - l, 1, 0, n, 0.0))
      && right == Placed(grid, Walk(grid.width, grid.height, cx + l, cy - l, 0, 1, n, PI / 2.0))
      && bottom == Placed(grid, Walk(grid.width, grid.height, cx + l, cy + l, -1, 0, n, PI))
      && left == Placed(grid, Walk(grid.width, grid.height, cx - l, cy + l, 0, -1, n, -PI / 2.0))
    ensures top + right + (bottom + left) == Placed(grid, Ring(grid.width, grid.height, l))
  {
    hide Walk, Map.At;
  }

  /** One edge loop; cells off the map are skipped. */
  method DriveEdge(grid: Map, x0: int, y0: int, dx: int, dy: int, n: nat, yaw: real) returns (edge: seq<Waypoint>)
    ensures edge == Placed(grid, Walk(grid.width, grid.height, x0, y0, dx, dy, n, yaw))
  {
    hide Map.At, Walk, Placed;
    edge := [];
    var x, y, k := x0, y0, 0;
    while k < n
      invariant 0 <= k <= n
      invariant edge + Placed(grid, Walk(grid.width, grid.height, x, y, dx, dy, n - k, yaw))
             == Placed(grid, Walk(grid.width, grid.height, x0, y0, dx, dy, n, yaw))
    {
      PlacedStep(grid, x, y, dx, dy, n - k, yaw);
      if 0 <= x < grid.width && 0 <= y < grid.height {
        edge := edge + [grid.At(x, y, yaw)];
      }
      x, y, k := x + dx, y + dy, k + 1;
    }
    PlacedNothing(grid, x, y, dx, dy, yaw);
  }

  lemma PlacedNothing(grid: Map, x: int, y: int, dx: int, dy: int, yaw: real)
    ensures Placed(grid, Walk(grid.width, grid.height, x, y, dx, dy, 0, yaw)) == []
  {
    hide Map.At;
  }

  lemma PlacedStep(grid: Map, x: int, y: int, dx: int, dy: int, n: nat, yaw: real)
    requires n > 0
    ensures Placed(grid, Walk(grid.width, grid.height, x, y, dx, dy, n, yaw)) ==
      (if grid.Contains(x, y) then [grid.At(x, y, yaw)] else [])
      + Placed(grid, Walk(grid.width, grid.height, x + dx, y + dy, dx, dy, n - 1, yaw))
  {
    hide Map.At;
  }

  // ---------- how often each cell is visited ----------

  /** How many stops of `s` are at cell (x, y). */
  ghost function Times(s: seq<Stop>, x: int, y: int): nat {
    if s == [] then 0 else (if s[0].x == x && s[0].y == y then 1 else 0) + Times(s[1..], x, y)
  }

  lemma {:induction false} TimesConcat(s: seq<Stop>, t: seq<Stop>, x: int, y: int)
    ensures Times(s + t, x, y) == Times(s, x, y) + Times(t, x, y)
  {
    if s == [] {
      assert s + t == t;
    } else {
      assert (s + t)[1..] == s[1..] + t;
      TimesConcat(s[1..], t, x, y);
    }
  }

  lemma {:induction false} VisitedAtLeastOnce(s: seq<Stop>, k: nat)
    requires k < |s|
    ensures Times(s, s[k].x, s[k].y) >= 1
  {
    if k > 0 {
      VisitedAtLeastOnce(s[1..], k - 1);
    }
  }

  ghost predicate UnitStep(dx: int, dy: int) {
    (dx == 0 && (dy == 1 || dy == -1)) || (dy == 0 && (dx == 1 || dx == -1))
  }

  /** (cx, cy) is among the `n` cells that start at (x, y) and step by (dx, dy). */
  ghost predicate OnWalk(x: int, y: int, dx: int, dy: int, n: nat, cx: int, cy: int) {
    if dx == 1 then cy == y && x <= cx < x + n
    else if dx == -1 then cy == y && x - n < cx <= x
    else if dy == 1 then cx == x && y <= cy < y + n
    else cx == x && y - n < cy <= y
  }

  lemma {:induction false} WalkTimes(w: nat, h: nat, x: int, y: int, dx: int, dy: int, n: nat, yaw: real,
                                     cx: int, cy: int)
    requires UnitStep(dx, dy)
    ensures Times(Walk(w, h, x, y, dx, dy, n, yaw), cx, cy) ==
      if 0 <= cx < w && 0 <= cy < h && OnWalk(x, y, dx, dy, n, cx, cy) then 1 else 0
    decreases n
  {
    if n > 0 {
      WalkTimes(w, h, x + dx, y + dy, dx, dy, n - 1, yaw, cx, cy);
      var first := if 0 <= x < w && 0 <= y < h then [Stop(x, y, yaw)] else [];
      TimesConcat(first, Walk(w, h, x + dx, y + dy, dx, dy, n - 1, yaw), cx, cy);
    }
  }

  /** Chebyshev distance from the centre cell. */
  function Rank(w: nat, h: nat, x: int, y: int): nat {
    var dx, dy := Abs(x - w / 2), Abs(y - h / 2);
    if dx >= dy then dx else dy
  }

  ghost predicate IsCorner(w: nat, h: nat, x: int, y: int) {
    Abs(x - w / 2) == Abs(y - h / 2)
  }

  /** How often the whole spiral visits cell (x, y). */
  ghost function Due(w: nat, h: nat, x: int, y: int): nat {
    if 0 <= x < w && 0 <= y < h && Rank(w, h, x, y) > 0 then (if IsCorner(w, h, x, y) then 2 else 1) else 0
  }

  lemma RingTimes(w: nat, h: nat, l: nat, x: int, y: int)
    requires l >= 1
    ensures Times(Ring(w, h, l), x, y) == if Rank(w, h, x, y) == l then Due(w, h, x, y) else 0
  {
    hide Walk, Times;
    var cx, cy, n := w / 2, h / 2, 2 * l + 1;
    var top := Walk(w, h, cx - l, cy - l, 1, 0, n, 0.0);
    var right := Walk(w, h, cx + l, cy - l, 0, 1, n, PI / 2.0);
    var bottom := Walk(w, h, cx + l, cy + l, -1, 0, n, PI);
    var left := Walk(w, h, cx - l, cy + l, 0, -1, n, -PI / 2.0);
    TimesConcat(top, right, x, y);
    TimesConcat(bottom, left, x, y);
    TimesConcat(top + right, bottom + left, x, y);
    WalkTimes(w, h, cx - l, cy - l, 1, 0, n, 0.0, x, y);
    WalkTimes(w, h, cx + l, cy - l, 0, 1, n, PI / 2.0, x, y);
    WalkTimes(w, h, cx + l, cy + l, -1, 0, n, PI, x, y);
    WalkTimes(w, h, cx - l, cy + l, 0, -1, n, -PI / 2.0, x, y);
  }

  lemma {:induction false} RingsTimes(w: nat, h: nat, l: nat, x: int, y: int)
    ensures Times(Rings(w, h, l), x, y) == if 1 <= Rank(w, h, x, y) <= l then Due(w, h, x, y) else 0
  {
    if l > 0 {
      hide Ring, Due, Rank;
      RingsTimes(w, h, l - 1, x, y);
      RingTimes(w, h, l, x, y);
      TimesConcat(Rings(w, h, l - 1), Ring(w, h, l), x, y);
    }
  }

  ghost function SpiralStops(w: nat, h: nat): seq<Stop> {
    Rings(w, h, MaxLayer(w, h))
  }

  /** Every map cell but the centre is visited once, twice on the diagonals; nothing else is visited. */
  lemma SpiralVisits(w: nat, h: nat, x: int, y: int)
    ensures Times(SpiralStops(w, h), x, y) ==
      if !(0 <= x < w && 0 <= y < h) || (x == w / 2 && y == h / 2) then 0
      else if IsCorner(w, h, x, y) then 2 else 1
  {
    hide Times, Rings;
    RingsTimes(w, h, MaxLayer(w, h), x, y);
  }

  lemma {:induction false} RingsOutward(w: nat, h: nat, l: nat, i: nat, j: nat)
    requires i <= j < |Rings(w, h, l)|
    ensures var s := Rings(w, h, l);
      Rank(w, h, s[i].x, s[i].y) <= Rank(w, h, s[j].x, s[j].y) <= l
  {
    hide Ring, Due, Rank;
    var inner, ring := Rings(w, h, l - 1), Ring(w, h, l);
    if j < |inner| {
      RingsOutward(w, h, l - 1, i, j);
    } else {
      RingRank(w, h, l, j - |inner|);
      if i < |inner| {
        RingsOutward(w, h, l - 1, i, i);
      } else {
        RingRank(w, h, l, i - |inner|);
      }
    }
  }

  lemma RingRank(w: nat, h: nat, l: nat, k: nat)
    requires l >= 1 && k < |Ring(w, h, l)|
    ensures Rank(w, h, Ring(w, h, l)[k].x, Ring(w, h, l)[k].y) == l
  {
    hide Ring, Due, Rank;
    var stop := Ring(w, h, l)[k];
    VisitedAtLeastOnce(Ring(w, h, l), k);
    RingTimes(w, h, l, stop.x, stop.y);
  }

  /** The spiral runs outward: no stop is nearer the centre than an earlier one. */
  lemma SpiralOutward(w: nat, h: nat, i: nat, j: nat)
    requires i <= j < |SpiralStops(w, h)|
    ensures var s := SpiralStops(w, h); Rank(w, h, s[i].x, s[i].y) <= Rank(w, h, s[j].x, s[j].y)
  {
    RingsOutward(w, h, MaxLayer(w, h), i, j);
  }

  // ---------- headings ----------

  lemma {:induction false} WalkStop(w: nat, h: nat, x: int, y: int, dx: int, dy: int, n: nat, yaw: real, k: nat)
    requires UnitStep(dx, dy) && k < |Walk(w, h, x, y, dx, dy, n, yaw)|
    ensures var stop := Walk(w, h, x, y, dx, dy, n, yaw)[k];
      stop.yaw == yaw && OnWalk(x, y, dx, dy, n, stop.x, stop.y)
    decreases n
  {
    if 0 <= x < w && 0 <= y < h {
      if k > 0 {
        WalkStop(w, h, x + dx, y + dy, dx, dy, n - 1, yaw, k - 1);
      }
    } else {
      WalkStop(w, h, x + dx, y + dy, dx, dy, n - 1, yaw, k);
    }
  }

  /** Each stop of a ring heads along its edge: 0 on the first edge, then pi / 2, pi and -pi / 2. */
  lemma RingHeadings(w: nat, h: nat, l: nat, k: nat)
    requires k < |Ring(w, h, l)|
    ensures var stop := Ring(w, h, l)[k];
      || (stop.yaw == 0.0 && stop.y == h / 2 - l)
      || (stop.yaw == PI / 2.0 && stop.x == w / 2 + l)
      || (stop.yaw == PI && stop.y == h / 2 + l)
      || (stop.yaw == -PI / 2.0 && stop.x == w / 2 - l)
  {
    hide Walk;
    var cx, cy, n := w / 2, h / 2, 2 * l + 1;
    var top := Walk(w, h, cx - l, cy - l, 1, 0, n, 0.0);
    var right := Walk(w, h, cx + l, cy - l, 0, 1, n, PI / 2.0);
    var bottom := Walk(w, h, cx + l, cy + l, -1, 0, n, PI);
    if k < |top| {
      WalkStop(w, h, cx - l, cy - l, 1, 0, n, 0.0, k);
    } else if k < |top| + |right| {
      WalkStop(w, h, cx + l, cy - l, 0, 1, n, PI / 2.0, k - |top|);
    } else if k < |top| + |right| + |bottom| {
      WalkStop(w, h, cx + l, cy + l, -1, 0, n, PI, k - |top| - |right|);
    } else {
      WalkStop(w, h, cx - l, cy + l, 0, -1, n, -PI / 2.0, k - |top| - |right| - |bottom|);
    }
  }

  // ---------- how many waypoints there are ----------

  /** How many of the cells `from` .. `to` - 1 of a line lie in a map of `size` cells. */
  function Overlap(from: int, to: int, size: nat): nat {
    Max(0, Min(to, size) - Max(from, 0))
  }

  lemma {:induction false} WalkLength(w: nat, h: nat, x: int, y: int, dx: int, dy: int, n: nat, yaw: real)
    requires UnitStep(dx, dy)
    ensures |Walk(w, h, x, y, dx, dy, n, yaw)| ==
      if dx == 1 then (if 0 <= y < h then Overlap(x, x + n, w) else 0)
      else if dx == -1 then (if 0 <= y < h then Overlap(x - n + 1, x + 1, w) else 0)
      else if dy == 1 then (if 0 <= x < w then Overlap(y, y + n, h) else 0)
      else (if 0 <= x < w then Overlap(y - n + 1, y + 1, h) else 0)
    decreases n
  {
    if n > 0 {
      WalkLength(w, h, x + dx, y + dy, dx, dy, n - 1, yaw);
    }
  }

  /** Cells from the centre to the four borders of the map. */
  function West(w: nat): nat {
    w / 2
  }

  function East(w: nat): int {
    w - 1 - w / 2
  }

  /** Side of ring `l` and all it encloses, as far as it lies in a map of `size` cells. */
  function Side(size: nat, l: nat): int {
    Min(l, West(size)) + Min(l, East(size)) + 1
  }

  /** How many sides of ring `l` across an axis of `size` cells lie in the map. */
  function Reached(size: nat, l: nat): int {
    (if l <= West(size) then 1 else 0) + (if l <= East(size) then 1 else 0)
  }

  lemma EdgeOverlap(size: nat, l: nat)
    requires size >= 1
    ensures Overlap(size / 2 - l, size / 2 + l + 1, size) == Side(size, l)
    ensures 0 <= size / 2 - l < size <==> l <= West(size)
    ensures 0 <= size / 2 + l < size <==> l <= East(size)
  {
  }

  /** The two opposite sides of a ring have the same length, when they are in the map. */
  lemma OppositeSides(size: nat, l: nat, side: int)
    ensures (if l <= West(size) then side else 0) + (if l <= East(size) then side else 0) == Reached(size, l) * side
  {
  }

  lemma RingLength(w: nat, h: nat, l: nat)
    requires w >= 1 && h >= 1 && l >= 1
    ensures |Ring(w, h, l)| == Reached(h, l) * Side(w, l) + Reached(w, l) * Side(h, l)
  {
    hide Walk, Overlap, West, East, Side, Reached;
    var cx, cy, n := w / 2, h / 2, 2 * l + 1;
    WalkLength(w, h, cx - l, cy - l, 1, 0, n, 0.0);
    WalkLength(w, h, cx + l, cy - l, 0, 1, n, PI / 2.0);
    WalkLength(w, h, cx + l, cy + l, -1, 0, n, PI);
    WalkLength(w, h, cx - l, cy + l, 0, -1, n, -PI / 2.0);
    EdgeOverlap(w, l);
    EdgeOverlap(h, l);
    OppositeSides(w, l, Side(h, l));
    OppositeSides(h, l, Side(w, l));
  }

  /** In-map cells on the four diagonals of rings 1 to `l`. */
  function Corners(w: nat, h: nat, l: nat): int {
    Min(l, Min(West(w), West(h))) + Min(l, Min(West(w), East(h)))
    + Min(l, Min(East(w), West(h))) + Min(l, Min(East(w), East(h)))
  }

  function Block(w: nat, h: nat, l: nat): int {
    Side(w, l) * Side(h, l)
  }

  /** Ring `l` extends the block it encloses; its corners are stops of two edges. */
  lemma BlockGrows(w: nat, h: nat, l: nat)
    requires w >= 1 && h >= 1 && l >= 1
    ensures Block(w, h, l) - Block(w, h, l - 1) + Corners(w, h, l) - Corners(w, h, l - 1) ==
      Reached(h, l) * Side(w, l) + Reached(w, l) * Side(h, l)
  {
    var dw, dh := Reached(w, l), Reached(h, l);
    assert Side(w, l) == Side(w, l - 1) + dw && Side(h, l) == Side(h, l - 1) + dh;
    CornersGrow(w, h, l);
    ProductGrows(Side(w, l), Side(h, l), dw, dh);
  }

  lemma ProductGrows(a: int, b: int, da: int, db: int)
    ensures a * b - (a - da) * (b - db) + da * db == db * a + da * b
  {
  }

  lemma CornersGrow(w: nat, h: nat, l: nat)
    requires w >= 1 && h >= 1 && l >= 1
    ensures Corners(w, h, l) - Corners(w, h, l - 1) == Reached(w, l) * Reached(h, l)
  {
    hide West, East, Min;
    CornerGrows(l, West(w), West(h));
    CornerGrows(l, West(w), East(h));
    CornerGrows(l, East(w), West(h));
    CornerGrows(l, East(w), East(h));
  }

  lemma CornerGrows(l: nat, a: int, b: int)
    ensures Min(l, Min(a, b)) - Min(l - 1, Min(a, b)) == if l <= a && l <= b then 1 else 0
  {
  }

  lemma {:induction false} RingsLength(w: nat, h: nat, l: nat)
    requires w >= 1 && h >= 1
    ensures |Rings(w, h, l)| == Block(w, h, l) - 1 + Corners(w, h, l)
  {
    if l > 0 {
      hide Ring, Block, Corners, Side, Reached;
      RingsLength(w, h, l - 1);
      RingLength(w, h, l);
      BlockGrows(w, h, l);
    } else {
      assert Block(w, h, 0) == 1 && Corners(w, h, 0) == 0;
    }
  }

  /** The number of waypoints: every map cell but the centre, and the diagonals once more. */
  function StopCount(w: nat, h: nat): int {
    if w == 0 || h == 0 then 0
    else w * h - 1 + Min(West(w), West(h)) + Min(West(w), East(h)) + Min(East(w), West(h)) + Min(East(w), East(h))
  }

  lemma SpiralLength(w: nat, h: nat)
    ensures |SpiralStops(w, h)| == StopCount(w, h)
  {
    var l := MaxLayer(w, h);
    if w == 0 || h == 0 {
      hide Rings, Times;
      if |SpiralStops(w, h)| > 0 {
        var stop := SpiralStops(w, h)[0];
        VisitedAtLeastOnce(SpiralStops(w, h), 0);
        SpiralVisits(w, h, stop.x, stop.y);
      }
    } else {
      hide Rings;
      RingsLength(w, h, l);
      assert Side(w, l) == w && Side(h, l) == h;
    }
  }

  // ---------- when a spiral validates ----------

  lemma {:induction false} VisitWitness(s: seq<Stop>, x: int, y: int) returns (k: nat)
    requires Times(s, x, y) >= 1
    ensures k < |s| && s[k].x == x && s[k].y == y
  {
    if s[0].x == x && s[0].y == y {
      k := 0;
    } else {
      var i := VisitWitness(s[1..], x, y);
      k := i + 1;
    }
  }

  lemma CentreOnFreeCell(grid: Map, x: int, y: int, yaw: real)
    requires grid.Valid() && grid.Contains(x, y)
    ensures OnFreeCell(grid, grid.At(x, y, yaw)) <==> !grid.Blocked(x, y)
  {
    hide CellOf, CentreOf, Idx;
    MapWorldRoundTrip(x, grid.originX, grid.resolution);
    MapWorldRoundTrip(y, grid.originY, grid.resolution);
    IdxInRange(grid.width, grid.height, x, y);
  }

  /** No cell but the centre one is occupied or unknown. */
  ghost predicate OpenAround(grid: Map)
    requires grid.Valid()
  {
    forall x, y :: grid.Contains(x, y) && !(x == grid.width / 2 && y == grid.height / 2) ==> !grid.Blocked(x, y)
  }

  lemma SpiralFree(grid: Map)
    requires grid.Valid()
    ensures (forall k :: 0 <= k < |SpiralStops(grid.width, grid.height)| ==>
              OnFreeCell(grid, Placed(grid, SpiralStops(grid.width, grid.height))[k])) <==> OpenAround(grid)
  {
    hide OnFreeCell, Map.Blocked, SpiralStops, Times, Map.At, IsCorner;
    var s := SpiralStops(grid.width, grid.height);
    forall k | 0 <= k < |s|
      ensures grid.Contains(s[k].x, s[k].y) && !(s[k].x == grid.width / 2 && s[k].y == grid.height / 2)
      ensures OnFreeCell(grid, Placed(grid, s)[k]) <==> !grid.Blocked(s[k].x, s[k].y)
    {
      SpiralVisits(grid.width, grid.height, s[k].x, s[k].y);
      VisitedAtLeastOnce(s, k);
      CentreOnFreeCell(grid, s[k].x, s[k].y, s[k].yaw);
    }
    forall x, y | grid.Contains(x, y) && !(x == grid.width / 2 && y == grid.height / 2)
      ensures exists k :: 0 <= k < |s| && s[k].x == x && s[k].y == y
    {
      SpiralVisits(grid.width, grid.height, x, y);
      var k := VisitWitness(s, x, y);
    }
  }

  /**
   The generate_coverage command with the spiral pattern. The generator never looks at the occupancy,
   so the validator accepts exactly when the map has the right size and every cell but the centre is free.
   */
  method PlanAndValidateSpiral(grid: Map) returns (waypoints: seq<Waypoint>, v: Verdict)
    requires grid.Valid()
    ensures |waypoints| == StopCount(grid.width, grid.height)
    ensures v == Accepted <==> 2 <= StopCount(grid.width, grid.height) <= 1000 && OpenAround(grid)
    ensures v == TooFew <==> StopCount(grid.width, grid.height) < 2
    ensures v == TooMany <==> StopCount(grid.width, grid.height) > 1000
  {
    hide OnFreeCell, Rings, OpenAround, MaxLayer, StopCount;
    waypoints := GenerateSpiral(grid);
    SpiralFree(grid);
    SpiralLength(grid.width, grid.height);
    v := ValidateWaypoints(waypoints, grid);
  }

  /** The count is at least the cells but the centre, so no map of more than 1001 cells can be accepted. */
  lemma LargeMapsRejected(w: nat, h: nat)
    requires w * h > 1001
    ensures StopCount(w, h) > 1000
  {
    assert w == 0 || h == 0 ==> w * h == 0;
  }

  /** A map of 32 by 30 cells is rejected although it has fewer than 1000, however free it is. */
  lemma MapOf960CellsRejected(grid: Map)
    requires grid.Valid() && grid.width == 32 && grid.height == 30
    ensures StopCount(grid.width, grid.height) == 1017
  {
  }
}
