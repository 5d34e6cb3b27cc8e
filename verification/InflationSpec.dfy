/** Inflation of a whole grid as a function of the grid: seeds, brushfire, and painting. */
module InflationSpec {
  import opened CostValues
  import opened Arithmetic
  import opened GridIndex
  import opened DistanceRank
  import opened Brushfire

  /**
   What computeCost depends on. `decay` is the exponential fall-off as a function of the squared cell
   distance, the resolution and the inscribed radius; only its values beyond that radius are used.
   */
  datatype CostParams = CostParams(resolution: real, inscribedRadius: real, decay: (int, real, real) -> real) {
    /** The fall-off factor under the current resolution and radius. */
    function Factor(d: int): real {
      decay(d, resolution, inscribedRadius)
    }
  }

  /** Beyond the inscribed radius the factor lies in [0, 1], and it never rises with distance. */
  ghost predicate ValidDecay(decay: (int, real, real) -> real) {
    && (forall d, res, radius :: !Inscribed(d, res, radius) ==> 0.0 <= decay(d, res, radius) <= 1.0)
    && (forall d, d', res, radius :: d <= d' ==> decay(d, res, radius) >= decay(d', res, radius))
  }

  ghost predicate ValidParams(p: CostParams) {
    && p.resolution > 0.0 && p.inscribedRadius >= 0.0
    && ValidDecay(p.decay)
  }

  /** The cell at squared distance `d` lies within the inscribed radius. */
  predicate Inscribed(d: int, resolution: real, radius: real) {
    d as real * (resolution * resolution) <= radius * radius
  }

  /** InflationLayer::computeCost, on the squared distance. */
  function ComputeCost(p: CostParams, d: int): (c: Cost)
    requires ValidParams(p)
    ensures c == LETHAL_OBSTACLE <==> d == 0
    ensures c == INSCRIBED_INFLATED_OBSTACLE <==> d != 0 && Inscribed(d, p.resolution, p.inscribedRadius)
    ensures d != 0 && !Inscribed(d, p.resolution, p.inscribedRadius) ==>
      c as real <= 252.0 * p.Factor(d) < c as real + 1.0
    ensures c <= LETHAL_OBSTACLE
  {
    if d == 0 then LETHAL_OBSTACLE
    else if Inscribed(d, p.resolution, p.inscribedRadius) then INSCRIBED_INFLATED_OBSTACLE
    else (252.0 * p.Factor(d)).Floor
  }

  /** In lengths: a cell at distance `t` cells is inscribed when `t` times the resolution is within the radius. */
  lemma InscribedMeans(d: int, t: real, resolution: real, radius: real)
    requires t >= 0.0 && t * t == d as real && resolution > 0.0 && radius >= 0.0
    ensures Inscribed(d, resolution, radius) <==> t * resolution <= radius
  {
    ScaleLe(0.0, t, resolution);
    RootLe(t * resolution, radius);
    assert (t * resolution) * (t * resolution) == (t * t) * (resolution * resolution);
  }

  lemma InscribedDownward(p: CostParams, d: int, d': int)
    requires ValidParams(p) && d <= d' && Inscribed(d', p.resolution, p.inscribedRadius)
    ensures Inscribed(d, p.resolution, p.inscribedRadius)
  {
    ScaleLe(d as real, d' as real, p.resolution * p.resolution);
  }

  /** Cost never rises with distance. */
  lemma CostAntitone(p: CostParams, d: int, d': int)
    requires ValidParams(p) && 0 <= d <= d'
    ensures ComputeCost(p, d) >= ComputeCost(p, d')
  {
    if d' != 0 && Inscribed(d', p.resolution, p.inscribedRadius) {
      InscribedDownward(p, d, d');
    }
  }

  /** Parameters of one inflation pass. */
  datatype Config = Config(field: Field, cost: CostParams, inflateUnknown: bool, aroundUnknown: bool)

  datatype Box = Box(minI: int, minJ: int, maxI: int, maxJ: int) {
    predicate Contains(x: int, y: int) {
      minI <= x < maxI && minJ <= y < maxJ
    }
  }

  /** The update box grown by the inflation radius and clipped to the grid. */
  function Window(g: Field, box: Box): Box {
    Box(Max(0, box.minI - g.radius), Max(0, box.minJ - g.radius),
        Min(g.sizeX, box.maxI + g.radius), Min(g.sizeY, box.maxJ + g.radius))
  }

  predicate IsSeed(aroundUnknown: bool, c: Cost) {
    c == LETHAL_OBSTACLE || (aroundUnknown && c == NO_INFORMATION)
  }

  ghost predicate Fits(g: Field, a: seq<Cost>) {
    |a| == g.Area()
  }

  ghost predicate InWindow(g: Field, win: Box) {
    0 <= win.minI && win.maxI <= g.sizeX && 0 <= win.minJ && win.maxJ <= g.sizeY
  }

  lemma WindowInGrid(g: Field, box: Box)
    ensures InWindow(g, Window(g, box))
  {
  }

  /** The seed cells in scan order from (i, j): rows upwards, each row left to right. */
  function SeedScan(cfg: Config, win: Box, a: seq<Cost>, i: int, j: int): seq<Cell>
    requires Fits(cfg.field, a) && InWindow(cfg.field, win) && win.minI <= i && win.minJ <= j
    decreases win.maxJ - j, win.maxI - i
  {
    if j >= win.maxJ then []
    else if i >= win.maxI then SeedScan(cfg, win, a, win.minI, j + 1)
    else
      SeedAt(cfg, a, i, j) + SeedScan(cfg, win, a, i + 1, j)
  }

  function SeedAt(cfg: Config, a: seq<Cost>, i: int, j: int): seq<Cell>
    requires Fits(cfg.field, a) && 0 <= i < cfg.field.sizeX && 0 <= j < cfg.field.sizeY
  {
    IdxInRange(cfg.field.sizeX, cfg.field.sizeY, i, j);
    var k := Idx(cfg.field.sizeX, i, j);
    if IsSeed(cfg.aroundUnknown, a[k]) then [Cell(k, i, j, i, j)] else []
  }

  ghost predicate SeedHere(cfg: Config, a: seq<Cost>, x: int, y: int)
  {
    && Fits(cfg.field, a) && 0 <= x < cfg.field.sizeX && 0 <= y < cfg.field.sizeY
    && 0 <= Idx(cfg.field.sizeX, x, y) < |a|
    && IsSeed(cfg.aroundUnknown, a[Idx(cfg.field.sizeX, x, y)])
  }

  /** The positions of all seeds inside the window. */
  ghost function SeedSet(cfg: Config, win: Box, a: seq<Cost>): set<(int, int)> {
    set x, y | win.minI <= x < win.maxI && win.minJ <= y < win.maxJ && SeedHere(cfg, a, x, y) :: (x, y)
  }

  /** Position (x, y) is scanned at or after (i, j). */
  predicate ScannedFrom(win: Box, i: int, j: int, x: int, y: int) {
    win.Contains(x, y) && (y > j || (y == j && x >= i))
  }

  /** Everything the scan lists is a seed of the window, attributed to itself. */
  lemma {:induction false} ScanListsSeeds(cfg: Config, win: Box, a: seq<Cost>, i: int, j: int, c: Cell)
    requires Fits(cfg.field, a) && InWindow(cfg.field, win) && win.minI <= i && win.minJ <= j
    requires c in SeedScan(cfg, win, a, i, j)
    ensures c == Cell(Idx(cfg.field.sizeX, c.x, c.y), c.x, c.y, c.x, c.y)
    ensures win.Contains(c.x, c.y) && SeedHere(cfg, a, c.x, c.y)
    decreases win.maxJ - j, win.maxI - i
  {
    if i >= win.maxI {
      ScanListsSeeds(cfg, win, a, win.minI, j + 1, c);
    } else if c in SeedAt(cfg, a, i, j) {
      IdxInRange(cfg.field.sizeX, cfg.field.sizeY, i, j);
    } else {
      hide SeedAt, Idx;
      ScanListsSeeds(cfg, win, a, i + 1, j, c);
    }
  }

  /** Every seed of the window still ahead is listed. */
  lemma {:induction false} ScanMissesNone(cfg: Config, win: Box, a: seq<Cost>, i: int, j: int, x: int, y: int)
    requires Fits(cfg.field, a) && InWindow(cfg.field, win) && win.minI <= i && win.minJ <= j
    requires ScannedFrom(win, i, j, x, y) && SeedHere(cfg, a, x, y)
    ensures Cell(Idx(cfg.field.sizeX, x, y), x, y, x, y) in SeedScan(cfg, win, a, i, j)
    decreases win.maxJ - j, win.maxI - i
  {
    hide SeedAt, Idx, Field.Area, IsSeed, SeedHere;
    if i >= win.maxI {
      ScanMissesNone(cfg, win, a, win.minI, j + 1, x, y);
    } else if x == i && y == j {
      SeedAtLists(cfg, a, x, y);
    } else {
      ScanMissesNone(cfg, win, a, i + 1, j, x, y);
    }
  }

  lemma SeedAtLists(cfg: Config, a: seq<Cost>, x: int, y: int)
    requires SeedHere(cfg, a, x, y)
    ensures Cell(Idx(cfg.field.sizeX, x, y), x, y, x, y) in SeedAt(cfg, a, x, y)
  {
  }

  lemma SeedCellsMatch(cfg: Config, box: Box, a: seq<Cost>)
    requires Fits(cfg.field, a)
    ensures var win := Window(cfg.field, box);
      InWindow(cfg.field, win) &&
      AreSeedCells(cfg.field, SeedSet(cfg, win, a), SeedScan(cfg, win, a, win.minI, win.minJ))
  {
    WindowInGrid(cfg.field, box);
    var win := Window(cfg.field, box);
    var seeds, cells := SeedSet(cfg, win, a), SeedScan(cfg, win, a, win.minI, win.minJ);
    forall k | 0 <= k < |cells|
      ensures InGrid(cfg.field, cells[k]) && cells[k].x == cells[k].srcX && cells[k].y == cells[k].srcY
      ensures (cells[k].x, cells[k].y) in seeds
    {
      ScanListsSeeds(cfg, win, a, win.minI, win.minJ, cells[k]);
    }
    forall x, y | (x, y) in seeds
      ensures Cell(Idx(cfg.field.sizeX, x, y), x, y, x, y) in cells
    {
      ScanMissesNone(cfg, win, a, win.minI, win.minJ, x, y);
    }
  }

  /** The cells one pass processes, in order, when the grid holds `a` at its start. */
  ghost function Processed(cfg: Config, box: Box, a: seq<Cost>): seq<Cell>
    requires Fits(cfg.field, a)
  {
    SeedCellsMatch(cfg, box, a);
    var win := Window(cfg.field, box);
    Burned(cfg.field, SeedSet(cfg, win, a), SeedScan(cfg, win, a, win.minI, win.minJ))
  }

  /** The new value of a cell of value `prior` that the fire reaches at cost `cost`. */
  function Blend(inflateUnknown: bool, prior: Cost, cost: Cost): Cost {
    if prior == NO_INFORMATION && (if inflateUnknown then cost > FREE_SPACE else cost >= INSCRIBED_INFLATED_OBSTACLE)
    then cost
    else if prior >= cost then prior else cost
  }

  function CostAt(cfg: Config, c: Cell): Cost
    requires ValidParams(cfg.cost)
  {
    ComputeCost(cfg.cost, c.DistSq())
  }

  /** Paints one processed cell, if it lies inside the update box. */
  function PaintCell(cfg: Config, box: Box, a: seq<Cost>, c: Cell): seq<Cost>
    requires ValidParams(cfg.cost) && 0 <= c.index < |a|
  {
    if box.Contains(c.x, c.y) then a[c.index := Blend(cfg.inflateUnknown, a[c.index], CostAt(cfg, c))] else a
  }

  function PaintAll(cfg: Config, box: Box, a: seq<Cost>, done: seq<Cell>): (b: seq<Cost>)
    requires ValidParams(cfg.cost)
    requires forall k :: 0 <= k < |done| ==> 0 <= done[k].index < |a|
    ensures |b| == |a|
  {
    if done == [] then a
    else PaintCell(cfg, box, PaintAll(cfg, box, a, done[..|done| - 1]), done[|done| - 1])
  }

  ghost predicate DistinctIndices(done: seq<Cell>) {
    forall j, k :: 0 <= j < k < |done| ==> done[j].index != done[k].index
  }

  /** A cell that no processed cell of the box names keeps its value. */
  lemma {:induction false} PaintMisses(cfg: Config, box: Box, a: seq<Cost>, done: seq<Cell>, i: int)
    requires ValidParams(cfg.cost) && 0 <= i < |a|
    requires forall k :: 0 <= k < |done| ==> 0 <= done[k].index < |a|
    requires forall k :: 0 <= k < |done| ==> done[k].index != i || !box.Contains(done[k].x, done[k].y)
    ensures PaintAll(cfg, box, a, done)[i] == a[i]
  {
    if done != [] {
      PaintMisses(cfg, box, a, done[..|done| - 1], i);
    }
  }

  /** A processed cell of the box is blended once with its own cost. */
  lemma {:induction false} PaintHits(cfg: Config, box: Box, a: seq<Cost>, done: seq<Cell>, k: int)
    requires ValidParams(cfg.cost) && DistinctIndices(done) && 0 <= k < |done|
    requires forall k :: 0 <= k < |done| ==> 0 <= done[k].index < |a|
    requires box.Contains(done[k].x, done[k].y)
    ensures PaintAll(cfg, box, a, done)[done[k].index] ==
      Blend(cfg.inflateUnknown, a[done[k].index], CostAt(cfg, done[k]))
  {
    hide ComputeCost, Cell.DistSq;
    var n := |done| - 1;
    if k == n {
      PaintMisses(cfg, box, a, done[..n], done[k].index);
    } else {
      PaintHits(cfg, box, a, done[..n], k);
    }
  }

  lemma ProcessedOk(cfg: Config, box: Box, a: seq<Cost>)
    requires Fits(cfg.field, a)
    ensures var done := Processed(cfg, box, a);
      && (forall k :: 0 <= k < |done| ==>
            CellOk(cfg.field, SeedSet(cfg, Window(cfg.field, box), a), done[k]) && 0 <= done[k].index < |a|)
      && DistinctIndices(done) && InDistanceOrder(done)
  {
    SeedCellsMatch(cfg, box, a);
    var win := Window(cfg.field, box);
    BurnedSound(cfg.field, SeedSet(cfg, win, a), SeedScan(cfg, win, a, win.minI, win.minJ));
  }

  /** The grid after one pass over `box`. */
  ghost function Inflated(cfg: Config, box: Box, a: seq<Cost>): (b: seq<Cost>)
    requires ValidParams(cfg.cost) && Fits(cfg.field, a)
    ensures |b| == |a|
  {
    ProcessedOk(cfg, box, a);
    PaintAll(cfg, box, a, Processed(cfg, box, a))
  }

  // ---------- properties of one pass ----------

  /** Two grids with the same seeds burn alike. */
  lemma {:induction false} SameSeedsSameScan(cfg: Config, win: Box, a: seq<Cost>, b: seq<Cost>, i: int, j: int)
    requires Fits(cfg.field, a) && Fits(cfg.field, b)
    requires InWindow(cfg.field, win) && win.minI <= i && win.minJ <= j
    requires forall x, y :: win.Contains(x, y) ==> (SeedHere(cfg, a, x, y) <==> SeedHere(cfg, b, x, y))
    ensures SeedScan(cfg, win, a, i, j) == SeedScan(cfg, win, b, i, j)
    decreases win.maxJ - j, win.maxI - i
  {
    hide SeedAt, SeedHere, Idx, Field.Area;
    if j >= win.maxJ {
    } else if i >= win.maxI {
      SameSeedsSameScan(cfg, win, a, b, win.minI, j + 1);
    } else {
      assert win.Contains(i, j);
      assert SeedHere(cfg, a, i, j) <==> SeedHere(cfg, b, i, j);
      SameSeedAt(cfg, a, b, i, j);
      SameSeedsSameScan(cfg, win, a, b, i + 1, j);
    }
  }

  lemma SameSeedAt(cfg: Config, a: seq<Cost>, b: seq<Cost>, i: int, j: int)
    requires Fits(cfg.field, a) && Fits(cfg.field, b) && 0 <= i < cfg.field.sizeX && 0 <= j < cfg.field.sizeY
    requires SeedHere(cfg, a, i, j) <==> SeedHere(cfg, b, i, j)
    ensures SeedAt(cfg, a, i, j) == SeedAt(cfg, b, i, j)
  {
    IdxInRange(cfg.field.sizeX, cfg.field.sizeY, i, j);
  }
}
