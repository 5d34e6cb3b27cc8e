/**
 The bucketed brushfire of the inflation layer as a pure process: cells wait in bins ordered by
 squared distance to the seed that reached them, and each grid cell is processed at most once.
 Bins are read live: a bin may be appended to while the scan is under way.
 */
module Brushfire {
  import opened GridIndex
  import opened DistanceRank

  /** CellData: a grid cell together with the seed it was reached from. */
  datatype Cell = Cell(index: int, x: int, y: int, srcX: int, srcY: int) {
    function DistSq(): int {
      NormSq(x - srcX, y - srcY)
    }
  }

  /** Grid size and inflation radius, in cells. */
  datatype Field = Field(sizeX: nat, sizeY: nat, radius: nat) {
    function Area(): int {
      sizeX * sizeY
    }

    function RadiusSq(): int {
      radius * radius
    }
  }

  ghost function Level(g: Field, d: nat): nat {
    Rank(g.radius + 2, d)
  }

  ghost function NumBins(g: Field): nat
  {
    SquareNonneg(g.radius + 2);
    Rank(g.radius + 2, (g.radius + 2) * (g.radius + 2)) + 1
  }

  ghost predicate InGrid(g: Field, c: Cell) {
    && 0 <= c.x < g.sizeX && 0 <= c.y < g.sizeY
    && c.index == Idx(g.sizeX, c.x, c.y) && 0 <= c.index < g.Area()
  }

  /** A cell of the grid reached from a seed of `seeds` within the inflation radius. */
  ghost predicate CellOk(g: Field, seeds: set<(int, int)>, c: Cell) {
    && InGrid(g, c)
    && (c.srcX, c.srcY) in seeds
    && 0 <= c.DistSq() <= g.RadiusSq()
  }

  lemma RadiusInDisc(g: Field, dx: int, dy: int)
    requires NormSq(dx, dy) <= g.RadiusSq()
    ensures InDisc(g.radius + 2, dx, dy)
    ensures IsDist(g.radius + 2, NormSq(dx, dy))
  {
    OffsetBound(g.radius, dx, dy);
    SquareMonotone(g.radius, g.radius + 2);
  }

  /** Every distance the fire may enqueue has a bin of its own. */
  lemma LevelInBins(g: Field, d: nat)
    requires d <= g.RadiusSq()
    ensures Level(g, d) < NumBins(g)
  {
    SquareMonotone(g.radius, g.radius + 2);
    RankMonotone(g.radius + 2, d, (g.radius + 2) * (g.radius + 2));
  }

  /** The waiting bins, the `seen_` flags and, in order, the cells processed so far. */
  datatype Fire = Fire(bins: seq<seq<Cell>>, seen: seq<bool>, done: seq<Cell>)

  ghost predicate BinsOk(g: Field, seeds: set<(int, int)>, bins: seq<seq<Cell>>) {
    && |bins| == NumBins(g)
    && forall b, k :: 0 <= b < |bins| && 0 <= k < |bins[b]| ==>
      CellOk(g, seeds, bins[b][k]) && Level(g, bins[b][k].DistSq()) == b
  }

  ghost predicate DoneOk(g: Field, seeds: set<(int, int)>, seen: seq<bool>, done: seq<Cell>) {
    && |seen| == g.Area()
    && (forall k :: 0 <= k < |done| ==> CellOk(g, seeds, done[k]) && seen[done[k].index])
    && (forall i :: 0 <= i < |seen| && seen[i] ==> exists k :: 0 <= k < |done| && done[k].index == i)
    && (forall j, k :: 0 <= j < k < |done| ==> done[j].index != done[k].index)
  }

  ghost predicate FireOk(g: Field, seeds: set<(int, int)>, f: Fire) {
    BinsOk(g, seeds, f.bins) && DoneOk(g, seeds, f.seen, f.done)
  }

  /** The neighbour of `c` one step away, still attributed to the seed of `c`. */
  function Neighbour(g: Field, c: Cell, ex: int, ey: int): Cell {
    Cell(Idx(g.sizeX, c.x + ex, c.y + ey), c.x + ex, c.y + ey, c.srcX, c.srcY)
  }

  predicate StepInGrid(g: Field, c: Cell, ex: int, ey: int) {
    0 <= c.x + ex < g.sizeX && 0 <= c.y + ey < g.sizeY
  }

  /** InflationLayer::enqueue: the bins after offering cell `n`, unless it is seen or out of range. */
  ghost function Offer(g: Field, bins: seq<seq<Cell>>, seen: seq<bool>, n: Cell): seq<seq<Cell>>
    requires 0 <= n.index < |seen| && |bins| == NumBins(g) && 0 <= n.DistSq()
  {
    if !seen[n.index] && n.DistSq() <= g.RadiusSq() then
      LevelInBins(g, n.DistSq());
      var b := Level(g, n.DistSq());
      bins[b := bins[b] + [n]]
    else bins
  }

  /** Offers the neighbour of `c` at (ex, ey) when there is one. */
  ghost function EnqueueStep(g: Field, seeds: set<(int, int)>, f: Fire, c: Cell, ex: int, ey: int): (f': Fire)
    requires FireOk(g, seeds, f) && CellOk(g, seeds, c)
    requires (ex, ey) in {(1, 0), (-1, 0), (0, 1), (0, -1)}
    ensures FireOk(g, seeds, f')
    ensures f'.seen == f.seen && f'.done == f.done
    // the bin of `c`, which is the one being scanned, never grows
    ensures Level(g, c.DistSq()) < |f.bins| && f'.bins[Level(g, c.DistSq())] == f.bins[Level(g, c.DistSq())]
    ensures forall b :: 0 <= b < |f.bins| ==> f.bins[b] <= f'.bins[b]
  {
    LevelInBins(g, c.DistSq());
    if StepInGrid(g, c, ex, ey) then
      var n := Neighbour(g, c, ex, ey);
      IdxInRange(g.sizeX, g.sizeY, n.x, n.y);
      SquareNonneg(n.x - n.srcX);
      SquareNonneg(n.y - n.srcY);
      if n.DistSq() <= g.RadiusSq() then
        NeighbourChangesLevel(g, c, ex, ey);
        LevelInBins(g, n.DistSq());
        f.(bins := Offer(g, f.bins, f.seen, n))
      else f.(bins := Offer(g, f.bins, f.seen, n))
    else f
  }

  lemma NeighbourChangesLevel(g: Field, c: Cell, ex: int, ey: int)
    requires (ex, ey) in {(1, 0), (-1, 0), (0, 1), (0, -1)}
    requires 0 <= c.DistSq() <= g.RadiusSq()
    requires 0 <= Neighbour(g, c, ex, ey).DistSq() <= g.RadiusSq()
    ensures Level(g, Neighbour(g, c, ex, ey).DistSq()) != Level(g, c.DistSq())
  {
    hide NormSq, Rank, Idx, InDisc, IsDist, Field.RadiusSq;
    var dx, dy := c.x - c.srcX, c.y - c.srcY;
    UnitStepChangesParity(dx, dy, ex, ey);
    assert c.x + ex - c.srcX == dx + ex && c.y + ey - c.srcY == dy + ey;
    RadiusInDisc(g, dx, dy);
    RadiusInDisc(g, dx + ex, dy + ey);
    assert Neighbour(g, c, ex, ey).DistSq() == NormSq(dx + ex, dy + ey);
    RankIsomorphism(g.radius + 2, dx, dy, dx + ex, dy + ey);
  }

  /** One step of the scan: skip a seen cell, otherwise process it and offer its four neighbours. */
  ghost function Visit(g: Field, seeds: set<(int, int)>, f: Fire, c: Cell): (f': Fire)
    requires FireOk(g, seeds, f) && CellOk(g, seeds, c)
    ensures FireOk(g, seeds, f')
    ensures Level(g, c.DistSq()) < |f.bins| && f'.bins[Level(g, c.DistSq())] == f.bins[Level(g, c.DistSq())]
    ensures forall b :: 0 <= b < |f.bins| ==> f.bins[b] <= f'.bins[b]
  {
    LevelInBins(g, c.DistSq());
    if f.seen[c.index] then f
    else
      MarkKeeps(g, seeds, f, c);
      var f0 := Mark(f, c);
      var f1 := EnqueueStep(g, seeds, f0, c, -1, 0);
      var f2 := EnqueueStep(g, seeds, f1, c, 0, -1);
      var f3 := EnqueueStep(g, seeds, f2, c, 1, 0);
      EnqueueStep(g, seeds, f3, c, 0, 1)
  }

  function Mark(f: Fire, c: Cell): Fire
    requires 0 <= c.index < |f.seen|
  {
    Fire(f.bins, f.seen[c.index := true], f.done + [c])
  }

  lemma MarkKeeps(g: Field, seeds: set<(int, int)>, f: Fire, c: Cell)
    requires FireOk(g, seeds, f) && CellOk(g, seeds, c) && !f.seen[c.index]
    ensures FireOk(g, seeds, Mark(f, c))
  {
    var f' := Mark(f, c);
    forall i | 0 <= i < |f'.seen| && f'.seen[i]
      ensures exists k :: 0 <= k < |f'.done| && f'.done[k].index == i
    {
      if i == c.index {
        assert f'.done[|f.done|].index == i;
      } else {
        var k :| 0 <= k < |f.done| && f.done[k].index == i;
        assert f'.done[k].index == i;
      }
    }
  }

  /** The inner loop: scan bin `lvl` from position `i` to its live end. */
  ghost function ScanBin(g: Field, seeds: set<(int, int)>, lvl: nat, i: nat, f: Fire): (f': Fire)
    requires FireOk(g, seeds, f) && lvl < |f.bins| && i <= |f.bins[lvl]|
    ensures FireOk(g, seeds, f')
    decreases |f.bins[lvl]| - i
  {
    if i == |f.bins[lvl]| then f
    else ScanBin(g, seeds, lvl, i + 1, Visit(g, seeds, f, f.bins[lvl][i]))
  }

  /** The outer loop: scan the bins in order of distance. */
  ghost function Burn(g: Field, seeds: set<(int, int)>, lvl: nat, f: Fire): (f': Fire)
    requires FireOk(g, seeds, f) && lvl <= |f.bins|
    ensures FireOk(g, seeds, f')
    decreases |f.bins| - lvl
  {
    if lvl == |f.bins| then f else Burn(g, seeds, lvl + 1, ScanBin(g, seeds, lvl, 0, f))
  }

  // ---------- what one scan does ----------

  lemma VisitFacts(g: Field, seeds: set<(int, int)>, f: Fire, c: Cell)
    requires FireOk(g, seeds, f) && CellOk(g, seeds, c)
    ensures var f' := Visit(g, seeds, f, c);
      && f'.seen == f.seen[c.index := true]
      && f'.done == (if f.seen[c.index] then f.done else f.done + [c])
  {
  }

  /** A scan extends the list of processed cells. */
  lemma {:induction false} ScanExtends(g: Field, seeds: set<(int, int)>, lvl: nat, i: nat, f: Fire)
    requires FireOk(g, seeds, f) && lvl < |f.bins| && i <= |f.bins[lvl]|
    ensures f.done <= ScanBin(g, seeds, lvl, i, f).done
    decreases |f.bins[lvl]| - i
  {
    hide NormSq, Idx, Rank, Visit, EnqueueStep;
    if i < |f.bins[lvl]| {
      var f1 := Visit(g, seeds, f, f.bins[lvl][i]);
      VisitFacts(g, seeds, f, f.bins[lvl][i]);
      ScanExtends(g, seeds, lvl, i + 1, f1);
    }
  }

  /** A scan only adds processed cells of its own level. */
  lemma {:induction false} ScanDone(g: Field, seeds: set<(int, int)>, lvl: nat, i: nat, f: Fire)
    requires FireOk(g, seeds, f) && lvl < |f.bins| && i <= |f.bins[lvl]|
    ensures f.done <= ScanBin(g, seeds, lvl, i, f).done
    ensures forall c :: c in ScanBin(g, seeds, lvl, i, f).done[|f.done|..] ==> Level(g, c.DistSq()) == lvl
    decreases |f.bins[lvl]| - i
  {
    hide NormSq, Idx, Rank, Visit, EnqueueStep, CellOk, DoneOk;
    ScanExtends(g, seeds, lvl, i, f);
    if i < |f.bins[lvl]| {
      var c := f.bins[lvl][i];
      var f1 := Visit(g, seeds, f, c);
      VisitFacts(g, seeds, f, c);
      ScanDone(g, seeds, lvl, i + 1, f1);
      var done := ScanBin(g, seeds, lvl, i + 1, f1).done;
      assert done[|f.done|..] == f1.done[|f.done|..] + done[|f1.done|..];
    }
  }

  lemma SeenSize(g: Field, seeds: set<(int, int)>, f: Fire)
    requires FireOk(g, seeds, f)
    ensures |f.seen| == g.Area()
    ensures forall b, k :: 0 <= b < |f.bins| && 0 <= k < |f.bins[b]| ==> 0 <= f.bins[b][k].index < g.Area()
  {
    hide NormSq, Idx, Rank;
  }

  /** A scan leaves no cell of its bin unseen and forgets none. */
  lemma {:induction false} ScanSeen(g: Field, seeds: set<(int, int)>, lvl: nat, i: nat, f: Fire)
    requires FireOk(g, seeds, f) && lvl < |f.bins| && i <= |f.bins[lvl]|
    ensures forall k :: 0 <= k < |f.seen| && f.seen[k] ==> ScanBin(g, seeds, lvl, i, f).seen[k]
    ensures forall c :: c in f.bins[lvl][i..] ==> ScanBin(g, seeds, lvl, i, f).seen[c.index]
    decreases |f.bins[lvl]| - i
  {
    hide NormSq, Idx, Rank, Visit, EnqueueStep, CellOk, DoneOk;
    if i < |f.bins[lvl]| {
      var c := f.bins[lvl][i];
      var f1 := Visit(g, seeds, f, c);
      VisitFacts(g, seeds, f, c);
      SeenSize(g, seeds, f);
      SeenSize(g, seeds, f1);
      ScanSeen(g, seeds, lvl, i + 1, f1);
      assert f.bins[lvl][i..] == [c] + f1.bins[lvl][i + 1..];
    }
  }

  /** Cells are processed in non-decreasing distance to their own seed. */
  ghost predicate InDistanceOrder(done: seq<Cell>) {
    forall j, k :: 0 <= j < k < |done| ==> done[j].DistSq() <= done[k].DistSq()
  }

  ghost predicate DoneBelow(g: Field, done: seq<Cell>, lvl: nat) {
    forall k :: 0 <= k < |done| ==> 0 <= done[k].DistSq() && Level(g, done[k].DistSq()) < lvl
  }

  lemma {:induction false} BurnOrder(g: Field, seeds: set<(int, int)>, lvl: nat, f: Fire)
    requires FireOk(g, seeds, f) && lvl <= |f.bins|
    requires InDistanceOrder(f.done) && DoneBelow(g, f.done, lvl)
    ensures InDistanceOrder(Burn(g, seeds, lvl, f).done)
    ensures f.done <= Burn(g, seeds, lvl, f).done
    decreases |f.bins| - lvl
  {
    hide NormSq, Idx, Visit, ScanBin;
    if lvl < |f.bins| {
      var f1 := ScanBin(g, seeds, lvl, 0, f);
      ScanDone(g, seeds, lvl, 0, f);
      ScanKeepsOrder(g, seeds, lvl, f, f1);
      BurnOrder(g, seeds, lvl + 1, f1);
    }
  }

  lemma ScanKeepsOrder(g: Field, seeds: set<(int, int)>, lvl: nat, f: Fire, f1: Fire)
    requires FireOk(g, seeds, f) && FireOk(g, seeds, f1)
    requires InDistanceOrder(f.done) && DoneBelow(g, f.done, lvl) && f.done <= f1.done
    requires forall c :: c in f1.done[|f.done|..] ==> Level(g, c.DistSq()) == lvl
    ensures InDistanceOrder(f1.done) && DoneBelow(g, f1.done, lvl + 1)
  {
    hide NormSq, Idx, Rank, Field.Area, Field.RadiusSq;
    forall j, k | 0 <= j < k < |f1.done|
      ensures f1.done[j].DistSq() <= f1.done[k].DistSq()
    {
      var a, b := f1.done[j], f1.done[k];
      if k >= |f.done| {
        RadiusInDisc(g, a.x - a.srcX, a.y - a.srcY);
        RadiusInDisc(g, b.x - b.srcX, b.y - b.srcY);
        RankIsomorphism(g.radius + 2, a.x - a.srcX, a.y - a.srcY, b.x - b.srcX, b.y - b.srcY);
        if j < |f.done| {
          assert a == f.done[j];
        }
        assert Level(g, a.DistSq()) <= Level(g, b.DistSq());
      } else {
        assert a == f.done[j] && b == f.done[k];
      }
    }
    forall k | 0 <= k < |f1.done|
      ensures 0 <= f1.done[k].DistSq() && Level(g, f1.done[k].DistSq()) < lvl + 1
    {
      if k < |f.done| {
        assert f1.done[k] == f.done[k];
      }
    }
  }

  // ---------- starting a fire ----------

  function Cells(g: Field): (n: nat)
    ensures n == g.Area()
  {
    SquareNonneg(0);
    assert 0 <= g.sizeX * g.sizeY;
    g.sizeX * g.sizeY
  }

  /** The state before the first scan: all seeds wait in bin 0 at distance 0. */
  ghost function Kindled(g: Field, seedCells: seq<Cell>): Fire
  {
    Fire(seq(NumBins(g), b => if b == 0 then seedCells else []), seq(Cells(g), i => false), [])
  }

  ghost predicate AreSeedCells(g: Field, seeds: set<(int, int)>, seedCells: seq<Cell>) {
    && (forall k :: 0 <= k < |seedCells| ==>
      && InGrid(g, seedCells[k])
      && seedCells[k].x == seedCells[k].srcX && seedCells[k].y == seedCells[k].srcY
      && (seedCells[k].x, seedCells[k].y) in seeds)
    && (forall x, y :: (x, y) in seeds ==> Cell(Idx(g.sizeX, x, y), x, y, x, y) in seedCells)
  }

  lemma SeedCellOk(g: Field, seeds: set<(int, int)>, c: Cell)
    requires InGrid(g, c) && c.DistSq() == 0 && (c.srcX, c.srcY) in seeds
    ensures CellOk(g, seeds, c)
  {
    SquareNonneg(g.radius);
    assert 0 <= g.RadiusSq();
  }

  lemma NormZero(x: int, x': int, y: int, y': int)
    requires x == x' && y == y'
    ensures NormSq(x - x', y - y') == 0
  {
  }

  lemma KindledOk(g: Field, seeds: set<(int, int)>, seedCells: seq<Cell>)
    requires AreSeedCells(g, seeds, seedCells)
    ensures FireOk(g, seeds, Kindled(g, seedCells))
  {
    hide NormSq, Idx, Rank, Field.Area, Field.RadiusSq;
    RankZero(g.radius + 2);
    var f := Kindled(g, seedCells);
    forall b, k | 0 <= b < |f.bins| && 0 <= k < |f.bins[b]|
      ensures CellOk(g, seeds, f.bins[b][k]) && Level(g, f.bins[b][k].DistSq()) == b
    {
      var c := seedCells[k];
      NormZero(c.x, c.srcX, c.y, c.srcY);
      SeedCellOk(g, seeds, c);
    }
  }

  /** Every cell processed by the whole fire, in order. */
  ghost function Burned(g: Field, seeds: set<(int, int)>, seedCells: seq<Cell>): (done: seq<Cell>)
    requires AreSeedCells(g, seeds, seedCells)
  {
    KindledOk(g, seeds, seedCells);
    Burn(g, seeds, 0, Kindled(g, seedCells)).done
  }

  /**
   Soundness for any number of seeds: each processed cell lies in the grid, is processed once, and
   its source is a seed within the inflation radius; processing goes outwards.
   */
  lemma BurnedSound(g: Field, seeds: set<(int, int)>, seedCells: seq<Cell>)
    requires AreSeedCells(g, seeds, seedCells)
    ensures var done := Burned(g, seeds, seedCells);
      && (forall k :: 0 <= k < |done| ==> CellOk(g, seeds, done[k]))
      && (forall j, k :: 0 <= j < k < |done| ==> done[j].index != done[k].index)
      && InDistanceOrder(done)
  {
    KindledOk(g, seeds, seedCells);
    BurnOrder(g, seeds, 0, Kindled(g, seedCells));
  }

  /** Every seed is processed as its own source, before any other cell can claim it. */
  lemma SeedsBurnAsThemselves(g: Field, seeds: set<(int, int)>, seedCells: seq<Cell>, x: int, y: int)
    requires AreSeedCells(g, seeds, seedCells) && (x, y) in seeds
    ensures Cell(Idx(g.sizeX, x, y), x, y, x, y) in Burned(g, seeds, seedCells)
  {
    var s := Cell(Idx(g.sizeX, x, y), x, y, x, y);
    KindledOk(g, seeds, seedCells);
    var f := Kindled(g, seedCells);
    var f1 := ScanBin(g, seeds, 0, 0, f);
    ScanDone(g, seeds, 0, 0, f);
    ScanKeepsOrder(g, seeds, 0, f, f1);
    assert Burn(g, seeds, 0, f) == Burn(g, seeds, 1, f1);
    BurnOrder(g, seeds, 1, f1);
    assert s in f1.done by {
      assert f.bins[0][0..] == seedCells;
      assert s in f.bins[0][0..];
      ScanSeen(g, seeds, 0, 0, f);
      FirstScanClaims(g, seeds, f1, s);
    }
  }

  lemma FirstScanClaims(g: Field, seeds: set<(int, int)>, f: Fire, s: Cell)
    requires FireOk(g, seeds, f) && InGrid(g, s) && f.seen[s.index] && s.x == s.srcX && s.y == s.srcY
    requires forall c :: c in f.done ==> Level(g, c.DistSq()) == 0
    ensures s in f.done
  {
    var j :| 0 <= j < |f.done| && f.done[j].index == s.index;
    var c := f.done[j];
    assert CellOk(g, seeds, c);
    assert c in f.done;
    LevelZero(g, c);
    IdxInjective(g.sizeX, c.x, c.y, s.x, s.y);
  }

  /** Only a cell that is its own source sits at distance zero. */
  lemma LevelZero(g: Field, c: Cell)
    requires 0 <= c.DistSq() <= g.RadiusSq() && Level(g, c.DistSq()) == 0
    ensures c.x == c.srcX && c.y == c.srcY
  {
    EndsAreDistances(g.radius + 2);
    if 0 < c.DistSq() {
      RankStrict(g.radius + 2, 0, c.DistSq());
    }
    ZeroNorm(c.x - c.srcX, c.y - c.srcY);
  }

  lemma ZeroNorm(dx: int, dy: int)
    requires NormSq(dx, dy) == 0
    ensures dx == 0 && dy == 0
  {
    OffsetBound(0, dx, dy);
  }
}
