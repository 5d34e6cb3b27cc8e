/** With one seed the brushfire is exact: it reaches every grid cell within the radius. */
module SingleSource {
  import opened GridIndex
  import opened DistanceRank
  import opened Brushfire

  /** The state of the fire once bins 0 .. lvl-1 have been scanned. */
  ghost function FireAt(g: Field, seeds: set<(int, int)>, seedCells: seq<Cell>, lvl: nat): (f: Fire)
    requires AreSeedCells(g, seeds, seedCells) && lvl <= NumBins(g)
    ensures FireOk(g, seeds, f)
  {
    KindledOk(g, seeds, seedCells);
    if lvl == 0 then Kindled(g, seedCells)
    else ScanBin(g, seeds, lvl - 1, 0, FireAt(g, seeds, seedCells, lvl - 1))
  }

  lemma {:induction false} FireAtIsBurn(g: Field, seeds: set<(int, int)>, seedCells: seq<Cell>, lvl: nat)
    requires AreSeedCells(g, seeds, seedCells) && lvl <= NumBins(g)
    ensures Burned(g, seeds, seedCells) == Burn(g, seeds, lvl, FireAt(g, seeds, seedCells, lvl)).done
  {
    hide NormSq, Idx, Rank, ScanBin;
    KindledOk(g, seeds, seedCells);
    if lvl > 0 {
      FireAtIsBurn(g, seeds, seedCells, lvl - 1);
      var f := FireAt(g, seeds, seedCells, lvl - 1);
      assert Burn(g, seeds, lvl - 1, f) == Burn(g, seeds, lvl, ScanBin(g, seeds, lvl - 1, 0, f));
    }
  }

  /** What is seen stays seen at every later level. */
  lemma {:induction false} SeenStays(g: Field, seeds: set<(int, int)>, seedCells: seq<Cell>, lo: nat, hi: nat, i: int)
    requires AreSeedCells(g, seeds, seedCells) && lo <= hi <= NumBins(g)
    requires 0 <= i < g.Area() && FireAt(g, seeds, seedCells, lo).seen[i]
    ensures FireAt(g, seeds, seedCells, hi).seen[i]
    decreases hi
  {
    hide NormSq, Idx, Rank, ScanBin, AreSeedCells;
    if lo < hi {
      SeenStays(g, seeds, seedCells, lo, hi - 1, i);
      ScanSeen(g, seeds, hi - 1, 0, FireAt(g, seeds, seedCells, hi - 1));
    }
  }

  /** `q` waits in its bin or is seen, as soon as its neighbour `p` has been seen. */
  ghost predicate Offered(g: Field, f: Fire, p: Cell, q: Cell)
    requires 0 <= p.index < |f.seen| && 0 <= q.index < |f.seen|
    requires 0 <= q.DistSq() && Level(g, q.DistSq()) < |f.bins|
  {
    f.seen[p.index] ==> f.seen[q.index] || q in f.bins[Level(g, q.DistSq())]
  }

  /** `p` and `q` are adjacent grid cells within the radius of their common seed. */
  ghost predicate Adjacent(g: Field, s: (int, int), p: Cell, q: Cell, ex: int, ey: int) {
    && (ex, ey) in {(1, 0), (-1, 0), (0, 1), (0, -1)}
    && CellOk(g, {s}, p) && CellOk(g, {s}, q) && q == Neighbour(g, p, ex, ey)
  }

  lemma EnqueueOffers(g: Field, seeds: set<(int, int)>, f: Fire, c: Cell, ex: int, ey: int)
    requires FireOk(g, seeds, f) && CellOk(g, seeds, c)
    requires (ex, ey) in {(1, 0), (-1, 0), (0, 1), (0, -1)}
    requires CellOk(g, seeds, Neighbour(g, c, ex, ey))
    ensures var n := Neighbour(g, c, ex, ey);
      var f' := EnqueueStep(g, seeds, f, c, ex, ey);
      Level(g, n.DistSq()) < |f'.bins| && (f'.seen[n.index] || n in f'.bins[Level(g, n.DistSq())])
  {
    LevelInBins(g, Neighbour(g, c, ex, ey).DistSq());
    hide NormSq, Idx, Rank;
  }

  lemma VisitOffers(g: Field, seeds: set<(int, int)>, f: Fire, c: Cell, ex: int, ey: int)
    requires FireOk(g, seeds, f) && CellOk(g, seeds, c) && !f.seen[c.index]
    requires (ex, ey) in {(1, 0), (-1, 0), (0, 1), (0, -1)}
    requires CellOk(g, seeds, Neighbour(g, c, ex, ey))
    ensures var n := Neighbour(g, c, ex, ey);
      var f' := Visit(g, seeds, f, c);
      Level(g, n.DistSq()) < |f'.bins| && (f'.seen[n.index] || n in f'.bins[Level(g, n.DistSq())])
  {
    hide NormSq, Idx, Rank, EnqueueStep;
    MarkKeeps(g, seeds, f, c);
    var n := Neighbour(g, c, ex, ey);
    var f0 := Mark(f, c);
    var f1 := EnqueueStep(g, seeds, f0, c, -1, 0);
    var f2 := EnqueueStep(g, seeds, f1, c, 0, -1);
    var f3 := EnqueueStep(g, seeds, f2, c, 1, 0);
    if (ex, ey) == (-1, 0) {
      EnqueueOffers(g, seeds, f0, c, ex, ey);
    } else if (ex, ey) == (0, -1) {
      EnqueueOffers(g, seeds, f1, c, ex, ey);
    } else if (ex, ey) == (1, 0) {
      EnqueueOffers(g, seeds, f2, c, ex, ey);
    } else {
      EnqueueOffers(g, seeds, f3, c, ex, ey);
    }
  }

  lemma SameCell(g: Field, s: (int, int), p: Cell, q: Cell)
    requires CellOk(g, {s}, p) && CellOk(g, {s}, q) && p.index == q.index
    ensures p == q
  {
    IdxInjective(g.sizeX, p.x, p.y, q.x, q.y);
  }

  lemma VisitKeepsOffered(g: Field, s: (int, int), f: Fire, c: Cell, p: Cell, q: Cell, ex: int, ey: int)
    requires FireOk(g, {s}, f) && CellOk(g, {s}, c) && Adjacent(g, s, p, q, ex, ey)
    requires Level(g, q.DistSq()) < |f.bins| && Offered(g, f, p, q)
    ensures Offered(g, Visit(g, {s}, f, c), p, q)
  {
    hide NormSq, Idx, Rank, Visit;
    VisitFacts(g, {s}, f, c);
    if c.index == p.index && !f.seen[c.index] {
      SameCell(g, s, c, p);
      VisitOffers(g, {s}, f, c, ex, ey);
    }
  }

  lemma {:induction false} ScanKeepsOffered(g: Field, s: (int, int), lvl: nat, i: nat, f: Fire,
                                            p: Cell, q: Cell, ex: int, ey: int)
    requires FireOk(g, {s}, f) && lvl < |f.bins| && i <= |f.bins[lvl]| && Adjacent(g, s, p, q, ex, ey)
    requires Level(g, q.DistSq()) < |f.bins| && Offered(g, f, p, q)
    ensures Offered(g, ScanBin(g, {s}, lvl, i, f), p, q)
    decreases |f.bins[lvl]| - i
  {
    hide NormSq, Idx, Rank, Visit, Offered;
    if i < |f.bins[lvl]| {
      VisitKeepsOffered(g, s, f, f.bins[lvl][i], p, q, ex, ey);
      ScanKeepsOffered(g, s, lvl, i + 1, Visit(g, {s}, f, f.bins[lvl][i]), p, q, ex, ey);
    }
  }

  lemma {:induction false} AlwaysOffered(g: Field, s: (int, int), seedCells: seq<Cell>, lvl: nat,
                                         p: Cell, q: Cell, ex: int, ey: int)
    requires AreSeedCells(g, {s}, seedCells) && lvl <= NumBins(g) && Adjacent(g, s, p, q, ex, ey)
    requires Level(g, q.DistSq()) < NumBins(g)
    ensures Offered(g, FireAt(g, {s}, seedCells, lvl), p, q)
  {
    hide NormSq, Idx, Rank, ScanBin;
    if lvl > 0 {
      AlwaysOffered(g, s, seedCells, lvl - 1, p, q, ex, ey);
      ScanKeepsOffered(g, s, lvl - 1, 0, FireAt(g, {s}, seedCells, lvl - 1), p, q, ex, ey);
    }
  }

  /** Cell (x, y) attributed to the seed `s`. */
  function At(g: Field, s: (int, int), x: int, y: int): Cell {
    Cell(Idx(g.sizeX, x, y), x, y, s.0, s.1)
  }

  lemma IndexInArea(g: Field, x: int, y: int)
    requires 0 <= x < g.sizeX && 0 <= y < g.sizeY
    ensures 0 <= Idx(g.sizeX, x, y) < g.Area()
  {
    IdxInRange(g.sizeX, g.sizeY, x, y);
  }

  /** A cell other than its seed has a neighbour one step closer, inside the grid. */
  lemma CloserNeighbour(g: Field, s: (int, int), q: Cell) returns (p: Cell, ex: int, ey: int)
    requires CellOk(g, {s}, q) && 0 <= s.0 < g.sizeX && 0 <= s.1 < g.sizeY && q.DistSq() > 0
    ensures Adjacent(g, s, p, q, ex, ey) && p.DistSq() < q.DistSq()
  {
    hide NormSq, Idx, Field.Area, Field.RadiusSq;
    var dx, dy := q.x - s.0, q.y - s.1;
    if dx > 0 {
      ex, ey := 1, 0;
    } else if dx < 0 {
      ex, ey := -1, 0;
    } else if dy > 0 {
      ex, ey := 0, 1;
    } else {
      assert dy < 0 by {
        if dy == 0 { NormZero(q.x, s.0, q.y, s.1); }
      }
      ex, ey := 0, -1;
    }
    p := At(g, s, q.x - ex, q.y - ey);
    StepIn(dx, dy, ex, ey);
    IndexInArea(g, p.x, p.y);
    assert p.x - p.srcX == dx - ex && p.y - p.srcY == dy - ey;
  }

  lemma StepIn(dx: int, dy: int, ex: int, ey: int)
    requires (ex == 1 && ey == 0 && dx > 0) || (ex == -1 && ey == 0 && dx < 0)
      || (ex == 0 && ey == 1 && dy > 0) || (ex == 0 && ey == -1 && dy < 0)
    ensures 0 <= NormSq(dx - ex, dy - ey) < NormSq(dx, dy)
  {
    SquareNonneg(dx - ex);
    SquareNonneg(dy - ey);
    if ex != 0 {
      assert NormSq(dx - ex, dy) == NormSq(dx, dy) - 2 * dx * ex + 1;
    } else {
      assert NormSq(dx, dy - ey) == NormSq(dx, dy) - 2 * dy * ey + 1;
    }
  }

  /** Every cell within the radius is seen once its own level has been scanned. */
  lemma {:induction false} ReachedByItsLevel(g: Field, s: (int, int), seedCells: seq<Cell>, q: Cell)
    requires AreSeedCells(g, {s}, seedCells) && CellOk(g, {s}, q)
    ensures Level(g, q.DistSq()) + 1 <= NumBins(g)
    ensures FireAt(g, {s}, seedCells, Level(g, q.DistSq()) + 1).seen[q.index]
    decreases q.DistSq()
  {
    hide NormSq, Idx, Rank, ScanBin;
    LevelInBins(g, q.DistSq());
    var lvl := Level(g, q.DistSq());
    var f := FireAt(g, {s}, seedCells, lvl);
    assert f.seen[q.index] || q in f.bins[lvl] by {
      if q.DistSq() == 0 {
        IsSource(g, s, q);
        SourceWaits(g, s, seedCells, q);
      } else {
        SeedInGrid(g, s, seedCells);
        var p, ex, ey := CloserNeighbour(g, s, q);
        ReachedByItsLevel(g, s, seedCells, p);
        CloserLevel(g, p, q);
        SeenStays(g, {s}, seedCells, Level(g, p.DistSq()) + 1, lvl, p.index);
        AlwaysOffered(g, s, seedCells, lvl, p, q, ex, ey);
      }
    }
    ScanSeen(g, {s}, lvl, 0, f);
    assert f.bins[lvl][0..] == f.bins[lvl];
  }

  lemma SeedInGrid(g: Field, s: (int, int), seedCells: seq<Cell>)
    requires AreSeedCells(g, {s}, seedCells)
    ensures 0 <= s.0 < g.sizeX && 0 <= s.1 < g.sizeY
  {
    assert (s.0, s.1) in {s};
    assert At(g, s, s.0, s.1) in seedCells;
  }

  lemma CloserLevel(g: Field, p: Cell, q: Cell)
    requires 0 <= p.DistSq() < q.DistSq() <= g.RadiusSq()
    ensures Level(g, p.DistSq()) < Level(g, q.DistSq())
  {
    RadiusInDisc(g, p.x - p.srcX, p.y - p.srcY);
    RankStrict(g.radius + 2, p.DistSq(), q.DistSq());
  }

  lemma SourceWaits(g: Field, s: (int, int), seedCells: seq<Cell>, q: Cell)
    requires AreSeedCells(g, {s}, seedCells) && q == At(g, s, s.0, s.1)
    ensures q in FireAt(g, {s}, seedCells, 0).bins[0]
  {
    hide NormSq, Idx, Rank;
    assert (s.0, s.1) in {s};
  }

  lemma IsSource(g: Field, s: (int, int), q: Cell)
    requires CellOk(g, {s}, q) && q.DistSq() == 0
    ensures q == At(g, s, s.0, s.1)
  {
    assert (q.srcX, q.srcY) == s;
    SourceX(q);
  }

  lemma SourceX(q: Cell)
    requires q.DistSq() == 0
    ensures q.x == q.srcX && q.y == q.srcY
  {
    ZeroNorm(q.x - q.srcX, q.y - q.srcY);
  }

  lemma AtOk(g: Field, s: (int, int), x: int, y: int)
    requires 0 <= x < g.sizeX && 0 <= y < g.sizeY && NormSq(x - s.0, y - s.1) <= g.RadiusSq()
    ensures CellOk(g, {s}, At(g, s, x, y))
  {
    IdxInRange(g.sizeX, g.sizeY, x, y);
    SquareNonneg(x - s.0);
    SquareNonneg(y - s.1);
  }

  /** Exactness for one seed: every grid cell within the radius is processed at its true distance. */
  lemma SingleSourceExact(g: Field, s: (int, int), seedCells: seq<Cell>, x: int, y: int)
    requires AreSeedCells(g, {s}, seedCells) && 0 <= x < g.sizeX && 0 <= y < g.sizeY
    requires NormSq(x - s.0, y - s.1) <= g.RadiusSq()
    ensures At(g, s, x, y) in Burned(g, {s}, seedCells)
  {
    hide NormSq, Idx, Rank, ScanBin;
    var q := At(g, s, x, y);
    AtOk(g, s, x, y);
    ReachedByItsLevel(g, s, seedCells, q);
    SeenStays(g, {s}, seedCells, Level(g, q.DistSq()) + 1, NumBins(g), q.index);
    FireAtIsBurn(g, {s}, seedCells, NumBins(g));
    var f := FireAt(g, {s}, seedCells, NumBins(g));
    var k :| 0 <= k < |f.done| && f.done[k].index == q.index;
    SameCell(g, s, f.done[k], q);
  }
}
