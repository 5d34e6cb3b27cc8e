/** What one inflation pass guarantees: idempotence, soundness, and exactness around a lone seed. */
module InflationTheorems {
  import opened CostValues
  import opened Arithmetic
  import opened GridIndex
  import opened DistanceRank
  import opened Brushfire
  import opened SingleSource
  import opened InflationSpec

  /** Some processed cell of the box is the grid cell (x, y). */
  ghost predicate Painted(cfg: Config, box: Box, a: seq<Cost>, x: int, y: int, k: int)
    requires Fits(cfg.field, a)
  {
    var done := Processed(cfg, box, a);
    0 <= k < |done| && done[k].x == x && done[k].y == y && box.Contains(x, y)
  }

  /** Each grid cell is either blended once with its own processed cost, or unchanged. */
  lemma InflatedAt(cfg: Config, box: Box, a: seq<Cost>, x: int, y: int)
    requires ValidParams(cfg.cost) && Fits(cfg.field, a)
    requires 0 <= x < cfg.field.sizeX && 0 <= y < cfg.field.sizeY
    ensures var i := Idx(cfg.field.sizeX, x, y);
      var done := Processed(cfg, box, a);
      && 0 <= i < |a|
      && (forall k :: Painted(cfg, box, a, x, y, k) ==>
            Inflated(cfg, box, a)[i] == Blend(cfg.inflateUnknown, a[i], CostAt(cfg, done[k])))
      && ((forall k :: !Painted(cfg, box, a, x, y, k)) ==> Inflated(cfg, box, a)[i] == a[i])
  {
    hide ComputeCost, Blend, Cell.DistSq, IsSeed;
    IdxInRange(cfg.field.sizeX, cfg.field.sizeY, x, y);
    ProcessedOk(cfg, box, a);
    var i := Idx(cfg.field.sizeX, x, y);
    var done := Processed(cfg, box, a);
    forall k | Painted(cfg, box, a, x, y, k)
      ensures Inflated(cfg, box, a)[i] == Blend(cfg.inflateUnknown, a[i], CostAt(cfg, done[k]))
    {
      PaintHits(cfg, box, a, done, k);
    }
    if forall k :: !Painted(cfg, box, a, x, y, k) {
      forall k | 0 <= k < |done|
        ensures done[k].index != i || !box.Contains(done[k].x, done[k].y)
      {
        assert !Painted(cfg, box, a, x, y, k);
        if done[k].index == i {
          IdxInjective(cfg.field.sizeX, done[k].x, done[k].y, x, y);
        }
      }
      PaintMisses(cfg, box, a, done, i);
    }
  }

  lemma BoxInWindow(cfg: Config, box: Box, a: seq<Cost>, x: int, y: int)
    requires box.Contains(x, y) && SeedHere(cfg, a, x, y)
    ensures (x, y) in SeedSet(cfg, Window(cfg.field, box), a)
  {
  }

  /** A seed inside the box is processed as its own source. */
  lemma PaintedSeed(cfg: Config, box: Box, a: seq<Cost>, x: int, y: int, k: int)
    requires Fits(cfg.field, a) && Painted(cfg, box, a, x, y, k) && SeedHere(cfg, a, x, y)
    ensures Processed(cfg, box, a)[k] == Cell(Idx(cfg.field.sizeX, x, y), x, y, x, y)
  {
    var win := Window(cfg.field, box);
    var seeds := SeedSet(cfg, win, a);
    var done := Processed(cfg, box, a);
    ProcessedOk(cfg, box, a);
    SeedCellsMatch(cfg, box, a);
    assert CellOk(cfg.field, seeds, done[k]);
    BoxInWindow(cfg, box, a, x, y);
    hide NormSq, Idx, Rank, SeedSet;
    SeedsBurnAsThemselves(cfg.field, seeds, SeedScan(cfg, win, a, win.minI, win.minJ), x, y);
    assert Cell(Idx(cfg.field.sizeX, x, y), x, y, x, y) in done;
  }

  /** A cell processed at distance zero is a seed. */
  lemma PaintedAtZero(cfg: Config, box: Box, a: seq<Cost>, x: int, y: int, k: int)
    requires Fits(cfg.field, a) && Painted(cfg, box, a, x, y, k)
    requires Processed(cfg, box, a)[k].DistSq() == 0
    ensures SeedHere(cfg, a, x, y)
  {
    ProcessedOk(cfg, box, a);
    SourceX(Processed(cfg, box, a)[k]);
  }

  /** Of the painted cells exactly the seeds are painted at the lethal cost. */
  lemma PaintedCost(cfg: Config, box: Box, a: seq<Cost>, x: int, y: int, k: int)
    requires ValidParams(cfg.cost) && Fits(cfg.field, a) && Painted(cfg, box, a, x, y, k)
    ensures SeedHere(cfg, a, x, y) <==> CostAt(cfg, Processed(cfg, box, a)[k]) == LETHAL_OBSTACLE
  {
    hide NormSq, Idx, ComputeCost, Processed, SeedHere;
    if SeedHere(cfg, a, x, y) {
      PaintedSeed(cfg, box, a, x, y, k);
      NormZero(x, x, y, y);
    } else if Processed(cfg, box, a)[k].DistSq() == 0 {
      PaintedAtZero(cfg, box, a, x, y, k);
    }
  }

  lemma BlendKeepsSeeds(iu: bool, around: bool, prior: Cost, cost: Cost)
    requires cost <= LETHAL_OBSTACLE && (IsSeed(around, prior) <==> cost == LETHAL_OBSTACLE)
    ensures IsSeed(around, Blend(iu, prior, cost)) <==> IsSeed(around, prior)
  {
  }

  /** A pass neither creates nor destroys seeds. */
  lemma SeedsPreserved(cfg: Config, box: Box, a: seq<Cost>, x: int, y: int)
    requires ValidParams(cfg.cost) && Fits(cfg.field, a)
    requires 0 <= x < cfg.field.sizeX && 0 <= y < cfg.field.sizeY
    ensures SeedHere(cfg, Inflated(cfg, box, a), x, y) <==> SeedHere(cfg, a, x, y)
  {
    InflatedAt(cfg, box, a, x, y);
    hide Idx, ComputeCost, Blend, Inflated, Processed;
    if k :| Painted(cfg, box, a, x, y, k) {
      PaintedCost(cfg, box, a, x, y, k);
      BlendKeepsSeeds(cfg.inflateUnknown, cfg.aroundUnknown, a[Idx(cfg.field.sizeX, x, y)],
                      CostAt(cfg, Processed(cfg, box, a)[k]));
    }
  }

  lemma ProcessedAgain(cfg: Config, box: Box, a: seq<Cost>)
    requires ValidParams(cfg.cost) && Fits(cfg.field, a)
    ensures Processed(cfg, box, Inflated(cfg, box, a)) == Processed(cfg, box, a)
  {
    var b := Inflated(cfg, box, a);
    var win := Window(cfg.field, box);
    forall x, y | win.Contains(x, y)
      ensures SeedHere(cfg, a, x, y) <==> SeedHere(cfg, b, x, y)
    {
      SeedsPreserved(cfg, box, a, x, y);
    }
    SameSeedsSameScan(cfg, win, a, b, win.minI, win.minJ);
    assert SeedSet(cfg, win, a) == SeedSet(cfg, win, b);
  }

  /** Inflating again with the same box and parameters changes no cell. */
  lemma InflationIdempotent(cfg: Config, box: Box, a: seq<Cost>)
    requires ValidParams(cfg.cost) && Fits(cfg.field, a)
    ensures Inflated(cfg, box, Inflated(cfg, box, a)) == Inflated(cfg, box, a)
  {
    var b := Inflated(cfg, box, a);
    var c := Inflated(cfg, box, b);
    ProcessedAgain(cfg, box, a);
    forall i | 0 <= i < |a|
      ensures c[i] == b[i]
    {
      var w := cfg.field.sizeX;
      CellOfIndex(cfg.field, i);
      InflatedAt(cfg, box, a, i % w, i / w);
      InflatedAt(cfg, box, b, i % w, i / w);
      InflatedTwiceAt(cfg, box, a, i % w, i / w);
    }
  }

  lemma CellOfIndex(g: Field, i: int)
    requires 0 <= i < g.Area()
    ensures g.sizeX > 0 && 0 <= i % g.sizeX < g.sizeX && 0 <= i / g.sizeX < g.sizeY
    ensures Idx(g.sizeX, i % g.sizeX, i / g.sizeX) == i
  {
    IdxOnto(g.sizeX, g.sizeY, i);
  }

  lemma InflatedTwiceAt(cfg: Config, box: Box, a: seq<Cost>, x: int, y: int)
    requires ValidParams(cfg.cost) && Fits(cfg.field, a)
    requires 0 <= x < cfg.field.sizeX && 0 <= y < cfg.field.sizeY
    ensures var i := Idx(cfg.field.sizeX, x, y);
      && 0 <= i < |a|
      && Inflated(cfg, box, Inflated(cfg, box, a))[i] == Inflated(cfg, box, a)[i]
  {
    var b := Inflated(cfg, box, a);
    ProcessedAgain(cfg, box, a);
    InflatedAt(cfg, box, a, x, y);
    InflatedAt(cfg, box, b, x, y);
    hide Idx, ComputeCost, Inflated, Processed;
    if k :| Painted(cfg, box, a, x, y, k) {
      assert Painted(cfg, box, b, x, y, k);
    } else {
      assert forall k :: Painted(cfg, box, b, x, y, k) ==> Painted(cfg, box, a, x, y, k);
    }
  }

  /** (sx, sy) is a seed of the pass at least as close to (x, y) as any other. */
  ghost predicate Nearest(seeds: set<(int, int)>, x: int, y: int, s: (int, int)) {
    s in seeds && forall t :: t in seeds ==> NormSq(x - s.0, y - s.1) <= NormSq(x - t.0, y - t.1)
  }

  /**
   Soundness for any number of seeds. Outside the box nothing changes; a known cost never drops or
   becomes unknown; a changed cell has a seed within the radius, and its new cost is at most the
   cost at the nearest seed.
   */
  lemma InflationSound(cfg: Config, box: Box, a: seq<Cost>, x: int, y: int)
    requires ValidParams(cfg.cost) && Fits(cfg.field, a)
    requires 0 <= x < cfg.field.sizeX && 0 <= y < cfg.field.sizeY
    ensures var i := Idx(cfg.field.sizeX, x, y);
      var seeds := SeedSet(cfg, Window(cfg.field, box), a);
      var b := Inflated(cfg, box, a);
      && 0 <= i < |a|
      && (!box.Contains(x, y) ==> b[i] == a[i])
      && (a[i] != NO_INFORMATION ==> a[i] <= b[i] < NO_INFORMATION)
      && (b[i] != a[i] ==> exists s :: s in seeds && NormSq(x - s.0, y - s.1) <= cfg.field.RadiusSq())
      && (forall s :: Nearest(seeds, x, y, s) && b[i] != a[i] ==>
            b[i] <= ComputeCost(cfg.cost, NormSq(x - s.0, y - s.1)))
  {
    hide Idx, NormSq, ComputeCost, Inflated, Processed, SeedSet, Window, Field.RadiusSq, Fits, ValidParams, Nearest;
    InflatedAt(cfg, box, a, x, y);
    if k :| Painted(cfg, box, a, x, y, k) {
      PaintedSource(cfg, box, a, x, y, k);
    }
  }

  /** The source of a painted cell: a seed within the radius, and no cheaper seed is nearer. */
  lemma PaintedSource(cfg: Config, box: Box, a: seq<Cost>, x: int, y: int, k: int)
    requires ValidParams(cfg.cost) && Fits(cfg.field, a) && Painted(cfg, box, a, x, y, k)
    ensures var c := Processed(cfg, box, a)[k];
      var seeds := SeedSet(cfg, Window(cfg.field, box), a);
      && box.Contains(x, y)
      && (exists s :: s in seeds && NormSq(x - s.0, y - s.1) <= cfg.field.RadiusSq())
      && (forall s :: Nearest(seeds, x, y, s) ==>
            CostAt(cfg, c) <= ComputeCost(cfg.cost, NormSq(x - s.0, y - s.1)))
  {
    hide Idx, NormSq, ComputeCost, Processed, SeedSet, Window, Field.RadiusSq, ValidParams, InDistanceOrder,
         DistinctIndices;
    var seeds := SeedSet(cfg, Window(cfg.field, box), a);
    ProcessedOk(cfg, box, a);
    var c := Processed(cfg, box, a)[k];
    assert CellOk(cfg.field, seeds, c);
    var t := (c.srcX, c.srcY);
    assert t in seeds && NormSq(x - t.0, y - t.1) <= cfg.field.RadiusSq();
    forall s | Nearest(seeds, x, y, s)
      ensures CostAt(cfg, c) <= ComputeCost(cfg.cost, NormSq(x - s.0, y - s.1))
    {
      NormNonneg(x - s.0, y - s.1);
      CostAntitone(cfg.cost, NormSq(x - s.0, y - s.1), NormSq(x - t.0, y - t.1));
    }
  }

  /** A lone seed paints every cell of the box within its radius, attributed to itself. */
  lemma LoneSeedReaches(cfg: Config, box: Box, a: seq<Cost>, s: (int, int), x: int, y: int) returns (k: int)
    requires Fits(cfg.field, a) && 0 <= x < cfg.field.sizeX && 0 <= y < cfg.field.sizeY
    requires SeedSet(cfg, Window(cfg.field, box), a) == {s}
    requires box.Contains(x, y) && NormSq(x - s.0, y - s.1) <= cfg.field.RadiusSq()
    ensures Painted(cfg, box, a, x, y, k)
    ensures Processed(cfg, box, a)[k] == At(cfg.field, s, x, y)
  {
    var win := Window(cfg.field, box);
    SeedCellsMatch(cfg, box, a);
    SingleSourceExact(cfg.field, s, SeedScan(cfg, win, a, win.minI, win.minJ), x, y);
    var done := Processed(cfg, box, a);
    k :| 0 <= k < |done| && done[k] == At(cfg.field, s, x, y);
  }

  lemma LoneSeedStops(cfg: Config, box: Box, a: seq<Cost>, s: (int, int), x: int, y: int, k: int)
    requires Fits(cfg.field, a) && SeedSet(cfg, Window(cfg.field, box), a) == {s}
    requires Painted(cfg, box, a, x, y, k)
    ensures NormSq(x - s.0, y - s.1) <= cfg.field.RadiusSq()
  {
    ProcessedOk(cfg, box, a);
    var c := Processed(cfg, box, a)[k];
    assert (c.srcX, c.srcY) in {s};
  }

  /** With a single seed in the window, the whole result has a closed form. */
  lemma InflationExactForOneSeed(cfg: Config, box: Box, a: seq<Cost>, s: (int, int), x: int, y: int)
    requires ValidParams(cfg.cost) && Fits(cfg.field, a)
    requires 0 <= x < cfg.field.sizeX && 0 <= y < cfg.field.sizeY
    requires SeedSet(cfg, Window(cfg.field, box), a) == {s}
    ensures var i := Idx(cfg.field.sizeX, x, y);
      var d := NormSq(x - s.0, y - s.1);
      && 0 <= i < |a|
      && Inflated(cfg, box, a)[i] ==
         if box.Contains(x, y) && d <= cfg.field.RadiusSq()
         then Blend(cfg.inflateUnknown, a[i], ComputeCost(cfg.cost, d)) else a[i]
  {
    hide Idx, NormSq, ComputeCost, Blend, Inflated, SeedSet, Field.RadiusSq, Box.Contains, Fits;
    if box.Contains(x, y) && NormSq(x - s.0, y - s.1) <= cfg.field.RadiusSq() {
      ExactInside(cfg, box, a, s, x, y);
    } else {
      ExactOutside(cfg, box, a, s, x, y);
    }
  }

  // ---------- the same on the whole grid, in plain values ----------

  /** A seed of the grid that can reach a cell of the box is among the seeds of the pass. */
  lemma SeedInReach(cfg: Config, box: Box, a: seq<Cost>, x: int, y: int, sx: int, sy: int)
    requires box.Contains(x, y) && SeedHere(cfg, a, sx, sy)
    requires NormSq(x - sx, y - sy) <= cfg.field.radius * cfg.field.radius
    ensures (sx, sy) in SeedSet(cfg, Window(cfg.field, box), a)
  {
    OffsetBound(cfg.field.radius, x - sx, y - sy);
    hide NormSq, IsSeed, Idx;
  }

  /** The only cell of the grid that is lethal, or unknown where inflation starts from unknown cells too. */
  ghost predicate OnlyObstacle(cfg: Config, a: seq<Cost>, s: (int, int)) {
    && 0 <= s.0 < cfg.field.sizeX && 0 <= s.1 < cfg.field.sizeY
    && forall x, y :: 0 <= x < cfg.field.sizeX && 0 <= y < cfg.field.sizeY ==>
      && 0 <= Idx(cfg.field.sizeX, x, y) < |a|
      && (a[Idx(cfg.field.sizeX, x, y)] == 254 || (cfg.aroundUnknown && a[Idx(cfg.field.sizeX, x, y)] == 255)
          <==> (x, y) == s)
  }

  lemma OnlyObstacleSeeds(cfg: Config, box: Box, a: seq<Cost>, s: (int, int))
    requires Fits(cfg.field, a) && OnlyObstacle(cfg, a, s)
    ensures SeedHere(cfg, a, s.0, s.1)
    ensures SeedSet(cfg, Window(cfg.field, box), a) == {s} || SeedSet(cfg, Window(cfg.field, box), a) == {}
  {
    hide Idx;
    var seeds := SeedSet(cfg, Window(cfg.field, box), a);
    forall t | t in seeds
      ensures t == s
    {
    }
    if s in seeds {
      assert seeds == {s};
    }
  }

  /** Without a seed in the window nothing is processed. */
  lemma NoSeedNoChange(cfg: Config, box: Box, a: seq<Cost>, x: int, y: int)
    requires ValidParams(cfg.cost) && Fits(cfg.field, a)
    requires 0 <= x < cfg.field.sizeX && 0 <= y < cfg.field.sizeY
    requires SeedSet(cfg, Window(cfg.field, box), a) == {}
    ensures var i := Idx(cfg.field.sizeX, x, y);
      0 <= i < |a| && Inflated(cfg, box, a)[i] == a[i]
  {
    hide Idx, NormSq, ComputeCost, Blend, Inflated, Processed, SeedSet, Field.RadiusSq, Fits;
    InflatedAt(cfg, box, a, x, y);
    if k :| Painted(cfg, box, a, x, y, k) {
      PaintedSource(cfg, box, a, x, y, k);
    }
  }

  /** What a cell of value `prior` within reach of the only obstacle becomes, at cost `c`. */
  ghost predicate InflatedTo(inflateUnknown: bool, inscribed: bool, prior: int, c: int, after: int) {
    if prior != 255 then after == Max(prior, c)
    else if inflateUnknown then after == (if c == 0 then 255 else c)
    else after == (if inscribed then c else 255)
  }

  /**
   One obstacle on the whole grid, wherever it lies relative to the box: cells of the box within the
   radius become the maximum of their value and their cost; unknown ones stay unknown beyond the
   inscribed radius, or where the cost is 0 if unknown cells are inflated; nothing else changes.
   */
  lemma LoneObstacle(cfg: Config, box: Box, a: seq<Cost>, s: (int, int), x: int, y: int)
    requires ValidParams(cfg.cost) && Fits(cfg.field, a) && OnlyObstacle(cfg, a, s)
    requires 0 <= x < cfg.field.sizeX && 0 <= y < cfg.field.sizeY
    ensures var i := Idx(cfg.field.sizeX, x, y);
      var d := NormSq(x - s.0, y - s.1);
      && 0 <= i < |a|
      && if box.minI <= x < box.maxI && box.minJ <= y < box.maxJ && d <= cfg.field.radius * cfg.field.radius
         then InflatedTo(cfg.inflateUnknown, d == 0 || Inscribed(d, cfg.cost.resolution, cfg.cost.inscribedRadius),
                         a[i], ComputeCost(cfg.cost, d), Inflated(cfg, box, a)[i])
         else Inflated(cfg, box, a)[i] == a[i]
  {
    hide Idx, NormSq, ComputeCost, Blend, Inflated, SeedSet, SeedHere, Fits, Window, OnlyObstacle, Inscribed;
    OnlyObstacleSeeds(cfg, box, a, s);
    var d := NormSq(x - s.0, y - s.1);
    if SeedSet(cfg, Window(cfg.field, box), a) == {s} {
      InflationExactForOneSeed(cfg, box, a, s, x, y);
      CostLevels(cfg.cost, d);
      BlendMeans(cfg.inflateUnknown, d == 0 || Inscribed(d, cfg.cost.resolution, cfg.cost.inscribedRadius),
                 a[Idx(cfg.field.sizeX, x, y)], ComputeCost(cfg.cost, d));
    } else {
      NoSeedNoChange(cfg, box, a, x, y);
      if box.Contains(x, y) && d <= cfg.field.radius * cfg.field.radius {
        SeedInReach(cfg, box, a, x, y, s.0, s.1);
      }
    }
  }

  lemma CostLevels(p: CostParams, d: int)
    requires ValidParams(p)
    ensures ComputeCost(p, d) >= 253 <==> d == 0 || Inscribed(d, p.resolution, p.inscribedRadius)
    ensures ComputeCost(p, d) <= 254
  {
  }

  lemma BlendMeans(inflateUnknown: bool, inscribed: bool, prior: Cost, c: Cost)
    requires c <= 254 && (c >= 253 <==> inscribed)
    ensures InflatedTo(inflateUnknown, inscribed, prior, c, Blend(inflateUnknown, prior, c))
  {
  }

  lemma ExactInside(cfg: Config, box: Box, a: seq<Cost>, s: (int, int), x: int, y: int)
    requires ValidParams(cfg.cost) && Fits(cfg.field, a)
    requires 0 <= x < cfg.field.sizeX && 0 <= y < cfg.field.sizeY
    requires SeedSet(cfg, Window(cfg.field, box), a) == {s}
    requires box.Contains(x, y) && NormSq(x - s.0, y - s.1) <= cfg.field.RadiusSq()
    ensures var i := Idx(cfg.field.sizeX, x, y);
      && 0 <= i < |a|
      && Inflated(cfg, box, a)[i] == Blend(cfg.inflateUnknown, a[i], ComputeCost(cfg.cost, NormSq(x - s.0, y - s.1)))
  {
    hide Idx, NormSq, ComputeCost, Blend, Inflated, Processed, SeedSet, Field.RadiusSq, Painted, Fits;
    InflatedAt(cfg, box, a, x, y);
    var k := LoneSeedReaches(cfg, box, a, s, x, y);
  }

  lemma ExactOutside(cfg: Config, box: Box, a: seq<Cost>, s: (int, int), x: int, y: int)
    requires ValidParams(cfg.cost) && Fits(cfg.field, a)
    requires 0 <= x < cfg.field.sizeX && 0 <= y < cfg.field.sizeY
    requires SeedSet(cfg, Window(cfg.field, box), a) == {s}
    requires !box.Contains(x, y) || NormSq(x - s.0, y - s.1) > cfg.field.RadiusSq()
    ensures var i := Idx(cfg.field.sizeX, x, y);
      0 <= i < |a| && Inflated(cfg, box, a)[i] == a[i]
  {
    hide Idx, NormSq, ComputeCost, Blend, Inflated, Processed, SeedSet, Field.RadiusSq, Fits;
    InflatedAt(cfg, box, a, x, y);
    if k :| Painted(cfg, box, a, x, y, k) {
      LoneSeedStops(cfg, box, a, s, x, y, k);
    }
  }
}
