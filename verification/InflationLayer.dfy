/** The inflation layer as the source runs it: caches, distance table, bins and `seen_` updated in place. */
module InflationLayer {
  import opened CostValues
  import opened Arithmetic
  import opened GridIndex
  import opened Sequences
  import opened DistanceRank
  import opened Brushfire
  import opened InflationSpec

  /** Costmap2D::cellDistance. */
  function CellDistance(worldDist: real, resolution: real): nat
    requires resolution > 0.0
  {
    var q := worldDist / resolution;
    var ceil := if q.Floor as real == q then q.Floor else q.Floor + 1;
    if ceil < 0 then 0 else ceil
  }

  /** The radius in cells is rounded up, and a negative distance counts as none. */
  lemma CellDistanceRoundsUp(worldDist: real, resolution: real)
    requires resolution > 0.0
    ensures var k := CellDistance(worldDist, resolution);
      && worldDist <= k as real * resolution
      && (k == 0 || (k as real - 1.0) * resolution < worldDist)
  {
    var q, k := worldDist / resolution, CellDistance(worldDist, resolution);
    DivideBack(worldDist, resolution);
    ScaledBound(q, k as real, worldDist, resolution);
    if k > 0 {
      ScaledAbove(k as real - 1.0, q, worldDist, resolution);
    }
  }

  class InflationLayer {
    var enabled: bool
    var inflateUnknown: bool
    var aroundUnknown: bool
    var inflationRadius: real
    var cost: CostParams
    var cellInflationRadius: nat
    var cachedCellInflationRadius: nat
    var cacheLength: nat
    var cachedDistances: seq<int>  // squared
    var cachedCosts: seq<Cost>
    var distanceMatrix: seq<seq<int>>
    var inflationCells: seq<seq<Cell>>
    var seen: seq<bool>

    ghost predicate DistancesOk(radius: nat)
      reads `cachedDistances
    {
      var n := radius + 2;
      && |cachedDistances| == n * n
      && forall i, j :: 0 <= i < n && 0 <= j < n ==>
        0 <= Idx(n, j, i) < n * n && cachedDistances[Idx(n, j, i)] == NormSq(i, j)
    }

    ghost predicate CostsOk()
      reads `cost, `cellInflationRadius, `cachedCosts
      requires ValidParams(cost)
    {
      var n := cellInflationRadius + 2;
      && |cachedCosts| == n * n
      && forall i, j :: 0 <= i < n && 0 <= j < n ==>
        0 <= Idx(n, j, i) < n * n && cachedCosts[Idx(n, j, i)] == ComputeCost(cost, NormSq(i, j))
    }

    /** Entry [x + r][y + r] of the table is the dense rank of x^2 + y^2. */
    ghost predicate TableOk()
      reads `cellInflationRadius, `distanceMatrix
    {
      var r := cellInflationRadius + 2;
      && IsTable(r, distanceMatrix)
      && forall x, y :: InDisc(r, x, y) ==> distanceMatrix[x + r][y + r] == Rank(r, NormSq(x, y))
    }

    ghost predicate Valid()
      reads this
    {
      && ValidParams(cost)
      && (cachedCellInflationRadius > 0 ==> DistancesOk(cachedCellInflationRadius))
      && (forall b :: 0 <= b < |inflationCells| ==> inflationCells[b] == [])
      && (cellInflationRadius > 0 ==>
            && cachedCellInflationRadius == cellInflationRadius
            && cacheLength == cellInflationRadius + 2
            && CostsOk() && TableOk()
            && |inflationCells| == NumBins(Field(0, 0, cellInflationRadius)))
    }

    constructor (inflationRadius: real, cost: CostParams, enabled: bool, inflateUnknown: bool, aroundUnknown: bool)
      requires ValidParams(cost)
      ensures Valid()
      ensures this.cellInflationRadius == CellDistance(inflationRadius, cost.resolution)
      ensures this.enabled == enabled && this.inflationRadius == inflationRadius && this.cost == cost
      ensures this.inflateUnknown == inflateUnknown && this.aroundUnknown == aroundUnknown
    {
      this.enabled := enabled;
      this.inflateUnknown, this.aroundUnknown := inflateUnknown, aroundUnknown;
      this.inflationRadius := inflationRadius;
      this.cost := cost;
      this.cellInflationRadius, this.cachedCellInflationRadius := 0, 0;
      this.cacheLength := 0;
      this.cachedDistances, this.cachedCosts, this.distanceMatrix := [], [], [];
      this.inflationCells, this.seen := [], [];
      new;
      MatchSize(cost.resolution, 0, 0);
    }

    method MatchSize(resolution: real, sizeX: nat, sizeY: nat)
      requires resolution > 0.0 && Valid()
      modifies this
      ensures Valid()
      ensures cellInflationRadius == CellDistance(inflationRadius, resolution)
      ensures cost == old(cost).(resolution := resolution)
      ensures inflationRadius == old(inflationRadius) && enabled == old(enabled)
      ensures inflateUnknown == old(inflateUnknown) && aroundUnknown == old(aroundUnknown)
      ensures |seen| == sizeX * sizeY && forall i :: 0 <= i < |seen| ==> !seen[i]
    {
      hide DistancesOk, CostsOk, TableOk, NumBins, CellDistance;
      cost := cost.(resolution := resolution);
      cellInflationRadius := CellDistance(inflationRadius, resolution);
      ComputeCaches();
      NonNegProduct(sizeX, sizeY);
      seen := seq(sizeX * sizeY, i => false);
    }

    method OnFootprintChanged(inscribedRadius: real)
      requires inscribedRadius >= 0.0 && Valid()
      modifies this
      ensures Valid()
      ensures inflationRadius == old(inflationRadius) && enabled == old(enabled) && seen == old(seen)
      ensures inflateUnknown == old(inflateUnknown) && aroundUnknown == old(aroundUnknown)
      ensures cellInflationRadius == CellDistance(inflationRadius, cost.resolution)
      ensures cost == old(cost).(inscribedRadius := inscribedRadius)
    {
      cost := cost.(inscribedRadius := inscribedRadius);
      cellInflationRadius := CellDistance(inflationRadius, cost.resolution);
      ComputeCaches();
    }

    /** computeCaches: the distances are kept when the radius is unchanged, the costs are always redone. */
    method ComputeCaches()
      requires ValidParams(cost)
      requires cachedCellInflationRadius > 0 ==> DistancesOk(cachedCellInflationRadius)
      requires forall b :: 0 <= b < |inflationCells| ==> inflationCells[b] == []
      modifies this`cacheLength, this`cachedDistances, this`cachedCosts, this`cachedCellInflationRadius,
               this`distanceMatrix, this`inflationCells
      ensures Valid()
    {
      if cellInflationRadius == 0 {
        return;
      }
      cacheLength := cellInflationRadius + 2;
      if cellInflationRadius != cachedCellInflationRadius {
        FillDistances();
        cachedCellInflationRadius := cellInflationRadius;
      }
      FillCosts();
      var maxDist := GenerateIntegerDistances();
      inflationCells := seq(maxDist + 1, b => []);
    }

    method FillDistances()
      requires cacheLength == cellInflationRadius + 2
      modifies this`cachedDistances
      ensures DistancesOk(cellInflationRadius)
    {
      var n := cacheLength;
      NonNegProduct(n, n);
      cachedDistances := seq(n * n, k => 0);
      var i := 0;
      while i < n
        invariant 0 <= i <= n && |cachedDistances| == n * n
        invariant forall i', j' :: 0 <= i' < i && 0 <= j' < n ==>
          0 <= Idx(n, j', i') < n * n && cachedDistances[Idx(n, j', i')] == NormSq(i', j')
      {
        var j := 0;
        while j < n
          invariant 0 <= j <= n && |cachedDistances| == n * n
          invariant forall i', j' :: 0 <= i' < i && 0 <= j' < n ==>
            0 <= Idx(n, j', i') < n * n && cachedDistances[Idx(n, j', i')] == NormSq(i', j')
          invariant forall j' :: 0 <= j' < j ==>
            0 <= Idx(n, j', i) < n * n && cachedDistances[Idx(n, j', i)] == NormSq(i, j')
        {
          IdxInRange(n, n, j, i);
          OtherCells(n, j, i);
          cachedDistances := cachedDistances[Idx(n, j, i) := NormSq(i, j)];
          j := j + 1;
        }
        i := i + 1;
      }
    }

    method FillCosts()
      requires ValidParams(cost) && cacheLength == cellInflationRadius + 2 && DistancesOk(cellInflationRadius)
      modifies this`cachedCosts
      ensures CostsOk()
    {
      var n := cacheLength;
      NonNegProduct(n, n);
      cachedCosts := seq(n * n, k => FREE_SPACE);
      var i := 0;
      while i < n
        invariant 0 <= i <= n && |cachedCosts| == n * n
        invariant forall i', j' :: 0 <= i' < i && 0 <= j' < n ==>
          0 <= Idx(n, j', i') < n * n && cachedCosts[Idx(n, j', i')] == ComputeCost(cost, NormSq(i', j'))
      {
        var j := 0;
        while j < n
          invariant 0 <= j <= n && |cachedCosts| == n * n
          invariant forall i', j' :: 0 <= i' < i && 0 <= j' < n ==>
            0 <= Idx(n, j', i') < n * n && cachedCosts[Idx(n, j', i')] == ComputeCost(cost, NormSq(i', j'))
          invariant forall j' :: 0 <= j' < j ==>
            0 <= Idx(n, j', i) < n * n && cachedCosts[Idx(n, j', i)] == ComputeCost(cost, NormSq(i, j'))
        {
          IdxInRange(n, n, j, i);
          OtherCells(n, j, i);
          cachedCosts := cachedCosts[Idx(n, j, i) := ComputeCost(cost, cachedDistances[Idx(n, j, i)])];
          j := j + 1;
        }
        i := i + 1;
      }
    }

    /** generateIntegerDistances: returns the last level of the table it builds. */
    method GenerateIntegerDistances() returns (level: nat)
      modifies this`distanceMatrix
      ensures TableOk()
      ensures level + 1 == NumBins(Field(0, 0, cellInflationRadius))
    {
      hide NormSq, InDisc, Rank, Filled, IsTable, SortedByNorm, NumBins;
      var r: int := cellInflationRadius + 2;
      var points := DiscPoints(r);
      var sorted := SortByNorm(points);
      SameMembers(sorted, points);
      var matrix;
      matrix, level := RankPoints(r, sorted);
      FilledTable(r, matrix, sorted);
      distanceMatrix := matrix;
      LastBin(Field(0, 0, cellInflationRadius), r);
    }

    ghost function TheField(sizeX: nat, sizeY: nat): Field
      reads `cellInflationRadius
    {
      Field(sizeX, sizeY, cellInflationRadius)
    }

    ghost function TheConfig(sizeX: nat, sizeY: nat): Config
      reads `cellInflationRadius, `cost, `inflateUnknown, `aroundUnknown
    {
      Config(TheField(sizeX, sizeY), cost, inflateUnknown, aroundUnknown)
    }

    /** The caches and the table match the current radius. */
    ghost predicate Ready()
      reads `cost, `cellInflationRadius, `cacheLength, `cachedDistances, `cachedCosts, `distanceMatrix
    {
      && ValidParams(cost) && cacheLength == cellInflationRadius + 2
      && DistancesOk(cellInflationRadius) && CostsOk() && TableOk()
    }

    /** distanceLookup; squared. */
    method DistanceLookup(mx: int, my: int, srcX: int, srcY: int) returns (d: int)
      requires Ready() && NearSource(cellInflationRadius, mx - srcX, my - srcY)
      ensures d == NormSq(mx - srcX, my - srcY)
    {
      var dx := if mx > srcX then mx - srcX else srcX - mx;
      var dy := if my > srcY then my - srcY else srcY - my;
      NormOfAbs(mx - srcX, my - srcY, dx, dy);
      d := cachedDistances[Idx(cacheLength, dy, dx)];
    }

    /** costLookup. */
    method CostLookup(mx: int, my: int, srcX: int, srcY: int) returns (c: Cost)
      requires Ready() && NearSource(cellInflationRadius, mx - srcX, my - srcY)
      ensures c == ComputeCost(cost, NormSq(mx - srcX, my - srcY))
    {
      var dx := if mx > srcX then mx - srcX else srcX - mx;
      var dy := if my > srcY then my - srcY else srcY - my;
      NormOfAbs(mx - srcX, my - srcY, dx, dy);
      c := cachedCosts[Idx(cacheLength, dy, dx)];
    }

    /** InflationLayer::enqueue: no index ever leaves the caches, the table or the bin list. */
    method Enqueue(ghost g: Field, index: int, mx: int, my: int, srcX: int, srcY: int)
      requires Ready() && g.radius == cellInflationRadius && |inflationCells| == NumBins(g)
      requires 0 <= index < |seen| && NearSource(cellInflationRadius, mx - srcX, my - srcY)
      modifies this`inflationCells
      ensures 0 <= NormSq(mx - srcX, my - srcY)
      ensures inflationCells == Offer(g, old(inflationCells), seen, Cell(index, mx, my, srcX, srcY))
    {
      NormNonneg(mx - srcX, my - srcY);
      hide NormSq, Idx, Rank, InDisc;
      if !seen[index] {
        var distance := DistanceLookup(mx, my, srcX, srcY);
        if distance > cellInflationRadius * cellInflationRadius {
          return;
        }
        var b := BinOf(g, mx - srcX, my - srcY);
        inflationCells := inflationCells[b := inflationCells[b] + [Cell(index, mx, my, srcX, srcY)]];
      }
    }

    /** The table lookup of enqueue. */
    method BinOf(ghost g: Field, dx: int, dy: int) returns (b: nat)
      requires Ready() && g.radius == cellInflationRadius
      requires 0 <= NormSq(dx, dy) <= g.RadiusSq()
      ensures b == Level(g, NormSq(dx, dy)) && b < NumBins(g)
    {
      var r := cellInflationRadius + 2;
      RadiusInDisc(g, dx, dy);
      LevelInBins(g, NormSq(dx, dy));
      DiscBounds(r);
      hide NormSq, Idx, Rank, InDisc;
      b := distanceMatrix[dx + r][dy + r];
    }

    /** updateCosts: afterwards the grid holds the inflation of what it held before. */
    method UpdateCosts(master: array<Cost>, sizeX: nat, sizeY: nat, minI: int, minJ: int, maxI: int, maxJ: int)
      requires Valid() && master.Length == sizeX * sizeY
      modifies this`seen, this`inflationCells, master
      ensures Valid()
      ensures Fits(TheField(sizeX, sizeY), old(master[..]))
      ensures master[..] ==
        if enabled && cellInflationRadius != 0
        then Inflated(TheConfig(sizeX, sizeY), Box(minI, minJ, maxI, maxJ), old(master[..]))
        else old(master[..])
    {
      hide DistancesOk, CostsOk, TableOk, NumBins, Inflated, ValidParams;
      assert Fits(TheField(sizeX, sizeY), master[..]);
      if !enabled || cellInflationRadius == 0 {
        return;
      }
      NumBinsByRadius(Field(0, 0, cellInflationRadius), TheField(sizeX, sizeY));
      Inflate(master, sizeX, sizeY, Box(minI, minJ, maxI, maxJ));
      inflationCells := seq(|inflationCells|, b => []);
    }

    /** The pass itself: seeds into bin 0, then the bins in order. */
    method Inflate(master: array<Cost>, sizeX: nat, sizeY: nat, box: Box)
      requires Ready() && ValidParams(cost) && Fits(TheField(sizeX, sizeY), master[..])
      requires |inflationCells| == NumBins(TheField(sizeX, sizeY)) > 0
      requires forall b :: 0 <= b < |inflationCells| ==> inflationCells[b] == []
      modifies this`seen, this`inflationCells, master
      ensures |inflationCells| == |old(inflationCells)|
      ensures master[..] == Inflated(TheConfig(sizeX, sizeY), box, old(master[..]))
    {
      hide Idx, NormSq, Rank, SeedScan, Ready, ValidParams, NumBins, Burn, PaintAll;
      ghost var a := master[..];
      ghost var g := TheField(sizeX, sizeY);
      ghost var cfg := TheConfig(sizeX, sizeY);
      NonNegProduct(sizeX, sizeY);
      seen := seq(sizeX * sizeY, i => false);
      var win := Box(Max(0, box.minI - cellInflationRadius), Max(0, box.minJ - cellInflationRadius),
                     Min(sizeX, box.maxI + cellInflationRadius), Min(sizeY, box.maxJ + cellInflationRadius));
      SeedCellsMatch(cfg, box, a);
      ghost var seeds := SeedSet(cfg, win, a);
      var obsBin := CollectSeeds(cfg, win, master, sizeX);
      inflationCells := inflationCells[0 := obsBin];
      KindledOk(g, seeds, obsBin);
      IsKindled(g, obsBin, inflationCells, seen);
      BurnBins(cfg, box, seeds, a, master, sizeX, sizeY);
    }

    /** The bin loops: scan every bin to its live end, nearest level first. */
    method BurnBins(ghost cfg: Config, box: Box, ghost seeds: set<(int, int)>, ghost a: seq<Cost>,
                    master: array<Cost>, sizeX: nat, sizeY: nat)
      requires Ready() && cfg == TheConfig(sizeX, sizeY)
      requires FireOk(cfg.field, seeds, Fire(inflationCells, seen, []))
      requires ValidParams(cfg.cost) && Fits(cfg.field, a) && master[..] == a
      modifies this`seen, this`inflationCells, master
      ensures |inflationCells| == |old(inflationCells)|
      ensures var done := Burn(cfg.field, seeds, 0, Fire(old(inflationCells), old(seen), [])).done;
        (forall k :: 0 <= k < |done| ==> 0 <= done[k].index < |a|) && master[..] == PaintAll(cfg, box, a, done)
    {
      hide Idx, NormSq, Rank, Visit, PaintAll, Field.Area, Ready, ScanBin, Burn, FireOk;
      ghost var g := cfg.field;
      ghost var done := [];
      ghost var goal := Burn(g, seeds, 0, Fire(inflationCells, seen, done));
      PaintNothing(cfg, box, a);
      var lvl := 0;
      while lvl < |inflationCells|
        invariant 0 <= lvl <= |inflationCells| == |old(inflationCells)|
        invariant FireOk(g, seeds, Fire(inflationCells, seen, done))
        invariant Burn(g, seeds, lvl, Fire(inflationCells, seen, done)) == goal
        invariant PaintedSoFar(cfg, box, a, done, master)
      {
        BurnStep(g, seeds, lvl, Fire(inflationCells, seen, done));
        done := BurnBin(cfg, box, seeds, a, done, master, sizeX, sizeY, lvl);
        lvl := lvl + 1;
      }
      BurnDone(g, seeds, lvl, Fire(inflationCells, seen, done));
    }

    /** The loop over one live bin. */
    method BurnBin(ghost cfg: Config, box: Box, ghost seeds: set<(int, int)>, ghost a: seq<Cost>,
                   ghost done: seq<Cell>, master: array<Cost>, sizeX: nat, sizeY: nat, lvl: nat)
      returns (ghost done': seq<Cell>)
      requires Ready() && cfg == TheConfig(sizeX, sizeY) && lvl < |inflationCells|
      requires FireOk(cfg.field, seeds, Fire(inflationCells, seen, done))
      requires Fits(cfg.field, a) && PaintedSoFar(cfg, box, a, done, master)
      modifies this`seen, this`inflationCells, master
      ensures Fire(inflationCells, seen, done') ==
        ScanBin(cfg.field, seeds, lvl, 0, Fire(old(inflationCells), old(seen), done))
      ensures |inflationCells| == |old(inflationCells)|
      ensures PaintedSoFar(cfg, box, a, done', master)
    {
      hide Idx, NormSq, Rank, Visit, PaintAll, Field.Area, Ready, PaintedSoFar, CellOk;
      ghost var g := cfg.field;
      done' := done;
      ghost var scanned := ScanBin(g, seeds, lvl, 0, Fire(inflationCells, seen, done'));
      var i := 0;
      while i < |inflationCells[lvl]|
        invariant |inflationCells| == |old(inflationCells)|
        invariant 0 <= i <= |inflationCells[lvl]|
        invariant FireOk(g, seeds, Fire(inflationCells, seen, done'))
        invariant ScanBin(g, seeds, lvl, i, Fire(inflationCells, seen, done')) == scanned
        invariant PaintedSoFar(cfg, box, a, done', master)
        decreases |inflationCells[lvl]| - i
      {
        done' := VisitCell(cfg, box, seeds, a, done', master, sizeX, sizeY, inflationCells[lvl][i]);
        i := i + 1;
      }
    }

    /** One iteration of the inner loop. */
    method VisitCell(ghost cfg: Config, box: Box, ghost seeds: set<(int, int)>, ghost a: seq<Cost>,
                     ghost done: seq<Cell>, master: array<Cost>, sizeX: nat, sizeY: nat, c: Cell)
      returns (ghost done': seq<Cell>)
      requires Ready() && cfg == TheConfig(sizeX, sizeY)
      requires FireOk(cfg.field, seeds, Fire(inflationCells, seen, done)) && CellOk(cfg.field, seeds, c)
      requires Fits(cfg.field, a) && PaintedSoFar(cfg, box, a, done, master)
      modifies this`seen, this`inflationCells, master
      ensures Fire(inflationCells, seen, done') ==
        Visit(cfg.field, seeds, Fire(old(inflationCells), old(seen), done), c)
      ensures PaintedSoFar(cfg, box, a, done', master)
    {
      ghost var g := cfg.field;
      hide Idx, NormSq, Rank, PaintAll, EnqueueStep, Ready;
      done' := done;
      if seen[c.index] {
        return;
      }
      MarkKeeps(g, seeds, Fire(inflationCells, seen, done), c);
      seen := seen[c.index := true];
      done' := done + [c];
      PaintCellNow(cfg, box, seeds, a, done, master, c);
      Spread(g, seeds, done', sizeX, sizeY, c, -1, 0);
      Spread(g, seeds, done', sizeX, sizeY, c, 0, -1);
      Spread(g, seeds, done', sizeX, sizeY, c, 1, 0);
      Spread(g, seeds, done', sizeX, sizeY, c, 0, 1);
    }

    /** Writes the cost of a processed cell, inside the update box only. */
    method PaintCellNow(ghost cfg: Config, box: Box, ghost seeds: set<(int, int)>, ghost a: seq<Cost>,
                        ghost done: seq<Cell>, master: array<Cost>, c: Cell)
      requires Ready() && cfg.field.radius == cellInflationRadius && cfg.cost == cost
      requires cfg.inflateUnknown == inflateUnknown
      requires CellOk(cfg.field, seeds, c) && Fits(cfg.field, a) && PaintedSoFar(cfg, box, a, done, master)
      modifies master
      ensures PaintedSoFar(cfg, box, a, done + [c], master)
    {
      hide Idx, NormSq, Rank, PaintAll, Field.Area, Field.RadiusSq, ComputeCost, Ready, Blend, CellOk, NearSource,
           Box.Contains, ValidParams;
      CellNearSource(cfg.field, seeds, c);
      PaintOneMore(cfg, box, a, done, c);
      var cost := CostLookup(c.x, c.y, c.srcX, c.srcY);
      WriteCost(box, master, c, cost);
    }

    /** The two ways a cost is written, inside the update box only. */
    method WriteCost(box: Box, master: array<Cost>, c: Cell, cost: Cost)
      requires 0 <= c.index < master.Length
      modifies master
      ensures master[..] == if box.Contains(c.x, c.y)
                            then old(master[..])[c.index := Blend(inflateUnknown, old(master[c.index]), cost)]
                            else old(master[..])
    {
      var oldCost := master[c.index];
      if c.x >= box.minI && c.y >= box.minJ && c.x < box.maxI && c.y < box.maxJ {
        if oldCost == NO_INFORMATION &&
           (if inflateUnknown then cost > FREE_SPACE else cost >= INSCRIBED_INFLATED_OBSTACLE)
        {
          master[c.index] := cost;
        } else {
          master[c.index] := if oldCost >= cost then oldCost else cost;
        }
      }
    }

    /** One of the four guarded enqueue calls. */
    method Spread(ghost g: Field, ghost seeds: set<(int, int)>, ghost done: seq<Cell>, sizeX: nat, sizeY: nat,
                  c: Cell, ex: int, ey: int)
      requires Ready() && g == TheField(sizeX, sizeY)
      requires FireOk(g, seeds, Fire(inflationCells, seen, done)) && CellOk(g, seeds, c)
      requires (ex, ey) in {(1, 0), (-1, 0), (0, 1), (0, -1)}
      modifies this`inflationCells
      ensures Fire(inflationCells, seen, done) ==
        EnqueueStep(g, seeds, Fire(old(inflationCells), seen, done), c, ex, ey)
    {
      hide Idx, NormSq, Rank, EnqueueStep, Ready, Offer;
      EnqueueStepCase(g, seeds, Fire(inflationCells, seen, done), c, ex, ey);
      if 0 <= c.x + ex < sizeX && 0 <= c.y + ey < sizeY {
        StepNearSource(g, seeds, c, ex, ey);
        IdxOfStep(sizeX, c.x, c.y, ex, ey);
        Enqueue(g, c.index + ex + ey * sizeX, c.x + ex, c.y + ey, c.srcX, c.srcY);
      }
    }

    /** The seed loop: what goes into bin 0. */
    method CollectSeeds(ghost cfg: Config, win: Box, master: array<Cost>, sizeX: nat) returns (obsBin: seq<Cell>)
      requires Fits(cfg.field, master[..]) && InWindow(cfg.field, win)
      requires cfg.aroundUnknown == aroundUnknown && cfg.field.sizeX == sizeX
      ensures obsBin == SeedScan(cfg, win, master[..], win.minI, win.minJ)
    {
      hide SeedScan, SeedAt, Idx, Field.Area, Fits;
      ghost var a := master[..];
      ghost var goal := SeedScan(cfg, win, a, win.minI, win.minJ);
      obsBin := [];
      var j := win.minJ;
      while j < win.maxJ
        invariant win.minJ <= j
        invariant obsBin + SeedScan(cfg, win, a, win.minI, j) == goal
      {
        var row := CollectRow(cfg, win, master, sizeX, j);
        obsBin := obsBin + row;
        j := j + 1;
      }
      ScanEnd(cfg, win, a, win.minI, j);
    }

    /** The inner seed loop: the seeds of row `j`. */
    method CollectRow(ghost cfg: Config, win: Box, master: array<Cost>, sizeX: nat, j: int) returns (row: seq<Cell>)
      requires Fits(cfg.field, master[..]) && InWindow(cfg.field, win) && win.minJ <= j < win.maxJ
      requires cfg.aroundUnknown == aroundUnknown && cfg.field.sizeX == sizeX
      ensures row + SeedScan(cfg, win, master[..], win.minI, j + 1) == SeedScan(cfg, win, master[..], win.minI, j)
    {
      hide SeedScan, SeedAt, Idx, Fits, IsSeed;
      ghost var a := master[..];
      row := [];
      var i := win.minI;
      while i < win.maxI
        invariant win.minI <= i
        invariant row + SeedScan(cfg, win, a, i, j) == SeedScan(cfg, win, a, win.minI, j)
      {
        ScanStep(cfg, win, a, i, j);
        SeedAtValue(cfg, a, i, j);
        var index := Idx(sizeX, i, j);
        if IsSeed(aroundUnknown, master[index]) {
          row := row + [Cell(index, i, j, i, j)];
        }
        i := i + 1;
      }
      ScanRowEnd(cfg, win, a, i, j);
    }
  }

  lemma ScanStep(cfg: Config, win: Box, a: seq<Cost>, i: int, j: int)
    requires Fits(cfg.field, a) && InWindow(cfg.field, win) && win.minI <= i < win.maxI && win.minJ <= j < win.maxJ
    ensures SeedScan(cfg, win, a, i, j) == SeedAt(cfg, a, i, j) + SeedScan(cfg, win, a, i + 1, j)
  {
  }

  lemma ScanRowEnd(cfg: Config, win: Box, a: seq<Cost>, i: int, j: int)
    requires Fits(cfg.field, a) && InWindow(cfg.field, win)
    requires win.minI <= i && win.maxI <= i && win.minJ <= j < win.maxJ
    ensures SeedScan(cfg, win, a, i, j) == SeedScan(cfg, win, a, win.minI, j + 1)
  {
  }

  lemma ScanEnd(cfg: Config, win: Box, a: seq<Cost>, i: int, j: int)
    requires Fits(cfg.field, a) && InWindow(cfg.field, win) && win.minI <= i && win.minJ <= j && win.maxJ <= j
    ensures SeedScan(cfg, win, a, i, j) == []
  {
  }

  lemma SeedAtValue(cfg: Config, a: seq<Cost>, i: int, j: int)
    requires Fits(cfg.field, a) && 0 <= i < cfg.field.sizeX && 0 <= j < cfg.field.sizeY
    ensures var k := Idx(cfg.field.sizeX, i, j);
      0 <= k < |a| && SeedAt(cfg, a, i, j) == if IsSeed(cfg.aroundUnknown, a[k]) then [Cell(k, i, j, i, j)] else []
  {
    IdxInRange(cfg.field.sizeX, cfg.field.sizeY, i, j);
  }

  lemma BurnStep(g: Field, seeds: set<(int, int)>, lvl: nat, f: Fire)
    requires FireOk(g, seeds, f) && lvl < |f.bins|
    ensures FireOk(g, seeds, ScanBin(g, seeds, lvl, 0, f)) && |ScanBin(g, seeds, lvl, 0, f).bins| == |f.bins|
    ensures Burn(g, seeds, lvl, f) == Burn(g, seeds, lvl + 1, ScanBin(g, seeds, lvl, 0, f))
  {
    hide ScanBin, CellOk, NumBins;
  }

  lemma BurnDone(g: Field, seeds: set<(int, int)>, lvl: nat, f: Fire)
    requires FireOk(g, seeds, f) && lvl == |f.bins|
    ensures Burn(g, seeds, lvl, f) == f
  {
  }

  lemma NumBinsByRadius(g: Field, g': Field)
    requires g.radius == g'.radius
    ensures NumBins(g) == NumBins(g') > 0
  {
  }

  lemma IsKindled(g: Field, seedCells: seq<Cell>, bins: seq<seq<Cell>>, seen: seq<bool>)
    requires |bins| == NumBins(g) && |bins| > 0 && bins[0] == seedCells
    requires forall b :: 0 < b < |bins| ==> bins[b] == []
    requires |seen| == g.Area() && forall i :: 0 <= i < |seen| ==> !seen[i]
    ensures Fire(bins, seen, []) == Kindled(g, seedCells)
  {
    hide NumBins, Field.Area;
  }

  /** The grid holds `a` with the cells of `done` painted. */
  ghost predicate PaintedSoFar(cfg: Config, box: Box, a: seq<Cost>, done: seq<Cell>, master: array<Cost>)
    reads master
  {
    && ValidParams(cfg.cost)
    && (forall k :: 0 <= k < |done| ==> 0 <= done[k].index < |a|)
    && master[..] == PaintAll(cfg, box, a, done)
  }

  lemma LastBin(g: Field, r: int)
    requires r == g.radius + 2
    ensures 0 <= r * r && Rank(r, r * r) + 1 == NumBins(g)
  {
    hide Rank;
    SquareNonneg(r);
  }

  lemma PaintNothing(cfg: Config, box: Box, a: seq<Cost>)
    requires ValidParams(cfg.cost)
    ensures PaintAll(cfg, box, a, []) == a
  {
  }

  lemma PaintOneMore(cfg: Config, box: Box, a: seq<Cost>, done: seq<Cell>, c: Cell)
    requires ValidParams(cfg.cost) && 0 <= c.index < |a|
    requires forall k :: 0 <= k < |done| ==> 0 <= done[k].index < |a|
    ensures PaintAll(cfg, box, a, done + [c]) == PaintCell(cfg, box, PaintAll(cfg, box, a, done), c)
  {
    assert (done + [c])[..|done|] == done;
  }

  lemma CellNearSource(g: Field, seeds: set<(int, int)>, c: Cell)
    requires CellOk(g, seeds, c)
    ensures NearSource(g.radius, c.x - c.srcX, c.y - c.srcY) && 0 <= c.index < g.Area()
  {
    WithinRadiusIsNear(g, c.x - c.srcX, c.y - c.srcY);
  }

  lemma WithinRadiusIsNear(g: Field, dx: int, dy: int)
    requires NormSq(dx, dy) <= g.RadiusSq()
    ensures NearSource(g.radius, dx, dy)
  {
    OffsetBound(g.radius, dx, dy);
  }

  lemma IdxOfStep(w: nat, x: int, y: int, ex: int, ey: int)
    ensures Idx(w, x + ex, y + ey) == Idx(w, x, y) + ex + ey * w
  {
  }

  lemma EnqueueStepCase(g: Field, seeds: set<(int, int)>, f: Fire, c: Cell, ex: int, ey: int)
    requires FireOk(g, seeds, f) && CellOk(g, seeds, c)
    requires (ex, ey) in {(1, 0), (-1, 0), (0, 1), (0, -1)}
    ensures var n := Neighbour(g, c, ex, ey);
      if StepInGrid(g, c, ex, ey)
      then 0 <= n.index < |f.seen| && 0 <= n.DistSq() &&
           EnqueueStep(g, seeds, f, c, ex, ey) == f.(bins := Offer(g, f.bins, f.seen, n))
      else EnqueueStep(g, seeds, f, c, ex, ey) == f
  {
    if StepInGrid(g, c, ex, ey) {
      var n := Neighbour(g, c, ex, ey);
      IdxInRange(g.sizeX, g.sizeY, n.x, n.y);
      NormNonneg(n.x - n.srcX, n.y - n.srcY);
      hide Idx, NormSq, Rank, Offer;
    }
  }

  /** Offset of a cell at most one step beyond the radius: the range the caches cover. */
  ghost predicate NearSource(radius: nat, dx: int, dy: int) {
    -(radius + 1) <= dx <= radius + 1 && -(radius + 1) <= dy <= radius + 1
  }

  lemma NormOfAbs(dx: int, dy: int, ax: int, ay: int)
    requires ax == (if dx > 0 then dx else -dx) && ay == (if dy > 0 then dy else -dy)
    ensures NormSq(ax, ay) == NormSq(dx, dy)
  {
  }

  lemma StepNearSource(g: Field, seeds: set<(int, int)>, c: Cell, ex: int, ey: int)
    requires CellOk(g, seeds, c) && (ex, ey) in {(1, 0), (-1, 0), (0, 1), (0, -1)} && StepInGrid(g, c, ex, ey)
    ensures NearSource(g.radius, c.x - c.srcX, c.y - c.srcY)
    ensures NearSource(g.radius, c.x + ex - c.srcX, c.y + ey - c.srcY)
    ensures 0 <= Idx(g.sizeX, c.x + ex, c.y + ey) < g.Area()
  {
    OffsetBound(g.radius, c.x - c.srcX, c.y - c.srcY);
    IdxInRange(g.sizeX, g.sizeY, c.x + ex, c.y + ey);
  }

  /** The ranking loop over the sorted points. */
  method RankPoints(r: int, sorted: seq<(int, int)>) returns (matrix: seq<seq<int>>, level: nat)
    requires 0 <= r && SortedByNorm(sorted)
    requires forall x, y :: (x, y) in sorted <==> InDisc(r, x, y)
    ensures Filled(r, matrix, sorted, |sorted|)
    ensures 0 <= r * r && level == Rank(r, r * r)
  {
    hide NormSq, InDisc, Rank, Filled, IsTable, SortedByNorm;
    OriginOfDisc(r);
    matrix := BlankTable(r, sorted);
    var last := (0, 0);
    level := 0;
    var k := 0;
    while k < |sorted|
      invariant 0 <= k <= |sorted| && Filled(r, matrix, sorted, k)
      invariant InDisc(r, last.0, last.1) && 0 <= NormSq(last.0, last.1)
      invariant level == Rank(r, NormSq(last.0, last.1))
      invariant last == if k == 0 then (0, 0) else sorted[k - 1]
    {
      var p := sorted[k];
      NextLevel(r, sorted, k, last);
      if NormSq(p.0, p.1) != NormSq(last.0, last.1) {
        level := level + 1;
      }
      FillNext(r, matrix, sorted, k, level);
      matrix := SetEntry(r, matrix, p, level);
      last := p;
      k := k + 1;
    }
    LastLevel(r, sorted, last);
  }

  /** The first `k` points of `sorted` have their rank in the table. */
  ghost predicate Filled(r: int, m: seq<seq<int>>, sorted: seq<(int, int)>, k: int) {
    && IsTable(r, m) && 0 <= k <= |sorted|
    && forall j :: 0 <= j < k ==> HasRank(r, m, sorted[j])
  }

  ghost predicate HasRank(r: int, m: seq<seq<int>>, p: (int, int))
    requires IsTable(r, m)
  {
    && -r <= p.0 <= r && -r <= p.1 <= r && 0 <= NormSq(p.0, p.1)
    && m[p.0 + r][p.1 + r] == Rank(r, NormSq(p.0, p.1))
  }

  function SetEntry(r: int, m: seq<seq<int>>, p: (int, int), level: int): seq<seq<int>>
    requires IsTable(r, m) && -r <= p.0 <= r && -r <= p.1 <= r
  {
    m[p.0 + r := m[p.0 + r][p.1 + r := level]]
  }

  function BlankTable(r: int, sorted: seq<(int, int)>): (m: seq<seq<int>>)
    requires 0 <= r
    ensures Filled(r, m, sorted, 0)
  {
    seq(2 * r + 1, i => seq(2 * r + 1, j => 0))
  }

  lemma FillNext(r: int, m: seq<seq<int>>, sorted: seq<(int, int)>, k: int, level: int)
    requires Filled(r, m, sorted, k) && k < |sorted|
    requires var p := sorted[k];
      InDisc(r, p.0, p.1) && 0 <= NormSq(p.0, p.1) && level == Rank(r, NormSq(p.0, p.1))
    ensures var p := sorted[k];
      IsTable(r, m) && -r <= p.0 <= r && -r <= p.1 <= r && Filled(r, SetEntry(r, m, p, level), sorted, k + 1)
  {
    DiscBounds(r);
    hide NormSq, InDisc, Rank;
    var p := sorted[k];
    var m' := SetEntry(r, m, p, level);
    forall j | 0 <= j < k + 1
      ensures HasRank(r, m', sorted[j])
    {
      if j < k {
        assert HasRank(r, m, sorted[j]);
      }
    }
  }

  lemma FilledTable(r: int, m: seq<seq<int>>, sorted: seq<(int, int)>)
    requires Filled(r, m, sorted, |sorted|)
    requires forall x, y :: (x, y) in sorted <==> InDisc(r, x, y)
    ensures IsTable(r, m)
    ensures forall x, y :: InDisc(r, x, y) ==>
      0 <= NormSq(x, y) && -r <= x <= r && -r <= y <= r && m[x + r][y + r] == Rank(r, NormSq(x, y))
  {
    hide NormSq, InDisc, Rank;
    forall x, y | InDisc(r, x, y)
      ensures 0 <= NormSq(x, y) && -r <= x <= r && -r <= y <= r && m[x + r][y + r] == Rank(r, NormSq(x, y))
    {
      assert (x, y) in sorted;
      var j :| 0 <= j < |sorted| && sorted[j] == (x, y);
      assert HasRank(r, m, sorted[j]);
    }
  }

  /** Writing entry (x, y) of a square table leaves the entries of other cells alone. */
  lemma OtherCells(n: nat, x: int, y: int)
    requires 0 <= x < n
    ensures forall x', y' :: 0 <= x' < n && (x', y') != (x, y) ==> Idx(n, x', y') != Idx(n, x, y)
  {
    forall x', y' | 0 <= x' < n && Idx(n, x', y') == Idx(n, x, y)
      ensures x' == x && y' == y
    {
      IdxInjective(n, x', y', x, y);
    }
  }

  predicate IsTable(r: int, m: seq<seq<int>>) {
    r >= 0 && |m| == 2 * r + 1 && forall i :: 0 <= i < |m| ==> |m[i]| == 2 * r + 1
  }

  lemma DiscBounds(r: int)
    ensures forall x, y :: InDisc(r, x, y) ==> -r <= x <= r && -r <= y <= r
  {
  }

  /** Every offset of the disc, row by row. */
  method DiscPoints(r: int) returns (points: seq<(int, int)>)
    requires 0 <= r
    ensures forall x, y :: (x, y) in points <==> InDisc(r, x, y)
  {
    DiscBounds(r);
    points := [];
    var y := -r;
    while y <= r
      invariant -r <= y <= r + 1
      invariant forall x', y' :: (x', y') in points <==> InDisc(r, x', y') && y' < y
    {
      points := DiscRow(r, y, points);
      y := y + 1;
    }
  }

  /** The inner loop: the offsets of row `y`. */
  method DiscRow(r: int, y: int, before: seq<(int, int)>) returns (points: seq<(int, int)>)
    requires -r <= y <= r
    requires forall x', y' :: (x', y') in before <==> InDisc(r, x', y') && y' < y
    ensures forall x', y' :: (x', y') in points <==> InDisc(r, x', y') && y' < y + 1
  {
    points := before;
    DiscBounds(r);
    var x := -r;
    while x <= r
      invariant -r <= x <= r + 1
      invariant forall x', y' :: (x', y') in points <==> InDisc(r, x', y') && (y' < y || (y' == y && x' < x))
    {
      hide InDisc, NormSq;
      if DiscTest(r, x, y) {
        points := points + [(x, y)];
      }
      x := x + 1;
    }
  }

  predicate DiscTest(r: int, x: int, y: int)
    requires -r <= x <= r && -r <= y <= r
    ensures DiscTest(r, x, y) <==> InDisc(r, x, y)
  {
    x * x + y * y <= r * r
  }

  /** Moving to the next point of the sorted disc raises the rank by one exactly when the distance changes. */
  lemma NextLevel(r: int, sorted: seq<(int, int)>, k: nat, last: (int, int))
    requires 0 <= r && k < |sorted| && SortedByNorm(sorted)
    requires forall x, y :: (x, y) in sorted <==> InDisc(r, x, y)
    requires InDisc(r, last.0, last.1)
    requires if k == 0 then last == (0, 0) else last == sorted[k - 1]
    ensures var d, e := NormSq(last.0, last.1), NormSq(sorted[k].0, sorted[k].1);
      && 0 <= d <= e && InDisc(r, sorted[k].0, sorted[k].1)
      && Rank(r, e) == Rank(r, d) + (if e == d then 0 else 1)
  {
    hide NormSq, InDisc, Rank;
    var p := sorted[k];
    assert (p.0, p.1) in sorted;
    var d, e := NormSq(last.0, last.1), NormSq(p.0, p.1);
    NormNonneg(last.0, last.1);
    NormNonneg(p.0, p.1);
    if k == 0 {
      NormZero(0, 0, 0, 0);
    }
    if d != e {
      assert IsDist(r, d);
      forall m | d < m < e
        ensures !IsDist(r, m)
      {
        if IsDist(r, m) {
          SkippedDistance(r, sorted, k, m, d, e);
        }
      }
      RankGap(r, d, e);
    }
  }

  lemma SkippedDistance(r: int, sorted: seq<(int, int)>, k: nat, m: int, d: int, e: int)
    requires k < |sorted| && SortedByNorm(sorted) && IsDist(r, m)
    requires forall x, y :: (x, y) in sorted <==> InDisc(r, x, y)
    requires e == NormSq(sorted[k].0, sorted[k].1)
    requires k > 0 ==> d == NormSq(sorted[k - 1].0, sorted[k - 1].1)
    ensures m >= e || (k > 0 && m <= d)
  {
    hide NormSq, InDisc;
    var x, y :| InDisc(r, x, y) && NormSq(x, y) == m;
    assert (x, y) in sorted;
    var j :| 0 <= j < |sorted| && sorted[j] == (x, y);
  }

  lemma OriginOfDisc(r: int)
    requires 0 <= r
    ensures InDisc(r, 0, 0) && NormSq(0, 0) == 0 && Rank(r, 0) == 0
  {
    AxisPoint(r, 0);
  }

  /** The last point of the sorted disc lies on its rim. */
  lemma LastLevel(r: int, sorted: seq<(int, int)>, last: (int, int))
    requires 0 <= r && SortedByNorm(sorted)
    requires forall x, y :: (x, y) in sorted <==> InDisc(r, x, y)
    requires sorted != [] ==> last == sorted[|sorted| - 1]
    ensures NormSq(last.0, last.1) == r * r
  {
    AxisPoint(r, r);
    assert (r, 0) in sorted;
    var j :| 0 <= j < |sorted| && sorted[j] == (r, 0);
    assert (last.0, last.1) in sorted;
  }
}
