/** The footprint collision checker: an early-exit maximum over a closed outline. */
module Footprint {
  import opened CostValues
  import opened Arithmetic
  import opened GridIndex
  import opened Line
  import opened Outline
  import opened RollingWindow
  import opened Costmap

  function CostOf(f: Frame, a: seq<Cost>, c: Loc): int
    requires |a| == f.sizeX * f.sizeY && f.Contains(c.0, c.1)
  {
    IdxInRange(f.sizeX, f.sizeY, c.0, c.1);
    a[Idx(f.sizeX, c.0, c.1)]
  }

  ghost predicate AllInMap(f: Frame, cells: seq<Loc>) {
    forall k :: 0 <= k < |cells| ==> f.Contains(cells[k].0, cells[k].1)
  }

  /**
   `c` reaches LETHAL exactly when some listed cell does; below LETHAL it is the exact maximum,
   with 0 for the empty list.
   */
  ghost predicate Summarises(f: Frame, a: seq<Cost>, cells: seq<Loc>, c: int)
    requires |a| == f.sizeX * f.sizeY && AllInMap(f, cells)
  {
    && 0 <= c
    && (c >= LETHAL_OBSTACLE <==> exists k :: 0 <= k < |cells| && CostOf(f, a, cells[k]) >= LETHAL_OBSTACLE)
    && (c < LETHAL_OBSTACLE ==>
          && (forall k :: 0 <= k < |cells| ==> CostOf(f, a, cells[k]) <= c)
          && (c == 0 || exists k :: 0 <= k < |cells| && CostOf(f, a, cells[k]) == c))
  }

  /** In buffer values, row by row: at least 254 exactly when a listed cell is, and below that their maximum. */
  lemma SummaryInValues(f: Frame, a: seq<Cost>, cells: seq<Loc>, c: int)
    requires |a| == f.sizeX * f.sizeY && AllInMap(f, cells) && Summarises(f, a, cells, c)
    ensures forall k :: 0 <= k < |cells| ==> 0 <= cells[k].1 * f.sizeX + cells[k].0 < |a|
    ensures c >= 254 <==> exists k :: 0 <= k < |cells| && a[cells[k].1 * f.sizeX + cells[k].0] >= 254
    ensures c < 254 ==>
      && (forall k :: 0 <= k < |cells| ==> a[cells[k].1 * f.sizeX + cells[k].0] <= c)
      && (c == 0 || exists k :: 0 <= k < |cells| && a[cells[k].1 * f.sizeX + cells[k].0] == c)
  {
    forall k | 0 <= k < |cells|
      ensures 0 <= cells[k].1 * f.sizeX + cells[k].0 < |a|
      ensures CostOf(f, a, cells[k]) == a[cells[k].1 * f.sizeX + cells[k].0]
    {
      IdxInRange(f.sizeX, f.sizeY, cells[k].0, cells[k].1);
    }
    hide CostOf, Idx, Frame.Contains;
  }

  /** Summaries of two lists combine by maximum. */
  lemma SummariseBoth(f: Frame, a: seq<Cost>, s: seq<Loc>, t: seq<Loc>, c: int, d: int)
    requires |a| == f.sizeX * f.sizeY && AllInMap(f, s) && AllInMap(f, t)
    requires Summarises(f, a, s, c) && Summarises(f, a, t, d)
    ensures AllInMap(f, s + t) && Summarises(f, a, s + t, Max(c, d))
  {
    hide CostOf;
    var u := s + t;
    if k :| 0 <= k < |s| && CostOf(f, a, s[k]) >= LETHAL_OBSTACLE {
      assert u[k] == s[k];
    }
    if k :| 0 <= k < |t| && CostOf(f, a, t[k]) >= LETHAL_OBSTACLE {
      assert u[|s| + k] == t[k];
    }
    if k :| 0 <= k < |s| && CostOf(f, a, s[k]) == c {
      assert u[k] == s[k];
    }
    if k :| 0 <= k < |t| && CostOf(f, a, t[k]) == d {
      assert u[|s| + k] == t[k];
    }
  }

  /** One lethal cell settles a list, whatever its other costs. */
  lemma LethalSummary(f: Frame, a: seq<Cost>, cells: seq<Loc>, k: int, c: int)
    requires |a| == f.sizeX * f.sizeY && AllInMap(f, cells)
    requires 0 <= k < |cells| && CostOf(f, a, cells[k]) >= LETHAL_OBSTACLE && c >= LETHAL_OBSTACLE
    ensures Summarises(f, a, cells, c)
  {
  }

  // ---------- which of the two lethal values ----------

  ghost predicate Reaches(f: Frame, a: seq<Cost>, cells: seq<Loc>) {
    && |a| == f.sizeX * f.sizeY && AllInMap(f, cells)
    && exists k :: 0 <= k < |cells| && CostOf(f, a, cells[k]) >= LETHAL_OBSTACLE
  }

  ghost predicate HasLethal(f: Frame, a: seq<Cost>, cells: seq<Loc>) {
    && |a| == f.sizeX * f.sizeY && AllInMap(f, cells)
    && exists k :: 0 <= k < |cells| && CostOf(f, a, cells[k]) == LETHAL_OBSTACLE
  }

  /** What one line contributes: 254 if it holds a lethal cell, else 255 if it holds an unknown one. */
  ghost predicate Scores(f: Frame, a: seq<Cost>, cells: seq<Loc>, c: int) {
    && 0 <= c <= NO_INFORMATION
    && (c >= LETHAL_OBSTACLE <==> Reaches(f, a, cells))
    && (c == LETHAL_OBSTACLE <==> HasLethal(f, a, cells))
  }

  /** Line `e` is the first one with a cell of at least LETHAL. */
  ghost predicate FirstReached(f: Frame, a: seq<Cost>, lines: seq<seq<Loc>>, e: int) {
    && 0 <= e < |lines| && Reaches(f, a, lines[e])
    && forall e' :: 0 <= e' < e ==> !Reaches(f, a, lines[e'])
  }

  /** Below LETHAL no line reaches it; otherwise the first line that does decides between 254 and 255. */
  ghost predicate Decides(f: Frame, a: seq<Cost>, lines: seq<seq<Loc>>, c: int) {
    if c < LETHAL_OBSTACLE then 0 <= c && forall e :: 0 <= e < |lines| ==> !Reaches(f, a, lines[e])
    else
      exists e :: FirstReached(f, a, lines, e) &&
        c == if HasLethal(f, a, lines[e]) then LETHAL_OBSTACLE else NO_INFORMATION
  }

  lemma DecidesOneMore(f: Frame, a: seq<Cost>, lines: seq<seq<Loc>>, c: int, line: seq<Loc>, d: int)
    requires Decides(f, a, lines, c) && c != LETHAL_OBSTACLE && Scores(f, a, line, d)
    ensures Decides(f, a, lines + [line], Max(c, d))
  {
    hide Reaches, HasLethal;
    if c < LETHAL_OBSTACLE {
      if d >= LETHAL_OBSTACLE {
        assert FirstReached(f, a, lines + [line], |lines|);
      }
    } else {
      DecidesForGood(f, a, lines, c, [line]);
    }
  }

  /** Once some line has reached LETHAL, later lines change nothing. */
  lemma DecidesForGood(f: Frame, a: seq<Cost>, lines: seq<seq<Loc>>, c: int, more: seq<seq<Loc>>)
    requires Decides(f, a, lines, c) && c >= LETHAL_OBSTACLE
    ensures Decides(f, a, lines + more, c) && c <= NO_INFORMATION
  {
    hide Reaches, HasLethal;
    var e :| FirstReached(f, a, lines, e) &&
      c == if HasLethal(f, a, lines[e]) then LETHAL_OBSTACLE else NO_INFORMATION;
    assert FirstReached(f, a, lines + more, e);
  }

  /** The lines of a path, one by one. */
  function LinesOf(path: seq<Loc>): seq<seq<Loc>> {
    if |path| < 2 then []
    else LinesOf(path[..|path| - 1]) + [LineCells(path[|path| - 2], path[|path| - 1])]
  }

  lemma {:induction false} LinesOfPrefix(path: seq<Loc>, n: nat)
    requires n <= |path|
    ensures LinesOf(path[..n]) <= LinesOf(path)
  {
    hide LineCells;
    if n == |path| {
      assert path[..n] == path;
    } else {
      var m := |path| - 1;
      LinesOfPrefix(path[..m], n);
      assert path[..m][..n] == path[..n];
    }
  }

  /** A lethal prefix of the lines decides the whole outline. */
  lemma DecidedEarly(f: Frame, a: seq<Cost>, polygon: seq<Loc>, n: nat, c: int)
    requires 0 < n <= |polygon| && Decides(f, a, LinesOf(polygon[..n]), c) && c >= LETHAL_OBSTACLE
    ensures Decides(f, a, FootprintLines(polygon), c)
  {
    hide LineCells, LinesOf, Decides;
    LinesOfPrefix(polygon, n);
    var lines := LinesOf(polygon[..n]);
    DecidesForGood(f, a, lines, c, FootprintLines(polygon)[|lines|..]);
    assert lines + FootprintLines(polygon)[|lines|..] == FootprintLines(polygon);
  }

  lemma LineInMap(f: Frame, p: Loc, q: Loc)
    requires f.Contains(p.0, p.1) && f.Contains(q.0, q.1)
    ensures AllInMap(f, LineCells(p, q))
  {
    forall i | 0 <= i <= Steps(p, q)
      ensures f.Contains(LineCell(p, q, i).0, LineCell(p, q, i).1)
    {
      LineInRectangle(p, q, i);
    }
  }

  lemma {:induction false} PathInMap(f: Frame, path: seq<Loc>)
    requires AllInMap(f, path)
    ensures AllInMap(f, PathCells(path))
  {
    hide LineCells;
    if |path| >= 2 {
      PathInMap(f, path[..|path| - 1]);
      LineInMap(f, path[|path| - 2], path[|path| - 1]);
    }
  }

  class FootprintCollisionChecker {
    var costmap: Costmap2D

    constructor (costmap: Costmap2D)
      ensures this.costmap == costmap
    {
      this.costmap := costmap;
    }

    /** pointCost. */
    method PointCost(x: int, y: int) returns (c: int)
      requires costmap.Valid() && costmap.TheFrame().Contains(x, y)
      ensures c == CostOf(costmap.TheFrame(), costmap.costmap[..], (x, y))
      ensures 0 <= c < 256
    {
      IdxInRange(costmap.sizeX, costmap.sizeY, x, y);
      c := costmap.costmap[Idx(costmap.sizeX, x, y)];
    }

    /** lineCost: leaves at the first cell of cost exactly LETHAL. */
    method LineCost(x0: int, x1: int, y0: int, y1: int) returns (lineCost: int)
      requires costmap.Valid()
      requires costmap.TheFrame().Contains(x0, y0) && costmap.TheFrame().Contains(x1, y1)
      ensures AllInMap(costmap.TheFrame(), LineCells((x0, y0), (x1, y1)))
      ensures Summarises(costmap.TheFrame(), costmap.costmap[..], LineCells((x0, y0), (x1, y1)), lineCost)
      ensures Scores(costmap.TheFrame(), costmap.costmap[..], LineCells((x0, y0), (x1, y1)), lineCost)
    {
      hide CostOf, LineCell, Frame.Contains, Summarises;
      ghost var f, a := costmap.TheFrame(), costmap.costmap[..];
      ghost var cells := LineCells((x0, y0), (x1, y1));
      LineInMap(f, (x0, y0), (x1, y1));
      lineCost := 0;
      NothingToSummarise(f, a);
      assert cells[..0] == [];
      var line := new LineIterator(x0, y0, x1, y1);
      while line.IsValid()
        invariant fresh(line) && line.Valid() && line.start == (x0, y0) && line.end == (x1, y1)
        invariant costmap == old(costmap) && costmap.TheFrame() == f && costmap.costmap[..] == a && costmap.Valid()
        invariant line.curPixel <= |cells| && AllInMap(f, cells[..line.curPixel])
        invariant Summarises(f, a, cells[..line.curPixel], lineCost)
        invariant lineCost <= NO_INFORMATION && lineCost != LETHAL_OBSTACLE
        invariant forall k :: 0 <= k < line.curPixel ==> CostOf(f, a, cells[k]) != LETHAL_OBSTACLE
        decreases |cells| - line.curPixel
      {
        ghost var k := line.curPixel;
        assert cells[k] == (line.x, line.y);
        var pointCost := PointCost(line.x, line.y);
        if pointCost == LETHAL_OBSTACLE {
          LethalSummary(f, a, cells, k, pointCost);
          return pointCost;
        }
        SummariseOneMore(f, a, cells, k, lineCost, pointCost);
        if lineCost < pointCost {
          lineCost := pointCost;
        }
        line.Advance();
      }
      assert cells[..|cells|] == cells;
      SummaryScores(f, a, cells, lineCost);
    }

    /** footprintCost, for a footprint of at least two points. */
    method FootprintCost(footprint: seq<(real, real)>) returns (footprintCost: int)
      requires costmap.Valid() && |footprint| >= 2
      ensures !AllOnMap(costmap.TheFrame(), footprint) ==> footprintCost == LETHAL_OBSTACLE
      ensures AllOnMap(costmap.TheFrame(), footprint) ==>
        var outline := FootprintOutline(MapPolygon(costmap.TheFrame(), footprint));
        AllInMap(costmap.TheFrame(), outline) &&
        Summarises(costmap.TheFrame(), costmap.costmap[..], outline, footprintCost)
      ensures AllOnMap(costmap.TheFrame(), footprint) ==>
        Decides(costmap.TheFrame(), costmap.costmap[..],
                FootprintLines(MapPolygon(costmap.TheFrame(), footprint)), footprintCost)
    {
      hide CostOf, LineCells, Frame.WorldToMap, Summarises, Decides, Scores;
      ghost var f, a := costmap.TheFrame(), costmap.costmap[..];
      footprintCost := 0;
      var ok, x0, y0 := costmap.WorldToMap(footprint[0].0, footprint[0].1);
      if !ok {
        return LETHAL_OBSTACLE;
      }
      var xStart, yStart := x0, y0;
      var x1, y1 := x0, y0;
      ghost var path: seq<Loc> := [(x0, y0)];
      NothingToSummarise(f, a);
      NothingDecided(f, a);
      var i := 0;
      while i < |footprint| - 1
        invariant 0 <= i < |footprint| && |path| == i + 1
        invariant OnMapPrefix(f, footprint, path)
        invariant (x0, y0) == path[i] == (x1, y1) && (xStart, yStart) == path[0]
        invariant AllInMap(f, PathCells(path)) && Summarises(f, a, PathCells(path), footprintCost)
        invariant Decides(f, a, LinesOf(path), footprintCost) && footprintCost != LETHAL_OBSTACLE
        invariant costmap.Valid()
      {
        ok, x1, y1 := costmap.WorldToMap(footprint[i + 1].0, footprint[i + 1].1);
        if !ok {
          return LETHAL_OBSTACLE;
        }
        var lineCost := LineCost(x0, x1, y0, y1);
        SummariseBoth(f, a, PathCells(path), LineCells((x0, y0), (x1, y1)), footprintCost, lineCost);
        DecidesOneMore(f, a, LinesOf(path), footprintCost, LineCells((x0, y0), (x1, y1)), lineCost);
        ghost var path' := path + [(x1, y1)];
        assert path'[..i + 1] == path;
        footprintCost := if lineCost < footprintCost then footprintCost else lineCost;
        path := path';
        x0, y0 := x1, y1;
        i := i + 1;
        if footprintCost == LETHAL_OBSTACLE {
          LethalPrefix(f, a, footprint, path, footprintCost);
          EarlyReturn(f, a, footprint, path, footprintCost);
          return;
        }
      }
      var lastCost := LineCost(xStart, x1, yStart, y1);
      ClosingLine(f, a, footprint, path, footprintCost, lastCost);
      FullPrefix(f, footprint, path);
      DecidesOneMore(f, a, LinesOf(path), footprintCost, LineCells((xStart, yStart), (x1, y1)), lastCost);
      footprintCost := if lastCost < footprintCost then footprintCost else lastCost;
    }
  }

  /** The cells scored: the path over the points, then the closing line, walked from the first point to the last. */
  function FootprintOutline(polygon: seq<Loc>): seq<Loc>
    requires polygon != []
  {
    PathCells(polygon) + LineCells(polygon[0], polygon[|polygon| - 1])
  }

  /** The same outline line by line. */
  function FootprintLines(polygon: seq<Loc>): seq<seq<Loc>>
    requires polygon != []
  {
    LinesOf(polygon) + [LineCells(polygon[0], polygon[|polygon| - 1])]
  }

  ghost predicate AllOnMap(f: Frame, footprint: seq<(real, real)>)
    requires f.resolution > 0.0
  {
    forall k :: 0 <= k < |footprint| ==> f.WorldToMap(footprint[k].0, footprint[k].1).OnMap?
  }

  /** `path` holds the map cells of a prefix of the footprint. */
  ghost predicate OnMapPrefix(f: Frame, footprint: seq<(real, real)>, path: seq<Loc>)
    requires f.resolution > 0.0
  {
    && |path| <= |footprint| && AllInMap(f, path)
    && forall k :: 0 <= k < |path| ==>
      f.WorldToMap(footprint[k].0, footprint[k].1) == OnMap(path[k].0, path[k].1)
  }

  lemma NothingToSummarise(f: Frame, a: seq<Cost>)
    requires |a| == f.sizeX * f.sizeY
    ensures Summarises(f, a, [], 0)
  {
  }

  /** The cells scored are those of every edge of the footprint, the closing one included, and no others. */
  lemma OutlineIsAllEdges(polygon: seq<Loc>, c: Loc)
    requires polygon != []
    ensures c in FootprintOutline(polygon) <==>
      (exists e :: 0 <= e < |polygon| - 1 && OnLine(polygon, e, c)) ||
      c in LineCells(polygon[0], polygon[|polygon| - 1])
  {
    hide LineCells;
    CellsOfPath(polygon, c);
  }

  lemma NothingDecided(f: Frame, a: seq<Cost>)
    ensures Decides(f, a, [], 0)
  {
  }

  /** A line without a lethal cell, scored to its end. */
  lemma SummaryScores(f: Frame, a: seq<Cost>, cells: seq<Loc>, c: int)
    requires |a| == f.sizeX * f.sizeY && AllInMap(f, cells) && Summarises(f, a, cells, c)
    requires c <= NO_INFORMATION && c != LETHAL_OBSTACLE
    requires forall k :: 0 <= k < |cells| ==> CostOf(f, a, cells[k]) != LETHAL_OBSTACLE
    ensures Scores(f, a, cells, c)
  {
    hide CostOf;
  }

  lemma EarlyReturn(f: Frame, a: seq<Cost>, footprint: seq<(real, real)>, path: seq<Loc>, c: int)
    requires f.resolution > 0.0 && OnMapPrefix(f, footprint, path) && path != []
    requires Decides(f, a, LinesOf(path), c) && c >= LETHAL_OBSTACLE
    ensures AllOnMap(f, footprint) ==> Decides(f, a, FootprintLines(MapPolygon(f, footprint)), c)
  {
    hide Decides, LinesOf, FootprintLines;
    if AllOnMap(f, footprint) {
      var polygon := MapPolygon(f, footprint);
      MapPolygonInMap(f, footprint);
      assert path == polygon[..|path|];
      DecidedEarly(f, a, polygon, |path|, c);
    }
  }

  lemma SummariseOneMore(f: Frame, a: seq<Cost>, cells: seq<Loc>, k: nat, c: int, pointCost: int)
    requires |a| == f.sizeX * f.sizeY && AllInMap(f, cells) && k < |cells|
    requires Summarises(f, a, cells[..k], c) && pointCost == CostOf(f, a, cells[k]) >= 0
    ensures Summarises(f, a, cells[..k + 1], Max(c, pointCost))
  {
    hide CostOf;
    assert AllInMap(f, [cells[k]]) && Summarises(f, a, [cells[k]], pointCost) by {
      assert [cells[k]][0] == cells[k];
    }
    SummariseBoth(f, a, cells[..k], [cells[k]], c, pointCost);
    assert cells[..k + 1] == cells[..k] + [cells[k]];
  }

  lemma OutlineInMap(f: Frame, polygon: seq<Loc>)
    requires polygon != [] && AllInMap(f, polygon)
    ensures AllInMap(f, PathCells(polygon)) && AllInMap(f, FootprintOutline(polygon))
  {
    hide LineCells, PathCells;
    PathInMap(f, polygon);
    LineInMap(f, polygon[0], polygon[|polygon| - 1]);
  }

  /** A prefix covering all points is the whole map polygon. */
  lemma FullPrefix(f: Frame, footprint: seq<(real, real)>, path: seq<Loc>)
    requires f.resolution > 0.0 && OnMapPrefix(f, footprint, path) && |path| == |footprint|
    ensures AllOnMap(f, footprint) && path == MapPolygon(f, footprint)
  {
    hide Frame.WorldToMap;
  }

  /** A lethal summary of a prefix settles the whole outline. */
  lemma LethalPrefix(f: Frame, a: seq<Cost>, footprint: seq<(real, real)>, path: seq<Loc>, c: int)
    requires f.resolution > 0.0 && |a| == f.sizeX * f.sizeY
    requires OnMapPrefix(f, footprint, path) && path != [] && AllInMap(f, PathCells(path))
    requires Summarises(f, a, PathCells(path), c) && c >= LETHAL_OBSTACLE
    ensures AllOnMap(f, footprint) ==>
      var outline := FootprintOutline(MapPolygon(f, footprint));
      AllInMap(f, outline) && Summarises(f, a, outline, c)
  {
    if AllOnMap(f, footprint) {
      var polygon := MapPolygon(f, footprint);
      MapPolygonInMap(f, footprint);
      OutlineInMap(f, polygon);
      assert path == polygon[..|path|];
      PathSplit(polygon, |path| - 1);
      hide CostOf, LineCells, PathCells;
      var k :| 0 <= k < |PathCells(path)| && CostOf(f, a, PathCells(path)[k]) >= LETHAL_OBSTACLE;
      assert FootprintOutline(polygon)[k] == PathCells(path)[k];
      LethalSummary(f, a, FootprintOutline(polygon), k, c);
    }
  }

  lemma MapPolygonInMap(f: Frame, footprint: seq<(real, real)>)
    requires f.resolution > 0.0 && AllOnMap(f, footprint)
    ensures AllInMap(f, MapPolygon(f, footprint))
    ensures OnMapPrefix(f, footprint, MapPolygon(f, footprint))
  {
    forall k | 0 <= k < |footprint|
      ensures var c := MapPolygon(f, footprint)[k]; f.Contains(c.0, c.1)
    {
      assert f.WorldToMap(footprint[k].0, footprint[k].1).OnMap?;
    }
  }

  lemma ClosingLine(f: Frame, a: seq<Cost>, footprint: seq<(real, real)>, path: seq<Loc>, c: int, d: int)
    requires f.resolution > 0.0 && |a| == f.sizeX * f.sizeY
    requires OnMapPrefix(f, footprint, path) && |path| == |footprint| && path != []
    requires AllInMap(f, PathCells(path)) && Summarises(f, a, PathCells(path), c)
    requires var line := LineCells(path[0], path[|path| - 1]); AllInMap(f, line) && Summarises(f, a, line, d)
    ensures AllOnMap(f, footprint)
    ensures var outline := FootprintOutline(MapPolygon(f, footprint));
      AllInMap(f, outline) && Summarises(f, a, outline, Max(c, d))
  {
    hide Summarises, LineCells, PathCells;
    FullPrefix(f, footprint, path);
    SummariseBoth(f, a, PathCells(path), LineCells(path[0], path[|path| - 1]), c, d);
  }
}
