/** Costmap2D as an object over its cell buffer. */
module Costmap {
  import opened CostValues
  import opened Arithmetic
  import opened GridIndex
  import opened Line
  import opened Outline
  import opened RollingWindow

  /** The overlap of the old window with the one shifted by `c` cells, along one axis of `size` cells. */
  function LowerLeft(c: int, size: nat): nat {
    var m := if c > 0 then c else 0;
    if m < size then m else size
  }

  function UpperRight(c: int, size: nat): nat {
    LowerLeft(c + size, size)
  }

  lemma OverlapIsWindow(c: int, size: nat, x: int)
    requires 0 <= x < size
    ensures LowerLeft(c, size) <= UpperRight(c, size)
    ensures LowerLeft(c, size) - c <= x < UpperRight(c, size) - c <==> 0 <= x + c < size
  {
  }

  /**
   The copy out to a local grid and back at the shifted position is a roll: rows and columns of
   both copies line up, whatever the shift.
   */
  lemma TwoCopiesRoll<T>(a: seq<T>, local: seq<T>, blank: seq<T>, b: seq<T>, garbage: seq<T>,
                         w: nat, h: nat, cx: int, cy: int, d: T)
    requires |a| == w * h && |blank| == w * h && forall k :: 0 <= k < |blank| ==> blank[k] == d
    requires var lx, ly, rx, ry := LowerLeft(cx, w), LowerLeft(cy, h),
                 UpperRight(cx, w) - LowerLeft(cx, w), UpperRight(cy, h) - LowerLeft(cy, h);
      && 0 <= rx && 0 <= ry
      && CopiedRows(a, lx, ly, w, h, garbage, local, 0, 0, rx, ry, rx, ry)
      && CopiedRows(local, 0, 0, rx, ry, blank, b, lx - cx, ly - cy, w, h, rx, ry)
    ensures b == Rolled(a, w, h, cx, cy, d)
  {
    var lx, ly := LowerLeft(cx, w), LowerLeft(cy, h);
    var rx, ry := UpperRight(cx, w) - lx, UpperRight(cy, h) - ly;
    hide Idx, Rolled, LowerLeft;
    forall x, y | 0 <= x < w && 0 <= y < h
      ensures 0 <= Idx(w, x, y) < w * h && b[Idx(w, x, y)] == Rolled(a, w, h, cx, cy, d)[Idx(w, x, y)]
    {
      RolledAt(a, w, h, cx, cy, d, x, y);
      OverlapIsWindow(cx, w, x);
      OverlapIsWindow(cy, h, y);
      if InRegion(lx - cx, ly - cy, rx, ry, x, y) {
        var u, v := x - (lx - cx), y - (ly - cy);
        assert 0 <= u < rx && 0 <= v < ry;
        assert InRegion(0, 0, rx, ry, u, v);
      }
    }
    GridExtensional(b, Rolled(a, w, h, cx, cy, d), w, h);
  }

  // ---------- the lengths of raytraceLine ----------

  /** `dist` is the length of the offset (dx, dy). */
  ghost predicate IsLength(dist: real, dx: int, dy: int) {
    dist >= 0.0 && dist * dist == (dx * dx + dy * dy) as real
  }

  /** Where a line starts along one axis once its first `minLength` cells are skipped. */
  function RayStart(a: int, b: int, dist: real, minLength: nat): int {
    if dist > 0.0 then Trunc(a as real + (b - a) as real / dist * minLength as real) else a
  }

  /** The share of `steps` cells that a line of length `dist` may take. */
  function ScaledLength(steps: nat, dist: real, maxLength: nat): nat {
    var scale := if dist <= 0.0 || maxLength as real / dist > 1.0 then 1.0 else maxLength as real / dist;
    Max(0, Trunc(scale * steps as real))
  }

  function Shortened(cells: seq<Loc>, maxLength: nat): seq<Loc> {
    if maxLength + 1 < |cells| then cells[..maxLength + 1] else cells
  }

  /** The cells of raytraceLine. */
  function RayCells(p: Loc, q: Loc, dist: real, maxLength: nat, minLength: nat): seq<Loc> {
    if dist < minLength as real then []
    else
      var start := (RayStart(p.0, q.0, dist, minLength), RayStart(p.1, q.1, dist, minLength));
      Shortened(LineCells(start, q), ScaledLength(Steps(start, q), dist, maxLength))
  }

  /** An offset is no longer along one axis than in all. */
  lemma AxisWithinLength(dist: real, dx: int, dy: int)
    requires IsLength(dist, dx, dy)
    ensures -dist <= dx as real <= dist
  {
    var x := dx as real;
    assert dy * dy >= 0;
    assert x * x <= dist * dist;
    assert (-x) * (-x) == x * x;
    SmallerSquare(x, dist);
    SmallerSquare(-x, dist);
  }

  lemma SmallerSquare(x: real, d: real)
    requires d >= 0.0 && x * x <= d * d
    ensures x <= d
  {
    var e, s := x - d, x + d;
    assert e * s == x * x - d * d;
    if e > 0.0 {
      ScaleLt(0.0, e, s);
    }
  }

  /** The shifted start lies between the two ends, so on the map. */
  lemma RayStartBetween(a: int, b: int, other: int, dist: real, minLength: nat)
    requires a >= 0 && b >= 0 && minLength as real <= dist
    requires IsLength(dist, b - a, other) || IsLength(dist, other, b - a)
    ensures Between(a, RayStart(a, b, dist, minLength), b)
  {
    hide IsLength;
    if dist > 0.0 {
      var u := (b - a) as real / dist;
      DivideBack((b - a) as real, dist);
      ShareOf((b - a) as real, u, dist, minLength as real);
    }
  }

  /** A share `u * m` of `d == u * l`, with 0 <= m <= l, lies between 0 and `d`. */
  lemma ShareOf(d: real, u: real, l: real, m: real)
    requires u * l == d && 0.0 <= m <= l && 0.0 < l
    ensures 0.0 <= u * m <= d || d <= u * m <= 0.0
  {
    if u >= 0.0 {
      ShareOfPositive(u, l, m);
    } else {
      ShareOfPositive(-u, l, m);
      assert (-u) * m == -(u * m) && (-u) * l == -(u * l);
    }
  }

  lemma ShareOfPositive(u: real, l: real, m: real)
    requires 0.0 <= u && 0.0 <= m <= l
    ensures 0.0 <= u * m <= u * l
  {
    ScaleLe(m, l, u);
    ScaleLe(0.0, m, u);
    assert m * u == u * m && l * u == u * l;
  }

  /** The start is the cell at the share `minLength / dist` of the way, rounded down. */
  lemma RayStartExact(a: int, b: int, other: int, dist: real, minLength: nat)
    requires a >= 0 && b >= 0 && minLength as real <= dist && dist > 0.0
    requires IsLength(dist, b - a, other) || IsLength(dist, other, b - a)
    ensures var k := RayStart(a, b, dist, minLength) as real;
      k * dist <= a as real * dist + (b - a) as real * minLength as real < (k + 1.0) * dist
  {
    RayStartBetween(a, b, other, dist, minLength);
    hide IsLength;
    var u := (b - a) as real / dist;
    DivideBack((b - a) as real, dist);
    ShareOf((b - a) as real, u, dist, minLength as real);
    var v := a as real + u * minLength as real;
    assert 0.0 <= v && RayStart(a, b, dist, minLength) == v.Floor;
    PlaceOnLine(a as real, (b - a) as real, u, dist, minLength as real, v);
    hide RayStart;
    ScaledFloor(v, a as real * dist + (b - a) as real * minLength as real, dist);
  }

  lemma PlaceOnLine(a: real, d: real, u: real, l: real, m: real, v: real)
    requires u * l == d && v == a + u * m
    ensures v * l == a * l + d * m
  {
    assert (u * m) * l == (u * l) * m;
  }

  lemma ScaledFloor(v: real, d: real, l: real)
    requires v * l == d && l > 0.0
    ensures v.Floor as real * l <= d < (v.Floor as real + 1.0) * l
  {
    ScaleLe(v.Floor as real, v, l);
    ScaledUnder(v, v.Floor as real + 1.0, d, l);
  }

  /** A maximum shorter than the line allows the share `maxLength / dist` of its cells, rounded down. */
  lemma ScaledLengthExact(steps: nat, dist: real, maxLength: nat)
    requires dist > 0.0 && maxLength as real <= dist
    ensures var k := ScaledLength(steps, dist, maxLength) as real;
      k * dist <= steps as real * maxLength as real < (k + 1.0) * dist
  {
    var m := maxLength as real / dist;
    DivideBack(maxLength as real, dist);
    CancelLe(0.0, m, dist);
    CancelLe(m, 1.0, dist);
    ScaleLe(0.0, steps as real, m);
    var v := m * steps as real;
    assert ScaledLength(steps, dist, maxLength) == v.Floor;
    PlaceOnLine(0.0, maxLength as real, m, dist, steps as real, v);
    ScaledFloor(v, v * dist, dist);
  }

  /** Without a minimum, and with a maximum no line exceeds, the whole line is traced. */
  lemma DefaultLengths(p: Loc, q: Loc, dist: real, maxLength: nat)
    requires p.0 >= 0 && p.1 >= 0 && IsLength(dist, q.0 - p.0, q.1 - p.1) && dist <= maxLength as real
    ensures RayCells(p, q, dist, maxLength, 0) == LineCells(p, q)
  {
    assert dist >= 0.0;
    hide IsLength, LineCell, RayStart, ScaledLength;
    NoMinimum(p.0, q.0, dist);
    NoMinimum(p.1, q.1, dist);
    assert (RayStart(p.0, q.0, dist, 0), RayStart(p.1, q.1, dist, 0)) == p;
    WholeShare(Steps(p, q), dist, maxLength);
  }

  lemma NoMinimum(a: int, b: int, dist: real)
    requires a >= 0
    ensures RayStart(a, b, dist, 0) == a
  {
    assert dist > 0.0 ==> (b - a) as real / dist * 0.0 == 0.0;
  }

  lemma WholeShare(steps: nat, dist: real, maxLength: nat)
    requires dist <= maxLength as real
    ensures ScaledLength(steps, dist, maxLength) == steps
  {
    if dist > 0.0 {
      var m := maxLength as real / dist;
      DivideBack(maxLength as real, dist);
      CancelLe(1.0, m, dist);
    }
  }

  /** No more cells than the maximum length, plus the two ends, are traced. */
  lemma RayWithinMaximum(p: Loc, q: Loc, dist: real, maxLength: nat, minLength: nat)
    requires p.0 >= 0 && p.1 >= 0 && q.0 >= 0 && q.1 >= 0 && IsLength(dist, q.0 - p.0, q.1 - p.1)
    ensures |RayCells(p, q, dist, maxLength, minLength)| <= maxLength + 1
  {
    hide LineCells, RayStart;
    if dist >= minLength as real {
      RayStartBetween(p.0, q.0, q.1 - p.1, dist, minLength);
      RayStartBetween(p.1, q.1, q.0 - p.0, dist, minLength);
      AxisWithinLength(dist, q.0 - p.0, q.1 - p.1);
      SwapLength(dist, q.0 - p.0, q.1 - p.1);
      AxisWithinLength(dist, q.1 - p.1, q.0 - p.0);
      hide IsLength;
      var start := (RayStart(p.0, q.0, dist, minLength), RayStart(p.1, q.1, dist, minLength));
      ShareWithinMaximum(Steps(start, q), dist, maxLength);
    }
  }

  lemma SwapLength(dist: real, dx: int, dy: int)
    requires IsLength(dist, dx, dy)
    ensures IsLength(dist, dy, dx)
  {
  }

  lemma ShareWithinMaximum(steps: nat, dist: real, maxLength: nat)
    requires steps as real <= dist
    ensures ScaledLength(steps, dist, maxLength) <= maxLength
  {
    if dist > 0.0 {
      var m := maxLength as real / dist;
      DivideBack(maxLength as real, dist);
      CancelLe(0.0, m, dist);
      ScaledBelow(steps as real, dist, m, maxLength as real);
    }
  }

  lemma ScaledBelow(s: real, dist: real, m: real, max: real)
    requires 0.0 <= s <= dist && 0.0 <= m && m * dist == max
    ensures m > 1.0 ==> 1.0 * s <= max
    ensures m <= 1.0 ==> m * s <= max
  {
    ShareOfPositive(m, dist, s);
    if m > 1.0 {
      ScaleLe(1.0, m, dist);
    }
  }

  class Costmap2D {
    var sizeX: nat
    var sizeY: nat
    var resolution: real
    var originX: real
    var originY: real
    var costmap: array<Cost>
    var defaultValue: Cost

    ghost predicate Valid()
      reads this
    {
      resolution > 0.0 && costmap.Length == sizeX * sizeY
    }

    function TheFrame(): Frame
      reads this
    {
      Frame(sizeX, sizeY, resolution, originX, originY)
    }

    constructor (sizeX: nat, sizeY: nat, resolution: real, originX: real, originY: real, defaultValue: Cost)
      requires resolution > 0.0
      ensures Valid() && fresh(costmap)
      ensures TheFrame() == Frame(sizeX, sizeY, resolution, originX, originY)
      ensures this.defaultValue == defaultValue
      ensures forall k :: 0 <= k < costmap.Length ==> costmap[k] == defaultValue
    {
      this.sizeX, this.sizeY := sizeX, sizeY;
      this.resolution, this.originX, this.originY := resolution, originX, originY;
      this.defaultValue := defaultValue;
      this.costmap := new Cost[Area(sizeX, sizeY)];
      new;
      ResetMaps();
    }

    method ResetMaps()
      modifies costmap
      ensures forall k :: 0 <= k < costmap.Length ==> costmap[k] == defaultValue
    {
      forall k | 0 <= k < costmap.Length {
        costmap[k] := defaultValue;
      }
    }

    /** updateOrigin: the window moves by whole cells and the grid is rolled by as many. */
    method UpdateOrigin(newOriginX: real, newOriginY: real)
      requires Valid()
      modifies this`originX, this`originY, costmap
      ensures Valid()
      ensures var cx, cy := CellOf(newOriginX, old(originX), resolution), CellOf(newOriginY, old(originY), resolution);
        && TheFrame() == old(TheFrame()).Shifted(cx, cy)
        && costmap[..] == Rolled(old(costmap[..]), sizeX, sizeY, cx, cy, defaultValue)
      ensures -resolution < newOriginX - originX < resolution && -resolution < newOriginY - originY < resolution
      ensures BetweenReals(old(originX), originX, newOriginX) && BetweenReals(old(originY), originY, newOriginY)
    {
      hide CellOf, Rolled, MovedBy;
      var cellOx := CellOf(newOriginX, originX, resolution);
      var cellOy := CellOf(newOriginY, originY, resolution);
      AlignedBetween(newOriginX, originX, resolution);
      AlignedBetween(newOriginY, originY, resolution);
      AlignedWithinCell(newOriginX, originX, resolution);
      AlignedWithinCell(newOriginY, originY, resolution);
      var newGridOx := MovedBy(originX, cellOx, resolution);
      var newGridOy := MovedBy(originY, cellOy, resolution);
      Roll(cellOx, cellOy);
      originX := newGridOx;
      originY := newGridOy;
    }

    /** The cell movement of updateOrigin. */
    method Roll(cellOx: int, cellOy: int)
      requires Valid()
      modifies costmap
      ensures costmap[..] == Rolled(old(costmap[..]), sizeX, sizeY, cellOx, cellOy, defaultValue)
    {
      hide CopiedRows, Rolled;
      var lowerLeftX, lowerLeftY := LowerLeft(cellOx, sizeX), LowerLeft(cellOy, sizeY);
      var upperRightX, upperRightY := UpperRight(cellOx, sizeX), UpperRight(cellOy, sizeY);
      var cellSizeX: nat, cellSizeY: nat := upperRightX - lowerLeftX, upperRightY - lowerLeftY;
      var localMap := new Cost[Area(cellSizeX, cellSizeY)];
      ghost var garbage := localMap[..];
      CopyMapRegion(costmap, lowerLeftX, lowerLeftY, sizeX, sizeY, localMap, 0, 0, cellSizeX, cellSizeY,
                    cellSizeX, cellSizeY);
      ResetMaps();
      ghost var blank := costmap[..];
      var startX, startY := lowerLeftX - cellOx, lowerLeftY - cellOy;
      CopyMapRegion(localMap, 0, 0, cellSizeX, cellSizeY, costmap, startX, startY, sizeX, sizeY,
                    cellSizeX, cellSizeY);
      TwoCopiesRoll(old(costmap[..]), localMap[..], blank, costmap[..], garbage, sizeX, sizeY,
                    cellOx, cellOy, defaultValue);
    }

    /** worldToMap. */
    method WorldToMap(wx: real, wy: real) returns (ok: bool, mx: int, my: int)
      requires Valid()
      ensures TheFrame().WorldToMap(wx, wy) == if ok then OnMap(mx, my) else OffMap
    {
      mx, my := 0, 0;
      if wx < originX || wy < originY {
        return false, mx, my;
      }
      mx := CellOf(wx, originX, resolution);
      my := CellOf(wy, originY, resolution);
      ok := mx < sizeX && my < sizeY;
    }

    /** indexToCells. */
    function IndexToCells(index: int): Loc
      requires sizeX > 0
      reads `sizeX
    {
      (index % sizeX, index / sizeX)
    }

    /** bresenham2D: the visited cells, appended to `before`, are the first ones of the quotient form. */
    method Bresenham2D(before: seq<Loc>, absDa: nat, absDb: nat, errorB0: nat, offsetA: int, offsetB: int,
                       offset0: int, maxLength: nat) returns (cells: seq<Loc>)
      requires absDb <= absDa && errorB0 == absDa / 2 && sizeX > 0
      ensures |cells| == |before| + Min(maxLength, absDa) + 1 && before <= cells
      ensures forall i :: 0 <= i <= Min(maxLength, absDa) ==>
        cells[|before| + i] == IndexToCells(OffsetAt(absDa, absDb, offsetA, offsetB, offset0, i))
    {
      hide IndexToCells;
      var end := Min(maxLength, absDa);
      cells := before;
      var offset, errorB: int := offset0, errorB0;
      var i := 0;
      MinorEnds(absDa, absDb);
      StartOffset(absDa, absDb, offsetA, offsetB, offset0);
      while i < end
        invariant 0 <= i <= end && |cells| == |before| + i && before <= cells
        invariant forall k :: 0 <= k < i ==>
          cells[|before| + k] == IndexToCells(OffsetAt(absDa, absDb, offsetA, offsetB, offset0, k))
        invariant offset == OffsetAt(absDa, absDb, offsetA, offsetB, offset0, i)
        invariant absDa > 0 ==> 0 <= errorB < absDa
        invariant errorB + Minor(absDa, absDb, i) * absDa == absDa / 2 + i * absDb
      {
        hide Minor, OffsetAt;
        cells := cells + [IndexToCells(offset)];
        offset := offset + offsetA;
        errorB := errorB + absDb;
        ghost var carry := 0;
        if errorB >= absDa {
          offset := offset + offsetB;
          errorB := errorB - absDa;
          carry := 1;
        }
        CarryStep(absDa, absDb, i, Minor(absDa, absDb, i), errorB, carry);
        NextOffset(absDa, absDb, offsetA, offsetB, offset0, i, carry);
        i := i + 1;
      }
      cells := cells + [IndexToCells(offset)];
    }

    /**
     raytraceLine: from the cell where the minimum length is reached, at most the given share of the
     line. `dist` is what hypot returns for the two ends.
     */
    method RaytraceLine(before: seq<Loc>, x0: int, y0: int, x1: int, y1: int, dist: real, maxLength: nat,
                        minLength: nat) returns (cells: seq<Loc>)
      requires TheFrame().Contains(x0, y0) && TheFrame().Contains(x1, y1) && IsLength(dist, x1 - x0, y1 - y0)
      ensures cells == before + RayCells((x0, y0), (x1, y1), dist, maxLength, minLength)
    {
      hide IsLength, ScaledLength, RayStart, LineCells;
      if dist < minLength as real {
        return before;
      }
      var minX0, minY0 := RayStart(x0, x1, dist, minLength), RayStart(y0, y1, dist, minLength);
      RayStartBetween(x0, x1, y1 - y0, dist, minLength);
      RayStartBetween(y0, y1, x1 - x0, dist, minLength);
      var dominant := if Abs(x1 - minX0) >= Abs(y1 - minY0) then Abs(x1 - minX0) else Abs(y1 - minY0);
      cells := TraceFrom(before, minX0, minY0, x1, y1, ScaledLength(dominant, dist, maxLength));
    }

    /** The part of raytraceLine after the start and the scale are known; also its default lengths. */
    method TraceFrom(before: seq<Loc>, x0: int, y0: int, x1: int, y1: int, maxLength: nat)
      returns (cells: seq<Loc>)
      requires TheFrame().Contains(x0, y0) && TheFrame().Contains(x1, y1)
      ensures cells == before + Shortened(LineCells((x0, y0), (x1, y1)), maxLength)
    {
      hide IndexToCells, Idx, LineCell;
      var dx, dy := x1 - x0, y1 - y0;
      var absDx, absDy := Abs(dx), Abs(dy);
      var offsetDx := Direction(dx);
      var offsetDy := Direction(dy) * sizeX;
      var offset := Idx(sizeX, x0, y0);
      ghost var p, q := (x0, y0), (x1, y1);
      if absDx >= absDy {
        cells := Bresenham2D(before, absDx, absDy, absDx / 2, offsetDx, offsetDy, offset, maxLength);
        forall i | 0 <= i <= Min(maxLength, absDx)
          ensures cells[|before| + i] == LineCell(p, q, i)
        {
          LineOffsetX(TheFrame(), p, q, offsetDx, offsetDy, i);
          LineIndex(p, q, i);
        }
      } else {
        cells := Bresenham2D(before, absDy, absDx, absDy / 2, offsetDy, offsetDx, offset, maxLength);
        forall i | 0 <= i <= Min(maxLength, absDy)
          ensures cells[|before| + i] == LineCell(p, q, i)
        {
          LineOffsetY(TheFrame(), p, q, offsetDx, offsetDy, i);
          LineIndex(p, q, i);
        }
      }
      assert cells == before + Shortened(LineCells(p, q), maxLength);
    }

    /** raytraceLine with its default lengths: the whole line, see DefaultLengths. */
    method RaytraceDefault(before: seq<Loc>, x0: int, y0: int, x1: int, y1: int) returns (cells: seq<Loc>)
      requires TheFrame().Contains(x0, y0) && TheFrame().Contains(x1, y1)
      ensures cells == before + LineCells((x0, y0), (x1, y1))
    {
      cells := TraceFrom(before, x0, y0, x1, y1, Steps((x0, y0), (x1, y1)));
    }

    lemma LineIndex(p: Loc, q: Loc, i: nat)
      requires TheFrame().Contains(p.0, p.1) && TheFrame().Contains(q.0, q.1) && i <= Steps(p, q)
      ensures IndexToCells(Idx(sizeX, LineCell(p, q, i).0, LineCell(p, q, i).1)) == LineCell(p, q, i)
    {
      LineInRectangle(p, q, i);
      hide LineCell;
      var c := LineCell(p, q, i);
      IdxRoundTrip(sizeX, c.0, c.1);
    }

    /** polygonOutlineCells, for a non-empty polygon of map cells. */
    method PolygonOutlineCells(polygon: seq<Loc>) returns (cells: seq<Loc>)
      requires polygon != [] && forall k :: 0 <= k < |polygon| ==> TheFrame().Contains(polygon[k].0, polygon[k].1)
      ensures cells == OutlineOf(polygon)
    {
      hide LineCells, Frame.Contains;
      cells := [];
      var i := 0;
      while i < |polygon| - 1
        invariant 0 <= i < |polygon|
        invariant cells == PathCells(polygon[..i + 1])
      {
        cells := RaytraceDefault(cells, polygon[i].0, polygon[i].1, polygon[i + 1].0, polygon[i + 1].1);
        assert polygon[..i + 2][..i + 1] == polygon[..i + 1];
        i := i + 1;
      }
      var last := |polygon| - 1;
      cells := RaytraceDefault(cells, polygon[last].0, polygon[last].1, polygon[0].0, polygon[0].1);
      assert polygon[..last + 1] == polygon;
      assert (polygon + [polygon[0]])[..|polygon|] == polygon;
    }

    /** convexFillCells: nothing below three vertices, otherwise exactly the column hull of the outline. */
    method ConvexFillCells(polygon: seq<Loc>) returns (cells: seq<Loc>)
      requires forall k :: 0 <= k < |polygon| ==> TheFrame().Contains(polygon[k].0, polygon[k].1)
      ensures |polygon| < 3 ==> cells == []
      ensures |polygon| >= 3 ==> forall c :: c in cells <==> InHull(OutlineOf(polygon), c)
    {
      hide OutlineOf, InHull, Count, Frame.Contains;
      if |polygon| < 3 {
        return [];
      }
      var outline := PolygonOutlineCells(polygon);
      OutlineNotEmpty(polygon);
      var sorted := SortByX(outline);
      SortedColumns(polygon, sorted);
      cells := FillColumns(sorted);
      forall c
        ensures InHull(sorted, c) <==> InHull(OutlineOf(polygon), c)
      {
        if InHull(sorted, c) {
          HullOfPermutation(sorted, outline, c);
        }
        if InHull(outline, c) {
          HullOfPermutation(outline, sorted, c);
        }
      }
    }

    /** setConvexPolygonCost: all or nothing, and exactly the column hull of the outline. */
    method SetConvexPolygonCost(polygon: seq<(real, real)>, costValue: Cost) returns (ok: bool)
      requires Valid()
      modifies costmap
      ensures ok <==> forall k :: 0 <= k < |polygon| ==> TheFrame().WorldToMap(polygon[k].0, polygon[k].1).OnMap?
      ensures !ok || |polygon| < 3 ==> costmap[..] == old(costmap[..])
      ensures ok && |polygon| >= 3 ==>
        FilledWith(old(costmap[..]), costmap[..], sizeX, sizeY, MapPolygon(TheFrame(), polygon), costValue)
    {
      hide Frame.WorldToMap, InHull, OutlineOf;
      var mapPolygon: seq<Loc> := [];
      var i := 0;
      while i < |polygon|
        invariant 0 <= i <= |polygon| && |mapPolygon| == i && costmap[..] == old(costmap[..])
        invariant forall k :: 0 <= k < i ==>
          TheFrame().WorldToMap(polygon[k].0, polygon[k].1) == OnMap(mapPolygon[k].0, mapPolygon[k].1)
      {
        var inside, mx, my := WorldToMap(polygon[i].0, polygon[i].1);
        if !inside {
          return false;
        }
        mapPolygon := mapPolygon + [(mx, my)];
        i := i + 1;
      }
      assert mapPolygon == MapPolygon(TheFrame(), polygon);
      var cells := ConvexFillCells(mapPolygon);
      forall c | c in cells
        ensures TheFrame().Contains(c.0, c.1)
      {
        HullInMap(TheFrame(), mapPolygon, c);
      }
      PaintCells(cells, costValue);
      ok := true;
    }

    /** Writes one value to each listed cell. */
    method PaintCells(cells: seq<Loc>, costValue: Cost)
      requires Valid() && forall c :: c in cells ==> TheFrame().Contains(c.0, c.1)
      modifies costmap
      ensures forall x, y :: 0 <= x < sizeX && 0 <= y < sizeY ==>
        && 0 <= Idx(sizeX, x, y) < costmap.Length
        && costmap[Idx(sizeX, x, y)] == if (x, y) in cells then costValue else old(costmap[Idx(sizeX, x, y)])
      ensures cells == [] ==> costmap[..] == old(costmap[..])
    {
      AllCellsInRange(sizeX, sizeY);
      hide Idx;
      var i := 0;
      while i < |cells|
        invariant 0 <= i <= |cells|
        invariant forall x, y :: 0 <= x < sizeX && 0 <= y < sizeY ==>
          && 0 <= Idx(sizeX, x, y) < costmap.Length
          && costmap[Idx(sizeX, x, y)] == if (x, y) in cells[..i] then costValue else old(costmap[Idx(sizeX, x, y)])
        invariant i == 0 ==> costmap[..] == old(costmap[..])
      {
        var c := cells[i];
        assert c in cells;
        forall x, y | 0 <= x < sizeX && 0 <= y < sizeY && Idx(sizeX, x, y) == Idx(sizeX, c.0, c.1)
          ensures x == c.0 && y == c.1
        {
          IdxInjective(sizeX, x, y, c.0, c.1);
        }
        costmap[Idx(sizeX, c.0, c.1)] := costValue;
        assert cells[..i + 1] == cells[..i] + [c];
        i := i + 1;
      }
      assert cells[..|cells|] == cells;
    }
  }

  // ---------- lines by offset ----------

  /** Costmap2D::sign, which counts zero as negative. */
  function Direction(d: int): int {
    if d > 0 then 1 else -1
  }

  /** The buffer offset bresenham2D stands on after `i` steps. */
  ghost function OffsetAt(da: nat, db: nat, offsetA: int, offsetB: int, offset0: int, i: nat): int {
    offset0 + i * offsetA + Minor(da, db, i) * offsetB
  }

  lemma StartOffset(da: nat, db: nat, offsetA: int, offsetB: int, offset0: int)
    requires db <= da
    ensures OffsetAt(da, db, offsetA, offsetB, offset0, 0) == offset0
  {
    MinorEnds(da, db);
  }

  lemma NextOffset(da: nat, db: nat, offsetA: int, offsetB: int, offset0: int, i: nat, carry: int)
    requires Minor(da, db, i + 1) == Minor(da, db, i) + carry && 0 <= carry <= 1
    ensures OffsetAt(da, db, offsetA, offsetB, offset0, i + 1) ==
      OffsetAt(da, db, offsetA, offsetB, offset0, i) + offsetA + (if carry == 1 then offsetB else 0)
  {
    hide Minor;
    assert (Minor(da, db, i) + carry) * offsetB == Minor(da, db, i) * offsetB + carry * offsetB;
  }

  /** Offsets along an x-dominant line are the indices of its cells. */
  lemma LineOffsetX(f: Frame, p: Loc, q: Loc, offsetDx: int, offsetDy: int, i: nat)
    requires var dx, dy := q.0 - p.0, q.1 - p.1;
      && Abs(dx) >= Abs(dy) && i <= Abs(dx)
      && offsetDx == Direction(dx) && offsetDy == Direction(dy) * f.sizeX
    ensures OffsetAt(Abs(q.0 - p.0), Abs(q.1 - p.1), offsetDx, offsetDy, Idx(f.sizeX, p.0, p.1), i) ==
      Idx(f.sizeX, LineCell(p, q, i).0, LineCell(p, q, i).1)
  {
    var dx, dy := q.0 - p.0, q.1 - p.1;
    MinorRange(Abs(dx), Abs(dy), i);
    var k := Minor(Abs(dx), Abs(dy), i);
    hide Minor;
    ScaledStep(f.sizeX, p.1, Sign(dy), k);
  }

  lemma LineOffsetY(f: Frame, p: Loc, q: Loc, offsetDx: int, offsetDy: int, i: nat)
    requires var dx, dy := q.0 - p.0, q.1 - p.1;
      && Abs(dx) < Abs(dy) && i <= Abs(dy)
      && offsetDx == Direction(dx) && offsetDy == Direction(dy) * f.sizeX
    ensures OffsetAt(Abs(q.1 - p.1), Abs(q.0 - p.0), offsetDy, offsetDx, Idx(f.sizeX, p.0, p.1), i) ==
      Idx(f.sizeX, LineCell(p, q, i).0, LineCell(p, q, i).1)
  {
    var dx, dy := q.0 - p.0, q.1 - p.1;
    MinorRange(Abs(dy), Abs(dx), i);
    var k := Minor(Abs(dy), Abs(dx), i);
    hide Minor;
    ScaledStep(f.sizeX, p.1, Sign(dy), i);
  }

  lemma ScaledStep(w: nat, y: int, s: int, k: int)
    ensures (y + s * k) * w == y * w + k * (s * w)
  {
  }

  lemma AllCellsInRange(w: nat, h: nat)
    ensures forall x, y :: 0 <= x < w && 0 <= y < h ==> 0 <= Idx(w, x, y) < w * h
  {
    forall x, y | 0 <= x < w && 0 <= y < h
      ensures 0 <= Idx(w, x, y) < w * h
    {
      IdxInRange(w, h, x, y);
    }
  }

  // ---------- filling ----------

  lemma OutlineNotEmpty(polygon: seq<Loc>)
    requires polygon != []
    ensures OutlineOf(polygon) != []
  {
    PathPositive(polygon + [polygon[0]]);
  }

  /** The sorted outline of a polygon meets what the column scan relies on. */
  lemma SortedColumns(polygon: seq<Loc>, sorted: seq<Loc>)
    requires |polygon| >= 2 && sorted != [] && SortedByX(sorted, |sorted|)
    requires multiset(sorted) == multiset(OutlineOf(polygon)) && SameColumns(sorted, OutlineOf(polygon))
    ensures EveryColumnTwice(sorted)
  {
    hide Count, OutlineOf;
    var outline := OutlineOf(polygon);
    var a, b := sorted[0], sorted[|sorted| - 1];
    assert a in multiset(outline) && b in multiset(outline);
    var k :| 0 <= k < |outline| && outline[k] == a;
    var l :| 0 <= l < |outline| && outline[l] == b;
    forall x | a.0 <= x <= b.0
      ensures Count(sorted, OnColumn(x)) >= 2
    {
      OutlineColumns(polygon, k, l, x);
    }
  }

  function MapPolygon(f: Frame, polygon: seq<(real, real)>): seq<Loc>
    requires f.resolution > 0.0
    requires forall k :: 0 <= k < |polygon| ==> f.WorldToMap(polygon[k].0, polygon[k].1).OnMap?
  {
    seq(|polygon|, k requires 0 <= k < |polygon| =>
      var c := f.WorldToMap(polygon[k].0, polygon[k].1); (c.x, c.y))
  }

  /** `b` is `a` with `v` on every cell of the column hull of the polygon's outline. */
  ghost predicate FilledWith(a: seq<Cost>, b: seq<Cost>, w: nat, h: nat, polygon: seq<Loc>, v: Cost) {
    && |a| == w * h && |b| == w * h
    && forall x, y :: 0 <= x < w && 0 <= y < h ==>
      && 0 <= Idx(w, x, y) < w * h
      && b[Idx(w, x, y)] == if InHull(OutlineOf(polygon), (x, y)) then v else a[Idx(w, x, y)]
  }

  lemma HullInMap(f: Frame, polygon: seq<Loc>, c: Loc)
    requires |polygon| >= 2 && InHull(OutlineOf(polygon), c)
    requires forall k :: 0 <= k < |polygon| ==> f.Contains(polygon[k].0, polygon[k].1)
    ensures f.Contains(c.0, c.1)
  {
    hide OutlineOf;
    var outline := OutlineOf(polygon);
    var i, j :| 0 <= i < |outline| && 0 <= j < |outline| &&
      outline[i].0 == c.0 && outline[j].0 == c.0 && outline[i].1 <= c.1 <= outline[j].1;
    var a, b := OutlineInRange(polygon, i);
    var a', b' := OutlineInRange(polygon, j);
  }
}
