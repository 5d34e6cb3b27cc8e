/** World coordinates, rectangle copies and the rolling window of a costmap grid. */
module RollingWindow {
  import opened Arithmetic
  import opened GridIndex

  // ---------- world and map coordinates ----------

  /** worldToMap along one axis; the caller compares the result with the size. */
  function CellOf(w: real, origin: real, resolution: real): int
    requires resolution > 0.0
  {
    Trunc((w - origin) / resolution)
  }

  /** mapToWorld along one axis: the centre of a cell. */
  function CentreOf(m: int, origin: real, resolution: real): real {
    origin + (m as real + 0.5) * resolution
  }

  lemma FloorOfQuotient(d: real, res: real, m: int)
    requires res > 0.0 && m as real * res <= d < (m as real + 1.0) * res
    ensures (d / res).Floor == m
  {
    DivideBack(d, res);
    ScaledInto(d / res, d, res, m as real);
  }

  lemma ScaledInto(q: real, d: real, res: real, m: real)
    requires res > 0.0 && q * res == d && m * res <= d < (m + 1.0) * res
    ensures m <= q < m + 1.0
  {
    CancelLe(m, q, res);
    CancelLt(q, m + 1.0, res);
  }

  lemma QuotientBounds(d: real, res: real)
    requires res > 0.0
    ensures (d / res).Floor as real * res <= d < ((d / res).Floor as real + 1.0) * res
  {
    DivideBack(d, res);
    ScaleBounds(d / res, d, res, (d / res).Floor as real);
  }

  lemma ScaleBounds(q: real, d: real, res: real, m: real)
    requires res > 0.0 && q * res == d && m <= q < m + 1.0
    ensures m * res <= d < (m + 1.0) * res
  {
    var e, e' := q - m, m + 1.0 - q;
    assert 0.0 <= e * res;
    assert 0.0 < e' * res;
    assert (m + 1.0) * res == q * res + e' * res;
  }

  /** The centre of a cell maps back to that cell. */
  lemma MapWorldRoundTrip(m: nat, origin: real, res: real)
    requires res > 0.0
    ensures CentreOf(m, origin, res) >= origin && CellOf(CentreOf(m, origin, res), origin, res) == m
  {
    var d := CentreOf(m, origin, res) - origin;
    assert d == (m as real + 0.5) * res;
    assert m as real * res <= d by { assert 0.5 * res >= 0.0; }
    assert d < (m as real + 1.0) * res;
    FloorOfQuotient(d, res, m);
    assert d / res >= 0.0;
  }

  /** A point shifted by whole cells maps to a cell shifted by as many. */
  lemma ShiftedCell(w: real, origin: real, res: real, shift: int)
    requires res > 0.0 && w >= origin && w >= origin + shift as real * res
    ensures CellOf(w, origin + shift as real * res, res) == CellOf(w, origin, res) - shift
  {
    var d := w - origin;
    var m := (d / res).Floor;
    QuotientBounds(d, res);
    var e := d - shift as real * res;
    assert (m - shift) as real * res == m as real * res - shift as real * res;
    assert ((m - shift) as real + 1.0) * res == (m as real + 1.0) * res - shift as real * res;
    FloorOfQuotient(e, res, m - shift);
    NonNegQuotient(d, res);
    NonNegQuotient(e, res);
    assert e == w - (origin + shift as real * res);
  }

  lemma NonNegQuotient(d: real, res: real)
    requires res > 0.0 && d >= 0.0
    ensures d / res >= 0.0
  {
    var q := d / res;
    DivideBack(d, res);
    if q < 0.0 {
      ScaleLt(q, 0.0, res);
    }
  }

  /** The cell-aligned origin lies within one cell of the requested one. */
  lemma TruncWithinCell(d: real, res: real)
    requires res > 0.0
    ensures -res < d - Trunc(d / res) as real * res < res
  {
    if d / res >= 0.0 {
      QuotientBounds(d, res);
      var m := (d / res).Floor;
      assert (m as real + 1.0) * res == m as real * res + res;
    } else {
      assert (-d) / res == -(d / res);
      QuotientBounds(-d, res);
      var m := ((-d) / res).Floor;
      assert (m as real + 1.0) * res == m as real * res + res;
      assert (-m) as real * res == -(m as real * res);
    }
  }

  /** A coordinate moved by whole cells. */
  function MovedBy(origin: real, cells: int, res: real): real {
    origin + cells as real * res
  }

  lemma AlignedWithinCell(w: real, origin: real, res: real)
    requires res > 0.0
    ensures -res < w - MovedBy(origin, CellOf(w, origin, res), res) < res
  {
    TruncWithinCell(w - origin, res);
  }

  datatype MapCell = OffMap | OnMap(x: int, y: int)

  /** Size and placement of a grid in the world. */
  datatype Frame = Frame(sizeX: nat, sizeY: nat, resolution: real, originX: real, originY: real) {
    predicate Contains(x: int, y: int) {
      0 <= x < sizeX && 0 <= y < sizeY
    }

    /** Costmap2D::worldToMap. */
    function WorldToMap(wx: real, wy: real): (c: MapCell)
      requires resolution > 0.0
      ensures c.OnMap? ==> Contains(c.x, c.y)
    {
      if wx < originX || wy < originY then OffMap
      else
        NonNegQuotient(wx - originX, resolution);
        NonNegQuotient(wy - originY, resolution);
        var mx, my := CellOf(wx, originX, resolution), CellOf(wy, originY, resolution);
        if mx < sizeX && my < sizeY then OnMap(mx, my) else OffMap
    }

    /** The frame moved by whole cells. */
    function Shifted(cx: int, cy: int): Frame {
      this.(originX := MovedBy(originX, cx, resolution), originY := MovedBy(originY, cy, resolution))
    }
  }

  /** Coordinate `w` lies on the half-open interval of cell `m`. */
  ghost predicate InCell(m: int, w: real, origin: real, res: real) {
    m as real * res <= w - origin < (m as real + 1.0) * res
  }

  lemma CellOfExact(w: real, origin: real, res: real, m: int)
    requires res > 0.0 && w >= origin
    ensures CellOf(w, origin, res) == m <==> InCell(m, w, origin, res)
  {
    NonNegQuotient(w - origin, res);
    QuotientBounds(w - origin, res);
    if InCell(m, w, origin, res) {
      FloorOfQuotient(w - origin, res, m);
    }
  }

  /** Below the origin the cell number is rounded towards zero, so upwards. */
  lemma CellOfBelow(w: real, origin: real, res: real)
    requires res > 0.0 && w <= origin
    ensures var m := CellOf(w, origin, res);
      && m <= 0
      && (m as real - 1.0) * res < w - origin <= m as real * res
  {
    var d := origin - w;
    assert (w - origin) / res == -(d / res);
    NonNegQuotient(d, res);
    QuotientBounds(d, res);
    var f := (d / res).Floor;
    assert CellOf(w, origin, res) == -f;
    assert (-f) as real * res == -(f as real * res);
    assert ((-f) as real - 1.0) * res == -((f as real + 1.0) * res);
  }

  /** The aligned origin lies between the old origin and the requested one. */
  lemma AlignedBetween(w: real, origin: real, res: real)
    requires res > 0.0
    ensures var m := MovedBy(origin, CellOf(w, origin, res), res);
      && (w >= origin ==> origin <= m <= w)
      && (w <= origin ==> w <= m <= origin)
  {
    var k := CellOf(w, origin, res);
    if w >= origin {
      CellOfExact(w, origin, res, k);
      NonNegQuotient(w - origin, res);
      ScaleLe(0.0, k as real, res);
    }
    if w <= origin {
      CellOfBelow(w, origin, res);
      ScaleLe(k as real, 0.0, res);
    }
  }

  lemma InCellAboveOrigin(m: nat, w: real, origin: real, res: real)
    requires res > 0.0 && InCell(m, w, origin, res)
    ensures w >= origin
  {
    ScaleLe(0.0, m as real, res);
  }

  /** A world point maps to the one cell of the grid whose square contains it, and to none otherwise. */
  lemma WorldToMapExact(f: Frame, wx: real, wy: real, x: int, y: int)
    requires f.resolution > 0.0
    ensures f.WorldToMap(wx, wy) == OnMap(x, y) <==>
      f.Contains(x, y) && InCell(x, wx, f.originX, f.resolution) && InCell(y, wy, f.originY, f.resolution)
  {
    hide CellOf, InCell;
    if wx >= f.originX && wy >= f.originY {
      CellOfExact(wx, f.originX, f.resolution, x);
      CellOfExact(wy, f.originY, f.resolution, y);
    } else if f.Contains(x, y) && InCell(x, wx, f.originX, f.resolution) && InCell(y, wy, f.originY, f.resolution) {
      InCellAboveOrigin(x, wx, f.originX, f.resolution);
      InCellAboveOrigin(y, wy, f.originY, f.resolution);
    }
  }

  // ---------- the rolling window ----------

  function Area(w: nat, h: nat): nat {
    NonNegProduct(w, h);
    w * h
  }

  /** Cell (x, y) of a grid, or `d` outside it. */
  function CellOr<T>(a: seq<T>, w: nat, h: nat, x: int, y: int, d: T): T
    requires |a| == w * h
  {
    if 0 <= x < w && 0 <= y < h then IdxInRange(w, h, x, y); a[Idx(w, x, y)] else d
  }

  /** The grid whose cell (x, y) is cell (x + cx, y + cy) of `a`, and `d` where that lies outside. */
  function Rolled<T>(a: seq<T>, w: nat, h: nat, cx: int, cy: int, d: T): (b: seq<T>)
    requires |a| == w * h
    ensures |b| == w * h
  {
    seq(Area(w, h), k requires 0 <= k < w * h =>
      assert w > 0;
      CellOr(a, w, h, k % w + cx, k / w + cy, d))
  }

  lemma RolledAt<T>(a: seq<T>, w: nat, h: nat, cx: int, cy: int, d: T, x: int, y: int)
    requires |a| == w * h && 0 <= x < w && 0 <= y < h
    ensures 0 <= Idx(w, x, y) < w * h
    ensures Rolled(a, w, h, cx, cy, d)[Idx(w, x, y)] == CellOr(a, w, h, x + cx, y + cy, d)
  {
    IdxInRange(w, h, x, y);
    IdxRoundTrip(w, x, y);
  }

  /** The cell of a world point moves with the window. */
  lemma ShiftedMapCell(f: Frame, cx: int, cy: int, wx: real, wy: real)
    requires f.resolution > 0.0
    requires f.WorldToMap(wx, wy).OnMap? && f.Shifted(cx, cy).WorldToMap(wx, wy).OnMap?
    ensures var m, m' := f.WorldToMap(wx, wy), f.Shifted(cx, cy).WorldToMap(wx, wy);
      m.x == m'.x + cx && m.y == m'.y + cy
  {
    hide CellOf, Frame.WorldToMap;
    OnMapCells(f, wx, wy);
    var g := f.Shifted(cx, cy);
    OnMapCells(g, wx, wy);
    var res := f.resolution;
    assert g.originX == f.originX + cx as real * res && g.originY == f.originY + cy as real * res;
    ShiftedCell(wx, f.originX, res, cx);
    assert CellOf(wx, g.originX, res) == CellOf(wx, f.originX, res) - cx;
    ShiftedCell(wy, f.originY, res, cy);
    assert CellOf(wy, g.originY, res) == CellOf(wy, f.originY, res) - cy;
  }

  lemma OnMapCells(f: Frame, wx: real, wy: real)
    requires f.resolution > 0.0 && f.WorldToMap(wx, wy).OnMap?
    ensures wx >= f.originX && wy >= f.originY
    ensures f.WorldToMap(wx, wy) ==
      OnMap(CellOf(wx, f.originX, f.resolution), CellOf(wy, f.originY, f.resolution))
  {
    hide CellOf;
  }

  /** A world point inside the window before and after a roll reads the same value. */
  lemma RollKeepsWorld<T>(f: Frame, a: seq<T>, cx: int, cy: int, d: T, wx: real, wy: real)
    requires f.resolution > 0.0 && |a| == f.sizeX * f.sizeY
    requires f.WorldToMap(wx, wy).OnMap? && f.Shifted(cx, cy).WorldToMap(wx, wy).OnMap?
    ensures var m, m' := f.WorldToMap(wx, wy), f.Shifted(cx, cy).WorldToMap(wx, wy);
      CellOr(Rolled(a, f.sizeX, f.sizeY, cx, cy, d), f.sizeX, f.sizeY, m'.x, m'.y, d) ==
      CellOr(a, f.sizeX, f.sizeY, m.x, m.y, d)
  {
    hide Idx, Frame.WorldToMap;
    ShiftedMapCell(f, cx, cy, wx, wy);
    var m' := f.Shifted(cx, cy).WorldToMap(wx, wy);
    RolledAt(a, f.sizeX, f.sizeY, cx, cy, d, m'.x, m'.y);
  }

  /** A cell of the rolled window that was not in the window before holds the default. */
  lemma RollExposesDefault<T>(f: Frame, a: seq<T>, cx: int, cy: int, d: T, x: int, y: int)
    requires |a| == f.sizeX * f.sizeY && f.Contains(x, y) && !f.Contains(x + cx, y + cy)
    ensures 0 <= Idx(f.sizeX, x, y) < |a|
    ensures Rolled(a, f.sizeX, f.sizeY, cx, cy, d)[Idx(f.sizeX, x, y)] == d
  {
    RolledAt(a, f.sizeX, f.sizeY, cx, cy, d, x, y);
  }

  // ---------- a whole run of rolls ----------

  function TotalShift(shifts: seq<(int, int)>): (int, int) {
    if shifts == [] then (0, 0)
    else
      var n := |shifts| - 1;
      var t := TotalShift(shifts[..n]);
      (t.0 + shifts[n].0, t.1 + shifts[n].1)
  }

  function RollRun<T>(a: seq<T>, w: nat, h: nat, shifts: seq<(int, int)>, d: T): (b: seq<T>)
    requires |a| == w * h
    ensures |b| == w * h
  {
    if shifts == [] then a
    else
      var n := |shifts| - 1;
      Rolled(RollRun(a, w, h, shifts[..n], d), w, h, shifts[n].0, shifts[n].1, d)
  }

  /** World cell (x, y), counted from the first origin, is inside the window after `shifts`. */
  predicate InWindowAfter(w: nat, h: nat, shifts: seq<(int, int)>, x: int, y: int) {
    var t := TotalShift(shifts);
    0 <= x - t.0 < w && 0 <= y - t.1 < h
  }

  predicate AlwaysInWindow(w: nat, h: nat, shifts: seq<(int, int)>, x: int, y: int) {
    forall n :: 0 <= n <= |shifts| ==> InWindowAfter(w, h, shifts[..n], x, y)
  }

  /**
   Over any run of rolls a world cell still in the window holds its first value exactly when it
   never left the window; once it has left, it holds the default.
   */
  lemma {:induction false} RollRunContent<T>(a: seq<T>, w: nat, h: nat, shifts: seq<(int, int)>, d: T, x: int, y: int)
    requires |a| == w * h && InWindowAfter(w, h, shifts, x, y)
    ensures var t := TotalShift(shifts);
      && 0 <= Idx(w, x - t.0, y - t.1) < w * h
      && (AlwaysInWindow(w, h, shifts, x, y) ==> 0 <= Idx(w, x, y) < w * h)
      && RollRun(a, w, h, shifts, d)[Idx(w, x - t.0, y - t.1)] ==
         if AlwaysInWindow(w, h, shifts, x, y) then a[Idx(w, x, y)] else d
    decreases |shifts|
  {
    var t := TotalShift(shifts);
    IdxInRange(w, h, x - t.0, y - t.1);
    if shifts == [] {
      assert shifts[..0] == [];
    } else {
      var n := |shifts| - 1;
      var before := shifts[..n];
      var prev := RollRun(a, w, h, before, d);
      RolledAt(prev, w, h, shifts[n].0, shifts[n].1, d, x - t.0, y - t.1);
      AlwaysExtends(w, h, shifts, x, y);
      if InWindowAfter(w, h, before, x, y) {
        RollRunContent(a, w, h, before, d, x, y);
      }
    }
  }

  lemma AlwaysExtends(w: nat, h: nat, shifts: seq<(int, int)>, x: int, y: int)
    requires shifts != [] && InWindowAfter(w, h, shifts, x, y)
    ensures AlwaysInWindow(w, h, shifts, x, y) <==>
      AlwaysInWindow(w, h, shifts[..|shifts| - 1], x, y)
    ensures AlwaysInWindow(w, h, shifts, x, y) ==> InWindowAfter(w, h, shifts[..|shifts| - 1], x, y)
  {
    var before := shifts[..|shifts| - 1];
    assert forall n :: 0 <= n <= |before| ==> before[..n] == shifts[..n];
    assert shifts[..|shifts|] == shifts;
    assert before[..|before|] == before;
  }

  /** copyMapRegion: a row-by-row rectangle copy between two grids. */
  method CopyMapRegion<T>(src: array<T>, sx0: int, sy0: int, sw: nat, ghost sh: nat,
                          dst: array<T>, dx0: int, dy0: int, dw: nat, ghost dh: nat, rx: nat, ry: nat)
    requires src != dst && src.Length == sw * sh && dst.Length == dw * dh
    requires rx > 0 && ry > 0 ==>
      0 <= sx0 && sx0 + rx <= sw && 0 <= sy0 && sy0 + ry <= sh &&
      0 <= dx0 && dx0 + rx <= dw && 0 <= dy0 && dy0 + ry <= dh
    modifies dst
    ensures CopiedRows(src[..], sx0, sy0, sw, sh, old(dst[..]), dst[..], dx0, dy0, dw, dh, rx, ry)
  {
    hide Idx, CopiedRows;
    ghost var before := dst[..];
    var smIndex := Idx(sw, sx0, sy0);
    var dmIndex := Idx(dw, dx0, dy0);
    NothingCopied(src[..], sx0, sy0, sw, sh, before, dx0, dy0, dw, dh, rx);
    var i := 0;
    while i < ry
      invariant 0 <= i <= ry
      invariant smIndex == Idx(sw, sx0, sy0 + i) && dmIndex == Idx(dw, dx0, dy0 + i)
      invariant CopiedRows(src[..], sx0, sy0, sw, sh, before, dst[..], dx0, dy0, dw, dh, rx, i)
    {
      if rx > 0 {
        RowInside(sw, sh, sx0, sy0 + i, rx);
        RowInside(dw, dh, dx0, dy0 + i, rx);
      }
      ghost var prev := dst[..];
      CopyRow(src, smIndex, dst, dmIndex, rx);
      CopyOneMoreRow(src[..], sx0, sy0, sw, sh, before, prev, dst[..], dx0, dy0, dw, dh, rx, i);
      NextRow(sw, sx0, sy0 + i);
      NextRow(dw, dx0, dy0 + i);
      smIndex := smIndex + sw;
      dmIndex := dmIndex + dw;
      i := i + 1;
    }
  }

  lemma NextRow(w: nat, x: int, y: int)
    ensures Idx(w, x, y + 1) == Idx(w, x, y) + w
  {
  }

  lemma NothingCopied<T>(src: seq<T>, sx0: int, sy0: int, sw: nat, sh: nat, before: seq<T>,
                         dx0: int, dy0: int, dw: nat, dh: nat, rx: nat)
    requires |src| == sw * sh && |before| == dw * dh
    ensures CopiedRows(src, sx0, sy0, sw, sh, before, before, dx0, dy0, dw, dh, rx, 0)
  {
    forall x, y | 0 <= x < dw && 0 <= y < dh
      ensures 0 <= Idx(dw, x, y) < dw * dh
    {
      IdxInRange(dw, dh, x, y);
    }
  }

  /** memcpy of one row. */
  method CopyRow<T>(src: array<T>, s0: int, dst: array<T>, d0: int, n: nat)
    requires src != dst
    requires n > 0 ==> 0 <= s0 && s0 + n <= src.Length && 0 <= d0 && d0 + n <= dst.Length
    modifies dst
    ensures forall k :: 0 <= k < dst.Length ==>
      dst[k] == if d0 <= k < d0 + n then src[k - d0 + s0] else old(dst[k])
  {
    forall k | 0 <= k < n {
      dst[d0 + k] := src[s0 + k];
    }
  }

  predicate InRegion(x0: int, y0: int, rx: int, ry: int, x: int, y: int) {
    x0 <= x < x0 + rx && y0 <= y < y0 + ry
  }

  /** The first `rows` rows of the region have been copied and nothing else has changed. */
  ghost predicate CopiedRows<T>(src: seq<T>, sx0: int, sy0: int, sw: nat, sh: nat, before: seq<T>, after: seq<T>,
                                dx0: int, dy0: int, dw: nat, dh: nat, rx: nat, rows: nat)
  {
    && |src| == sw * sh && |before| == dw * dh && |after| == dw * dh
    && forall x, y :: 0 <= x < dw && 0 <= y < dh ==>
      && 0 <= Idx(dw, x, y) < dw * dh
      && (InRegion(dx0, dy0, rx, rows, x, y) ==>
            && 0 <= Idx(sw, x - dx0 + sx0, y - dy0 + sy0) < sw * sh
            && after[Idx(dw, x, y)] == src[Idx(sw, x - dx0 + sx0, y - dy0 + sy0)])
      && (!InRegion(dx0, dy0, rx, rows, x, y) ==> after[Idx(dw, x, y)] == before[Idx(dw, x, y)])
  }

  lemma RowInside(w: nat, h: nat, x: int, y: int, rx: nat)
    requires rx > 0 && 0 <= x && x + rx <= w && 0 <= y < h
    ensures 0 <= Idx(w, x, y) && Idx(w, x, y) + rx <= w * h
  {
    IdxInRange(w, h, x, y);
    IdxInRange(w, h, x + rx - 1, y);
  }

  lemma CopyOneMoreRow<T>(src: seq<T>, sx0: int, sy0: int, sw: nat, sh: nat,
                          before: seq<T>, prev: seq<T>, after: seq<T>,
                          dx0: int, dy0: int, dw: nat, dh: nat, rx: nat, i: nat)
    requires CopiedRows(src, sx0, sy0, sw, sh, before, prev, dx0, dy0, dw, dh, rx, i)
    requires |after| == |prev|
    requires rx > 0 ==>
      0 <= sx0 && sx0 + rx <= sw && 0 <= sy0 + i < sh && 0 <= dx0 && dx0 + rx <= dw && 0 <= dy0 + i < dh
    requires var s0, d0 := Idx(sw, sx0, sy0 + i), Idx(dw, dx0, dy0 + i);
      && (rx > 0 ==> 0 <= s0 && s0 + rx <= |src|)
      && forall k :: 0 <= k < |after| ==> after[k] == if d0 <= k < d0 + rx then src[k - d0 + s0] else prev[k]
    ensures CopiedRows(src, sx0, sy0, sw, sh, before, after, dx0, dy0, dw, dh, rx, i + 1)
  {
    forall x, y | 0 <= x < dw && 0 <= y < dh
      ensures
        && 0 <= Idx(dw, x, y) < dw * dh
        && (InRegion(dx0, dy0, rx, i + 1, x, y) ==>
              && 0 <= Idx(sw, x - dx0 + sx0, y - dy0 + sy0) < sw * sh
              && after[Idx(dw, x, y)] == src[Idx(sw, x - dx0 + sx0, y - dy0 + sy0)])
        && (!InRegion(dx0, dy0, rx, i + 1, x, y) ==> after[Idx(dw, x, y)] == before[Idx(dw, x, y)])
    {
      RowOfIndex(dw, dx0, dy0 + i, rx, x, y);
      RowOffset(sw, sx0, sy0 + i, dw, dx0, dy0 + i, x, y);
      hide Idx;
      assert 0 <= Idx(dw, x, y) < dw * dh;
    }
  }

  /** An index falls into a row segment exactly when its cell does. */
  lemma RowOfIndex(w: nat, x0: int, y0: int, rx: nat, x: int, y: int)
    requires rx > 0 ==> 0 <= x0 && x0 + rx <= w
    requires 0 <= x < w
    ensures Idx(w, x0, y0) <= Idx(w, x, y) < Idx(w, x0, y0) + rx <==> y == y0 && x0 <= x < x0 + rx
  {
    if rx > 0 && Idx(w, x0, y0) <= Idx(w, x, y) < Idx(w, x0, y0) + rx {
      var k := Idx(w, x, y) - Idx(w, x0, y0);
      IdxInjective(w, x0 + k, y0, x, y);
    }
  }

  lemma RowOffset(sw: nat, sx0: int, sy: int, dw: nat, dx0: int, dy: int, x: int, y: int)
    ensures y == dy ==> Idx(dw, x, y) - Idx(dw, dx0, dy) + Idx(sw, sx0, sy) == Idx(sw, x - dx0 + sx0, sy)
  {
  }
}
