/** Grid lines: the cells Bresenham's algorithm visits, and the iterator that walks them. */
module Line {
  import opened Arithmetic

  type Loc = (int, int)

  function Sign(a: int): int {
    if a >= 0 then 1 else -1
  }

  /** Steps taken along the minor axis after `i` of `da` steps along the major one. */
  function Minor(da: nat, db: nat, i: nat): nat {
    if da == 0 then 0 else MinorNonneg(da, db, i); (da / 2 + i * db) / da
  }

  lemma MinorNonneg(da: nat, db: nat, i: nat)
    requires da > 0
    ensures (da / 2 + i * db) / da >= 0
  {
    assert i * db >= 0;
  }

  function Steps(p: Loc, q: Loc): nat {
    if Abs(q.0 - p.0) >= Abs(q.1 - p.1) then Abs(q.0 - p.0) else Abs(q.1 - p.1)
  }

  /** The `i`-th cell of the line from `p` to `q`. */
  function LineCell(p: Loc, q: Loc, i: nat): Loc {
    var dx, dy := Abs(q.0 - p.0), Abs(q.1 - p.1);
    if dx >= dy
    then (p.0 + Sign(q.0 - p.0) * i, p.1 + Sign(q.1 - p.1) * Minor(dx, dy, i))
    else (p.0 + Sign(q.0 - p.0) * Minor(dy, dx, i), p.1 + Sign(q.1 - p.1) * i)
  }

  function LineCells(p: Loc, q: Loc): (s: seq<Loc>)
    ensures |s| == Steps(p, q) + 1
  {
    seq(Steps(p, q) + 1, i requires 0 <= i => LineCell(p, q, i))
  }

  // ---------- the minor axis ----------

  lemma QuotientUnique(n: int, d: int, k: int)
    requires d > 0 && k * d <= n < k * d + d
    ensures n / d == k
  {
    var q := n / d;
    assert q * d <= n < q * d + d;
    if q < k {
      ProductStep(q, k, d);
    } else if k < q {
      ProductStep(k, q, d);
    }
  }

  /** The step count is the quotient that leaves a remainder below `da`. */
  lemma MinorIs(da: nat, db: nat, i: nat, k: int)
    requires da > 0 && k * da <= da / 2 + i * db < k * da + da
    ensures Minor(da, db, i) == k
  {
    QuotientUnique(da / 2 + i * db, da, k);
  }

  lemma MinorBounds(da: nat, db: nat, i: nat)
    requires da > 0
    ensures Minor(da, db, i) * da <= da / 2 + i * db < Minor(da, db, i) * da + da
  {
  }

  /** The minor axis starts at 0, ends at `db`, and advances by at most one per step. */
  lemma MinorEnds(da: nat, db: nat)
    requires db <= da
    ensures Minor(da, db, 0) == 0 && Minor(da, db, da) == db
  {
    if da > 0 {
      MinorIs(da, db, 0, 0);
      assert da * db == db * da;
      MinorIs(da, db, da, db);
    }
  }

  lemma MinorStep(da: nat, db: nat, i: nat)
    requires db <= da
    ensures Minor(da, db, i) <= Minor(da, db, i + 1) <= Minor(da, db, i) + 1
  {
    if da > 0 {
      var k, k' := Minor(da, db, i), Minor(da, db, i + 1);
      MinorBounds(da, db, i);
      MinorBounds(da, db, i + 1);
      assert (i + 1) * db == i * db + db;
      assert (k + 1) * da == k * da + da;
      hide Minor;
      if k' < k {
        ProductStep(k', k, da);
      } else if k' > k + 1 {
        ProductStep(k + 1, k', da);
      }
    }
  }

  lemma {:induction false} MinorMonotone(da: nat, db: nat, i: nat, j: nat)
    requires db <= da && i <= j
    ensures Minor(da, db, i) <= Minor(da, db, j)
    decreases j - i
  {
    if i < j {
      MinorMonotone(da, db, i, j - 1);
      MinorStep(da, db, j - 1);
    }
  }

  lemma MinorRange(da: nat, db: nat, i: nat)
    requires db <= da && i <= da
    ensures Minor(da, db, i) <= db
  {
    MinorEnds(da, db);
    MinorMonotone(da, db, i, da);
  }

  /** The minor axis skips no value on its way to `db`. */
  lemma {:induction false} MinorReaches(da: nat, db: nat, i: nat, v: nat)
    requires db <= da && i <= da && v <= Minor(da, db, i)
    ensures exists j: nat :: j <= i && Minor(da, db, j) == v
  {
    if v == Minor(da, db, i) {
    } else if i == 0 {
      MinorEnds(da, db);
      assert false;
    } else {
      MinorStep(da, db, i - 1);
      MinorReaches(da, db, i - 1, v);
    }
  }

  // ---------- lines ----------

  /** `a` lies between `b` and `c`, in either order. */
  predicate Between(b: int, a: int, c: int) {
    b <= a <= c || c <= a <= b
  }

  lemma LineEnds(p: Loc, q: Loc)
    ensures LineCells(p, q)[0] == p && LineCells(p, q)[Steps(p, q)] == q
  {
    hide Minor;
    var dx, dy := Abs(q.0 - p.0), Abs(q.1 - p.1);
    if dx >= dy {
      MinorEnds(dx, dy);
    } else {
      MinorEnds(dy, dx);
    }
  }

  /** Every cell of a line lies in the rectangle spanned by its ends. */
  lemma LineInRectangle(p: Loc, q: Loc, i: nat)
    requires i <= Steps(p, q)
    ensures Between(p.0, LineCell(p, q, i).0, q.0) && Between(p.1, LineCell(p, q, i).1, q.1)
  {
    hide Minor;
    var dx, dy := Abs(q.0 - p.0), Abs(q.1 - p.1);
    if dx >= dy {
      MinorRange(dx, dy, i);
    } else {
      MinorRange(dy, dx, i);
    }
  }

  /** Consecutive cells of a line touch, at most diagonally. */
  lemma LineConnected(p: Loc, q: Loc, i: nat)
    requires i < Steps(p, q)
    ensures var a, b := LineCell(p, q, i), LineCell(p, q, i + 1);
      Abs(b.0 - a.0) <= 1 && Abs(b.1 - a.1) <= 1 && a != b
  {
    hide Minor;
    var dx, dy := Abs(q.0 - p.0), Abs(q.1 - p.1);
    if dx >= dy {
      MinorStep(dx, dy, i);
    } else {
      MinorStep(dy, dx, i);
    }
  }

  /** A line crosses every column between its ends. */
  lemma LineCoversColumn(p: Loc, q: Loc, x: int) returns (i: nat)
    requires Between(p.0, x, q.0)
    ensures i <= Steps(p, q) && LineCell(p, q, i).0 == x
  {
    var dx, dy := Abs(q.0 - p.0), Abs(q.1 - p.1);
    if dx >= dy {
      i := Abs(x - p.0);
    } else {
      MinorEnds(dy, dx);
      MinorReaches(dy, dx, dy, Abs(x - p.0));
      i :| i <= dy && Minor(dy, dx, i) == Abs(x - p.0);
    }
  }

  /** No cell is further than half a cell from the ideal line, along the minor axis. */
  lemma LineIsNearest(da: nat, db: nat, i: nat)
    requires db <= da
    ensures 2 * Abs(Minor(da, db, i) * da - i * db) <= da
  {
    if da > 0 {
      MinorBounds(da, db, i);
      hide Minor;
      var d := Minor(da, db, i) * da - i * db;
      assert -(da - da / 2 - 1) <= d <= da / 2 || da == 0;
    }
  }

  // ---------- a line walked backwards ----------

  /** Step `i` lies exactly half way between two cells of the minor axis. */
  predicate Tie(da: nat, db: nat, i: nat) {
    da > 0 && 2 * ((i * db) % da) == da
  }

  /** The quotient form by quotient and remainder of the ideal line. */
  lemma MinorByRemainder(da: nat, db: nat, i: nat, q: int, r: int)
    requires da > 0 && i * db == q * da + r && 0 <= r < da
    ensures Minor(da, db, i) == if da / 2 + r >= da then q + 1 else q
  {
    var k := if da / 2 + r >= da then q + 1 else q;
    assert (q + 1) * da == q * da + da;
    MinorIs(da, db, i, k);
  }

  /** Counted from the other end, a step rounds to the same place unless it is a tie. */
  lemma MinorBackwards(da: nat, db: nat, i: nat)
    requires da > 0 && db <= da && i <= da
    ensures Minor(da, db, i) + Minor(da, db, da - i) == if Tie(da, db, i) then db + 1 else db
  {
    var q, r := (i * db) / da, (i * db) % da;
    assert i * db == q * da + r;
    MinorByRemainder(da, db, i, q, r);
    Complement(da, db, i, q, r);
    hide Minor;
    if r == 0 {
      MinorByRemainder(da, db, da - i, db - q, 0);
    } else {
      MinorByRemainder(da, db, da - i, db - q - 1, da - r);
    }
  }

  lemma Complement(da: nat, db: nat, i: nat, q: int, r: int)
    requires i <= da && i * db == q * da + r
    ensures (da - i) * db == (db - q) * da - r == (db - q - 1) * da + (da - r)
  {
    assert (da - i) * db == da * db - i * db;
    assert (db - q) * da == db * da - q * da;
    assert (db - q - 1) * da == (db - q) * da - da;
  }

  /** Cell `i` of a line is the cell met at the same place on the way back if and only if it is no tie. */
  lemma LineBackwards(p: Loc, q: Loc, i: nat)
    requires i <= Steps(p, q)
    ensures var dx, dy := Abs(q.0 - p.0), Abs(q.1 - p.1);
      LineCell(p, q, i) == LineCell(q, p, Steps(p, q) - i) <==>
        !(if dx >= dy then Tie(dx, dy, i) else Tie(dy, dx, i))
  {
    var dx, dy := Abs(q.0 - p.0), Abs(q.1 - p.1);
    hide Minor, Tie;
    if dx >= dy {
      MinorBackwardsAny(dx, dy, i);
    } else {
      MinorBackwardsAny(dy, dx, i);
    }
  }

  lemma MinorBackwardsAny(da: nat, db: nat, i: nat)
    requires db <= da && i <= da
    ensures Minor(da, db, i) + Minor(da, db, da - i) == if Tie(da, db, i) then db + 1 else db
    ensures db == 0 ==> !Tie(da, db, i)
  {
    hide Minor, Tie;
    if da > 0 {
      MinorBackwards(da, db, i);
      FlatHasNoTie(da, db, i);
    } else {
      MinorNone(i);
    }
  }

  lemma MinorNone(i: nat)
    ensures Minor(0, 0, i) == 0 && !Tie(0, 0, i)
  {
  }

  lemma FlatHasNoTie(da: nat, db: nat, i: nat)
    requires da > 0
    ensures db == 0 ==> !Tie(da, db, i)
  {
    assert db == 0 ==> i * db == 0;
  }

  /** The two directions do visit different cells: out through (1, 1), back through (1, 0). */
  lemma WayBackDiffers()
    ensures (1, 1) in LineCells((0, 0), (2, 1)) && (1, 1) !in LineCells((2, 1), (0, 0))
    ensures (1, 0) in LineCells((2, 1), (0, 0)) && (1, 0) !in LineCells((0, 0), (2, 1))
  {
    assert LineCells((0, 0), (2, 1)) == [(0, 0), (1, 1), (2, 1)];
    assert LineCells((2, 1), (0, 0)) == [(2, 1), (1, 0), (0, 0)];
  }

  // ---------- nav2_util::LineIterator ----------

  class LineIterator {
    const start: Loc
    const end: Loc
    var x: int
    var y: int
    var curPixel: nat
    const xinc1: int
    const xinc2: int
    const yinc1: int
    const yinc2: int
    const den: nat
    const numAdd: nat
    const numPixels: nat
    var num: int

    /** While valid, the iterator stands on cell number `curPixel` of its line. */
    ghost predicate Valid()
      reads this
    {
      var dx, dy := Abs(end.0 - start.0), Abs(end.1 - start.1);
      && numPixels == Steps(start, end) == den
      && numAdd == (if dx >= dy then dy else dx)
      && xinc1 == (if dx >= dy then 0 else Sign(end.0 - start.0))
      && xinc2 == (if dx >= dy then Sign(end.0 - start.0) else 0)
      && yinc1 == (if dx >= dy then Sign(end.1 - start.1) else 0)
      && yinc2 == (if dx >= dy then 0 else Sign(end.1 - start.1))
      && curPixel <= numPixels + 1
      && (curPixel <= numPixels ==>
            && (x, y) == LineCell(start, end, curPixel)
            && (den > 0 ==> 0 <= num < den)
            && (den == 0 ==> num == 0)
            && num + Minor(den, numAdd, curPixel) * den == den / 2 + curPixel * numAdd)
    }

    constructor (x0: int, y0: int, x1: int, y1: int)
      ensures Valid() && curPixel == 0 && start == (x0, y0) && end == (x1, y1)
    {
      start, end := (x0, y0), (x1, y1);
      x, y := x0, y0;
      var deltaX, deltaY := Abs(x1 - x0), Abs(y1 - y0);
      curPixel := 0;
      var xinc1, xinc2, yinc1, yinc2;
      if x1 >= x0 {
        xinc1, xinc2 := 1, 1;
      } else {
        xinc1, xinc2 := -1, -1;
      }
      if y1 >= y0 {
        yinc1, yinc2 := 1, 1;
      } else {
        yinc1, yinc2 := -1, -1;
      }
      if deltaX >= deltaY {
        xinc1, yinc2 := 0, 0;
        den, num, numAdd, numPixels := deltaX, deltaX / 2, deltaY, deltaX;
      } else {
        xinc2, yinc1 := 0, 0;
        den, num, numAdd, numPixels := deltaY, deltaY / 2, deltaX, deltaY;
      }
      this.xinc1, this.xinc2, this.yinc1, this.yinc2 := xinc1, xinc2, yinc1, yinc2;
      new;
      hide Minor;
      MinorEnds(den, numAdd);
    }

    predicate IsValid()
      reads this
    {
      curPixel <= numPixels
    }

    method Advance()
      requires Valid() && IsValid()
      modifies this
      ensures Valid() && curPixel == old(curPixel) + 1
    {
      hide Minor, Sign, LineCell;
      ghost var k := Minor(den, numAdd, curPixel);
      num := num + numAdd;
      ghost var carry := 0;
      if num >= den {
        num := num - den;
        x := x + xinc1;
        y := y + yinc1;
        carry := 1;
      }
      x := x + xinc2;
      y := y + yinc2;
      curPixel := curPixel + 1;
      if den > 0 {
        CarryStep(den, numAdd, curPixel - 1, k, num, carry);
        LineNext(start, end, curPixel - 1, carry);
      }
    }
  }

  /** One more step: a unit along the major axis, the carry along the minor one. */
  lemma LineNext(p: Loc, q: Loc, i: nat, carry: int)
    requires var dx, dy := Abs(q.0 - p.0), Abs(q.1 - p.1);
      if dx >= dy then Minor(dx, dy, i + 1) == Minor(dx, dy, i) + carry
      else Minor(dy, dx, i + 1) == Minor(dy, dx, i) + carry
    ensures var a, b := LineCell(p, q, i), LineCell(p, q, i + 1);
      if Abs(q.0 - p.0) >= Abs(q.1 - p.1)
      then b.0 == a.0 + Sign(q.0 - p.0) && b.1 == a.1 + Sign(q.1 - p.1) * carry
      else b.0 == a.0 + Sign(q.0 - p.0) * carry && b.1 == a.1 + Sign(q.1 - p.1)
  {
    hide Minor;
  }

  /** Adding the minor length and carrying at `da` advances the quotient by the carry. */
  lemma CarryStep(da: nat, db: nat, i: nat, k: int, num: int, carry: int)
    requires da > 0 && 0 <= num < da && 0 <= carry <= 1
    requires num - db + carry * da + k * da == da / 2 + i * db
    ensures Minor(da, db, i + 1) == k + carry
    ensures num + Minor(da, db, i + 1) * da == da / 2 + (i + 1) * db
  {
    assert (k + carry) * da == k * da + carry * da;
    assert (i + 1) * db == i * db + db;
    MinorIs(da, db, i + 1, k + carry);
  }
}
