/** The dense ranking of squared cell distances that orders the inflation bins. */
module DistanceRank {
  function NormSq(x: int, y: int): int {
    x * x + y * y
  }

  ghost predicate InDisc(r: int, x: int, y: int) {
    -r <= x <= r && -r <= y <= r && NormSq(x, y) <= r * r
  }

  /** `d` is the squared length of some offset in the disc of radius `r`. */
  ghost predicate IsDist(r: int, d: int) {
    exists x, y :: InDisc(r, x, y) && NormSq(x, y) == d
  }

  /** How many squared distances of the disc lie strictly below `d`. */
  ghost function Rank(r: int, d: nat): (n: nat) {
    if d == 0 then 0 else Rank(r, d - 1) + (if IsDist(r, d - 1) then 1 else 0)
  }

  lemma RankZero(r: int)
    ensures Rank(r, 0) == 0
  {
  }

  lemma {:induction false} RankMonotone(r: int, a: nat, b: nat)
    requires a <= b
    ensures Rank(r, a) <= Rank(r, b)
    decreases b
  {
    if a < b {
      RankMonotone(r, a, b - 1);
    }
  }

  lemma RankStrict(r: int, a: nat, b: nat)
    requires a < b && IsDist(r, a)
    ensures Rank(r, a) < Rank(r, b)
  {
    RankMonotone(r, a + 1, b);
  }

  /** Consecutive distances of the disc have consecutive ranks. */
  lemma {:induction false} RankGap(r: int, a: nat, b: nat)
    requires a < b && IsDist(r, a)
    requires forall d :: a < d < b ==> !IsDist(r, d)
    ensures Rank(r, b) == Rank(r, a) + 1
    decreases b
  {
    if a + 1 < b {
      RankGap(r, a, b - 1);
    }
  }

  /** The ranking is an order isomorphism on the disc: rank order is distance order. */
  lemma RankIsomorphism(r: int, x: int, y: int, x': int, y': int)
    requires InDisc(r, x, y) && InDisc(r, x', y')
    ensures Rank(r, NormSq(x, y)) < Rank(r, NormSq(x', y')) <==> NormSq(x, y) < NormSq(x', y')
    ensures Rank(r, NormSq(x, y)) == Rank(r, NormSq(x', y')) <==> NormSq(x, y) == NormSq(x', y')
  {
    var a, b := NormSq(x, y), NormSq(x', y');
    if a < b {
      RankStrict(r, a, b);
    } else if b < a {
      RankStrict(r, b, a);
    }
  }

  /** The ranking is dense: every level up to the last one is used by some offset. */
  lemma {:induction false} RankDense(r: int, d: nat, k: nat)
    requires k < Rank(r, d)
    ensures exists e: nat :: e < d && IsDist(r, e) && Rank(r, e) == k
    decreases d
  {
    if k < Rank(r, d - 1) {
      RankDense(r, d - 1, k);
      var e: nat :| e < d - 1 && IsDist(r, e) && Rank(r, e) == k;
      assert e < d;
    } else {
      assert IsDist(r, d - 1) && Rank(r, d - 1) == k;
    }
  }

  /** Both ends of the scale are distances of the disc: 0, and r^2 at (r, 0). */
  lemma EndsAreDistances(r: int)
    requires 0 <= r
    ensures IsDist(r, 0) && IsDist(r, r * r)
  {
    AxisPoint(r, 0);
    AxisPoint(r, r);
  }

  lemma AxisPoint(r: int, a: int)
    requires 0 <= a <= r
    ensures InDisc(r, a, 0) && NormSq(a, 0) == a * a && IsDist(r, a * a)
  {
    SquareMonotone(a, r);
    var d := a * a;
    assert NormSq(a, 0) == d;
    assert InDisc(r, a, 0);
    assert IsDist(r, d);
  }

  lemma SquareMonotone(a: int, b: int)
    requires 0 <= a <= b
    ensures 0 <= a * a <= b * b
  {
    assert a * a <= a * b;
    assert a * b <= b * b;
  }

  lemma SquareGrows(radius: int, d: int)
    requires 0 <= radius && (d > radius || -d > radius)
    ensures d * d > radius * radius
  {
    var a := if d > 0 then d else -d;
    assert a * a == d * d;
    assert a * a > a * radius >= radius * radius;
  }

  lemma SquareNonneg(d: int)
    ensures 0 <= d * d
  {
  }

  lemma NormNonneg(dx: int, dy: int)
    ensures 0 <= NormSq(dx, dy)
  {
    SquareNonneg(dx);
    SquareNonneg(dy);
  }

  /** An offset of squared length at most `radius`^2 fits the square of that radius. */
  lemma OffsetBound(radius: int, dx: int, dy: int)
    requires 0 <= radius && NormSq(dx, dy) <= radius * radius
    ensures -radius <= dx <= radius && -radius <= dy <= radius
  {
    SquareNonneg(dx);
    SquareNonneg(dy);
    if dx > radius || -dx > radius {
      SquareGrows(radius, dx);
    }
    if dy > radius || -dy > radius {
      SquareGrows(radius, dy);
    }
  }

  /** A unit step changes a squared distance by an odd amount, so never keeps its level. */
  lemma UnitStepChangesParity(dx: int, dy: int, ex: int, ey: int)
    requires (ex, ey) in {(1, 0), (-1, 0), (0, 1), (0, -1)}
    ensures (NormSq(dx + ex, dy + ey) - NormSq(dx, dy)) % 2 == 1
  {
    assert NormSq(dx + ex, dy + ey) - NormSq(dx, dy) == 2 * (dx * ex + dy * ey) + 1;
  }

  ghost predicate SortedByNorm(s: seq<(int, int)>) {
    forall i, j :: 0 <= i < j < |s| ==> NormSq(s[i].0, s[i].1) <= NormSq(s[j].0, s[j].1)
  }

  function InsertByNorm(p: (int, int), s: seq<(int, int)>): (t: seq<(int, int)>)
    requires SortedByNorm(s)
    ensures SortedByNorm(t) && multiset(t) == multiset(s) + multiset{p}
  {
    if s == [] || NormSq(p.0, p.1) <= NormSq(s[0].0, s[0].1) then [p] + s
    else
      var rest := InsertByNorm(p, s[1..]);
      InsertBelow(s, p, rest);
      [s[0]] + rest
  }

  lemma InsertBelow(s: seq<(int, int)>, p: (int, int), rest: seq<(int, int)>)
    requires s != [] && SortedByNorm(s) && SortedByNorm(rest)
    requires multiset(rest) == multiset(s[1..]) + multiset{p}
    requires NormSq(s[0].0, s[0].1) < NormSq(p.0, p.1)
    ensures SortedByNorm([s[0]] + rest) && multiset([s[0]] + rest) == multiset(s) + multiset{p}
  {
    assert s == [s[0]] + s[1..];
    forall j | 0 <= j < |rest|
      ensures NormSq(s[0].0, s[0].1) <= NormSq(rest[j].0, rest[j].1)
    {
      assert rest[j] in multiset(rest);
      if rest[j] != p {
        assert rest[j] in multiset(s[1..]);
      }
    }
  }

  /** Stands for std::sort: some permutation in non-decreasing distance order. */
  function SortByNorm(s: seq<(int, int)>): (t: seq<(int, int)>)
    ensures SortedByNorm(t) && multiset(t) == multiset(s)
  {
    if s == [] then [] else
      assert s == [s[0]] + s[1..];
      InsertByNorm(s[0], SortByNorm(s[1..]))
  }
}
