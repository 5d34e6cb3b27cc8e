/** Ray-crossing point-in-polygon test: parity, chords, bounding box, and the even-odd rule. */
module Polygon {
  datatype Point = Point(x: real, y: real)

  // ---------- one edge ----------

  /** The half-open straddle test: exactly one end is at or above the point. */
  predicate Straddles(a: Point, b: Point, p: Point) {
    (p.y <= a.y) == (p.y > b.y)
  }

  /** Where the line through a straddling edge meets the ray's height. */
  function XInter(a: Point, b: Point, p: Point): real
    requires Straddles(a, b, p)
  {
    a.x + (p.y - a.y) * (b.x - a.x) / (b.y - a.y)
  }

  /** The edge inverts the result. */
  predicate Flips(a: Point, b: Point, p: Point) {
    Straddles(a, b, p) && XInter(a, b, p) > p.x
  }

  /** Twice the signed area of the triangle a, b, c: positive when c is left of a -> b. */
  function Orient(a: Point, b: Point, c: Point): real {
    (b.x - a.x) * (c.y - a.y) - (b.y - a.y) * (c.x - a.x)
  }

  lemma QuotientAbove(n: real, d: real, v: real)
    requires d != 0.0
    ensures d > 0.0 ==> (n / d > v <==> n > v * d)
    ensures d < 0.0 ==> (n / d > v <==> n < v * d)
  {
    var q := n / d;
    assert q * d == n;
    var e := q - v;
    assert e * d == n - v * d;
    if d > 0.0 {
      assert e > 0.0 <==> e * d > 0.0;
    } else {
      assert e > 0.0 <==> e * d < 0.0;
    }
  }

  /** A straddling edge flips exactly when the point is on the inner side of its direction. */
  lemma FlipsBySide(a: Point, b: Point, p: Point)
    requires Straddles(a, b, p)
    ensures Flips(a, b, p) <==> if b.y > a.y then Orient(a, b, p) > 0.0 else Orient(a, b, p) < 0.0
  {
    var n, d, v := (p.y - a.y) * (b.x - a.x), b.y - a.y, p.x - a.x;
    QuotientAbove(n, d, v);
    assert Orient(a, b, p) == n - v * d;
  }

  lemma OrientReverse(a: Point, b: Point, p: Point)
    ensures Orient(b, a, p) == -Orient(a, b, p)
  {
  }

  /** Walking an edge backwards changes nothing. */
  lemma FlipsSymmetric(a: Point, b: Point, p: Point)
    ensures Flips(a, b, p) == Flips(b, a, p)
  {
    if Straddles(a, b, p) {
      FlipsBySide(a, b, p);
      FlipsBySide(b, a, p);
      OrientReverse(a, b, p);
    }
  }

  // ---------- paths and closed polygons ----------

  /** Parity of the flipping edges along a path. */
  ghost function Parity(path: seq<Point>, p: Point): bool {
    if |path| < 2 then false
    else Parity(path[..|path| - 1], p) != Flips(path[|path| - 2], path[|path| - 1], p)
  }

  /** isPointInside as a parity: edges are taken from the closing one on. */
  ghost function Inside(poly: seq<Point>, p: Point): bool {
    if poly == [] then false else Parity([poly[|poly| - 1]] + poly, p)
  }

  /** The parity of a path cut at a vertex is the XOR of its two parts. */
  lemma {:induction false} ParitySplit(path: seq<Point>, m: nat, p: Point)
    requires m < |path|
    ensures Parity(path, p) == (Parity(path[..m + 1], p) != Parity(path[m..], p))
  {
    hide Flips;
    var n := |path| - 1;
    if m == n {
      assert path[..m + 1] == path;
    } else {
      ParitySplit(path[..n], m, p);
      assert path[..n][..m + 1] == path[..m + 1];
      assert path[..n][m..] == path[m..][..n - m];
    }
  }

  lemma ParityEdge(a: Point, b: Point, p: Point)
    ensures Parity([a, b], p) == Flips(a, b, p)
  {
    hide Flips;
    assert [a, b][..1] == [a];
  }

  function Reversed(path: seq<Point>): (r: seq<Point>)
    ensures |r| == |path|
  {
    if path == [] then [] else [path[|path| - 1]] + Reversed(path[..|path| - 1])
  }

  lemma {:induction false} ReversedEnds(path: seq<Point>)
    requires path != []
    ensures Reversed(path)[0] == path[|path| - 1] && Reversed(path)[|path| - 1] == path[0]
  {
    if |path| > 1 {
      ReversedEnds(path[..|path| - 1]);
    }
  }

  lemma {:induction false} ParityReversed(path: seq<Point>, p: Point)
    ensures Parity(Reversed(path), p) == Parity(path, p)
  {
    hide Flips;
    if |path| >= 2 {
      var n := |path| - 1;
      var r := Reversed(path);
      ParityReversed(path[..n], p);
      ParitySplit(r, 1, p);
      ReversedEnds(path[..n]);
      assert r[..2] == [path[n], path[n - 1]];
      assert r[1..] == Reversed(path[..n]);
      ParityEdge(path[n], path[n - 1], p);
      FlipsSymmetric(path[n], path[n - 1], p);
    }
  }

  /** The closing edge may be taken last instead of first. */
  lemma InsideClosedLast(poly: seq<Point>, p: Point)
    requires poly != []
    ensures Inside(poly, p) == Parity(poly + [poly[0]], p)
  {
    hide Flips;
    var first, last := poly[0], poly[|poly| - 1];
    var closedFirst, closedLast := [last] + poly, poly + [first];
    ParitySplit(closedFirst, 1, p);
    ParitySplit(closedLast, |poly| - 1, p);
    assert closedFirst[..2] == [last, first] && closedFirst[1..] == poly;
    assert closedLast[..|poly|] == poly && closedLast[|poly| - 1..] == [last, first];
  }

  /** The boundary cut at two vertices. */
  lemma BoundaryCut(poly: seq<Point>, a: nat, b: nat, p: Point)
    requires a <= b < |poly|
    ensures Inside(poly, p) ==
      (Parity(poly[..a + 1], p) != (Parity(poly[a..b + 1], p) != Parity(poly[b..] + [poly[0]], p)))
  {
    hide Flips, Inside, Parity;
    var closed := poly + [poly[0]];
    InsideClosedLast(poly, p);
    ParitySplit(closed, a, p);
    ParitySplit(closed[a..], b - a, p);
    assert closed[..a + 1] == poly[..a + 1];
    assert closed[a..][..b - a + 1] == poly[a..b + 1];
    assert closed[a..][b - a..] == poly[b..] + [poly[0]];
  }

  /** A boundary piece closed by its chord. */
  lemma ClosedByChord(path: seq<Point>, p: Point)
    requires path != []
    ensures Inside(path, p) == (Parity(path, p) != Flips(path[|path| - 1], path[0], p))
  {
    hide Flips, Inside, Parity;
    var closed := path + [path[0]];
    InsideClosedLast(path, p);
    ParitySplit(closed, |path| - 1, p);
    assert closed[..|path|] == path && closed[|path| - 1..] == [path[|path| - 1], path[0]];
    ParityEdge(path[|path| - 1], path[0], p);
  }

  /** Cutting a polygon along the chord between two of its vertices: the answers combine by XOR. */
  lemma ChordAdditive(poly: seq<Point>, a: nat, b: nat, p: Point)
    requires a <= b < |poly|
    ensures Inside(poly, p) == (Inside(poly[a..b + 1], p) != Inside(poly[b..] + poly[..a + 1], p))
  {
    hide Flips, Inside, Parity;
    var inner, outer := poly[a..b + 1], poly[b..] + poly[..a + 1];
    BoundaryCut(poly, a, b, p);
    ClosedByChord(inner, p);
    ClosedByChord(outer, p);
    var k := |poly| - b;
    ParitySplit(outer, k, p);
    assert outer[..k + 1] == poly[b..] + [poly[0]] && outer[k..] == poly[..a + 1];
    FlipsSymmetric(poly[a], poly[b], p);
  }

  /** The answer does not depend on which vertex comes first. */
  lemma RotationInvariant(poly: seq<Point>, k: nat, p: Point)
    requires k < |poly|
    ensures Inside(poly[k..] + poly[..k], p) == Inside(poly, p)
  {
    hide Flips;
    var rotated := poly[k..] + poly[..k];
    InsideClosedLast(poly, p);
    InsideClosedLast(rotated, p);
    var closed, closedRotated := poly + [poly[0]], rotated + [rotated[0]];
    ParitySplit(closed, k, p);
    ParitySplit(closedRotated, |poly| - k, p);
    assert closed[..k + 1] == closedRotated[|poly| - k..];
    assert closed[k..] == closedRotated[..|poly| - k + 1];
  }

  /** The answer does not depend on the direction in which the vertices are listed. */
  lemma ReversalInvariant(poly: seq<Point>, p: Point)
    ensures Inside(Reversed(poly), p) == Inside(poly, p)
  {
    hide Flips;
    if poly != [] {
      var n := |poly| - 1;
      var closed := [poly[n]] + poly;
      ReversedEnds(poly);
      InsideClosedLast(Reversed(poly), p);
      ReversedCons(poly[n], poly);
      ParityReversed(closed, p);
    }
  }

  lemma {:induction false} ReversedCons(v: Point, s: seq<Point>)
    ensures Reversed([v] + s) == Reversed(s) + [v]
  {
    if s != [] {
      var n := |s| - 1;
      var t := [v] + s;
      assert t[..n + 1] == [v] + s[..n];
      ReversedCons(v, s[..n]);
      assert Reversed(t) == [s[n]] + Reversed([v] + s[..n]);
      assert Reversed(s) == [s[n]] + Reversed(s[..n]);
    } else {
      assert [v] + s == [v] && [v][..0] == [];
    }
  }

  // ---------- the bounding box ----------

  /** Along a path with no edge able to reach the ray's right side, nothing flips. */
  lemma {:induction false} NoFlips(path: seq<Point>, p: Point)
    requires forall k :: 0 <= k < |path| - 1 ==> !Flips(path[k], path[k + 1], p)
    ensures !Parity(path, p)
  {
    if |path| >= 2 {
      NoFlips(path[..|path| - 1], p);
    }
  }

  /** Where every straddling edge flips, parity is decided by the sides of the two ends. */
  lemma {:induction false} StraddleParity(path: seq<Point>, p: Point)
    requires path != []
    requires forall k :: 0 <= k < |path| - 1 ==>
      (Flips(path[k], path[k + 1], p) <==> Straddles(path[k], path[k + 1], p))
    ensures Parity(path, p) == ((p.y <= path[0].y) != (p.y <= path[|path| - 1].y))
  {
    if |path| >= 2 {
      StraddleParity(path[..|path| - 1], p);
    }
  }

  lemma XInterBetween(a: Point, b: Point, p: Point, lo: real, hi: real)
    requires Straddles(a, b, p) && lo <= a.x <= hi && lo <= b.x <= hi
    ensures lo <= XInter(a, b, p) <= hi
  {
    var n, d := (p.y - a.y) * (b.x - a.x), b.y - a.y;
    // the intersection is a convex combination of the two ends
    var t := (p.y - a.y) / d;
    assert t * d == p.y - a.y;
    UnitFraction(p.y - a.y, d, t);
    assert n == (t * (b.x - a.x)) * d;
    QuotientIs(n, d, t * (b.x - a.x));
    var x := XInter(a, b, p);
    assert x == a.x + t * (b.x - a.x);
    ConvexBounds(a.x, b.x, t, lo, hi);
  }

  lemma UnitFraction(n: real, d: real, t: real)
    requires t * d == n && d != 0.0
    requires (0.0 <= n <= d) || (d <= n <= 0.0)
    ensures 0.0 <= t <= 1.0
  {
    var e := t - 1.0;
    assert e * d == n - d;
    SignOfProduct(t, d);
    SignOfProduct(e, d);
  }

  lemma SignOfProduct(a: real, b: real)
    ensures a >= 0.0 && b >= 0.0 ==> a * b >= 0.0
    ensures a >= 0.0 && b <= 0.0 ==> a * b <= 0.0
    ensures a <= 0.0 && b >= 0.0 ==> a * b <= 0.0
    ensures a <= 0.0 && b <= 0.0 ==> a * b >= 0.0
    ensures a != 0.0 && b != 0.0 ==> a * b != 0.0
  {
  }

  lemma QuotientIs(n: real, d: real, q: real)
    requires d != 0.0 && n == q * d
    ensures n / d == q
  {
    var r := n / d;
    assert (r - q) * d == 0.0;
  }

  lemma ConvexBounds(a: real, b: real, t: real, lo: real, hi: real)
    requires 0.0 <= t <= 1.0 && lo <= a <= hi && lo <= b <= hi
    ensures lo <= a + t * (b - a) <= hi
  {
    var s := 1.0 - t;
    assert a + t * (b - a) == s * a + t * b;
    SignOfProduct(s, a - lo);
    SignOfProduct(t, b - lo);
    SignOfProduct(s, hi - a);
    SignOfProduct(t, hi - b);
    assert s * (a - lo) == s * a - s * lo && t * (b - lo) == t * b - t * lo;
    assert s * (hi - a) == s * hi - s * a && t * (hi - b) == t * hi - t * b;
  }

  /** Nothing outside the bounding box is inside; the box is closed on the left and on the top only. */
  lemma OutsideBoxIsOutside(poly: seq<Point>, p: Point, lo: Point, hi: Point)
    requires forall v :: v in poly ==> lo.x <= v.x <= hi.x && lo.y <= v.y <= hi.y
    requires p.x < lo.x || p.x >= hi.x || p.y <= lo.y || p.y > hi.y
    ensures !Inside(poly, p)
  {
    if poly != [] {
      var path := [poly[|poly| - 1]] + poly;
      forall k | 0 <= k < |path|
        ensures path[k] in poly
      {
      }
      if p.y <= lo.y || p.y > hi.y {
        NoFlips(path, p);
      } else {
        forall k | 0 <= k < |path| - 1
          ensures Flips(path[k], path[k + 1], p) <==> Straddles(path[k], path[k + 1], p) && p.x < lo.x
        {
          if Straddles(path[k], path[k + 1], p) {
            XInterBetween(path[k], path[k + 1], p, lo.x, hi.x);
          }
        }
        if p.x < lo.x {
          StraddleParity(path, p);
        } else {
          NoFlips(path, p);
        }
      }
    }
  }

  // ---------- the even-odd rule ----------

  /** `p` is strictly on the same side of all three directed edges. */
  predicate StrictlyInTriangle(a: Point, b: Point, c: Point, p: Point) {
    || (Orient(a, b, p) > 0.0 && Orient(b, c, p) > 0.0 && Orient(c, a, p) > 0.0)
    || (Orient(a, b, p) < 0.0 && Orient(b, c, p) < 0.0 && Orient(c, a, p) < 0.0)
  }

  predicate OffLines(a: Point, b: Point, c: Point, p: Point) {
    Orient(a, b, p) != 0.0 && Orient(b, c, p) != 0.0 && Orient(c, a, p) != 0.0
  }

  lemma OrientAt(a: Point, b: Point, p: Point)
    ensures Orient(a, b, p) == (a.x - p.x) * (b.y - p.y) - (a.y - p.y) * (b.x - p.x)
  {
  }

  lemma BalanceAtOrigin(x1: real, y1: real, x2: real, y2: real, x3: real, y3: real)
    ensures y1 * (x2 * y3 - y2 * x3) + y2 * (x3 * y1 - y3 * x1) + y3 * (x1 * y2 - y1 * x2) == 0.0
  {
    var u, v, w := y1 * y2, y2 * y3, y3 * y1;
    assert y1 * (x2 * y3 - y2 * x3) == x2 * w - x3 * u;
    assert y2 * (x3 * y1 - y3 * x1) == x3 * u - x1 * v;
    assert y3 * (x1 * y2 - y1 * x2) == x1 * v - x2 * w;
  }

  /** Heights of the vertices, weighted by the opposite areas, balance at the height of `p`. */
  lemma Balance(a: Point, b: Point, c: Point, p: Point)
    ensures (a.y - p.y) * Orient(b, c, p) + (b.y - p.y) * Orient(c, a, p) + (c.y - p.y) * Orient(a, b, p) == 0.0
  {
    OrientAt(a, b, p);
    OrientAt(b, c, p);
    OrientAt(c, a, p);
    BalanceAtOrigin(a.x - p.x, a.y - p.y, b.x - p.x, b.y - p.y, c.x - p.x, c.y - p.y);
  }

  /** Signs that balance: see TriangleIsStrict. */
  lemma BalancedSign(h1: real, w1: real, h2: real, w2: real, h3: real, w3: real)
    requires h1 * w1 + h2 * w2 + h3 * w3 == 0.0 && w1 != 0.0
    requires (h1 >= 0.0 && h2 < 0.0 && h3 < 0.0) || (h1 < 0.0 && h2 >= 0.0 && h3 >= 0.0)
    ensures w2 > 0.0 && w3 > 0.0 ==> w1 > 0.0
    ensures w2 < 0.0 && w3 < 0.0 ==> w1 < 0.0
  {
    if w2 > 0.0 && w3 > 0.0 {
      SignOfProduct(h2, w2);
      SignOfProduct(h3, w3);
      SignOfProduct(h1, w1);
    } else if w2 < 0.0 && w3 < 0.0 {
      SignOfProduct(h2, w2);
      SignOfProduct(h3, w3);
      SignOfProduct(h1, w1);
    }
  }

  lemma TriangleParity(a: Point, b: Point, c: Point, p: Point)
    ensures Inside([a, b, c], p) == (Flips(c, a, p) != (Flips(a, b, p) != Flips(b, c, p)))
  {
    hide Flips, Inside, Parity;
    var path := [a, b, c];
    ClosedByChord(path, p);
    ParitySplit(path, 1, p);
    assert path[..2] == [a, b] && path[1..] == [b, c];
    ParityEdge(a, b, p);
    ParityEdge(b, c, p);
  }

  /** The case where vertex `a` is on its own side of the ray's height. */
  lemma TriangleApex(a: Point, b: Point, c: Point, p: Point)
    requires OffLines(a, b, c, p)
    requires (p.y <= a.y) != (p.y <= b.y) && (p.y <= b.y) == (p.y <= c.y)
    ensures Inside([a, b, c], p) == StrictlyInTriangle(a, b, c, p)
  {
    TriangleParity(a, b, c, p);
    FlipsBySide(a, b, p);
    FlipsBySide(c, a, p);
    Balance(a, b, c, p);
    assert !Flips(b, c, p);
    hide Flips, Orient;
    BalancedSign(a.y - p.y, Orient(b, c, p), b.y - p.y, Orient(c, a, p), c.y - p.y, Orient(a, b, p));
  }

  lemma TriangleRotate(a: Point, b: Point, c: Point, p: Point)
    ensures Inside([b, c, a], p) == Inside([a, b, c], p)
  {
    TriangleParity(a, b, c, p);
    TriangleParity(b, c, a, p);
  }

  /** All three vertices on one side: nothing straddles, and the point is not strictly inside either. */
  lemma TriangleOneSided(a: Point, b: Point, c: Point, p: Point)
    requires OffLines(a, b, c, p)
    requires (p.y <= a.y) == (p.y <= b.y) == (p.y <= c.y)
    ensures !Inside([a, b, c], p) && !StrictlyInTriangle(a, b, c, p)
  {
    hide Inside, Orient, OffLines, StrictlyInTriangle, XInter;
    TriangleParity(a, b, c, p);
    OneSidedNotStrict(a, b, c, p);
  }

  lemma OneSidedNotStrict(a: Point, b: Point, c: Point, p: Point)
    requires OffLines(a, b, c, p)
    requires (p.y <= a.y) == (p.y <= b.y) == (p.y <= c.y)
    ensures !StrictlyInTriangle(a, b, c, p)
  {
    hide Orient;
    Balance(a, b, c, p);
    if a.y == p.y && b.y == p.y {
      FlatOrient(a, b, p);
    }
    if b.y == p.y && c.y == p.y {
      FlatOrient(b, c, p);
    }
    if c.y == p.y && a.y == p.y {
      FlatOrient(c, a, p);
    }
    SignOfProduct(a.y - p.y, Orient(b, c, p));
    SignOfProduct(b.y - p.y, Orient(c, a, p));
    SignOfProduct(c.y - p.y, Orient(a, b, p));
  }

  lemma FlatOrient(a: Point, b: Point, p: Point)
    requires a.y == p.y && b.y == p.y
    ensures Orient(a, b, p) == 0.0
  {
  }

  /** For a triangle, and a point off its three edge lines, the test decides strict containment. */
  lemma TriangleIsStrict(a: Point, b: Point, c: Point, p: Point)
    requires OffLines(a, b, c, p)
    ensures Inside([a, b, c], p) == StrictlyInTriangle(a, b, c, p)
  {
    hide Inside, Orient;
    if (p.y <= a.y) == (p.y <= b.y) == (p.y <= c.y) {
      TriangleOneSided(a, b, c, p);
    } else if (p.y <= b.y) == (p.y <= c.y) {
      TriangleApex(a, b, c, p);
    } else if (p.y <= c.y) == (p.y <= a.y) {
      TriangleApex(b, c, a, p);
      TriangleRotate(a, b, c, p);
    } else {
      TriangleApex(c, a, b, p);
      TriangleRotate(b, c, a, p);
      TriangleRotate(a, b, c, p);
    }
  }

  /** The point with barycentric coordinates (1 - beta - gamma, beta, gamma). */
  function Barycentric(a: Point, b: Point, c: Point, beta: real, gamma: real): Point {
    Point(a.x + beta * (b.x - a.x) + gamma * (c.x - a.x), a.y + beta * (b.y - a.y) + gamma * (c.y - a.y))
  }

  /** The side of each edge a point is on, by its barycentric coordinates. */
  lemma BarycentricSides(a: Point, b: Point, c: Point, beta: real, gamma: real)
    ensures var p, t := Barycentric(a, b, c, beta, gamma), Orient(a, b, c);
      && Orient(a, b, p) == gamma * t && Orient(c, a, p) == beta * t
      && Orient(b, c, p) == (1.0 - beta - gamma) * t
  {
    var ux, uy, vx, vy := b.x - a.x, b.y - a.y, c.x - a.x, c.y - a.y;
    var p := Barycentric(a, b, c, beta, gamma);
    CrossBilinear(ux, uy, vx, vy, beta, gamma);
    Balanced(a, b, c, p);
  }

  lemma CrossBilinear(ux: real, uy: real, vx: real, vy: real, beta: real, gamma: real)
    ensures ux * (beta * uy + gamma * vy) - uy * (beta * ux + gamma * vx) == gamma * (ux * vy - uy * vx)
    ensures (-vx) * (beta * uy + gamma * vy - vy) - (-vy) * (beta * ux + gamma * vx - vx) == beta * (ux * vy - uy * vx)
  {
    assert ux * (beta * uy) == uy * (beta * ux);
    assert vx * (gamma * vy) == vy * (gamma * vx);
  }

  /** The three areas at a point add up to the area of the triangle. */
  lemma Balanced(a: Point, b: Point, c: Point, p: Point)
    ensures Orient(a, b, p) + Orient(b, c, p) + Orient(c, a, p) == Orient(a, b, c)
  {
  }

  /**
   In plain coordinates: a point of the plane with no barycentric coordinate 0 is inside a proper
   triangle exactly when all three are positive.
   */
  lemma TriangleByCoordinates(a: Point, b: Point, c: Point, beta: real, gamma: real)
    requires Orient(a, b, c) != 0.0 && beta != 0.0 && gamma != 0.0 && beta + gamma != 1.0
    ensures Inside([a, b, c], Barycentric(a, b, c, beta, gamma)) <==> beta > 0.0 && gamma > 0.0 && beta + gamma < 1.0
  {
    hide Orient, Inside, Barycentric;
    var p, t := Barycentric(a, b, c, beta, gamma), Orient(a, b, c);
    BarycentricSides(a, b, c, beta, gamma);
    SignOfProduct(beta, t);
    SignOfProduct(gamma, t);
    SignOfProduct(1.0 - beta - gamma, t);
    TriangleIsStrict(a, b, c, p);
  }

  /** How many triangles of the fan from the first vertex strictly contain `p`, modulo two. */
  ghost function FanParity(poly: seq<Point>, p: Point): bool {
    var n := |poly|;
    if n < 3 then false
    else FanParity(poly[..n - 1], p) != StrictlyInTriangle(poly[0], poly[n - 2], poly[n - 1], p)
  }

  ghost predicate OffFan(poly: seq<Point>, p: Point) {
    forall k :: 1 <= k < |poly| - 1 ==> OffLines(poly[0], poly[k], poly[k + 1], p)
  }

  /**
   The even-odd rule: for every polygon, self-intersecting ones included, a point off the lines of
   the fan is inside exactly when an odd number of fan triangles strictly contain it.
   */
  lemma {:induction false} EvenOddRule(poly: seq<Point>, p: Point)
    requires OffFan(poly, p)
    ensures Inside(poly, p) == FanParity(poly, p)
  {
    hide Flips, OffLines, StrictlyInTriangle;
    var n := |poly|;
    if n < 3 {
      FewVertices(poly, p);
    } else {
      var a, b, c := poly[0], poly[n - 2], poly[n - 1];
      EvenOddRule(poly[..n - 1], p);
      ChordAdditive(poly, 0, n - 2, p);
      assert poly[0..n - 1] == poly[..n - 1];
      assert poly[n - 2..] + poly[..1] == [b, c, a];
      TriangleRotate(a, b, c, p);
      assert OffLines(poly[0], poly[n - 2], poly[n - 1], p);
      TriangleIsStrict(a, b, c, p);
    }
  }

  lemma FewVertices(poly: seq<Point>, p: Point)
    requires |poly| < 3
    ensures !Inside(poly, p)
  {
    if |poly| == 1 {
      assert [poly[0]] + poly == [poly[0], poly[0]];
      ParityEdge(poly[0], poly[0], p);
    } else if |poly| == 2 {
      var path := [poly[1]] + poly;
      assert path == [poly[1], poly[0], poly[1]] && path[..2] == [poly[1], poly[0]];
      ParityEdge(poly[1], poly[0], p);
      FlipsSymmetric(poly[0], poly[1], p);
    }
  }
}
