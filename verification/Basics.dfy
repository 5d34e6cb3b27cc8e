/** An optional value. */
module Wrappers {
  datatype Option<T> = None | Some(value: T)
}

/** Rounding, absolute values, and the laws of products and quotients the proofs rest on. */
module Arithmetic {
  /** Conversion of a double to an integer: truncation towards zero. */
  function Trunc(r: real): int {
    if r >= 0.0 then r.Floor else -((-r).Floor)
  }

  function Abs(a: int): nat {
    if a >= 0 then a else -a
  }

  function Length(x: real): real {
    if x < 0.0 then -x else x
  }

  function Product(a: real, b: real): real {
    a * b
  }

  lemma LengthOfProduct(a: real, b: real)
    ensures Length(a * b) == Length(a) * Length(b)
  {
    var p := a * b;
    assert (-a) * b == -p && a * (-b) == -p && (-a) * (-b) == p;
    if a >= 0.0 && b >= 0.0 {
      ScaleLe(0.0, a, b);
    } else if a >= 0.0 {
      ScaleLe(0.0, a, -b);
    } else if b >= 0.0 {
      ScaleLe(0.0, -a, b);
    } else {
      ScaleLe(0.0, -a, -b);
    }
  }

  lemma LengthProduct(a: real, b: real)
    ensures Length(Product(a, b)) == Product(Length(a), Length(b))
  {
    LengthOfProduct(a, b);
  }

  lemma ProductCommutes(a: real, b: real)
    ensures Product(a, b) == Product(b, a)
  {
  }

  lemma ProductMonotone(a: real, b: real, c: real, d: real)
    requires 0.0 <= a <= c && 0.0 <= b <= d
    ensures Product(a, b) <= Product(c, d)
  {
    ProductCommutes(b, c);
    ProductCommutes(d, c);
    ProductGrows(a, c, b);
    ProductGrows(b, d, c);
    hide Product;
  }

  lemma ProductGrows(a: real, b: real, k: real)
    requires a <= b && 0.0 <= k
    ensures Product(a, k) <= Product(b, k)
  {
    ScaleLe(a, b, k);
  }

  function Min(a: int, b: int): int {
    if a <= b then a else b
  }

  function Max(a: int, b: int): int {
    if a >= b then a else b
  }

  /** `b` lies between `a` and `c`, in either order. */
  predicate BetweenReals(a: real, b: real, c: real) {
    a <= b <= c || c <= b <= a
  }

  lemma NonNegProduct(a: nat, b: nat)
    ensures 0 <= a * b
  {
  }

  lemma ProductStep(a: int, b: int, d: int)
    requires a < b && d >= 0
    ensures a * d + d <= b * d
  {
    var k := b - a - 1;
    assert k * d >= 0;
    assert b * d == a * d + d + k * d;
  }

  lemma ScaleLe(a: real, b: real, k: real)
    requires a <= b && 0.0 <= k
    ensures a * k <= b * k
  {
    var e := b - a;
    assert 0.0 <= e * k;
    assert e * k == b * k - a * k;
  }

  lemma ScaleLt(a: real, b: real, k: real)
    requires a < b && 0.0 < k
    ensures a * k < b * k
  {
    var e := b - a;
    assert 0.0 < e * k;
    assert e * k == b * k - a * k;
  }

  lemma ProductPositive(a: real, b: real)
    requires a > 0.0 && b > 0.0
    ensures a * b > 0.0
  {
  }

  /** Comparing squares compares what they are squares of, as long as that is not negative. */
  lemma RootLe(t: real, r: real)
    requires t >= 0.0 && r >= 0.0
    ensures t <= r <==> t * t <= r * r
  {
    var e, s := r - t, r + t;
    assert e * s == r * r - t * t;
    if e > 0.0 {
      ProductPositive(e, s);
    } else if e < 0.0 {
      ProductPositive(-e, s);
      assert (-e) * s == -(e * s);
    }
  }

  lemma CancelLe(a: real, b: real, k: real)
    requires 0.0 < k && a * k <= b * k
    ensures a <= b
  {
    if b < a {
      ScaleLt(b, a, k);
    }
  }

  lemma CancelLt(a: real, b: real, k: real)
    requires 0.0 < k && a * k < b * k
    ensures a < b
  {
    if b <= a {
      ScaleLe(b, a, k);
    }
  }

  lemma ScaledBound(q: real, m: real, d: real, res: real)
    requires res > 0.0 && q * res == d && q <= m
    ensures d <= m * res
  {
    ScaleLe(q, m, res);
  }

  lemma ScaledAbove(m: real, q: real, d: real, res: real)
    requires res > 0.0 && q * res == d && m < q
    ensures m * res < d
  {
    ScaleLt(m, q, res);
  }

  lemma ScaledUnder(q: real, m: real, d: real, res: real)
    requires res > 0.0 && q * res == d && q < m
    ensures d < m * res
  {
    ScaleLt(q, m, res);
  }

  lemma DivideBack(d: real, k: real)
    requires k > 0.0
    ensures (d / k) * k == d
  {
  }
}

/** Sequences and the multisets they hold. */
module Sequences {
  lemma RemoveAt<T>(t: seq<T>, i: nat)
    requires i < |t|
    ensures multiset(t[..i] + t[i + 1..]) == multiset(t) - multiset{t[i]}
  {
    assert t == (t[..i] + [t[i]]) + t[i + 1..];
  }

  lemma SameMembers<T>(s: seq<T>, t: seq<T>)
    requires multiset(s) == multiset(t)
    ensures |s| == |t| && forall c :: c in s <==> c in t
  {
    assert |multiset(s)| == |s| && |multiset(t)| == |t|;
    assert forall c :: c in s <==> c in multiset(s);
    assert forall c :: c in t <==> c in multiset(t);
  }
}
