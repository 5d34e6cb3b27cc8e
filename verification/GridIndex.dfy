/** Cost byte values and row-major grid indexing shared by every costmap component. */
module CostValues {
  const FREE_SPACE := 0
  const INSCRIBED_INFLATED_OBSTACLE := 253
  const LETHAL_OBSTACLE := 254
  const NO_INFORMATION := 255

  /** An `unsigned char` cell value. */
  type Cost = c: int | 0 <= c < 256
}

module GridIndex {
  import opened Arithmetic

  /** Costmap2D::getIndex. */
  function Idx(w: int, x: int, y: int): int {
    y * w + x
  }

  lemma IdxInRange(w: int, h: int, x: int, y: int)
    requires 0 <= x < w && 0 <= y < h
    ensures 0 <= Idx(w, x, y) < w * h
  {
    assert 0 <= y * w;
    ProductStep(y, h, w);
  }

  /** Distinct cells of a row-major grid have distinct indices. */
  lemma IdxInjective(w: int, x: int, y: int, x': int, y': int)
    requires 0 <= x < w && 0 <= x' < w
    requires Idx(w, x, y) == Idx(w, x', y')
    ensures x == x' && y == y'
  {
    if y < y' {
      ProductStep(y, y', w);
    } else if y' < y {
      ProductStep(y', y, w);
    }
  }

  /** Every index of the buffer is the index of a cell (Costmap2D::indexToCells). */
  lemma IdxOnto(w: int, h: int, k: int)
    requires 0 < w && 0 <= k < w * h
    ensures 0 <= k % w < w && 0 <= k / w < h
    ensures Idx(w, k % w, k / w) == k
  {
    var y := k / w;
    assert k == y * w + k % w;
    if y > h {
      ProductStep(h, y, w);
    }
  }

  /** indexToCells undoes getIndex. */
  lemma IdxRoundTrip(w: int, x: int, y: int)
    requires 0 <= x < w && 0 <= y
    ensures Idx(w, x, y) / w == y && Idx(w, x, y) % w == x
  {
    var k := Idx(w, x, y);
    assert 0 <= y * w;
    assert k == (k / w) * w + k % w;
    IdxInjective(w, x, y, k % w, k / w);
  }

  /** A grid is determined by its cells. */
  lemma GridExtensional<T>(a: seq<T>, b: seq<T>, w: nat, h: nat)
    requires |a| == w * h && |b| == w * h
    requires forall x, y :: 0 <= x < w && 0 <= y < h ==>
      0 <= Idx(w, x, y) < w * h && a[Idx(w, x, y)] == b[Idx(w, x, y)]
    ensures a == b
  {
    forall k | 0 <= k < w * h
      ensures a[k] == b[k]
    {
      IdxOnto(w, h, k);
    }
  }
}
