/** Filling a closed outline: the step-back sort by column and the column scan over the growing list. */
module Outline {
  import opened Line

  // ---------- counting entries ----------

  function Count(s: seq<Loc>, p: int -> bool): nat {
    if s == [] then 0 else Count(s[..|s| - 1], p) + (if p(s[|s| - 1].0) then 1 else 0)
  }

  function OnColumn(x: int): int -> bool {
    c => c == x
  }

  function Below(x: int): int -> bool {
    c => c < x
  }

  lemma {:induction false} CountConcat(s: seq<Loc>, t: seq<Loc>, p: int -> bool)
    ensures Count(s + t, p) == Count(s, p) + Count(t, p)
  {
    if t == [] {
      assert s + t == s;
    } else {
      var n := |t| - 1;
      assert (s + t)[..|s + t| - 1] == s + t[..n];
      CountConcat(s, t[..n], p);
    }
  }

  lemma CountSplit(s: seq<Loc>, i: nat, p: int -> bool)
    requires i < |s|
    ensures Count(s, p) == Count(s[..i], p) + (if p(s[i].0) then 1 else 0) + Count(s[i + 1..], p)
  {
    assert s == (s[..i] + [s[i]]) + s[i + 1..];
    CountConcat(s[..i] + [s[i]], s[i + 1..], p);
    CountConcat(s[..i], [s[i]], p);
    assert [s[i]][..0] == [];
  }

  lemma CountSwap(s: seq<Loc>, i: nat, p: int -> bool)
    requires i + 1 < |s|
    ensures Count(Swapped(s, i), p) == Count(s, p)
  {
    var t := Swapped(s, i);
    CountPair(s, i, p);
    CountPair(t, i, p);
    assert s[i + 2..] == t[i + 2..];
    assert s[..i] == t[..i];
  }

  lemma CountPair(s: seq<Loc>, i: nat, p: int -> bool)
    requires i + 1 < |s|
    ensures Count(s, p) == Count(s[..i], p) + (if p(s[i].0) then 1 else 0)
      + (if p(s[i + 1].0) then 1 else 0) + Count(s[i + 2..], p)
  {
    CountSplit(s, i + 1, p);
    CountSplit(s[..i + 1], i, p);
    hide Count;
    assert s[..i + 1][..i] == s[..i];
    CountNone(s[..i + 1][i + 1..], p);
  }

  lemma CountNone(s: seq<Loc>, p: int -> bool)
    requires s == []
    ensures Count(s, p) == 0
  {
  }

  lemma {:induction false} CountPositive(s: seq<Loc>, p: int -> bool)
    requires Count(s, p) > 0
    ensures exists i :: 0 <= i < |s| && p(s[i].0)
  {
    var n := |s| - 1;
    if !p(s[n].0) {
      CountPositive(s[..n], p);
      var i :| 0 <= i < n && p(s[..n][i].0);
      assert p(s[i].0);
    }
  }

  lemma CountMember(s: seq<Loc>, p: int -> bool, i: nat)
    requires i < |s| && p(s[i].0)
    ensures Count(s, p) > 0
  {
    CountSplit(s, i, p);
  }

  // ---------- the outline of a polygon ----------

  /** The cells of the lines joining consecutive vertices. */
  function PathCells(path: seq<Loc>): seq<Loc> {
    if |path| < 2 then []
    else PathCells(path[..|path| - 1]) + LineCells(path[|path| - 2], path[|path| - 1])
  }

  /** polygonOutlineCells: the path closed by a last line back to the first vertex. */
  function OutlineOf(polygon: seq<Loc>): seq<Loc> {
    if polygon == [] then [] else PathCells(polygon + [polygon[0]])
  }

  /** The cells of a path are those of its lines, each between two consecutive points. */
  lemma {:induction false} CellsOfPath(path: seq<Loc>, c: Loc)
    ensures c in PathCells(path) <==> exists e :: 0 <= e < |path| - 1 && OnLine(path, e, c)
  {
    hide LineCells;
    if |path| >= 2 {
      var n := |path| - 1;
      CellsOfPath(path[..n], c);
      if e :| 0 <= e < n - 1 && OnLine(path[..n], e, c) {
        assert OnLine(path, e, c);
      }
      if e :| 0 <= e < n && OnLine(path, e, c) {
        assert e < n - 1 ==> OnLine(path[..n], e, c);
      }
      assert c in LineCells(path[n - 1], path[n]) ==> OnLine(path, n - 1, c);
    }
  }

  ghost predicate OnLine(path: seq<Loc>, e: int, c: Loc)
    requires 0 <= e < |path| - 1
  {
    c in LineCells(path[e], path[e + 1])
  }

  /** The cells of a closed outline are those of every edge, the one back to the start included. */
  lemma OutlineOfEdges(polygon: seq<Loc>, c: Loc)
    requires polygon != []
    ensures c in OutlineOf(polygon) <==>
      (exists e :: 0 <= e < |polygon| - 1 && OnLine(polygon, e, c)) ||
      c in LineCells(polygon[|polygon| - 1], polygon[0])
  {
    hide LineCells, PathCells;
    var n := |polygon|;
    var path := polygon + [polygon[0]];
    CellsOfPath(path, c);
    if e :| 0 <= e < n && OnLine(path, e, c) {
      assert e < n - 1 ==> OnLine(polygon, e, c);
    }
    if e :| 0 <= e < n - 1 && OnLine(polygon, e, c) {
      assert OnLine(path, e, c);
    }
    assert c in LineCells(polygon[n - 1], polygon[0]) ==> OnLine(path, n - 1, c);
  }

  /** A path cut at a vertex yields the cells of both parts; the vertex is counted by each. */
  lemma {:induction false} PathSplit(path: seq<Loc>, m: nat)
    requires m < |path|
    ensures PathCells(path) == PathCells(path[..m + 1]) + PathCells(path[m..])
  {
    hide PathCells, LineCells;
    var n := |path| - 1;
    if m == n {
      assert path[..m + 1] == path;
      LonePath(path[m..]);
    } else {
      PathSplit(path[..n], m);
      assert path[..n][..m + 1] == path[..m + 1];
      assert path[..n][m..] == path[m..][..n - m];
      PathSnoc(path);
      PathSnoc(path[m..]);
    }
  }

  lemma LonePath(path: seq<Loc>)
    requires |path| <= 1
    ensures PathCells(path) == []
  {
  }

  lemma PathSnoc(path: seq<Loc>)
    requires |path| >= 2
    ensures PathCells(path) == PathCells(path[..|path| - 1]) + LineCells(path[|path| - 2], path[|path| - 1])
  {
    hide LineCells;
  }

  lemma PathPositive(path: seq<Loc>)
    requires |path| >= 2
    ensures PathCells(path) != []
  {
  }

  /** A path between vertices on either side of a column has a cell in that column. */
  lemma {:induction false} PathCoversColumn(path: seq<Loc>, x: int)
    requires |path| >= 2 && Between(path[0].0, x, path[|path| - 1].0)
    ensures Count(PathCells(path), OnColumn(x)) > 0
  {
    var n := |path| - 1;
    var p, q := path[n - 1], path[n];
    CountConcat(PathCells(path[..n]), LineCells(p, q), OnColumn(x));
    if Between(p.0, x, q.0) {
      var i := LineCoversColumn(p, q, x);
      CountMember(LineCells(p, q), OnColumn(x), i);
    } else {
      PathCoversColumn(path[..n], x);
    }
  }

  /** Each column between two vertices of a closed outline holds at least two outline entries. */
  lemma ClosedOutlineCoversTwice(polygon: seq<Loc>, a: nat, b: nat, x: int)
    requires a < |polygon| && b < |polygon| && a != b
    requires Between(polygon[a].0, x, polygon[b].0)
    ensures Count(OutlineOf(polygon), OnColumn(x)) >= 2
  {
    if b < a {
      ClosedOutlineCoversTwice(polygon, b, a, x);
    } else {
      var p := OnColumn(x);
      var path := polygon + [polygon[0]];
      var rest := path[a..];
      PathSplit(path, a);
      PathSplit(rest, b - a);
      CountConcat(PathCells(path[..a + 1]), PathCells(rest), p);
      CountConcat(PathCells(rest[..b - a + 1]), PathCells(rest[b - a..]), p);
      PathCoversColumn(rest[..b - a + 1], x);
      // the way back from b to a, through the first vertex
      if Between(path[b].0, x, path[0].0) {
        PathCoversColumn(rest[b - a..], x);
      } else {
        assert a > 0;
        PathCoversColumn(path[..a + 1], x);
      }
    }
  }

  /** Every cell of a path lies between two of its vertices, in each coordinate. */
  lemma {:induction false} PathInRange(path: seq<Loc>, k: nat) returns (i: nat)
    requires k < |PathCells(path)|
    ensures i + 1 < |path|
    ensures Between(path[i].0, PathCells(path)[k].0, path[i + 1].0)
    ensures Between(path[i].1, PathCells(path)[k].1, path[i + 1].1)
  {
    var n := |path| - 1;
    var before := PathCells(path[..n]);
    if k < |before| {
      i := PathInRange(path[..n], k);
    } else {
      i := n - 1;
      LineInRectangle(path[n - 1], path[n], k - |before|);
    }
  }

  lemma OutlineInRange(polygon: seq<Loc>, k: nat) returns (i: nat, j: nat)
    requires |polygon| >= 2 && k < |OutlineOf(polygon)|
    ensures i < |polygon| && j < |polygon| && i != j
    ensures Between(polygon[i].0, OutlineOf(polygon)[k].0, polygon[j].0)
    ensures Between(polygon[i].1, OutlineOf(polygon)[k].1, polygon[j].1)
  {
    i := PathInRange(polygon + [polygon[0]], k);
    j := if i + 1 == |polygon| then 0 else i + 1;
  }

  /** Any column between two outline cells holds at least two outline entries. */
  lemma OutlineColumns(polygon: seq<Loc>, k: nat, l: nat, x: int)
    requires |polygon| >= 2 && k < |OutlineOf(polygon)| && l < |OutlineOf(polygon)|
    requires OutlineOf(polygon)[k].0 <= x <= OutlineOf(polygon)[l].0
    ensures Count(OutlineOf(polygon), OnColumn(x)) >= 2
  {
    var i, j := OutlineInRange(polygon, k);
    var i', j' := OutlineInRange(polygon, l);
    var a := if polygon[i].0 <= x then i else j;
    var b := if polygon[i'].0 >= x then i' else j';
    if a != b {
      ClosedOutlineCoversTwice(polygon, a, b, x);
    } else {
      var c := if a == 0 then 1 else 0;
      ClosedOutlineCoversTwice(polygon, a, c, x);
    }
  }

  // ---------- the step-back sort ----------

  ghost predicate SortedByX(s: seq<Loc>, n: nat) {
    n <= |s| && forall i, j :: 0 <= i < j < n ==> s[i].0 <= s[j].0
  }

  function Swapped(s: seq<Loc>, i: nat): (t: seq<Loc>)
    requires i + 1 < |s|
    ensures |t| == |s|
  {
    s[i := s[i + 1]][i + 1 := s[i]]
  }

  /** Pairs out of order. */
  function Inversions(s: seq<Loc>): nat {
    if s == [] then 0 else Inversions(s[1..]) + Count(s[1..], Below(s[0].0))
  }

  /** Swapping two adjacent entries out of order removes exactly one inversion. */
  lemma {:induction false} SwapRemovesInversion(s: seq<Loc>, i: nat)
    requires i + 1 < |s| && s[i].0 > s[i + 1].0
    ensures Inversions(Swapped(s, i)) == Inversions(s) - 1
  {
    var t := Swapped(s, i);
    if i == 0 {
      assert s[1..][1..] == t[1..][1..];
      CountSplit(s[1..], 0, Below(s[0].0));
      CountSplit(t[1..], 0, Below(t[0].0));
      assert s[1..][..0] == t[1..][..0] == [];
    } else {
      assert t[1..] == Swapped(s[1..], i - 1);
      SwapRemovesInversion(s[1..], i - 1);
      CountSwap(s[1..], i - 1, Below(s[0].0));
    }
  }

  /** Same entries in each column. */
  ghost predicate SameColumns(s: seq<Loc>, t: seq<Loc>) {
    forall x :: Count(s, OnColumn(x)) == Count(t, OnColumn(x))
  }

  lemma SwapPermutes(s: seq<Loc>, i: nat)
    requires i + 1 < |s|
    ensures multiset(Swapped(s, i)) == multiset(s) && SameColumns(Swapped(s, i), s)
  {
    forall x
      ensures Count(Swapped(s, i), OnColumn(x)) == Count(s, OnColumn(x))
    {
      CountSwap(s, i, OnColumn(x));
    }
  }

  /** The sort of convexFillCells, for any non-empty list. */
  method SortByX(cells: seq<Loc>) returns (sorted: seq<Loc>)
    requires cells != []
    ensures multiset(sorted) == multiset(cells) && |sorted| == |cells|
    ensures SortedByX(sorted, |sorted|)
    ensures SameColumns(sorted, cells)
  {
    sorted := cells;
    var i := 0;
    while i < |sorted| - 1
      invariant 0 <= i < |sorted| == |cells|
      invariant multiset(sorted) == multiset(cells)
      invariant SortedByX(sorted, i + 1)
      invariant SameColumns(sorted, cells)
      decreases Inversions(sorted), |sorted| - i
    {
      hide Inversions, Count, Swapped, SameColumns;
      if sorted[i].0 > sorted[i + 1].0 {
        SwapRemovesInversion(sorted, i);
        SwapPermutes(sorted, i);
        SwapKeepsPrefix(sorted, i);
        SameColumnsTransitive(Swapped(sorted, i), sorted, cells);
        sorted := Swapped(sorted, i);
        if i > 0 {
          i := i - 1;
        }
      } else {
        i := i + 1;
      }
    }
  }

  lemma SameColumnsTransitive(s: seq<Loc>, t: seq<Loc>, u: seq<Loc>)
    requires SameColumns(s, t) && SameColumns(t, u)
    ensures SameColumns(s, u)
  {
  }

  lemma SwapKeepsPrefix(s: seq<Loc>, i: nat)
    requires i + 1 < |s| && SortedByX(s, i + 1)
    ensures SortedByX(Swapped(s, i), if i > 0 then i else 1)
  {
  }

  // ---------- the column scan ----------

  /** `c` lies between two outline cells of its own column. */
  ghost predicate InHull(outline: seq<Loc>, c: Loc) {
    exists i, j :: 0 <= i < |outline| && 0 <= j < |outline| &&
      outline[i].0 == c.0 && outline[j].0 == c.0 && outline[i].1 <= c.1 <= outline[j].1
  }

  /** Two entries of a column in a sorted list are consecutive from its first entry on. */
  lemma TwoInColumn(s: seq<Loc>, i: nat, x: int)
    requires SortedByX(s, |s|) && i <= |s| && Count(s, OnColumn(x)) >= 2
    requires forall k :: 0 <= k < i ==> s[k].0 < x
    requires forall k :: i <= k < |s| ==> s[k].0 >= x
    ensures i + 1 < |s| && s[i].0 == x && s[i + 1].0 == x
  {
    var p := OnColumn(x);
    CountPositive(s, p);
    var k :| 0 <= k < |s| && p(s[k].0);
    assert s[i].0 == x;
    CountSplit(s, i, p);
    NoneCounted(s[..i], p);
    CountPositive(s[i + 1..], p);
    var l :| 0 <= l < |s[i + 1..]| && p(s[i + 1..][l].0);
    assert s[i + 1 + l].0 == x;
  }

  lemma NoneCounted(s: seq<Loc>, p: int -> bool)
    requires forall k :: 0 <= k < |s| ==> !p(s[k].0)
    ensures Count(s, p) == 0
  {
    if Count(s, p) > 0 {
      CountPositive(s, p);
    }
  }

  /** Entries `lo` and `hi` are a lowest and a highest one among entries i .. j-1. */
  ghost predicate Extremes(s: seq<Loc>, i: int, j: int, lo: int, hi: int) {
    && 0 <= i <= lo < j <= |s| && i <= hi < j
    && forall k :: i <= k < j ==> s[lo].1 <= s[k].1 <= s[hi].1
  }

  /**
   State of the scan before column `x`: the next unread entry is the first one of that column, and
   everything appended so far belongs to earlier columns.
   */
  ghost predicate Aligned(sorted: seq<Loc>, added: seq<Loc>, i: int, x: int) {
    && 0 <= i <= |sorted|
    && (forall k :: 0 <= k < i ==> sorted[k].0 < x)
    && (forall k :: i <= k < |sorted| ==> sorted[k].0 >= x)
    && (forall k :: 0 <= k < |added| ==> added[k].0 < x)
  }

  /** Each column from the first to the last of a sorted outline holds at least two entries. */
  ghost predicate EveryColumnTwice(sorted: seq<Loc>)
    requires sorted != []
  {
    forall x :: sorted[0].0 <= x <= sorted[|sorted| - 1].0 ==> Count(sorted, OnColumn(x)) >= 2
  }

  /** What has been appended before column `x`. */
  ghost predicate FilledBefore(sorted: seq<Loc>, added: seq<Loc>, x: int) {
    forall c :: c in added <==> InHull(sorted, c) && c.0 < x
  }

  /**
   The column scan of convexFillCells. It reads and extends one list; the part it reads is always
   the sorted outline, because what it appends belongs to columns already passed.
   */
  method FillColumns(sorted: seq<Loc>) returns (cells: seq<Loc>)
    requires sorted != [] && SortedByX(sorted, |sorted|) && EveryColumnTwice(sorted)
    ensures sorted <= cells
    ensures forall c :: c in cells <==> InHull(sorted, c)
  {
    ghost var added;
    cells, added := ScanColumns(sorted);
    OutlineIsHull(sorted, added);
  }

  method ScanColumns(sorted: seq<Loc>) returns (cells: seq<Loc>, ghost added: seq<Loc>)
    requires sorted != [] && SortedByX(sorted, |sorted|) && EveryColumnTwice(sorted)
    ensures cells == sorted + added && FilledBefore(sorted, added, sorted[|sorted| - 1].0 + 1)
  {
    hide InHull, FilledBefore, Aligned, SortedByX, EveryColumnTwice;
    cells, added := sorted, [];
    var i := 0;
    var minX, maxX := cells[0].0, cells[|cells| - 1].0;
    var x := minX;
    NothingBefore(sorted);
    LastColumn(sorted);
    while x <= maxX
      invariant x <= maxX + 1
      invariant minX <= x
      invariant cells == sorted + added
      invariant Aligned(sorted, added, i, x)
      invariant FilledBefore(sorted, added, x)
    {
      NextColumn(sorted, added, i, x);
      if i >= |cells| - 1 {
        assert false;
        break;
      }
      i, cells, added := FillColumn(sorted, added, cells, i, x);
      x := x + 1;
    }
  }

  lemma LastColumn(s: seq<Loc>)
    requires s != [] && SortedByX(s, |s|)
    ensures s[0].0 <= s[|s| - 1].0
  {
  }

  /** One column of the scan. */
  method FillColumn(ghost sorted: seq<Loc>, ghost added: seq<Loc>, cells: seq<Loc>, first: nat, x: int)
    returns (i: nat, cells': seq<Loc>, ghost added': seq<Loc>)
    requires cells == sorted + added && Aligned(sorted, added, first, x) && SortedByX(sorted, |sorted|)
    requires first + 1 < |sorted| && sorted[first].0 == x && sorted[first + 1].0 == x
    requires FilledBefore(sorted, added, x)
    ensures cells' == sorted + added'
    ensures Aligned(sorted, added', i, x + 1) && FilledBefore(sorted, added', x + 1)
  {
    hide InHull, FilledBefore, Aligned;
    var minPt, maxPt;
    i, minPt, maxPt := ScanColumn(sorted, added, cells, first, x);
    ghost var column;
    cells', column := PushColumn(cells, x, minPt.1, maxPt.1);
    FillOneMore(sorted, added, column, x, minPt.1, maxPt.1);
    AlignNext(sorted, added, column, i, x);
    added' := added + column;
  }

  lemma NothingBefore(s: seq<Loc>)
    requires s != [] && SortedByX(s, |s|)
    ensures FilledBefore(s, [], s[0].0) && Aligned(s, [], 0, s[0].0)
  {
  }

  lemma NextColumn(sorted: seq<Loc>, added: seq<Loc>, i: int, x: int)
    requires sorted != [] && SortedByX(sorted, |sorted|) && Aligned(sorted, added, i, x)
    requires EveryColumnTwice(sorted) && sorted[0].0 <= x <= sorted[|sorted| - 1].0
    ensures 0 <= i && i + 1 < |sorted| && sorted[i].0 == x && sorted[i + 1].0 == x
  {
    TwoInColumn(sorted, i, x);
  }

  lemma AlignNext(sorted: seq<Loc>, added: seq<Loc>, column: seq<Loc>, i: int, x: int)
    requires 0 <= i <= |sorted|
    requires exists i' :: Aligned(sorted, added, i', x)
    requires forall k :: 0 <= k < |column| ==> column[k].0 == x
    requires forall k :: 0 <= k < i ==> sorted[k].0 < x + 1
    requires forall k :: i <= k < |sorted| ==> sorted[k].0 >= x + 1
    ensures Aligned(sorted, added + column, i, x + 1)
  {
  }

  lemma FillOneMore(sorted: seq<Loc>, added: seq<Loc>, column: seq<Loc>, x: int, lo: int, hi: int)
    requires FilledBefore(sorted, added, x)
    requires forall c :: c in column <==> c.0 == x && lo <= c.1 <= hi
    requires forall c: Loc :: c.0 == x ==> (InHull(sorted, c) <==> lo <= c.1 <= hi)
    ensures FilledBefore(sorted, added + column, x + 1)
    ensures forall k :: 0 <= k < |column| ==> column[k].0 == x
  {
    hide InHull;
    forall k | 0 <= k < |column|
      ensures column[k].0 == x
    {
      assert column[k] in column;
    }
  }

  /** Reads the entries of column `x`, from its first entry at `first` on, and finds its two extremes. */
  method ScanColumn(ghost sorted: seq<Loc>, ghost added: seq<Loc>, cells: seq<Loc>, first: nat, x: int)
    returns (i: nat, minPt: Loc, maxPt: Loc)
    requires cells == sorted + added && Aligned(sorted, added, first, x) && SortedByX(sorted, |sorted|)
    requires first + 1 < |sorted| && sorted[first].0 == x && sorted[first + 1].0 == x
    ensures first < i <= |sorted|
    ensures forall k :: 0 <= k < i ==> sorted[k].0 < x + 1
    ensures forall k :: i <= k < |sorted| ==> sorted[k].0 >= x + 1
    ensures minPt.1 <= maxPt.1
    ensures forall c: Loc :: c.0 == x ==> (InHull(sorted, c) <==> minPt.1 <= c.1 <= maxPt.1)
  {
    hide InHull;
    ghost var lo, hi := first, first + 1;
    if cells[first].1 < cells[first + 1].1 {
      minPt, maxPt := cells[first], cells[first + 1];
    } else {
      minPt, maxPt := cells[first + 1], cells[first];
      lo, hi := first + 1, first;
    }
    i := first + 2;
    while i < |cells| && cells[i].0 == x
      invariant first + 2 <= i <= |sorted|
      invariant sorted[i - 1].0 == x
      invariant Extremes(sorted, first, i, lo, hi) && minPt == sorted[lo] && maxPt == sorted[hi]
    {
      if cells[i].1 < minPt.1 {
        minPt := cells[i];
        lo := i;
      } else if cells[i].1 > maxPt.1 {
        maxPt := cells[i];
        hi := i;
      }
      i := i + 1;
    }
    ColumnOfHull(sorted, x, first, i, lo, hi);
  }

  /** The inner loop: appends the cells of a column from `lo` to `hi`. */
  method PushColumn(before: seq<Loc>, x: int, lo: int, hi: int) returns (cells: seq<Loc>, ghost column: seq<Loc>)
    requires lo <= hi
    ensures cells == before + column
    ensures forall c :: c in column <==> c.0 == x && lo <= c.1 <= hi
  {
    cells := before;
    column := [];
    var y := lo;
    while y <= hi
      invariant lo <= y <= hi + 1 && cells == before + column
      invariant forall c :: c in column <==> c.0 == x && lo <= c.1 < y
    {
      cells := cells + [(x, y)];
      column := column + [(x, y)];
      y := y + 1;
    }
  }

  lemma ColumnOfHull(s: seq<Loc>, x: int, i: int, j: int, lo: int, hi: int)
    requires Extremes(s, i, j, lo, hi) && SortedByX(s, |s|)
    requires s[i].0 == x && s[j - 1].0 == x
    requires forall k :: 0 <= k < i ==> s[k].0 < x
    requires j < |s| ==> s[j].0 != x
    ensures forall c: Loc :: c.0 == x ==> (InHull(s, c) <==> s[lo].1 <= c.1 <= s[hi].1)
  {
    forall c: Loc | c.0 == x
      ensures InHull(s, c) <==> s[lo].1 <= c.1 <= s[hi].1
    {
      if s[lo].1 <= c.1 <= s[hi].1 {
        assert s[lo].0 == c.0 && s[hi].0 == c.0;
      } else if InHull(s, c) {
        var a, b :| 0 <= a < |s| && 0 <= b < |s| && s[a].0 == c.0 && s[b].0 == c.0 && s[a].1 <= c.1 <= s[b].1;
      }
    }
  }

  lemma OutlineIsHull(s: seq<Loc>, added: seq<Loc>)
    requires s != [] && SortedByX(s, |s|) && FilledBefore(s, added, s[|s| - 1].0 + 1)
    ensures forall c :: c in s + added <==> InHull(s, c)
  {
    forall c
      ensures c in s + added <==> InHull(s, c)
    {
      if c in s {
        var k :| 0 <= k < |s| && s[k] == c;
        EntryInHull(s, k);
      } else if InHull(s, c) {
        HullInColumns(s, c);
      }
    }
  }

  lemma EntryInHull(s: seq<Loc>, k: nat)
    requires k < |s|
    ensures InHull(s, s[k])
  {
  }

  lemma HullInColumns(s: seq<Loc>, c: Loc)
    requires s != [] && SortedByX(s, |s|) && InHull(s, c)
    ensures c.0 < s[|s| - 1].0 + 1
  {
  }

  lemma HullOfPermutation(s: seq<Loc>, t: seq<Loc>, c: Loc)
    requires multiset(s) == multiset(t) && InHull(s, c)
    ensures InHull(t, c)
  {
    var i, j :| 0 <= i < |s| && 0 <= j < |s| &&
      s[i].0 == c.0 && s[j].0 == c.0 && s[i].1 <= c.1 <= s[j].1;
    assert s[i] in multiset(t) && s[j] in multiset(t);
    var k :| 0 <= k < |t| && t[k] == s[i];
    var l :| 0 <= l < |t| && t[l] == s[j];
  }
}
