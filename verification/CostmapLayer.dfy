/** Merging a layer's grid into the master grid, by maximum or by capped addition. */
module CostmapLayer {
  import opened Arithmetic
  import opened CostValues
  import opened GridIndex
  import opened Sequences

  datatype Rule = ByMax | ByAddition

  /** The new master cell when a layer cell of value `c` meets a master cell of value `m`. */
  function Merge(rule: Rule, m: Cost, c: Cost): Cost {
    if c == NO_INFORMATION then m
    else if m == NO_INFORMATION then c
    else match rule
      case ByMax => if m < c then c else m
      case ByAddition => if m + c >= INSCRIBED_INFLATED_OBSTACLE then INSCRIBED_INFLATED_OBSTACLE - 1 else m + c
  }

  /** Cells of the box that the row-major scan has passed when it stands at (i, j). */
  predicate Passed(minI: int, minJ: int, maxI: int, maxJ: int, i: int, j: int, x: int, y: int) {
    minI <= x < maxI && minJ <= y < maxJ && (y < j || (y == j && x < i))
  }

  /** `after` merges the layer into `before` on the passed cells and equals `before` elsewhere. */
  ghost predicate MergedUpTo(rule: Rule, before: seq<Cost>, layer: seq<Cost>, after: seq<Cost>, w: nat, h: nat,
                             minI: int, minJ: int, maxI: int, maxJ: int, i: int, j: int)
  {
    && |before| == w * h && |layer| == w * h && |after| == w * h
    && forall x, y :: 0 <= x < w && 0 <= y < h ==>
      && 0 <= Idx(w, x, y) < w * h
      && after[Idx(w, x, y)] ==
         if Passed(minI, minJ, maxI, maxJ, i, j, x, y)
         then Merge(rule, before[Idx(w, x, y)], layer[Idx(w, x, y)]) else before[Idx(w, x, y)]
  }

  /** One call of updateWithMax or updateWithAddition: the layer's grid, its switch, and the update box. */
  datatype Call = Call(grid: seq<Cost>, enabled: bool, minI: int, minJ: int, maxI: int, maxJ: int) {
    predicate Touches(x: int, y: int) {
      enabled && minI <= x < maxI && minJ <= y < maxJ
    }
  }

  /** What a call does to the whole master grid. */
  ghost predicate Called(rule: Rule, w: nat, h: nat, call: Call, before: seq<Cost>, after: seq<Cost>) {
    if call.enabled
    then MergedUpTo(rule, before, call.grid, after, w, h, call.minI, call.minJ, call.maxI, call.maxJ,
                    call.minI, call.maxJ)
    else after == before
  }

  lemma MergeStart(rule: Rule, before: seq<Cost>, layer: seq<Cost>, w: nat, h: nat,
                   minI: int, minJ: int, maxI: int, maxJ: int)
    requires |before| == w * h && |layer| == w * h
    ensures MergedUpTo(rule, before, layer, before, w, h, minI, minJ, maxI, maxJ, minI, minJ)
  {
    forall x, y | 0 <= x < w && 0 <= y < h
      ensures 0 <= Idx(w, x, y) < w * h
    {
      IdxInRange(w, h, x, y);
    }
  }

  lemma MergeNextRow(rule: Rule, before: seq<Cost>, layer: seq<Cost>, after: seq<Cost>, w: nat, h: nat,
                     minI: int, minJ: int, maxI: int, maxJ: int, i: int, j: int)
    requires maxI <= i && MergedUpTo(rule, before, layer, after, w, h, minI, minJ, maxI, maxJ, i, j)
    ensures MergedUpTo(rule, before, layer, after, w, h, minI, minJ, maxI, maxJ, minI, j + 1)
  {
    hide Idx, Merge;
  }

  lemma MergeNextCell(rule: Rule, before: seq<Cost>, layer: seq<Cost>, prev: seq<Cost>, after: seq<Cost>,
                      w: nat, h: nat, minI: int, minJ: int, maxI: int, maxJ: int, i: int, j: int)
    requires 0 <= minI <= i < maxI <= w && 0 <= minJ <= j < maxJ <= h
    requires MergedUpTo(rule, before, layer, prev, w, h, minI, minJ, maxI, maxJ, i, j)
    requires 0 <= Idx(w, i, j) < w * h
    requires after == prev[Idx(w, i, j) := Merge(rule, prev[Idx(w, i, j)], layer[Idx(w, i, j)])]
    ensures MergedUpTo(rule, before, layer, after, w, h, minI, minJ, maxI, maxJ, i + 1, j)
  {
    forall x, y | 0 <= x < w && 0 <= y < h && Idx(w, x, y) == Idx(w, i, j)
      ensures x == i && y == j
    {
      IdxInjective(w, x, y, i, j);
    }
    hide Idx, Merge;
  }

  class CostmapLayer {
    var enabled: bool
    var sizeX: nat
    var sizeY: nat
    var costmap: array<Cost>

    constructor (sizeX: nat, sizeY: nat, costmap: array<Cost>, enabled: bool)
      ensures this.sizeX == sizeX && this.sizeY == sizeY && this.costmap == costmap && this.enabled == enabled
    {
      this.sizeX, this.sizeY, this.costmap, this.enabled := sizeX, sizeY, costmap, enabled;
    }

    /** A non-empty box lies inside both grids, as the source's pointer arithmetic demands. */
    ghost predicate BoxFits(master: array<Cost>, minI: int, minJ: int, maxI: int, maxJ: int)
      reads this
    {
      && costmap != master && costmap.Length == sizeX * sizeY && master.Length == sizeX * sizeY
      && (minI < maxI && minJ < maxJ ==> 0 <= minI && maxI <= sizeX && 0 <= minJ && maxJ <= sizeY)
    }

    /** One step of updateWithMax. */
    method MaxCell(master: array<Cost>, it: int)
      requires costmap != master && 0 <= it < costmap.Length == master.Length
      modifies master
      ensures master[..] == old(master[..])[it := Merge(ByMax, old(master[it]), costmap[it])]
    {
      if costmap[it] == NO_INFORMATION {
        return;
      }
      var oldCost := master[it];
      if oldCost == NO_INFORMATION || oldCost < costmap[it] {
        master[it] := costmap[it];
      }
    }

    /** One step of updateWithAddition. */
    method AddCell(master: array<Cost>, it: int)
      requires costmap != master && 0 <= it < costmap.Length == master.Length
      modifies master
      ensures master[..] == old(master[..])[it := Merge(ByAddition, old(master[it]), costmap[it])]
    {
      if costmap[it] == NO_INFORMATION {
        return;
      }
      var oldCost := master[it];
      if oldCost == NO_INFORMATION {
        master[it] := costmap[it];
      } else {
        var sum: int := oldCost as int + costmap[it] as int;
        if sum >= INSCRIBED_INFLATED_OBSTACLE {
          master[it] := INSCRIBED_INFLATED_OBSTACLE - 1;
        } else {
          master[it] := sum;
        }
      }
    }

    method UpdateWithMax(master: array<Cost>, minI: int, minJ: int, maxI: int, maxJ: int)
      requires BoxFits(master, minI, minJ, maxI, maxJ)
      modifies master
      ensures Called(ByMax, sizeX, sizeY, Call(costmap[..], enabled, minI, minJ, maxI, maxJ),
                     old(master[..]), master[..])
    {
      if !enabled {
        return;
      }
      hide Idx, MergedUpTo, Merge;
      ghost var before, layer := master[..], costmap[..];
      MergeStart(ByMax, before, layer, sizeX, sizeY, minI, minJ, maxI, maxJ);
      var span := sizeX;
      var j := minJ;
      while j < maxJ
        invariant minJ <= j && (j <= maxJ || j == minJ)
        invariant MergedUpTo(ByMax, before, layer, master[..], sizeX, sizeY, minI, minJ, maxI, maxJ, minI, j)
        invariant costmap[..] == layer
      {
        var it := Idx(span, minI, j);
        var i := minI;
        while i < maxI
          invariant minI <= i && it == Idx(span, i, j)
          invariant MergedUpTo(ByMax, before, layer, master[..], sizeX, sizeY, minI, minJ, maxI, maxJ, i, j)
          invariant costmap[..] == layer
        {
          IdxInRange(sizeX, sizeY, i, j);
          NextIndex(span, i, j);
          ghost var prev := master[..];
          MaxCell(master, it);
          MergeNextCell(ByMax, before, layer, prev, master[..], sizeX, sizeY, minI, minJ, maxI, maxJ, i, j);
          it := it + 1;
          i := i + 1;
        }
        MergeNextRow(ByMax, before, layer, master[..], sizeX, sizeY, minI, minJ, maxI, maxJ, i, j);
        j := j + 1;
      }
      MergeEnd(ByMax, before, layer, master[..], sizeX, sizeY, minI, minJ, maxI, maxJ, j);
    }

    method UpdateWithAddition(master: array<Cost>, minI: int, minJ: int, maxI: int, maxJ: int)
      requires BoxFits(master, minI, minJ, maxI, maxJ)
      modifies master
      ensures Called(ByAddition, sizeX, sizeY, Call(costmap[..], enabled, minI, minJ, maxI, maxJ),
                     old(master[..]), master[..])
    {
      if !enabled {
        return;
      }
      hide Idx, MergedUpTo, Merge;
      ghost var before, layer := master[..], costmap[..];
      MergeStart(ByAddition, before, layer, sizeX, sizeY, minI, minJ, maxI, maxJ);
      var span := sizeX;
      var j := minJ;
      while j < maxJ
        invariant minJ <= j && (j <= maxJ || j == minJ)
        invariant MergedUpTo(ByAddition, before, layer, master[..], sizeX, sizeY, minI, minJ, maxI, maxJ, minI, j)
        invariant costmap[..] == layer
      {
        var it := Idx(span, minI, j);
        var i := minI;
        while i < maxI
          invariant minI <= i && it == Idx(span, i, j)
          invariant MergedUpTo(ByAddition, before, layer, master[..], sizeX, sizeY, minI, minJ, maxI, maxJ, i, j)
          invariant costmap[..] == layer
        {
          IdxInRange(sizeX, sizeY, i, j);
          NextIndex(span, i, j);
          ghost var prev := master[..];
          AddCell(master, it);
          MergeNextCell(ByAddition, before, layer, prev, master[..], sizeX, sizeY, minI, minJ, maxI, maxJ, i, j);
          it := it + 1;
          i := i + 1;
        }
        MergeNextRow(ByAddition, before, layer, master[..], sizeX, sizeY, minI, minJ, maxI, maxJ, i, j);
        j := j + 1;
      }
      MergeEnd(ByAddition, before, layer, master[..], sizeX, sizeY, minI, minJ, maxI, maxJ, j);
    }
  }

  lemma NextIndex(w: nat, x: int, y: int)
    ensures Idx(w, x + 1, y) == Idx(w, x, y) + 1
  {
  }

  lemma MergeEnd(rule: Rule, before: seq<Cost>, layer: seq<Cost>, after: seq<Cost>, w: nat, h: nat,
                 minI: int, minJ: int, maxI: int, maxJ: int, j: int)
    requires j >= maxJ && MergedUpTo(rule, before, layer, after, w, h, minI, minJ, maxI, maxJ, minI, j)
    ensures MergedUpTo(rule, before, layer, after, w, h, minI, minJ, maxI, maxJ, minI, maxJ)
  {
    hide Idx, Merge;
  }

  // ---------- any list of merges into one cell ----------

  /** The value of a master cell after merging layer cells in order. */
  function MergeAll(rule: Rule, m: Cost, layers: seq<Cost>): Cost {
    if layers == [] then m
    else Merge(rule, MergeAll(rule, m, layers[..|layers| - 1]), layers[|layers| - 1])
  }

  /** `v` is the join of `m` and the values in `s`, with NO_INFORMATION as bottom. */
  ghost predicate IsJoin(m: Cost, s: seq<Cost>, v: Cost) {
    if v == NO_INFORMATION then m == NO_INFORMATION && forall c :: c in s ==> c == NO_INFORMATION
    else
      && (v == m || v in s)
      && (m != NO_INFORMATION ==> m <= v)
      && forall c :: c in s && c != NO_INFORMATION ==> c <= v
  }

  lemma {:induction false} MaxMergesJoin(m: Cost, layers: seq<Cost>)
    ensures IsJoin(m, layers, MergeAll(ByMax, m, layers))
  {
    if layers != [] {
      var n := |layers| - 1;
      MaxMergesJoin(m, layers[..n]);
      assert layers == layers[..n] + [layers[n]];
    }
  }

  /** Max-merging depends only on which values occur: not on order, not on repeats. */
  lemma MaxMergesOrderFree(m: Cost, s: seq<Cost>, t: seq<Cost>)
    requires forall c :: c in s <==> c in t
    ensures MergeAll(ByMax, m, s) == MergeAll(ByMax, m, t)
  {
    MaxMergesJoin(m, s);
    MaxMergesJoin(m, t);
    hide MergeAll;
  }

  function Known(s: seq<Cost>): nat {
    if s == [] then 0 else Known(s[..|s| - 1]) + (if s[|s| - 1] != NO_INFORMATION then 1 else 0)
  }

  function KnownSum(s: seq<Cost>): nat {
    if s == [] then 0 else KnownSum(s[..|s| - 1]) + (if s[|s| - 1] != NO_INFORMATION then s[|s| - 1] else 0)
  }

  /**
   Addition-merges into a cell of value `m`. An unknown cell ends unknown, as the lone contribution, or
   as the sum capped at 252; a known one keeps its value until something is added, then the sum caps.
   */
  lemma {:induction false} AdditionMergesClosedForm(m: Cost, layers: seq<Cost>)
    ensures MergeAll(ByAddition, m, layers) ==
      if Known(layers) == 0 then m
      else if m != NO_INFORMATION then Min(252, m + KnownSum(layers))
      else if Known(layers) == 1 then KnownSum(layers)
      else Min(252, KnownSum(layers))
    ensures Known(layers) == 0 ==> KnownSum(layers) == 0
    ensures Known(layers) == 1 ==> KnownSum(layers) <= LETHAL_OBSTACLE
  {
    if layers != [] {
      AdditionMergesClosedForm(m, layers[..|layers| - 1]);
    }
  }

  lemma {:induction false} KnownSplit(s: seq<Cost>, t: seq<Cost>)
    ensures Known(s + t) == Known(s) + Known(t) && KnownSum(s + t) == KnownSum(s) + KnownSum(t)
  {
    if t == [] {
      assert s + t == s;
    } else {
      assert (s + t)[..|s + t| - 1] == s + t[..|t| - 1];
      KnownSplit(s, t[..|t| - 1]);
    }
  }

  lemma {:induction false} KnownOfPermutation(s: seq<Cost>, t: seq<Cost>)
    requires multiset(s) == multiset(t)
    ensures Known(s) == Known(t) && KnownSum(s) == KnownSum(t)
    decreases |s|
  {
    SameMembers(s, t);
    hide Known, KnownSum;
    if s == [] {
      assert s == t;
    } else {
      var n := |s| - 1;
      assert s[n] in t;
      var i :| 0 <= i < |t| && t[i] == s[n];
      RemoveAt(t, i);
      RemoveAt(s, n);
      assert s[..n] + s[n + 1..] == s[..n];
      KnownOfPermutation(s[..n], t[..i] + t[i + 1..]);
      KnownWithout(t, i);
      KnownWithout(s, n);
    }
  }

  /** The value at place `i` counts the same wherever it stands. */
  lemma KnownWithout(t: seq<Cost>, i: nat)
    requires i < |t|
    ensures Known(t) == Known(t[..i] + t[i + 1..]) + Known([t[i]])
    ensures KnownSum(t) == KnownSum(t[..i] + t[i + 1..]) + KnownSum([t[i]])
  {
    hide Known, KnownSum;
    assert t == (t[..i] + [t[i]]) + t[i + 1..];
    KnownSplit(t[..i], [t[i]]);
    KnownSplit(t[..i] + [t[i]], t[i + 1..]);
    KnownSplit(t[..i], t[i + 1..]);
  }

  /** Addition-merging does not depend on the order of the layers, whatever the cell holds at the start. */
  lemma AdditionMergesOrderFree(m: Cost, s: seq<Cost>, t: seq<Cost>)
    requires multiset(s) == multiset(t)
    ensures MergeAll(ByAddition, m, s) == MergeAll(ByAddition, m, t)
  {
    KnownOfPermutation(s, t);
    AdditionMergesClosedForm(m, s);
    AdditionMergesClosedForm(m, t);
    hide MergeAll, Known, KnownSum;
  }

  // ---------- any list of calls on whole grids ----------

  /** Every layer has the size of the master grid. */
  ghost predicate Sized(calls: seq<Call>, w: nat, h: nat) {
    forall c :: c in calls ==> |c.grid| == w * h
  }

  /** The values of the layers whose call touches (x, y), in order. */
  ghost function Contributions(calls: seq<Call>, w: nat, h: nat, x: int, y: int): seq<Cost>
    requires 0 <= x < w && 0 <= y < h && Sized(calls, w, h)
  {
    if calls == [] then []
    else
      var n := |calls| - 1;
      IdxInRange(w, h, x, y);
      Contributions(calls[..n], w, h, x, y) + (if calls[n].Touches(x, y) then [calls[n].grid[Idx(w, x, y)]] else [])
  }

  /** The master grid before the first call and after each call. */
  ghost predicate MergeRun(rule: Rule, w: nat, h: nat, calls: seq<Call>, grids: seq<seq<Cost>>) {
    && |grids| == |calls| + 1 && |grids[0]| == w * h
    && Sized(calls, w, h)
    && forall k :: 0 <= k < |calls| ==> Called(rule, w, h, calls[k], grids[k], grids[k + 1])
  }

  lemma CalledAt(rule: Rule, w: nat, h: nat, call: Call, before: seq<Cost>, after: seq<Cost>, x: int, y: int)
    requires |before| == w * h && |call.grid| == w * h && Called(rule, w, h, call, before, after)
    requires 0 <= x < w && 0 <= y < h
    ensures |after| == w * h && 0 <= Idx(w, x, y) < w * h
    ensures after[Idx(w, x, y)] ==
      if call.Touches(x, y) then Merge(rule, before[Idx(w, x, y)], call.grid[Idx(w, x, y)]) else before[Idx(w, x, y)]
  {
    IdxInRange(w, h, x, y);
    hide Idx, Merge;
  }

  /** Every cell is the merge, in order, of exactly the layers whose box contains it. */
  lemma {:induction false} GridMerges(rule: Rule, w: nat, h: nat, calls: seq<Call>, grids: seq<seq<Cost>>,
                                      x: int, y: int)
    requires MergeRun(rule, w, h, calls, grids) && 0 <= x < w && 0 <= y < h
    ensures var last := grids[|calls|];
      && |last| == w * h && 0 <= Idx(w, x, y) < w * h
      && last[Idx(w, x, y)] == MergeAll(rule, grids[0][Idx(w, x, y)], Contributions(calls, w, h, x, y))
    decreases |calls|
  {
    hide Idx, Merge, Called, Call.Touches;
    IdxInRange(w, h, x, y);
    if calls != [] {
      var n := |calls| - 1;
      GridMerges(rule, w, h, calls[..n], grids[..n + 1], x, y);
      CalledAt(rule, w, h, calls[n], grids[n], grids[n + 1], x, y);
      OneMoreContribution(rule, calls, w, h, x, y, grids[0][Idx(w, x, y)]);
    }
  }

  lemma OneMoreContribution(rule: Rule, calls: seq<Call>, w: nat, h: nat, x: int, y: int, m: Cost)
    requires 0 <= x < w && 0 <= y < h && Sized(calls, w, h)
    requires calls != []
    ensures 0 <= Idx(w, x, y) < w * h
    ensures var call := calls[|calls| - 1];
      var merged := MergeAll(rule, m, Contributions(calls[..|calls| - 1], w, h, x, y));
      MergeAll(rule, m, Contributions(calls, w, h, x, y)) ==
        if call.Touches(x, y) then Merge(rule, merged, call.grid[Idx(w, x, y)]) else merged
  {
    IdxInRange(w, h, x, y);
    hide Idx, Merge;
    var n := |calls| - 1;
    var before, after := Contributions(calls[..n], w, h, x, y), Contributions(calls, w, h, x, y);
    if calls[n].Touches(x, y) {
      assert after == before + [calls[n].grid[Idx(w, x, y)]];
      assert after[..|after| - 1] == before;
    } else {
      assert after == before;
    }
  }

  lemma {:induction false} ContributionsConcat(s: seq<Call>, t: seq<Call>, w: nat, h: nat, x: int, y: int)
    requires 0 <= x < w && 0 <= y < h && Sized(s, w, h) && Sized(t, w, h)
    ensures Sized(s + t, w, h)
    ensures Contributions(s + t, w, h, x, y) == Contributions(s, w, h, x, y) + Contributions(t, w, h, x, y)
    decreases |t|
  {
    hide Idx, Call.Touches;
    if t == [] {
      assert s + t == s;
    } else {
      var n := |t| - 1;
      assert (s + t)[..|s + t| - 1] == s + t[..n];
      ContributionsConcat(s, t[..n], w, h, x, y);
    }
  }

  /** The call at place `i` contributes the same wherever it stands. */
  lemma ContributionsWithout(t: seq<Call>, i: nat, w: nat, h: nat, x: int, y: int)
    requires 0 <= x < w && 0 <= y < h && Sized(t, w, h) && i < |t|
    ensures Sized(t[..i] + t[i + 1..], w, h) && Sized([t[i]], w, h)
    ensures multiset(Contributions(t, w, h, x, y)) ==
      multiset(Contributions(t[..i] + t[i + 1..], w, h, x, y)) + multiset(Contributions([t[i]], w, h, x, y))
  {
    hide Contributions;
    assert t == (t[..i] + [t[i]]) + t[i + 1..];
    ContributionsConcat(t[..i], [t[i]], w, h, x, y);
    ContributionsConcat(t[..i] + [t[i]], t[i + 1..], w, h, x, y);
    ContributionsConcat(t[..i], t[i + 1..], w, h, x, y);
  }

  /** Reordering the calls reorders what they contribute to a cell. */
  lemma {:induction false} ContributionsOfPermutation(s: seq<Call>, t: seq<Call>, w: nat, h: nat, x: int, y: int)
    requires 0 <= x < w && 0 <= y < h && multiset(s) == multiset(t) && Sized(s, w, h)
    ensures Sized(t, w, h)
    ensures multiset(Contributions(s, w, h, x, y)) == multiset(Contributions(t, w, h, x, y))
    decreases |s|
  {
    SameMembers(s, t);
    hide Contributions;
    if s == [] {
      assert s == t;
    } else {
      var n := |s| - 1;
      assert s[n] in t;
      var i :| 0 <= i < |t| && t[i] == s[n];
      RemoveAt(t, i);
      RemoveAt(s, n);
      assert s[..n] + s[n + 1..] == s[..n];
      ContributionsOfPermutation(s[..n], t[..i] + t[i + 1..], w, h, x, y);
      ContributionsWithout(t, i, w, h, x, y);
      ContributionsWithout(s, n, w, h, x, y);
    }
  }

  /**
   Layer order on whole grids: the same calls in another order end in the same grid, for both rules
   and from every start.
   */
  lemma GridOrderFree(rule: Rule, w: nat, h: nat, s: seq<Call>, t: seq<Call>, a: seq<seq<Cost>>, b: seq<seq<Cost>>)
    requires MergeRun(rule, w, h, s, a) && MergeRun(rule, w, h, t, b) && multiset(s) == multiset(t) && a[0] == b[0]
    ensures a[|s|] == b[|t|]
  {
    hide Idx, Merge, MergeAll, Called, Contributions;
    SizeKept(rule, w, h, s, a);
    SizeKept(rule, w, h, t, b);
    forall x, y | 0 <= x < w && 0 <= y < h
      ensures 0 <= Idx(w, x, y) < w * h && a[|s|][Idx(w, x, y)] == b[|t|][Idx(w, x, y)]
    {
      GridMerges(rule, w, h, s, a, x, y);
      GridMerges(rule, w, h, t, b, x, y);
      ContributionsOfPermutation(s, t, w, h, x, y);
      CellOrderFree(rule, a[0][Idx(w, x, y)], Contributions(s, w, h, x, y), Contributions(t, w, h, x, y));
    }
    GridExtensional(a[|s|], b[|t|], w, h);
  }

  lemma {:induction false} SizeKept(rule: Rule, w: nat, h: nat, calls: seq<Call>, grids: seq<seq<Cost>>)
    requires MergeRun(rule, w, h, calls, grids)
    ensures |grids[|calls|]| == w * h
    decreases |calls|
  {
    if calls != [] {
      var n := |calls| - 1;
      SizeKept(rule, w, h, calls[..n], grids[..n + 1]);
      assert Called(rule, w, h, calls[n], grids[n], grids[n + 1]);
    }
  }

  lemma CellOrderFree(rule: Rule, m: Cost, s: seq<Cost>, t: seq<Cost>)
    requires multiset(s) == multiset(t)
    ensures MergeAll(rule, m, s) == MergeAll(rule, m, t)
  {
    hide MergeAll;
    match rule {
      case ByMax =>
        SameMembers(s, t);
        MaxMergesOrderFree(m, s, t);
      case ByAddition =>
        AdditionMergesOrderFree(m, s, t);
    }
  }
}
