/** What the cumulative map means. A table that satisfies the seam recurrence (each cell holds
    its energy plus the least of its three predecessors, nothing reaching int.MaxValue) holds,
    in every cell, the least total energy of a connected path that starts on the leading line
    and ends at that cell, and stepping back to the predecessor the comparison picks traces
    such a least path. After a full recompute over a grid with no claimed cells, and with
    energies small enough that no sum wraps around, the cumulative map is such a table. */
module MinimalSeams {
  import opened Constants
  import opened Numerics
  import opened Utilities
  import opened Sweep
  import opened CumulativeMaps

  /** A connected path of lateral positions, one per along line from line 0: every position is
      inside the grid and consecutive positions differ by at most one. */
  predicate IsPath(f: Fill, p: seq<int>)
  {
    |p| <= N(f) &&
    (forall i :: 0 <= i < |p| ==> 0 <= p[i] < L(f)) &&
    (forall i :: 0 < i < |p| ==> Adjacent(p, i))
  }

  /** Position i of a path is at most one step away from position i - 1. */
  predicate Adjacent(p: seq<int>, i: int)
    requires 0 < i < |p|
  {
    -1 <= p[i] - p[i - 1] <= 1
  }

  /** The total energy of the cells a path passes through. */
  function Cost(f: Fill, g: Grids, p: seq<int>): int
    requires GridsFit(g, f.size)
  {
    CostUpTo(f, g, p, |p|)
  }

  /** The total energy of the first n cells of a path. */
  function CostUpTo(f: Fill, g: Grids, p: seq<int>, n: int): int
    requires GridsFit(g, f.size) && 0 <= n <= |p|
    decreases n
  {
    if n == 0 then 0 else CostUpTo(f, g, p, n - 1) + Energy(g, f.size, At(f.d, n - 1, p[n - 1]))
  }

  /** The first n cells cost the same whatever follows them. */
  lemma {:induction false} CostUpToSnoc(f: Fill, g: Grids, q: seq<int>, l: int, n: int)
    requires GridsFit(g, f.size) && 0 <= n <= |q|
    ensures CostUpTo(f, g, q + [l], n) == CostUpTo(f, g, q, n)
    decreases n
  {
    if n > 0 {
      CostUpToSnoc(f, g, q, l, n - 1);
      assert (q + [l])[n - 1] == q[n - 1];
    }
  }

  /** A table with one row of L cells per along line, indexed [along][lateral]. */
  predicate Shaped(f: Fill, t: seq<seq<int>>)
  {
    |t| == N(f) && forall a :: 0 <= a < |t| ==> |t[a]| == L(f)
  }

  /** A predecessor as the recurrence reads it: its value, or int.MaxValue outside the grid. */
  function Near(f: Fill, t: seq<seq<int>>, a: int, k: int): int
    requires Shaped(f, t) && 0 <= a < N(f)
  {
    if 0 <= k < L(f) then t[a][k] else IntMax
  }

  /** The recurrence at one cell, without wrap-around, and the cell stays below int.MaxValue. */
  predicate Holds(f: Fill, g: Grids, t: seq<seq<int>>, a: int, l: int)
    requires GridsFit(g, f.size) && Shaped(f, t)
    requires 0 <= a < N(f) && 0 <= l < L(f)
  {
    t[a][l] < IntMax &&
    t[a][l] == Energy(g, f.size, At(f.d, a, l)) +
      (if a == 0 then 0 else Min3(Near(f, t, a - 1, l - 1), Near(f, t, a - 1, l), Near(f, t, a - 1, l + 1)))
  }

  /** A table that satisfies the recurrence in every cell. */
  predicate Recurrent(f: Fill, g: Grids, t: seq<seq<int>>)
  {
    ValidFill(f) && GridsFit(g, f.size) && Shaped(f, t) &&
    forall a, l :: 0 <= a < N(f) && 0 <= l < L(f) ==> Holds(f, g, t, a, l)
  }

  /** The predecessor the comparison picks for a cell on line a >= 1. */
  function Prev(f: Fill, t: seq<seq<int>>, a: int, l: int): int
    requires Shaped(f, t) && 1 <= a < N(f)
  {
    match Choose3(Near(f, t, a - 1, l - 1), Near(f, t, a - 1, l), Near(f, t, a - 1, l + 1))
    case First => l - 1
    case Second => l
    case Third => l + 1
  }

  /** One step of the recurrence: the picked predecessor is inside the grid, adjacent, no
      costlier than any adjacent cell of the previous line, and the cell's value is its energy
      plus the predecessor's. */
  lemma PrevStep(f: Fill, g: Grids, t: seq<seq<int>>, a: int, l: int)
    requires Recurrent(f, g, t)
    requires 1 <= a < N(f) && 0 <= l < L(f)
    ensures 0 <= Prev(f, t, a, l) < L(f) && -1 <= Prev(f, t, a, l) - l <= 1
    ensures 0 <= l - 1 ==> t[a - 1][Prev(f, t, a, l)] <= t[a - 1][l - 1]
    ensures t[a - 1][Prev(f, t, a, l)] <= t[a - 1][l]
    ensures l + 1 < L(f) ==> t[a - 1][Prev(f, t, a, l)] <= t[a - 1][l + 1]
    ensures t[a][l] == Energy(g, f.size, At(f.d, a, l)) + t[a - 1][Prev(f, t, a, l)]
  {
    assert Holds(f, g, t, a, l);
    assert Holds(f, g, t, a - 1, l);
    var e0, e1, e2 := Near(f, t, a - 1, l - 1), Near(f, t, a - 1, l), Near(f, t, a - 1, l + 1);
    var c := Choose3(e0, e1, e2);
    match c {
      case First =>
        assert 0 <= l - 1;
      case Second =>
      case Third =>
        assert l + 1 < L(f);
    }
  }

  /** A cell's value is at most its energy plus the value of any adjacent cell on the previous
      line. */
  lemma StepBound(f: Fill, g: Grids, t: seq<seq<int>>, a: int, l: int, k: int)
    requires Recurrent(f, g, t)
    requires 1 <= a < N(f) && 0 <= l < L(f) && 0 <= k < L(f) && -1 <= l - k <= 1
    ensures t[a][l] <= Energy(g, f.size, At(f.d, a, l)) + t[a - 1][k]
  {
    PrevStep(f, g, t, a, l);
    if k == l - 1 {
    } else if k == l {
    } else {
      assert k == l + 1;
    }
  }

  /** A path stays a path when its last cell is dropped. */
  lemma IsPathPrefix(f: Fill, q: seq<int>, l: int)
    requires IsPath(f, q + [l])
    ensures IsPath(f, q)
  {
    var p := q + [l];
    assert forall i :: 0 <= i < |q| ==> p[i] == q[i];
    forall i | 0 < i < |q|
      ensures Adjacent(q, i)
    {
      assert Adjacent(p, i);
    }
  }

  /** Extending a path by a cell adjacent to its last one keeps it a path. */
  lemma IsPathSnoc(f: Fill, q: seq<int>, l: int)
    requires IsPath(f, q) && 0 < |q| < N(f)
    requires 0 <= l < L(f) && -1 <= l - q[|q| - 1] <= 1
    ensures IsPath(f, q + [l])
  {
    var p := q + [l];
    assert forall i :: 0 <= i < |q| ==> p[i] == q[i];
    forall i | 0 < i < |p|
      ensures Adjacent(p, i)
    {
      if i < |q| {
        assert Adjacent(q, i);
      }
    }
  }

  /** Extending a path adds the energy of the new cell to its cost. */
  lemma CostSnoc(f: Fill, g: Grids, q: seq<int>, l: int)
    requires GridsFit(g, f.size)
    ensures Cost(f, g, q + [l]) == Cost(f, g, q) + Energy(g, f.size, At(f.d, |q|, l))
  {
    CostUpToSnoc(f, g, q, l, |q|);
    assert (q + [l])[|q|] == l;
  }

  /** Every connected path from the leading line to a cell costs at least the cell's value. */
  lemma {:induction false} TableIsLowerBound(f: Fill, g: Grids, t: seq<seq<int>>, p: seq<int>)
    requires Recurrent(f, g, t)
    requires IsPath(f, p) && |p| > 0
    ensures t[|p| - 1][p[|p| - 1]] <= Cost(f, g, p)
    decreases |p|
  {
    var a, l := |p| - 1, p[|p| - 1];
    assert Holds(f, g, t, a, l);
    var q := p[..a];
    assert p == q + [l];
    CostSnoc(f, g, q, l);
    if a > 0 {
      IsPathPrefix(f, q, l);
      TableIsLowerBound(f, g, t, q);
      assert Adjacent(p, a);
      assert q[a - 1] == p[a - 1];
      StepBound(f, g, t, a, l, p[a - 1]);
    }
  }

  /** The path found by stepping back from (a, l) through the picked predecessors. */
  function Backtrack(f: Fill, g: Grids, t: seq<seq<int>>, a: int, l: int): (p: seq<int>)
    requires Recurrent(f, g, t)
    requires 0 <= a < N(f) && 0 <= l < L(f)
    ensures |p| == a + 1 && p[a] == l
    decreases a
  {
    if a == 0 then [l]
    else
      PrevStep(f, g, t, a, l);
      Backtrack(f, g, t, a - 1, Prev(f, t, a, l)) + [l]
  }

  /** The backtracked path is connected. */
  lemma {:induction false} BacktrackIsPath(f: Fill, g: Grids, t: seq<seq<int>>, a: int, l: int)
    requires Recurrent(f, g, t)
    requires 0 <= a < N(f) && 0 <= l < L(f)
    ensures IsPath(f, Backtrack(f, g, t, a, l))
    decreases a
  {
    if a > 0 {
      PrevStep(f, g, t, a, l);
      var pr := Prev(f, t, a, l);
      BacktrackIsPath(f, g, t, a - 1, pr);
      IsPathSnoc(f, Backtrack(f, g, t, a - 1, pr), l);
    }
  }

  /** The backtracked path costs exactly the cell's value. */
  lemma {:induction false} BacktrackCost(f: Fill, g: Grids, t: seq<seq<int>>, a: int, l: int)
    requires Recurrent(f, g, t)
    requires 0 <= a < N(f) && 0 <= l < L(f)
    ensures Cost(f, g, Backtrack(f, g, t, a, l)) == t[a][l]
    decreases a
  {
    if a == 0 {
      assert Holds(f, g, t, a, l);
      CostSnoc(f, g, [], l);
      assert Backtrack(f, g, t, a, l) == [] + [l];
    } else {
      PrevStep(f, g, t, a, l);
      var pr := Prev(f, t, a, l);
      BacktrackCost(f, g, t, a - 1, pr);
      CostSnoc(f, g, Backtrack(f, g, t, a - 1, pr), l);
    }
  }

  /** The cumulative table after a fill, indexed [along][lateral]. */
  function Table(f: Fill, g: Grids): (t: seq<seq<int>>)
    requires ValidFill(f) && GridsFit(g, f.size)
    ensures Shaped(f, t)
  {
    seq(N(f), a requires 0 <= a < N(f) => seq(L(f), l requires 0 <= l < L(f) => Cum(f, g, a, l) as int))
  }

  lemma TableCell(f: Fill, g: Grids, a: int, l: int)
    requires ValidFill(f) && GridsFit(g, f.size)
    requires 0 <= a < N(f) && 0 <= l < L(f)
    ensures Table(f, g)[a][l] == Cum(f, g, a, l)
  {
  }

  /** n * b, built up by addition so that the proofs stay linear. */
  function Span(n: nat, b: int): int
  {
    if n == 0 then 0 else Span(n - 1, b) + b
  }

  lemma {:induction false} SpanIsProduct(n: nat, b: int)
    ensures Span(n, b) == n * b
  {
    if n > 0 {
      SpanIsProduct(n - 1, b);
    }
  }

  lemma {:induction false} SpanMono(m: nat, n: nat, b: int)
    requires m <= n && 0 <= b
    ensures Span(m, b) <= Span(n, b)
    decreases n
  {
    if m < n {
      SpanMono(m, n - 1, b);
    }
  }

  /** The conditions under which a fill yields a recurrent table: a full recompute, no claimed
      cell that the recurrence would honour, and every energy within [-b, b] where N * b stays
      below int.MaxValue. */
  predicate Plain(f: Fill, g: Grids, b: int)
  {
    ValidFill(f) && GridsFit(g, f.size) && f.s == 0 && f.e == L(f) - 1 &&
    (f.honourUsed ==> forall i, j :: 0 <= i < f.size.width && 0 <= j < f.size.height ==> Unclaimed(g, i, j)) &&
    0 <= b && Span(N(f), b) < IntMax &&
    (forall i, j :: 0 <= i < f.size.width && 0 <= j < f.size.height ==> Bounded(g, b, i, j))
  }

  /** The cell at (i, j) is not marked as used. */
  predicate Unclaimed(g: Grids, i: int, j: int)
    requires 0 <= i < |g.used| && 0 <= j < |g.used[i]|
  {
    !g.used[i][j]
  }

  /** The energy of the cell at (i, j) lies within [-b, b]. */
  predicate Bounded(g: Grids, b: int, i: int, j: int)
    requires 0 <= i < |g.energy| && 0 <= j < |g.energy[i]|
  {
    -b <= g.energy[i][j] <= b
  }

  lemma EnergyWithin(f: Fill, g: Grids, b: int, a: int, l: int)
    requires Plain(f, g, b)
    requires 0 <= a < N(f) && 0 <= l < L(f)
    ensures -b <= Energy(g, f.size, At(f.d, a, l)) <= b
  {
    AtInBounds(f.d, a, l, f.size);
    var p := At(f.d, a, l);
    assert Bounded(g, b, p.x, p.y);
  }

  /** Under Plain a predecessor reads as its cumulative value inside the grid and as
      int.MaxValue outside it. */
  lemma PredInside(f: Fill, g: Grids, b: int, a: int, k: int)
    requires Plain(f, g, b)
    requires 0 <= a < N(f)
    ensures 0 <= k < L(f) ==> Pred(f, g, a, k) == Cum(f, g, a, k)
    ensures !(0 <= k < L(f)) ==> Pred(f, g, a, k) == IntMax
  {
    if 0 <= k < L(f) {
      AtInBounds(f.d, a, k, f.size);
      var p := At(f.d, a, k);
      assert f.honourUsed ==> Unclaimed(g, p.x, p.y);
    }
  }

  /** The least of three candidates, the middle one within [lo, hi] and each outer one within
      it or int.MaxValue, lies within [lo, hi]. */
  lemma Min3Within(e0: int, e1: int, e2: int, lo: int, hi: int)
    requires hi < IntMax && lo <= e1 <= hi
    requires (lo <= e0 <= hi) || e0 == IntMax
    requires (lo <= e2 <= hi) || e2 == IntMax
    ensures lo <= Min3(e0, e1, e2) <= hi
  {
  }

  /** Under Plain every written value is the exact sum of the recurrence, within
      (a + 1) * b of zero, so no addition wraps around. */
  lemma {:induction false} CumExact(f: Fill, g: Grids, b: int, a: int, l: int)
    requires Plain(f, g, b)
    requires 0 <= a < N(f) && 0 <= l < L(f)
    ensures -Span(a + 1, b) <= Cum(f, g, a, l) <= Span(a + 1, b)
    ensures Cum(f, g, a, l) == Energy(g, f.size, At(f.d, a, l)) +
      (if a == 0 then 0 else Min3(Pred(f, g, a - 1, l - 1), Pred(f, g, a - 1, l), Pred(f, g, a - 1, l + 1)))
    decreases a, 0
  {
    if a > 0 {
      PredBound(f, g, b, a - 1, l - 1);
      PredBound(f, g, b, a - 1, l);
      PredBound(f, g, b, a - 1, l + 1);
      CumStep(f, g, b, a, l);
    } else {
      CumLeading(f, g, b, l);
    }
  }

  /** A cell of the leading line holds its energy. */
  lemma CumLeading(f: Fill, g: Grids, b: int, l: int)
    requires Plain(f, g, b)
    requires 0 < N(f) && 0 <= l < L(f)
    ensures -Span(1, b) <= Cum(f, g, 0, l) <= Span(1, b)
    ensures Cum(f, g, 0, l) == Energy(g, f.size, At(f.d, 0, l))
  {
    EnergyWithin(f, g, b, 0, l);
    SpanMono(1, N(f), b);
    PlainWritesAll(f, g, b, 0, l);
    SumWithin(Energy(g, f.size, At(f.d, 0, l)), 0, b, 0, Span(1, b));
  }

  /** A cell of a later line, its predecessors within a * b of zero (or int.MaxValue outside
      the grid), holds its energy plus the least of them, within (a + 1) * b of zero. */
  lemma CumStep(f: Fill, g: Grids, b: int, a: int, l: int)
    requires Plain(f, g, b)
    requires 0 < a < N(f) && 0 <= l < L(f)
    requires PredWithin(f, g, b, a - 1, l - 1) && PredWithin(f, g, b, a - 1, l) && PredWithin(f, g, b, a - 1, l + 1)
    ensures -Span(a + 1, b) <= Cum(f, g, a, l) <= Span(a + 1, b)
    ensures Cum(f, g, a, l) == Energy(g, f.size, At(f.d, a, l)) +
      Min3(Pred(f, g, a - 1, l - 1), Pred(f, g, a - 1, l), Pred(f, g, a - 1, l + 1))
  {
    SpanMono(a + 1, N(f), b);
    EnergyWithin(f, g, b, a, l);
    PlainWritesAll(f, g, b, a, l);
    StepWithin(Energy(g, f.size, At(f.d, a, l)), Pred(f, g, a - 1, l - 1), Pred(f, g, a - 1, l), Pred(f, g, a - 1, l + 1),
               b, Span(a, b), Span(a + 1, b), 0 <= l - 1, l + 1 < L(f));
  }

  /** Under Plain the fill rewrites every cell. */
  lemma PlainWritesAll(f: Fill, g: Grids, b: int, a: int, l: int)
    requires Plain(f, g, b)
    requires 0 <= a < N(f) && 0 <= l < L(f)
    ensures Written(f, a, l)
  {
  }

  /** One step of the recurrence in arithmetic: an energy within [-b, b] plus the least of three
      predecessors, the middle one within [-s, s] and each outer one within it or
      int.MaxValue, lies within [-(s + b), s + b]; below int.MaxValue, the 32-bit addition does
      not wrap. */
  lemma StepWithin(e: int, p0: int, p1: int, p2: int, b: int, s: int, s1: int, left: bool, right: bool)
    requires -b <= e <= b && 0 <= s
    requires left ==> -s <= p0 <= s
    requires !left ==> p0 == IntMax
    requires -s <= p1 <= s
    requires right ==> -s <= p2 <= s
    requires !right ==> p2 == IntMax
    requires s1 == s + b && s1 < IntMax
    ensures -s1 <= e + Min3(p0, p1, p2) <= s1
    ensures Wrap32(e + Min3(p0, p1, p2)) == e + Min3(p0, p1, p2)
  {
    Min3Within(p0, p1, p2, -s, s);
    SumWithin(e, Min3(p0, p1, p2), b, s, s1);
  }

  /** An energy within [-b, b] plus a value within [-s, s] lies within [-(s + b), s + b], and
      when that bound is below int.MaxValue the 32-bit addition does not wrap. */
  lemma SumWithin(e: int, m: int, b: int, s: int, s1: int)
    requires -b <= e <= b && -s <= m <= s
    requires s1 == s + b && s1 < IntMax
    ensures -s1 <= e + m <= s1
    ensures Wrap32(e + m) == e + m
  {
  }

  /** A predecessor on line a reads within (a + 1) * b of zero inside the grid and as
      int.MaxValue outside it. */
  predicate PredWithin(f: Fill, g: Grids, b: int, a: int, k: int)
    requires ValidFill(f) && GridsFit(g, f.size) && 0 <= a < N(f)
  {
    (0 <= k < L(f) ==> -Span(a + 1, b) <= Pred(f, g, a, k) <= Span(a + 1, b)) &&
    (!(0 <= k < L(f)) ==> Pred(f, g, a, k) == IntMax)
  }

  /** A predecessor on a line after the fill is within (a + 1) * b of zero inside the grid
      and int.MaxValue outside it. */
  lemma PredBound(f: Fill, g: Grids, b: int, a: int, k: int)
    requires Plain(f, g, b)
    requires 0 <= a < N(f)
    ensures PredWithin(f, g, b, a, k)
    decreases a, 1
  {
    PredInside(f, g, b, a, k);
    if 0 <= k < L(f) {
      CumExact(f, g, b, a, k);
    }
  }

  /** The table t holds the cumulative map, cell by cell. */
  predicate Tabulates(f: Fill, g: Grids, t: seq<seq<int>>)
    requires ValidFill(f) && GridsFit(g, f.size)
  {
    Shaped(f, t) && forall a, l :: 0 <= a < N(f) && 0 <= l < L(f) ==> t[a][l] == Cum(f, g, a, l)
  }

  lemma TableTabulates(f: Fill, g: Grids)
    requires ValidFill(f) && GridsFit(g, f.size)
    ensures Tabulates(f, g, Table(f, g))
  {
    forall a, l | 0 <= a < N(f) && 0 <= l < L(f)
      ensures Table(f, g)[a][l] == Cum(f, g, a, l)
    {
      TableCell(f, g, a, l);
    }
  }

  /** Under Plain a predecessor reads as a tabulating table's value. */
  lemma PredNear(f: Fill, g: Grids, b: int, t: seq<seq<int>>, a: int, k: int)
    requires Plain(f, g, b) && Tabulates(f, g, t)
    requires 0 <= a < N(f)
    ensures Pred(f, g, a, k) == Near(f, t, a, k)
  {
    PredInside(f, g, b, a, k);
  }

  /** The three predecessors of lateral position l, read on line a. */
  lemma PredsNear(f: Fill, g: Grids, b: int, t: seq<seq<int>>, a: int, l: int)
    requires Plain(f, g, b) && Tabulates(f, g, t)
    requires 0 <= a < N(f)
    ensures Pred(f, g, a, l - 1) == Near(f, t, a, l - 1)
    ensures Pred(f, g, a, l) == Near(f, t, a, l)
    ensures Pred(f, g, a, l + 1) == Near(f, t, a, l + 1)
  {
    PredNear(f, g, b, t, a, l - 1);
    PredNear(f, g, b, t, a, l);
    PredNear(f, g, b, t, a, l + 1);
  }

  /** The recurrence at one cell, from its parts: the cell's value c, and the three values
      p0, p1, p2 its predecessors read as when there are any. */
  lemma HoldsFrom(f: Fill, g: Grids, t: seq<seq<int>>, a: int, l: int, c: int, p0: int, p1: int, p2: int)
    requires GridsFit(g, f.size) && Shaped(f, t)
    requires 0 <= a < N(f) && 0 <= l < L(f)
    requires t[a][l] == c < IntMax
    requires a > 0 ==> p0 == Near(f, t, a - 1, l - 1) && p1 == Near(f, t, a - 1, l) && p2 == Near(f, t, a - 1, l + 1)
    requires c == Energy(g, f.size, At(f.d, a, l)) + (if a == 0 then 0 else Min3(p0, p1, p2))
    ensures Holds(f, g, t, a, l)
  {
  }

  /** The recurrence holds at each cell of a table that holds the cumulative map. */
  lemma CumHolds(f: Fill, g: Grids, b: int, t: seq<seq<int>>, a: int, l: int)
    requires Plain(f, g, b) && Tabulates(f, g, t)
    requires 0 <= a < N(f) && 0 <= l < L(f)
    ensures Holds(f, g, t, a, l)
  {
    CumExact(f, g, b, a, l);
    SpanMono(a + 1, N(f), b);
    var c := Cum(f, g, a, l) as int;
    assert t[a][l] == c < IntMax;
    if a > 0 {
      PredsNear(f, g, b, t, a - 1, l);
      HoldsFrom(f, g, t, a, l, c, Pred(f, g, a - 1, l - 1), Pred(f, g, a - 1, l), Pred(f, g, a - 1, l + 1));
    } else {
      HoldsFrom(f, g, t, a, l, c, 0, 0, 0);
    }
  }

  /** After a full recompute under Plain, the cumulative map is a recurrent table. */
  lemma CumIsRecurrent(f: Fill, g: Grids, b: int)
    requires Plain(f, g, b)
    ensures Recurrent(f, g, Table(f, g))
  {
    var t := Table(f, g);
    TableTabulates(f, g);
    forall a, l | 0 <= a < N(f) && 0 <= l < L(f)
      ensures Holds(f, g, t, a, l)
    {
      CumHolds(f, g, b, t, a, l);
    }
  }

  /** The cumulative value of a cell is the least cost of a connected path from the leading
      line to it, and backtracking attains it. */
  lemma CumIsLeastCost(f: Fill, g: Grids, b: int, a: int, l: int)
    requires Plain(f, g, b)
    requires 0 <= a < N(f) && 0 <= l < L(f)
    ensures forall p :: IsPath(f, p) && |p| == a + 1 && p[a] == l ==> Cum(f, g, a, l) <= Cost(f, g, p)
    ensures Recurrent(f, g, Table(f, g))
    ensures IsPath(f, Backtrack(f, g, Table(f, g), a, l))
    ensures Cost(f, g, Backtrack(f, g, Table(f, g), a, l)) == Cum(f, g, a, l)
  {
    var t := Table(f, g);
    CumIsRecurrent(f, g, b);
    TableCell(f, g, a, l);
    forall p | IsPath(f, p) && |p| == a + 1 && p[a] == l
      ensures Cum(f, g, a, l) <= Cost(f, g, p)
    {
      TableIsLowerBound(f, g, t, p);
    }
    BacktrackIsPath(f, g, t, a, l);
    BacktrackCost(f, g, t, a, l);
  }
}
