/** The cumulative-energy recurrence that ComputeSubEnergyMap evaluates in both revisions,
    stated over value snapshots of the arrays it reads. A fill recomputes the leading line from
    a start offset onward, then each later line from an offset that moves one cell towards 0
    per line (the startOffset/endOffset bookkeeping of the source), and leaves every other cell
    as it was. */
module CumulativeMaps {
  import opened Constants
  import opened Numerics
  import opened Utilities
  import opened Sweep

  /** The parameters of one ComputeSubEnergyMap call. `strictFirst` is the trunk's vertical
      test `x > endOffset` after the leading line (the root and the trunk's horizontal branch
      test `>=`); `honourUsed` says whether claimed cells read as int.MaxValue (trunk) or only
      cells outside the grid do (root). */
  datatype Fill = Fill(d: Direction, size: Size, s: int, e: int, strictFirst: bool, honourUsed: bool)

  function N(f: Fill): nat { AlongExtent(f.d, f.size) }
  function L(f: Fill): nat { LateralExtent(f.d, f.size) }

  predicate ValidFill(f: Fill)
  {
    (f.d == Vertical || f.d == Horizontal) && 0 <= f.s <= L(f) && f.e <= L(f) - 1
  }

  /** The arrays a fill reads: the cumulative map before the call, the claimed-cell mask and the
      energy map, each as a snapshot indexed [x][y]. */
  datatype Grids = Grids(cumulative: seq<seq<Int32>>, used: seq<seq<bool>>, energy: seq<seq<Int32>>)

  predicate GridsFit(g: Grids, size: Size)
  {
    Fits(g.cumulative, size) && Fits(g.used, size) && Fits(g.energy, size)
  }

  /** EnergyFunction.GetEnergy over a snapshot: the stored energy, 255 outside the grid. */
  function Energy(g: Grids, size: Size, p: Point): int
    requires GridsFit(g, size)
  {
    if InBounds(p.x, p.y, size) then g.energy[p.x][p.y] else ByteMax
  }

  /** The lateral position where the line after the leading one starts: one to the left of
      startOffset (but not below 0) when the post-leading-line test passes, startOffset
      otherwise. After the leading line the position is L when the leading line was filled, and
      startOffset when it was not. */
  function FirstStart(f: Fill): int
  {
    var pos := if N(f) > f.s then L(f) else f.s;
    var moved := if f.strictFirst then pos > f.e else pos >= f.e;
    if moved then (if f.s - 1 < 0 then 0 else f.s - 1) else f.s
  }

  /** The lateral position where along line a >= 1 starts. */
  function LineStart(f: Fill, a: int): int
  {
    var v := FirstStart(f) - (a - 1);
    if v < 0 then 0 else v
  }

  /** Whether the fill rewrites the cell at along a, lateral l. */
  predicate Written(f: Fill, a: int, l: int)
  {
    0 <= l < L(f) && 0 <= a < N(f) && (if a == 0 then N(f) > f.s && f.s <= l else LineStart(f, a) <= l)
  }

  /** The cumulative map after the fill, at along a and lateral l. A rewritten cell on the
      leading line holds its energy; a rewritten later cell holds its energy plus the least of
      its three predecessors on the line before (already rewritten), added with 32-bit
      wrap-around; every other cell keeps its old value. */
  function Cum(f: Fill, g: Grids, a: int, l: int): Int32
    requires ValidFill(f) && GridsFit(g, f.size)
    requires 0 <= a < N(f) && 0 <= l < L(f)
    decreases a, 0
  {
    var p := At(f.d, a, l);
    if !Written(f, a, l) then g.cumulative[p.x][p.y]
    else if a == 0 then Wrap32(Energy(g, f.size, p))
    else Wrap32(Energy(g, f.size, p) + Min3(Pred(f, g, a - 1, l - 1), Pred(f, g, a - 1, l), Pred(f, g, a - 1, l + 1)))
  }

  /** A predecessor on line a after the fill, as the next line reads it: its value, or
      int.MaxValue when it is outside the grid or (for the trunk) claimed. */
  function Pred(f: Fill, g: Grids, a: int, k: int): Int32
    requires ValidFill(f) && GridsFit(g, f.size)
    requires 0 <= a < N(f)
    decreases a, 1
  {
    var p := At(f.d, a, k);
    if 0 <= k < L(f) && !(f.honourUsed && g.used[p.x][p.y]) then Cum(f, g, a, k) else IntMax
  }

  /** ComputeEntireEnergyMap's fill: start offset 0, end offset L - 1. */
  function EntireFill(d: Direction, size: Size, strictFirst: bool, honourUsed: bool): (f: Fill)
    requires d == Vertical || d == Horizontal
    ensures ValidFill(f)
  {
    Fill(d, size, 0, LateralExtent(d, size) - 1, strictFirst, honourUsed)
  }

  /** A full recompute rewrites every cell of the grid, whichever revision runs it. */
  lemma EntireFillWritesAll(d: Direction, size: Size, strictFirst: bool, honourUsed: bool, a: int, l: int)
    requires d == Vertical || d == Horizontal
    requires 0 <= a < AlongExtent(d, size) && 0 <= l < LateralExtent(d, size)
    ensures Written(EntireFill(d, size, strictFirst, honourUsed), a, l)
  {
  }

  /** A recompute from one start index (the trunk's RecomputeEnergyMapRange) rewrites a cone: on
      line a >= 1 every cell from start - a + 1 onward and nothing left of start - a; the cell
      at start - a is rewritten exactly when the leading line was, or the test passed anyway. */
  lemma SingleStartCone(f: Fill, a: int, l: int)
    requires ValidFill(f) && f.s == f.e && f.s < L(f)
    requires 1 <= a < N(f) && 0 <= l < L(f)
    ensures l >= f.s - a + 1 ==> Written(f, a, l)
    ensures l < f.s - a ==> !Written(f, a, l)
    ensures l == f.s - a ==> (Written(f, a, l) <==> N(f) > f.s || !f.strictFirst)
  {
  }

  /** The cell a stored grid holds at along a, lateral l, as the fill addresses the map. */
  function StoredAt(g: seq<seq<Int32>>, f: Fill, a: int, l: int): Int32
    requires Fits(g, f.size) && 0 <= a < N(f) && 0 <= l < L(f)
  {
    var p := At(f.d, a, l);
    g[p.x][p.y]
  }

  /** The fill has finished every along line before a and the cells of line a before lateral
      l: those hold Cum, every other cell of the grid holds its value on entry, and so does
      every cell of the array outside the grid. */
  ghost predicate Filled(cum: array2<Int32>, f: Fill, g: Grids, a: int, l: int)
    reads cum
    requires ValidFill(f) && GridsFit(g, f.size)
    requires f.size.width <= cum.Length0 && f.size.height <= cum.Length1
  {
    Fits(g.cumulative, Size(cum.Length0, cum.Length1)) &&
    (forall i, j :: 0 <= i < N(f) && 0 <= j < L(f) ==>
      cum[At(f.d, i, j).x, At(f.d, i, j).y] ==
        if i < a || (i == a && j < l) then Cum(f, g, i, j) else StoredAt(g.cumulative, f, i, j)) &&
    (forall x, y :: 0 <= x < cum.Length0 && 0 <= y < cum.Length1 && !InBounds(x, y, f.size) ==>
      cum[x, y] == g.cumulative[x][y])
  }

  /** The arrays the fill reads, as ghost snapshots. */
  ghost predicate Snapshots(g: Grids, cum: array2<Int32>, used: array2<bool>, energy: array2<Int32>)
    reads cum, used, energy
  {
    g.used == Snap2(used) && g.energy == Snap2(energy)
  }

  /** Cells left of a line's start are not rewritten, so skipping them keeps the fill state. */
  lemma FilledSkip(cum: array2<Int32>, f: Fill, g: Grids, a: int)
    requires ValidFill(f) && GridsFit(g, f.size) && 1 <= a
    requires f.size.width <= cum.Length0 && f.size.height <= cum.Length1
    requires Filled(cum, f, g, a, 0)
    ensures Filled(cum, f, g, a, LineStart(f, a))
  {
  }

  /** Finishing line a is starting line a + 1. */
  lemma FilledNextLine(cum: array2<Int32>, f: Fill, g: Grids, a: int)
    requires ValidFill(f) && GridsFit(g, f.size)
    requires f.size.width <= cum.Length0 && f.size.height <= cum.Length1
    requires Filled(cum, f, g, a, L(f))
    ensures Filled(cum, f, g, a + 1, 0)
  {
  }

  /** A leading line the fill skips keeps its old values. */
  lemma FilledNoLeading(cum: array2<Int32>, f: Fill, g: Grids)
    requires ValidFill(f) && GridsFit(g, f.size) && N(f) <= f.s
    requires f.size.width <= cum.Length0 && f.size.height <= cum.Length1
    requires Filled(cum, f, g, 0, 0)
    ensures Filled(cum, f, g, 1, 0)
  {
  }

  /** Every grid cell of cum holds the fill's cost over the snapshots g. */
  ghost predicate Holds(cum: array2<Int32>, f: Fill, g: Grids)
    reads cum
  {
    ValidFill(f) && GridsFit(g, f.size) && f.size.width <= cum.Length0 && f.size.height <= cum.Length1 &&
    forall a, l :: 0 <= a < N(f) && 0 <= l < L(f) ==> cum[At(f.d, a, l).x, At(f.d, a, l).y] == Cum(f, g, a, l)
  }

  /** The loops of ComputeSubEnergyMap over the cumulative map `cum`: the leading line from the
      start offset (only when the along extent exceeds the start offset, as the source tests),
      the offset bookkeeping after it, and then every later line from its start, each cell
      getting its energy plus the least of its three predecessors as the source reads them.
      Afterwards every cell of the grid holds Cum of the arrays as they were on entry, and cells
      outside the grid are untouched. */
  method FillMap(cum: array2<Int32>, used: array2<bool>, energy: array2<Int32>, f: Fill)
    requires ValidFill(f) && cum != energy
    requires f.size.width <= cum.Length0 && f.size.height <= cum.Length1
    requires f.size.width <= used.Length0 && f.size.height <= used.Length1
    requires f.size.width <= energy.Length0 && f.size.height <= energy.Length1
    modifies cum
    ensures Holds(cum, f, Grids(old(Snap2(cum)), Snap2(used), Snap2(energy)))
    ensures forall x, y :: 0 <= x < cum.Length0 && 0 <= y < cum.Length1 && !InBounds(x, y, f.size) ==>
      cum[x, y] == old(cum[x, y])
  {
    ghost var g := Grids(Snap2(cum), Snap2(used), Snap2(energy));
    var startOffset, endOffset := f.s, f.e;
    var l := f.s;
    if N(f) > f.s {
      FillLeading(cum, energy, f, g);
      l := L(f);
    } else {
      FilledNoLeading(cum, f, g);
    }
    var a := 1;
    if (if f.strictFirst then l > endOffset else l >= endOffset) {
      startOffset := if startOffset - 1 < 0 then 0 else startOffset - 1;
      endOffset := if endOffset + 1 > L(f) - 1 then L(f) - 1 else endOffset + 1;
      l := startOffset;
    }
    while l < L(f) && a < N(f)
      invariant 1 <= a && endOffset <= L(f) - 1
      invariant l == startOffset == LineStart(f, a)
      invariant Snapshots(g, cum, used, energy) && Filled(cum, f, g, a, 0)
      decreases N(f) - a
    {
      FilledSkip(cum, f, g, a);
      l := FillLine(cum, used, energy, f, g, a, l);
      FilledNextLine(cum, f, g, a);
      a := a + 1;
      if l >= endOffset {
        startOffset := if startOffset - 1 < 0 then 0 else startOffset - 1;
        endOffset := if endOffset + 1 > L(f) - 1 then L(f) - 1 else endOffset + 1;
        l := startOffset;
      }
    }
  }

  /** The first loop of ComputeSubEnergyMap: the leading line from the start offset onward gets
      the energy of its cells. */
  method FillLeading(cum: array2<Int32>, energy: array2<Int32>, f: Fill, ghost g: Grids)
    requires ValidFill(f) && GridsFit(g, f.size) && cum != energy && N(f) > f.s
    requires f.size.width <= cum.Length0 && f.size.height <= cum.Length1
    requires f.size.width <= energy.Length0 && f.size.height <= energy.Length1
    requires g.energy == Snap2(energy) && Filled(cum, f, g, 0, 0)
    modifies cum
    ensures Filled(cum, f, g, 1, 0)
  {
    var l := f.s;
    while l < L(f)
      invariant f.s <= l <= L(f)
      invariant Filled(cum, f, g, 0, l)
    {
      var p := At(f.d, 0, l);
      var energyHere := if InBounds(p.x, p.y, f.size) then energy[p.x, p.y] else ByteMax;
      CumLeadingValue(f, g, l);
      WriteCell(cum, f, g, 0, l, energyHere);
      l := l + 1;
    }
    FilledNextLine(cum, f, g, 0);
  }

  /** The inner loop of ComputeSubEnergyMap for along line a >= 1, from its start onward.
      Returns the lateral position where it stops, the line's length. */
  method FillLine(cum: array2<Int32>, used: array2<bool>, energy: array2<Int32>, f: Fill, ghost g: Grids,
                  a: int, start: int) returns (l: int)
    requires ValidFill(f) && GridsFit(g, f.size) && cum != energy && 1 <= a < N(f)
    requires f.size.width <= cum.Length0 && f.size.height <= cum.Length1
    requires f.size.width <= used.Length0 && f.size.height <= used.Length1
    requires f.size.width <= energy.Length0 && f.size.height <= energy.Length1
    requires Snapshots(g, cum, used, energy) && start == LineStart(f, a) && Filled(cum, f, g, a, start)
    modifies cum
    ensures l == L(f) && Snapshots(g, cum, used, energy) && Filled(cum, f, g, a, l)
  {
    l := start;
    FilledLineDone(cum, f, g, a, l);
    while l < L(f)
      invariant start <= l <= L(f)
      invariant Snapshots(g, cum, used, energy) && Filled(cum, f, g, a, l) && LineDone(cum, f, g, a - 1)
    {
      var v := CellValue(cum, used, energy, f, g, a, l);
      WriteCell(cum, f, g, a, l, v);
      l := l + 1;
    }
  }

  /** The body of the inner loop: read the three predecessors, take the least as the nested
      comparison does, and add the cell's energy with 32-bit wrap-around. */
  method CellValue(cum: array2<Int32>, used: array2<bool>, energy: array2<Int32>, f: Fill, ghost g: Grids,
                   a: int, l: int) returns (v: Int32)
    requires ValidFill(f) && GridsFit(g, f.size) && 1 <= a < N(f) && LineStart(f, a) <= l < L(f)
    requires f.size.width <= cum.Length0 && f.size.height <= cum.Length1
    requires f.size.width <= used.Length0 && f.size.height <= used.Length1
    requires f.size.width <= energy.Length0 && f.size.height <= energy.Length1
    requires Snapshots(g, cum, used, energy) && LineDone(cum, f, g, a - 1)
    ensures v == Cum(f, g, a, l)
  {
    var e0 := ReadPredecessor(cum, used, f, g, a, l - 1);
    var e1 := ReadPredecessor(cum, used, f, g, a, l);
    var e2 := ReadPredecessor(cum, used, f, g, a, l + 1);
    var p := At(f.d, a, l);
    var energyHere := if InBounds(p.x, p.y, f.size) then energy[p.x, p.y] else ByteMax;
    assert energyHere == Energy(g, f.size, p);
    CumStepValue(f, g, a, l, energyHere, e0, e1, e2);
    v := Wrap32(energyHere + Min3(e0, e1, e2));
  }

  /** A predecessor on the line before a, as the fill reads it: int.MaxValue outside the grid
      or, when the fill honours claims, on a claimed cell; the stored value otherwise. Since
      that line is finished, this is Pred. */
  method ReadPredecessor(cum: array2<Int32>, used: array2<bool>, f: Fill, ghost g: Grids, a: int, k: int)
    returns (v: Int32)
    requires ValidFill(f) && GridsFit(g, f.size) && 1 <= a < N(f)
    requires f.size.width <= cum.Length0 && f.size.height <= cum.Length1
    requires f.size.width <= used.Length0 && f.size.height <= used.Length1
    requires g.used == Snap2(used) && LineDone(cum, f, g, a - 1)
    ensures v == Pred(f, g, a - 1, k)
  {
    var p := At(f.d, a - 1, k);
    if InBounds(p.x, p.y, f.size) && !(f.honourUsed && used[p.x, p.y]) {
      v := cum[p.x, p.y];
    } else {
      v := IntMax;
    }
  }

  /** The value the fill writes at a rewritten cell of a later line is Cum there. */
  lemma CumStepValue(f: Fill, g: Grids, a: int, l: int, e: int, e0: Int32, e1: Int32, e2: Int32)
    requires ValidFill(f) && GridsFit(g, f.size) && 1 <= a < N(f) && LineStart(f, a) <= l < L(f)
    requires e == Energy(g, f.size, At(f.d, a, l))
    requires e0 == Pred(f, g, a - 1, l - 1) && e1 == Pred(f, g, a - 1, l) && e2 == Pred(f, g, a - 1, l + 1)
    ensures Cum(f, g, a, l) == Wrap32(e + Min3(e0, e1, e2))
  {
  }

  /** Along line a is finished: each of its cells holds Cum. */
  ghost predicate LineDone(cum: array2<Int32>, f: Fill, g: Grids, a: int)
    reads cum
    requires ValidFill(f) && GridsFit(g, f.size) && 0 <= a < N(f)
    requires f.size.width <= cum.Length0 && f.size.height <= cum.Length1
  {
    forall j :: 0 <= j < L(f) ==> cum[At(f.d, a, j).x, At(f.d, a, j).y] == Cum(f, g, a, j)
  }

  lemma FilledLineDone(cum: array2<Int32>, f: Fill, g: Grids, a: int, l: int)
    requires ValidFill(f) && GridsFit(g, f.size) && 1 <= a < N(f)
    requires f.size.width <= cum.Length0 && f.size.height <= cum.Length1
    requires Filled(cum, f, g, a, l)
    ensures LineDone(cum, f, g, a - 1)
  {
  }

  /** The value the fill writes at a rewritten cell of the leading line is Cum there. */
  lemma CumLeadingValue(f: Fill, g: Grids, l: int)
    requires ValidFill(f) && GridsFit(g, f.size) && f.s < N(f) && f.s <= l < L(f)
    ensures Cum(f, g, 0, l) == Energy(g, f.size, At(f.d, 0, l))
  {
  }

  /** One write of the fill: the cell at along a, lateral l, gets its Cum value, which moves the
      fill state one cell on and keeps the line before finished. */
  method WriteCell(cum: array2<Int32>, f: Fill, ghost g: Grids, a: int, l: int, v: Int32)
    requires ValidFill(f) && GridsFit(g, f.size) && 0 <= a < N(f) && 0 <= l < L(f)
    requires f.size.width <= cum.Length0 && f.size.height <= cum.Length1
    requires Filled(cum, f, g, a, l) && v == Cum(f, g, a, l)
    requires a > 0 ==> LineDone(cum, f, g, a - 1)
    modifies cum
    ensures Filled(cum, f, g, a, l + 1)
    ensures a > 0 ==> LineDone(cum, f, g, a - 1)
    ensures forall x, y :: 0 <= x < cum.Length0 && 0 <= y < cum.Length1 && (x, y) != (At(f.d, a, l).x, At(f.d, a, l).y) ==>
      cum[x, y] == old(cum[x, y])
  {
    var p := At(f.d, a, l);
    cum[p.x, p.y] := v;
  }

  /** A freshly allocated int[,]: every cell 0. */
  function Zeros(size: Size): (z: seq<seq<Int32>>)
    ensures IsGrid(z, size.width, size.height) && Fits(z, size)
  {
    seq(size.width, i => seq(size.height, j => 0))
  }

  /** A freshly allocated bool[,]: no cell claimed. */
  function NoClaims(size: Size): (z: seq<seq<bool>>)
    ensures IsGrid(z, size.width, size.height) && Fits(z, size)
  {
    seq(size.width, i => seq(size.height, j => false))
  }

  lemma ZerosSnapshot(a: array2<Int32>, size: Size)
    requires a.Length0 == size.width && a.Length1 == size.height
    requires forall i, j :: 0 <= i < size.width && 0 <= j < size.height ==> a[i, j] == 0
    ensures Snap2(a) == Zeros(size)
  {
    var s, z := Snap2(a), Zeros(size);
    forall i | 0 <= i < size.width
      ensures s[i] == z[i]
    {
    }
  }

  lemma NoClaimsSnapshot(a: array2<bool>, size: Size)
    requires a.Length0 == size.width && a.Length1 == size.height
    requires forall i, j :: 0 <= i < size.width && 0 <= j < size.height ==> !a[i, j]
    ensures Snap2(a) == NoClaims(size)
  {
    var s, z := Snap2(a), NoClaims(size);
    forall i | 0 <= i < size.width
      ensures s[i] == z[i]
    {
    }
  }
}
