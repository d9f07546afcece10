/** trunk/SeamFunctions/CumulativeEnergy.cs: per direction a cumulative map, a claimed-cell
    mask, the endpoint list sorted by cost and a dirty flag. The fill reads claimed cells as
    int.MaxValue; a ranked seam is backtracked with clamped moves and recorded as step codes;
    fetching a seam of a dirty direction recomputes that direction first and marks the other
    one dirty. */
module TrunkCumulative {
  import opened Wrappers
  import opened Constants
  import opened Numerics
  import opened Utilities
  import opened Sweep
  import opened CumulativeMaps
  import opened Comparers
  import opened Seams
  import opened TrunkBacktrack
  import opened SobelFilter

  /** The endpoint list before sorting: the cells of the last along line in lateral order, each
      with its cost as GetCumulativeEnergy reads it. With no along line the cells lie on line
      -1 and all cost int.MaxValue. */
  function Candidates(v: View): seq<Pair>
    requires ValidView(v)
  {
    var n := AlongExtent(v.d, v.size);
    seq(LateralExtent(v.d, v.size), l requires 0 <= l < LateralExtent(v.d, v.size) =>
      Pair(At(v.d, n - 1, l), CostAt(v, At(v.d, n - 1, l)) as int))
  }

  /** One more entry of the harvest: the list of the first k candidates followed by the k-th. */
  lemma CandidatesGrow(v: View, list: seq<Pair>, k: nat, p: Point, cost: Int32)
    requires ValidView(v) && k < LateralExtent(v.d, v.size) && list == Candidates(v)[..k]
    requires p == At(v.d, AlongExtent(v.d, v.size) - 1, k) && cost == CostAt(v, p)
    ensures list + [Pair(p, cost as int)] == Candidates(v)[..k + 1]
  {
  }

  /** The endpoint list holds one entry per lateral position, keyed by the cell of the last
      along line there; an unclaimed cell of the grid is listed with its stored cost, any other
      key with int.MaxValue. */
  lemma CandidatesCoverLastLine(v: View)
    requires ValidView(v)
    ensures var r, n := Candidates(v), AlongExtent(v.d, v.size);
      |r| == LateralExtent(v.d, v.size) &&
      forall j :: 0 <= j < |r| ==>
        Along(v.d, r[j].key) == n - 1 && Lateral(v.d, r[j].key) == j &&
        (n > 0 <==> InBounds(r[j].key.x, r[j].key.y, v.size)) &&
        r[j].value == if n > 0 && !v.used[r[j].key.x][r[j].key.y] then v.cum[r[j].key.x][r[j].key.y] as int else IntMax as int
  {
    forall j | 0 <= j < LateralExtent(v.d, v.size)
      ensures (AlongExtent(v.d, v.size) > 0 <==> InBounds(Candidates(v)[j].key.x, Candidates(v)[j].key.y, v.size))
    {
      AtInBounds(v.d, AlongExtent(v.d, v.size) - 1, j, v.size);
    }
  }

  /** The recurrence as the trunk states it: a rewritten cell past the leading line holds its
      energy plus the least of GetCumulativeEnergy at its three predecessors, read on a map
      whose line a (the line before) holds the fill's results and whose claims are those the
      fill read. */
  lemma FillReadsCosts(f: Fill, g: Grids, v: View, a: nat, l: int)
    requires ValidFill(f) && f.honourUsed && GridsFit(g, f.size)
    requires ValidView(v) && v.d == f.d && v.size == f.size && v.used == g.used
    requires a + 1 < N(f) && 0 <= l < L(f) && Written(f, a + 1, l)
    requires forall j :: 0 <= j < L(f) ==> StoredAt(v.cum, f, a, j) == Cum(f, g, a, j)
    ensures Cum(f, g, a + 1, l) == Wrap32(Energy(g, f.size, At(f.d, a + 1, l)) +
      Min3(CostAt(v, At(f.d, a, l - 1)), CostAt(v, At(f.d, a, l)), CostAt(v, At(f.d, a, l + 1))))
  {
    PredIsCost(f, g, v, a, l - 1);
    PredIsCost(f, g, v, a, l);
    PredIsCost(f, g, v, a, l + 1);
  }

  /** A predecessor as the fill reads it is GetCumulativeEnergy of the filled line. */
  lemma PredIsCost(f: Fill, g: Grids, v: View, a: nat, k: int)
    requires ValidFill(f) && f.honourUsed && GridsFit(g, f.size)
    requires ValidView(v) && v.d == f.d && v.size == f.size && v.used == g.used
    requires a < N(f) && forall j :: 0 <= j < L(f) ==> StoredAt(v.cum, f, a, j) == Cum(f, g, a, j)
    ensures Pred(f, g, a, k) == CostAt(v, At(f.d, a, k))
  {
    AtInBounds(f.d, a, k, f.size);
  }

  /** The mask `after` holds the claims of `before` plus those of the given cells that lie in
      the grid, and no others. */
  predicate Marked(after: seq<seq<bool>>, before: seq<seq<bool>>, size: Size, cells: seq<Point>)
  {
    |after| == |before| && (forall i :: 0 <= i < |after| ==> |after[i]| == |before[i]|) &&
    forall i, j :: 0 <= i < |after| && 0 <= j < |after[i]| ==>
      after[i][j] == (before[i][j] || (InBounds(i, j, size) && Point(i, j) in cells))
  }

  lemma MarkedNothing(m: seq<seq<bool>>, size: Size)
    ensures Marked(m, m, size, [])
  {
  }

  lemma MarkedCompose(a: seq<seq<bool>>, b: seq<seq<bool>>, c: seq<seq<bool>>, size: Size, first: seq<Point>, second: seq<Point>)
    requires Marked(b, a, size, first) && Marked(c, b, size, second)
    ensures Marked(c, a, size, first + second)
  {
  }

  /** Claims made on lines from a onward leave every cost on line a - 1 as it was, so the move
      back from line a is the one the unclaimed map gives. */
  lemma StepUnmarked(v0: View, v: View, cells: seq<Point>, a: int, l: int)
    requires ValidView(v0) && ValidView(v) && v.d == v0.d && v.size == v0.size && v.cum == v0.cum
    requires Marked(v.used, v0.used, v0.size, cells)
    requires forall q :: q in cells ==> Along(v0.d, q) >= a
    ensures StepFrom(v, a, l) == StepFrom(v0, a, l)
  {
    CostUnmarked(v0, v, cells, At(v0.d, a - 1, l - 1), a);
    CostUnmarked(v0, v, cells, At(v0.d, a - 1, l), a);
    CostUnmarked(v0, v, cells, At(v0.d, a - 1, l + 1), a);
  }

  lemma CostUnmarked(v0: View, v: View, cells: seq<Point>, p: Point, a: int)
    requires ValidView(v0) && ValidView(v) && v.d == v0.d && v.size == v0.size && v.cum == v0.cum
    requires Marked(v.used, v0.used, v0.size, cells)
    requires forall q :: q in cells ==> Along(v0.d, q) >= a
    requires Along(v0.d, p) < a
    ensures CostAt(v, p) == CostAt(v0, p)
  {
    if InBounds(p.x, p.y, v0.size) {
      assert p !in cells;
    }
  }

  /** A value snapshot of a w by h map after ShiftArray over one line of direction d: on along
      line `along`, the cells from lateral `from` to `to` - 2 take the cell after them and the
      cell at ShiftEnd takes int.MaxValue. */
  function ShiftedLine(g: seq<seq<Int32>>, w: nat, h: nat, d: Direction, along: int, from: int, to: int): (r: seq<seq<Int32>>)
    requires IsGrid(g, w, h)
    ensures IsGrid(r, w, h)
  {
    seq(w, i requires 0 <= i < w => seq(h, j requires 0 <= j < h =>
      if d == Vertical then
        (if j == along && from <= i < to - 1 && i + 1 < w then g[i + 1][j]
         else if j == along && i == ShiftEnd(from, to) then IntMax else g[i][j])
      else
        (if i == along && from <= j < to - 1 && j + 1 < h then g[i][j + 1]
         else if i == along && j == ShiftEnd(from, to) then IntMax else g[i][j])))
  }

  /** The map after ShiftArray at each of the points in turn, each on its own along line from
      its lateral position up to the lateral extent `ext`. */
  function Shifted(g: seq<seq<Int32>>, w: nat, h: nat, d: Direction, ext: int, points: seq<Point>): (r: seq<seq<Int32>>)
    requires IsGrid(g, w, h)
    ensures IsGrid(r, w, h)
    decreases |points|
  {
    if points == [] then g
    else
      var p := points[|points| - 1];
      ShiftedLine(Shifted(g, w, h, d, ext, points[..|points| - 1]), w, h, d, Along(d, p), Lateral(d, p), ext)
  }

  /** Every cell lies on along line a or after it. */
  predicate OnOrAfter(d: Direction, marks: seq<Point>, a: int)
  {
    forall q :: q in marks ==> Along(d, q) >= a
  }

  /** Cells claimed on lines from a onward, followed by one on line a - 1, all lie on lines
      from a - 1 onward. */
  lemma MarksBehind(d: Direction, marks: seq<Point>, mark: Point, a: int)
    requires OnOrAfter(d, marks, a) && Along(d, mark) == a - 1
    ensures OnOrAfter(d, marks + [mark], a - 1)
  {
  }

  /** Every cell lies on a lateral position inside an array line of the given length, so
      ShiftArray can start there. */
  predicate LateralsWithin(d: Direction, points: seq<Point>, len: int)
  {
    forall j :: 0 <= j < |points| ==> 0 <= Lateral(d, points[j]) < len
  }

  /** An array whose cells are those ShiftArray leaves after shifting a line of the grid g has
      ShiftedLine of g as its snapshot. */
  lemma ShiftedSnap(a: array2<Int32>, g: seq<seq<Int32>>, d: Direction, along: int, from: int, to: int)
    requires IsGrid(g, a.Length0, a.Length1)
    requires d == Vertical ==> to <= a.Length0 && forall i, j :: 0 <= i < a.Length0 && 0 <= j < a.Length1 ==>
      a[i, j] == (if j == along && from <= i < to - 1 then g[i + 1][j]
                  else if j == along && i == ShiftEnd(from, to) then IntMax else g[i][j])
    requires d != Vertical ==> to <= a.Length1 && forall i, j :: 0 <= i < a.Length0 && 0 <= j < a.Length1 ==>
      a[i, j] == (if i == along && from <= j < to - 1 then g[i][j + 1]
                  else if i == along && j == ShiftEnd(from, to) then IntMax else g[i][j])
    ensures Snap2(a) == ShiftedLine(g, a.Length0, a.Length1, d, along, from, to)
  {
    var r := ShiftedLine(g, a.Length0, a.Length1, d, along, from, to);
    forall i, j | 0 <= i < a.Length0 && 0 <= j < a.Length1
      ensures a[i, j] == r[i][j]
    {
      if d == Vertical {
        if j == along && from <= i < to - 1 {
          assert r[i][j] == g[i + 1][j];
        } else if j == along && i == ShiftEnd(from, to) {
          assert r[i][j] == IntMax;
        } else {
          assert r[i][j] == g[i][j];
        }
      } else {
        if i == along && from <= j < to - 1 {
          assert r[i][j] == g[i][j + 1];
        } else if i == along && j == ShiftEnd(from, to) {
          assert r[i][j] == IntMax;
        } else {
          assert r[i][j] == g[i][j];
        }
      }
    }
    SnapOfCells(a, r);
  }

  /** A 2D array whose cells agree with a rectangular value grid has that grid as its snapshot. */
  lemma SnapOfCells<T>(a: array2<T>, g: seq<seq<T>>)
    requires IsGrid(g, a.Length0, a.Length1)
    requires forall i, j :: 0 <= i < a.Length0 && 0 <= j < a.Length1 ==> a[i, j] == g[i][j]
    ensures Snap2(a) == g
  {
    var s := Snap2(a);
    forall i | 0 <= i < a.Length0
      ensures s[i] == g[i]
    {
    }
  }

  /** The comparisons of BuildSeam's loop on the costs e0, e1, e2 of the candidates e0p, e1p,
      e2p around lateral l: the first when it is below both others, else the third unless the
      second is below it, and the move to it clamped to [0, last]. A move towards lower
      lateral positions records Left for a vertical seam and Right for a horizontal one. */
  method Choose(direction: Direction, l: int, last: int, e0p: Point, e1p: Point, e2p: Point, e0: Int32, e1: Int32, e2: Int32)
    returns (m: BackStep)
    ensures m == Move(direction, last + 1, l, Choose3(e0 as int, e1 as int, e2 as int), e0p, e1p, e2p)
  {
    var left, right := if direction == Vertical then Left else Right, if direction == Vertical then Right else Left;
    if e0 < e1 {
      if e0 < e2 {
        m := if l - 1 < 0 then BackStep(0, None, e0p) else BackStep(l - 1, Some(left), e0p);
      } else {
        m := if l + 1 > last then BackStep(last, None, e2p) else BackStep(l + 1, Some(right), e2p);
      }
    } else {
      if !(e1 < e2) {
        m := if l + 1 > last then BackStep(last, None, e2p) else BackStep(l + 1, Some(right), e2p);
      } else {
        m := BackStep(l, None, e1p);
      }
    }
  }

  class CumulativeEnergy {
    var energyFunction: Sobel
    var verticalMap: array2<Int32>
    var horizontalMap: array2<Int32>
    var verticalUsed: array2<bool>
    var horizontalUsed: array2<bool>
    var lowestVertical: seq<Pair>
    var lowestHorizontal: seq<Pair>
    var verticalDirty: bool
    var horizontalDirty: bool

    constructor (energy: Sobel)
      ensures energyFunction == energy && lowestVertical == [] && lowestHorizontal == []
      ensures !verticalDirty && !horizontalDirty
      ensures verticalMap.Length0 == verticalMap.Length1 == horizontalMap.Length0 == horizontalMap.Length1 == 0
      ensures verticalUsed.Length0 == verticalUsed.Length1 == horizontalUsed.Length0 == horizontalUsed.Length1 == 0
    {
      energyFunction := energy;
      verticalMap := new Int32[0, 0];
      horizontalMap := new Int32[0, 0];
      verticalUsed := new bool[0, 0];
      horizontalUsed := new bool[0, 0];
      lowestVertical, lowestHorizontal := [], [];
      verticalDirty, horizontalDirty := false, false;
    }

    function MapOf(d: Direction): array2<Int32>
      reads this
    {
      if d == Vertical then verticalMap else horizontalMap
    }

    function UsedOf(d: Direction): array2<bool>
      reads this
    {
      if d == Vertical then verticalUsed else horizontalUsed
    }

    function LowestOf(d: Direction): seq<Pair>
      reads this
    {
      if d == Vertical then lowestVertical else lowestHorizontal
    }

    function DirtyOf(d: Direction): bool
      reads this
    {
      if d == Vertical then verticalDirty else horizontalDirty
    }

    /** The arrays of direction d cover a grid of the given size. */
    predicate Covers(d: Direction, size: Size)
      reads this
    {
      size.width <= MapOf(d).Length0 && size.height <= MapOf(d).Length1 &&
      size.width <= UsedOf(d).Length0 && size.height <= UsedOf(d).Length1
    }

    /** Direction d's map and mask as GetCumulativeEnergy reads them. */
    function ViewOf(d: Direction, size: Size): (v: View)
      reads this, MapOf(d), UsedOf(d)
      requires (d == Vertical || d == Horizontal) && Covers(d, size)
      ensures ValidView(v) && v.d == d && v.size == size
    {
      View(d, size, Snap2(MapOf(d)), Snap2(UsedOf(d)))
    }

    /** The energy map covers a grid of the given size. */
    predicate EnergyCovers(size: Size)
      reads this, energyFunction
    {
      size.width <= energyFunction.EnergyMap.Length0 && size.height <= energyFunction.EnergyMap.Length1
    }

    /** GetUsedPixel: direction d's claim on (x, y). */
    method GetUsedPixel(direction: Direction, x: int, y: int) returns (u: bool)
      requires 0 <= x < UsedOf(direction).Length0 && 0 <= y < UsedOf(direction).Length1
      ensures u == UsedOf(direction)[x, y]
    {
      u := if direction == Vertical then verticalUsed[x, y] else horizontalUsed[x, y];
    }

    /** GetCumulativeEnergy: the stored cost of an unclaimed cell of the grid, int.MaxValue for
        a claimed cell or one outside the grid. */
    method GetCumulativeEnergy(direction: Direction, x: int, y: int, size: Size) returns (r: Int32)
      requires (direction == Vertical || direction == Horizontal) && Covers(direction, size)
      ensures r == CostAt(ViewOf(direction, size), Point(x, y))
      ensures r == IntMax || InBounds(x, y, size)
    {
      if InBounds(x, y, size) {
        var u := GetUsedPixel(direction, x, y);
        if !u {
          return if direction == Vertical then verticalMap[x, y] else horizontalMap[x, y];
        }
      }
      return IntMax;
    }

    /** SetUsedPixel: claim (x, y) in direction d's mask (the horizontal one for any direction
        but Vertical); a cell outside the grid is ignored. */
    method SetUsedPixel(direction: Direction, x: int, y: int, size: Size)
      requires Covers(direction, size)
      modifies UsedOf(direction)
      ensures Marked(Snap2(UsedOf(direction)), old(Snap2(UsedOf(direction))), size, [Point(x, y)])
    {
      if !InBounds(x, y, size) {
        return;
      }
      if direction == Vertical {
        verticalUsed[x, y] := true;
      } else {
        horizontalUsed[x, y] := true;
      }
    }

    /** The harvest loop of ComputeSubEnergyMap: walk the last along line and list each cell
        with its cost as GetCumulativeEnergy reads it. */
    method Harvest(direction: Direction, size: Size) returns (list: seq<Pair>)
      requires (direction == Vertical || direction == Horizontal) && Covers(direction, size)
      ensures list == Candidates(ViewOf(direction, size))
    {
      ghost var v, n: int := ViewOf(direction, size), AlongExtent(direction, size);
      var x, y, xInc, yInc := 0, 0, 0, 0;
      if direction == Vertical {
        y, xInc := size.height - 1, 1;
      } else {
        x, yInc := size.width - 1, 1;
      }
      list := [];
      while x < size.width && y < size.height
        invariant 0 <= |list| <= LateralExtent(direction, size) && Point(x, y) == At(direction, n - 1, |list|)
        invariant direction == Vertical ==> xInc == 1 && yInc == 0
        invariant direction != Vertical ==> xInc == 0 && yInc == 1
        invariant list == Candidates(v)[..|list|]
        decreases LateralExtent(direction, size) - |list|
      {
        var cost := GetCumulativeEnergy(direction, x, y, size);
        CandidatesGrow(v, list, |list|, Point(x, y), cost);
        list := list + [Pair(Point(x, y), cost as int)];
        x, y := x + xInc, y + yInc;
      }
    }

    /** ComputeSubEnergyMap: the fill from the given offsets, claimed cells reading as
        int.MaxValue; then the direction is clean and its endpoint list is the last line's
        costs sorted ascending. A direction other than Vertical or Horizontal is an
        InvalidEnumArgument and changes nothing. */
    method ComputeSubEnergyMap(direction: Direction, startOffset: int, endOffset: int, size: Size) returns (r: Outcome)
      requires direction == Vertical || direction == Horizontal ==>
        ValidFill(Fill(direction, size, startOffset, endOffset, direction == Vertical, true)) &&
        Covers(direction, size) && EnergyCovers(size) && MapOf(direction) != energyFunction.EnergyMap
      modifies this, MapOf(direction)
      ensures !(direction == Vertical || direction == Horizontal) ==>
        r == Fail(InvalidEnumArgument) && unchanged(this) && unchanged(MapOf(direction))
      ensures direction == Vertical || direction == Horizontal ==>
        r == Pass && energyFunction == old(energyFunction) &&
        verticalMap == old(verticalMap) && horizontalMap == old(horizontalMap) &&
        verticalUsed == old(verticalUsed) && horizontalUsed == old(horizontalUsed) &&
        !DirtyOf(direction) && LowestOf(direction) == SortPairs(Candidates(ViewOf(direction, size))) &&
        Holds(MapOf(direction), Fill(direction, size, startOffset, endOffset, direction == Vertical, true),
              Grids(old(Snap2(MapOf(direction))), old(Snap2(UsedOf(direction))), old(Snap2(energyFunction.EnergyMap)))) &&
        (forall x, y :: 0 <= x < MapOf(direction).Length0 && 0 <= y < MapOf(direction).Length1 && !InBounds(x, y, size) ==>
          MapOf(direction)[x, y] == old(MapOf(direction)[x, y]))
      ensures direction == Vertical ==> horizontalDirty == old(horizontalDirty) && lowestHorizontal == old(lowestHorizontal)
      ensures direction == Horizontal ==> verticalDirty == old(verticalDirty) && lowestVertical == old(lowestVertical)
    {
      if !(direction == Vertical || direction == Horizontal) {
        return Fail(InvalidEnumArgument);
      }
      FillMap(MapOf(direction), UsedOf(direction), energyFunction.EnergyMap,
              Fill(direction, size, startOffset, endOffset, direction == Vertical, true));
      Publish(direction, size);
      return Pass;
    }

    /** The end of ComputeSubEnergyMap: the direction is clean and its endpoint list is the
        last line's costs sorted ascending. */
    method Publish(direction: Direction, size: Size)
      requires (direction == Vertical || direction == Horizontal) && Covers(direction, size)
      modifies this
      ensures energyFunction == old(energyFunction)
      ensures verticalMap == old(verticalMap) && horizontalMap == old(horizontalMap)
      ensures verticalUsed == old(verticalUsed) && horizontalUsed == old(horizontalUsed)
      ensures !DirtyOf(direction) && LowestOf(direction) == SortPairs(Candidates(ViewOf(direction, size)))
      ensures direction == Vertical ==> horizontalDirty == old(horizontalDirty) && lowestHorizontal == old(lowestHorizontal)
      ensures direction == Horizontal ==> verticalDirty == old(verticalDirty) && lowestVertical == old(lowestVertical)
    {
      if direction == Vertical {
        verticalDirty := false;
      } else {
        horizontalDirty := false;
      }
      var harvested := Harvest(direction, size);
      if direction == Vertical {
        lowestVertical := SortPairs(harvested);
      } else {
        lowestHorizontal := SortPairs(harvested);
      }
    }

    /** ComputeEntireEnergyMap: new zeroed map and unclaimed mask and an empty list for the
        direction, then the fill from start offset 0 to end offset L - 1. Any other direction
        reaches ComputeSubEnergyMap's InvalidEnumArgument and changes nothing. */
    method ComputeEntireEnergyMap(direction: Direction, size: Size) returns (r: Outcome)
      requires EnergyCovers(size)
      modifies this
      ensures !(direction == Vertical || direction == Horizontal) ==> r == Fail(InvalidEnumArgument) && unchanged(this)
      ensures direction == Vertical || direction == Horizontal ==>
        r == Pass && energyFunction == old(energyFunction) && fresh(MapOf(direction)) && fresh(UsedOf(direction))
      ensures direction == Vertical || direction == Horizontal ==>
        MapOf(direction).Length0 == size.width && MapOf(direction).Length1 == size.height &&
        UsedOf(direction).Length0 == size.width && UsedOf(direction).Length1 == size.height
      ensures direction == Vertical || direction == Horizontal ==>
        Snap2(UsedOf(direction)) == NoClaims(size) && !DirtyOf(direction)
      ensures direction == Vertical || direction == Horizontal ==>
        Holds(MapOf(direction), EntireFill(direction, size, direction == Vertical, true),
              Grids(Zeros(size), NoClaims(size), Snap2(energyFunction.EnergyMap)))
      ensures direction == Vertical || direction == Horizontal ==>
        LowestOf(direction) == SortPairs(Candidates(ViewOf(direction, size)))
      ensures direction == Vertical ==>
        horizontalMap == old(horizontalMap) && horizontalUsed == old(horizontalUsed) &&
        lowestHorizontal == old(lowestHorizontal) && horizontalDirty == old(horizontalDirty)
      ensures direction == Horizontal ==>
        verticalMap == old(verticalMap) && verticalUsed == old(verticalUsed) &&
        lowestVertical == old(lowestVertical) && verticalDirty == old(verticalDirty)
    {
      if !(direction == Vertical || direction == Horizontal) {
        // ComputeSubEnergyMap(direction, 0, 0, size) rejects the direction before any write.
        return Fail(InvalidEnumArgument);
      }
      var cum := new Int32[size.width, size.height]((i, j) => 0);
      var used := new bool[size.width, size.height]((i, j) => false);
      ZerosSnapshot(cum, size);
      NoClaimsSnapshot(used, size);
      var endOffset := Reset(direction, cum, used);
      ghost var energy := Snap2(energyFunction.EnergyMap);
      assert Grids(Snap2(cum), Snap2(used), energy) == Grids(Zeros(size), NoClaims(size), energy);
      assert Fill(direction, size, 0, endOffset, direction == Vertical, true) == EntireFill(direction, size, direction == Vertical, true);
      r := ComputeSubEnergyMap(direction, 0, endOffset, size);
    }

    /** The branch of ComputeEntireEnergyMap that installs the new arrays and an empty list for
        the direction, and picks the last lateral offset as the end offset. */
    method Reset(direction: Direction, cum: array2<Int32>, used: array2<bool>) returns (endOffset: int)
      requires direction == Vertical || direction == Horizontal
      requires cum.Length0 == used.Length0 && cum.Length1 == used.Length1
      modifies this
      ensures MapOf(direction) == cum && UsedOf(direction) == used && LowestOf(direction) == []
      ensures endOffset == LateralExtent(direction, Size(cum.Length0, cum.Length1)) - 1
      ensures energyFunction == old(energyFunction) && DirtyOf(direction) == old(DirtyOf(direction))
      ensures direction == Vertical ==>
        horizontalMap == old(horizontalMap) && horizontalUsed == old(horizontalUsed) &&
        lowestHorizontal == old(lowestHorizontal) && horizontalDirty == old(horizontalDirty)
      ensures direction == Horizontal ==>
        verticalMap == old(verticalMap) && verticalUsed == old(verticalUsed) &&
        lowestVertical == old(lowestVertical) && verticalDirty == old(verticalDirty)
    {
      if direction == Vertical {
        verticalMap, verticalUsed, lowestVertical := cum, used, [];
        endOffset := cum.Length0 - 1;
      } else {
        horizontalMap, horizontalUsed, lowestHorizontal := cum, used, [];
        endOffset := cum.Length1 - 1;
      }
    }

    /** The three cells of the line before (x, y) that BuildSeam compares, in lateral order,
        with their costs as GetCumulativeEnergy reads them. */
    method LineBefore(direction: Direction, x: int, y: int, size: Size)
      returns (e0p: Point, e1p: Point, e2p: Point, e0: Int32, e1: Int32, e2: Int32)
      requires (direction == Vertical || direction == Horizontal) && Covers(direction, size)
      ensures var a, l := Along(direction, Point(x, y)), Lateral(direction, Point(x, y));
        e0p == At(direction, a - 1, l - 1) && e1p == At(direction, a - 1, l) && e2p == At(direction, a - 1, l + 1)
      ensures var v := ViewOf(direction, size);
        e0 == CostAt(v, e0p) && e1 == CostAt(v, e1p) && e2 == CostAt(v, e2p)
    {
      if direction == Vertical {
        e0p, e1p, e2p := Point(x - 1, y - 1), Point(x, y - 1), Point(x + 1, y - 1);
      } else {
        e0p, e1p, e2p := Point(x - 1, y - 1), Point(x - 1, y), Point(x - 1, y + 1);
      }
      e0 := GetCumulativeEnergy(direction, e0p.x, e0p.y, size);
      e1 := GetCumulativeEnergy(direction, e1p.x, e1p.y, size);
      e2 := GetCumulativeEnergy(direction, e2p.x, e2p.y, size);
    }

    /** One move of BuildSeam's loop from the current cell (x, y): the cheapest of the three
        cells on the line before, clamped to the grid, with the step code it records and the
        cell it claims. */
    method ChooseStep(direction: Direction, x: int, y: int, size: Size) returns (m: BackStep)
      requires (direction == Vertical || direction == Horizontal) && Covers(direction, size)
      ensures m == StepFrom(ViewOf(direction, size), Along(direction, Point(x, y)), Lateral(direction, Point(x, y)))
    {
      var e0p, e1p, e2p, e0, e1, e2 := LineBefore(direction, x, y, size);
      var l := if direction == Vertical then x else y;
      m := Choose(direction, l, LateralExtent(direction, size) - 1, e0p, e1p, e2p, e0, e1, e2);
      StepFromCandidates(ViewOf(direction, size), Along(direction, Point(x, y)), l, e0p, e1p, e2p, e0 as int, e1 as int, e2 as int);
    }

    /** One pass of BuildSeam's loop at pixel index w.i from the cell (x, y) where the walker
        stands: the move the map and claims on entry give, its code written at the pixel
        index, its cell claimed, and the cell it reaches on the line before. */
    method BackOne(direction: Direction, size: Size, codes: array<SeamPixelDirection>, pixelIndex: int,
                   x: int, y: int, ghost v0: View, ghost w: Walker) returns (nx: int, ny: int)
      requires (direction == Vertical || direction == Horizontal) && Covers(direction, size)
      requires ValidView(v0) && v0.d == direction && v0.size == size && Snap2(MapOf(direction)) == v0.cum
      requires 0 < w.i == pixelIndex < codes.Length == |w.codes| && codes[..] == w.codes && Point(x, y) == At(direction, w.a, w.l)
      requires Marked(Snap2(UsedOf(direction)), v0.used, size, w.marks)
      requires OnOrAfter(direction, w.marks, w.a)
      modifies codes, UsedOf(direction)
      ensures codes[..] == Next(v0, w).codes && Point(nx, ny) == At(direction, Next(v0, w).a, Next(v0, w).l)
      ensures Marked(Snap2(UsedOf(direction)), v0.used, size, Next(v0, w).marks)
      ensures OnOrAfter(direction, Next(v0, w).marks, Next(v0, w).a)
    {
      StepUnmarked(v0, ViewOf(direction, size), w.marks, w.a, w.l);
      assert Along(direction, Point(x, y)) == w.a && Lateral(direction, Point(x, y)) == w.l;
      var m := ChooseStep(direction, x, y, size);
      assert m == StepFrom(v0, w.a, w.l);
      MarkOnLineBefore(v0, w.a, w.l);
      ghost var next := Advance(w, m);
      ghost var before := Snap2(UsedOf(direction));
      Commit(direction, size, codes, pixelIndex, m);
      MarkedCompose(v0.used, before, Snap2(UsedOf(direction)), size, w.marks, [m.mark]);
      if direction == Vertical {
        nx, ny := m.lat, y - 1;
      } else {
        nx, ny := x - 1, m.lat;
      }
      MarksBehind(direction, w.marks, m.mark, w.a);
    }

    /** The writes of one pass of BuildSeam's loop: the move's code, if it has one, at the
        pixel index, and the claim of its cell. */
    method Commit(direction: Direction, size: Size, codes: array<SeamPixelDirection>, pixelIndex: int, m: BackStep)
      requires Covers(direction, size) && 0 <= pixelIndex < codes.Length
      modifies codes, UsedOf(direction)
      ensures codes[..] == if m.code.Some? then old(codes[..])[pixelIndex := m.code.value] else old(codes[..])
      ensures Marked(Snap2(UsedOf(direction)), old(Snap2(UsedOf(direction))), size, [m.mark])
    {
      if m.code.Some? {
        codes[pixelIndex] := m.code.value;
      }
      SetUsedPixel(direction, m.mark.x, m.mark.y, size);
    }

    /** BuildSeam: from the end cell (x, y), step back once per along line but the first,
        recording each move's code at the current pixel index and claiming the chosen cell;
        the start index is the lateral position reached. The seam is the one the backtrack of
        the map and claims on entry gives, and the mask ends up with exactly that backtrack's
        claims added. */
    method BuildSeam(direction: Direction, x: int, y: int, size: Size) returns (seam: Seam)
      requires (direction == Vertical || direction == Horizontal) && Covers(direction, size)
      modifies UsedOf(direction)
      ensures seam == BuiltSeam(old(ViewOf(direction, size)), Point(x, y))
      ensures Marked(Snap2(UsedOf(direction)), old(Snap2(UsedOf(direction))), size,
                     Built(old(ViewOf(direction, size)), Point(x, y)).marks)
    {
      ghost var v0 := ViewOf(direction, size);
      var pixelCount := if direction == Vertical then size.height else size.width;
      var codes := new SeamPixelDirection[pixelCount](_ => Straight);
      var cx, cy, w := WalkBack(direction, size, codes, x, y, v0);
      seam := Seam(codes[..], direction, if direction == Vertical then cx else cy, 0);
    }

    /** BuildSeam's loop, from pixel index N - 1 down to 1, over a fresh array of Straight
        codes: it ends where the backtrack of the map and claims on entry ends. */
    method WalkBack(direction: Direction, size: Size, codes: array<SeamPixelDirection>, x: int, y: int, ghost v0: View)
      returns (cx: int, cy: int, ghost w: Walker)
      requires (direction == Vertical || direction == Horizontal) && Covers(direction, size)
      requires v0 == ViewOf(direction, size)
      requires codes.Length == AlongExtent(direction, size) && codes[..] == Straights(codes.Length)
      modifies codes, UsedOf(direction)
      ensures w == Built(v0, Point(x, y)) && codes[..] == w.codes && Point(cx, cy) == At(direction, w.a, w.l)
      ensures Marked(Snap2(UsedOf(direction)), v0.used, size, w.marks)
    {
      ghost var start := Point(x, y);
      cx, cy := x, y;
      var pixelIndex := codes.Length - 1;
      w := Begin(v0, start);
      ghost var cum, claims := MapOf(direction), UsedOf(direction);
      MarkedNothing(v0.used, size);
      while pixelIndex > 0
        invariant w.i == pixelIndex && |w.codes| == codes.Length && codes[..] == w.codes
        invariant Run(v0, w) == Built(v0, start)
        invariant Point(cx, cy) == At(direction, w.a, w.l)
        invariant cum == MapOf(direction) && claims == UsedOf(direction) && Snap2(cum) == v0.cum
        invariant Marked(Snap2(claims), v0.used, size, w.marks)
        invariant OnOrAfter(direction, w.marks, w.a)
        decreases pixelIndex
      {
        cx, cy := BackOne(direction, size, codes, pixelIndex, cx, cy, v0, w);
        w := Next(v0, w);
        pixelIndex := pixelIndex - 1;
      }
    }

    /** The dirty check of GetKthLowestEnergySeam for a vertical or horizontal direction: a
        dirty direction is recomputed in full and the other one marked dirty; a clean one is
        left as it is. */
    method Refresh(direction: Direction, size: Size)
      requires (direction == Vertical || direction == Horizontal) && EnergyCovers(size)
      requires !DirtyOf(direction) ==> Covers(direction, size)
      modifies this
      ensures energyFunction == old(energyFunction) && Covers(direction, size) && !DirtyOf(direction)
      ensures !old(DirtyOf(direction)) ==> unchanged(this)
      ensures old(DirtyOf(direction)) ==>
        fresh(MapOf(direction)) && fresh(UsedOf(direction)) && Snap2(UsedOf(direction)) == NoClaims(size) &&
        Holds(MapOf(direction), EntireFill(direction, size, direction == Vertical, true),
              Grids(Zeros(size), NoClaims(size), Snap2(energyFunction.EnergyMap))) &&
        LowestOf(direction) == SortPairs(Candidates(ViewOf(direction, size)))
      ensures old(DirtyOf(direction)) && direction == Vertical ==>
        horizontalDirty && horizontalMap == old(horizontalMap) && horizontalUsed == old(horizontalUsed) &&
        lowestHorizontal == old(lowestHorizontal)
      ensures old(DirtyOf(direction)) && direction == Horizontal ==>
        verticalDirty && verticalMap == old(verticalMap) && verticalUsed == old(verticalUsed) &&
        lowestVertical == old(lowestVertical)
    {
      if DirtyOf(direction) {
        var _ := ComputeEntireEnergyMap(direction, size);
        if direction == Vertical {
          horizontalDirty := true;
        } else {
          verticalDirty := true;
        }
      }
    }

    /** GetKthLowestEnergySeam: a k that is at least the width and more than the height, or a
        direction other than Vertical or Horizontal, is out of range and changes nothing.
        Otherwise the direction is refreshed (see Refresh), and the k-th entry of its endpoint
        list, if there is one, is backtracked into a seam that carries the entry's cost as its
        value; its claims are added to the mask. An index past the list is out of range. */
    method GetKthLowestEnergySeam(direction: Direction, size: Size, k: int) returns (r: Result<Seam>)
      requires EnergyCovers(size)
      requires (direction == Vertical || direction == Horizontal) && !DirtyOf(direction) ==> Covers(direction, size)
      modifies this, UsedOf(direction)
      ensures (k >= size.width && k > size.height) || !(direction == Vertical || direction == Horizontal) ==>
        r == Err(ArgumentOutOfRange) && unchanged(this) && unchanged(UsedOf(direction))
      ensures !(k >= size.width && k > size.height) && (direction == Vertical || direction == Horizontal) ==>
        energyFunction == old(energyFunction) && Covers(direction, size) && !DirtyOf(direction)
      ensures !(k >= size.width && k > size.height) && (direction == Vertical || direction == Horizontal) ==>
        var v := if old(DirtyOf(direction)) then View(direction, size, Snap2(MapOf(direction)), NoClaims(size))
                 else old(ViewOf(direction, size));
        var list := LowestOf(direction);
        (list == if old(DirtyOf(direction)) then SortPairs(Candidates(v)) else old(LowestOf(direction))) &&
        (0 <= k < |list| ==>
          r == Ok(BuiltSeam(v, list[k].key).(seamValue := list[k].value)) &&
          Marked(Snap2(UsedOf(direction)), v.used, size, Built(v, list[k].key).marks)) &&
        (!(0 <= k < |list|) ==> r == Err(ArgumentOutOfRange) && Snap2(UsedOf(direction)) == v.used)
      ensures !(k >= size.width && k > size.height) && (direction == Vertical || direction == Horizontal) && !old(DirtyOf(direction)) ==>
        verticalMap == old(verticalMap) && horizontalMap == old(horizontalMap) &&
        verticalUsed == old(verticalUsed) && horizontalUsed == old(horizontalUsed) &&
        lowestVertical == old(lowestVertical) && lowestHorizontal == old(lowestHorizontal) &&
        verticalDirty == old(verticalDirty) && horizontalDirty == old(horizontalDirty)
      ensures !(k >= size.width && k > size.height) && (direction == Vertical || direction == Horizontal) && old(DirtyOf(direction)) ==>
        fresh(MapOf(direction)) && fresh(UsedOf(direction)) &&
        Holds(MapOf(direction), EntireFill(direction, size, direction == Vertical, true),
              Grids(Zeros(size), NoClaims(size), Snap2(energyFunction.EnergyMap)))
      ensures !(k >= size.width && k > size.height) && direction == Vertical && old(verticalDirty) ==>
        horizontalDirty && horizontalMap == old(horizontalMap) && horizontalUsed == old(horizontalUsed) &&
        lowestHorizontal == old(lowestHorizontal)
      ensures !(k >= size.width && k > size.height) && direction == Horizontal && old(horizontalDirty) ==>
        verticalDirty && verticalMap == old(verticalMap) && verticalUsed == old(verticalUsed) &&
        lowestVertical == old(lowestVertical)
    {
      if k >= size.width && k > size.height {
        return Err(ArgumentOutOfRange);
      }
      if !(direction == Vertical || direction == Horizontal) {
        return Err(ArgumentOutOfRange);
      }
      ghost var dirty := DirtyOf(direction);
      Refresh(direction, size);
      ghost var v := ViewOf(direction, size);
      assert v == if dirty then View(direction, size, Snap2(MapOf(direction)), NoClaims(size)) else old(ViewOf(direction, size));
      r := Fetch(direction, size, k);
    }

    /** The end of GetKthLowestEnergySeam once the direction is clean: the k-th entry of the
        endpoint list backtracked into a seam carrying the entry's cost, or out of range when
        the list has no k-th entry. */
    method Fetch(direction: Direction, size: Size, k: int) returns (r: Result<Seam>)
      requires (direction == Vertical || direction == Horizontal) && Covers(direction, size)
      modifies UsedOf(direction)
      ensures var v, list := old(ViewOf(direction, size)), LowestOf(direction);
        (0 <= k < |list| ==>
          r == Ok(BuiltSeam(v, list[k].key).(seamValue := list[k].value)) &&
          Marked(Snap2(UsedOf(direction)), v.used, size, Built(v, list[k].key).marks)) &&
        (!(0 <= k < |list|) ==> r == Err(ArgumentOutOfRange) && Snap2(UsedOf(direction)) == v.used)
    {
      var list := LowestOf(direction);
      if !(0 <= k < |list|) {
        return Err(ArgumentOutOfRange);
      }
      var seam := BuildSeam(direction, list[k].key.x, list[k].key.y, size);
      return Ok(seam.(seamValue := list[k].value));
    }

    /** The lateral length of direction d's map: its width for Vertical, its height otherwise. */
    function MapLateralLength(d: Direction): int
      reads this
    {
      if d == Vertical then MapOf(d).Length0 else MapOf(d).Length1
    }

    /** One ShiftArray call of RecomputeEnergyMapRange's loop: the along line of p in
        direction d's map, from p's lateral position to the lateral extent, the last cell
        taking int.MaxValue. */
    method ShiftMap(direction: Direction, size: Size, p: Point)
      requires (direction == Vertical || direction == Horizontal) && Covers(direction, size)
      requires MapOf(direction).Length0 < IntMax && MapOf(direction).Length1 < IntMax
      requires 0 <= Along(direction, p) < AlongExtent(direction, size) && 0 <= Lateral(direction, p) < MapLateralLength(direction)
      modifies MapOf(direction)
      ensures Snap2(MapOf(direction)) == ShiftedLine(old(Snap2(MapOf(direction))), MapOf(direction).Length0,
        MapOf(direction).Length1, direction, Along(direction, p), Lateral(direction, p), LateralExtent(direction, size))
    {
      ghost var before := Snap2(MapOf(direction));
      if direction == Vertical {
        ShiftArray(verticalMap, direction, p.y, p.x, size.width, IntMax);
      } else {
        ShiftArray(horizontalMap, direction, p.x, p.y, size.height, IntMax);
      }
      ShiftedSnap(MapOf(direction), before, direction, Along(direction, p), Lateral(direction, p), LateralExtent(direction, size));
    }

    /** The loop of RecomputeEnergyMapRange over the decoded cells: each shift in turn; a cell
        whose lateral position is outside the map's lines is an IndexOutOfRange. When every
        cell is inside them the map holds the shifts of all cells applied in order. */
    method ShiftAll(direction: Direction, size: Size, points: seq<Point>) returns (r: Outcome)
      requires (direction == Vertical || direction == Horizontal) && Covers(direction, size)
      requires MapOf(direction).Length0 < IntMax && MapOf(direction).Length1 < IntMax
      requires forall q :: q in points ==> 0 <= Along(direction, q) < AlongExtent(direction, size)
      modifies MapOf(direction)
      ensures r == Pass <==> LateralsWithin(direction, points, MapLateralLength(direction))
      ensures r.Fail? ==> r.error == IndexOutOfRange
      ensures r == Pass ==> Snap2(MapOf(direction)) == Shifted(old(Snap2(MapOf(direction))), MapOf(direction).Length0,
        MapOf(direction).Length1, direction, LateralExtent(direction, size), points)
    {
      ghost var g0, w, h := Snap2(MapOf(direction)), MapOf(direction).Length0, MapOf(direction).Length1;
      ghost var m, len := MapOf(direction), MapLateralLength(direction);
      var i := 0;
      while i < |points|
        invariant 0 <= i <= |points|
        invariant MapOf(direction) == m && MapLateralLength(direction) == len
        invariant LateralsWithin(direction, points[..i], len)
        invariant Snap2(m) == Shifted(g0, w, h, direction, LateralExtent(direction, size), points[..i])
      {
        assert points[i] in points;
        var ok := ShiftNext(direction, size, points, i, g0, w, h);
        if !ok {
          return Fail(IndexOutOfRange);
        }
        i := i + 1;
      }
      assert points[..i] == points;
      r := Pass;
    }

    /** The body of ShiftAll's loop at cell i: the shift along it, or false when its lateral
        position is outside the map's lines. */
    method ShiftNext(direction: Direction, size: Size, points: seq<Point>, i: int, ghost g0: seq<seq<Int32>>, ghost w: nat, ghost h: nat)
      returns (ok: bool)
      requires (direction == Vertical || direction == Horizontal) && Covers(direction, size)
      requires MapOf(direction).Length0 < IntMax && MapOf(direction).Length1 < IntMax
      requires 0 <= i < |points| && 0 <= Along(direction, points[i]) < AlongExtent(direction, size)
      requires w == MapOf(direction).Length0 && h == MapOf(direction).Length1 && IsGrid(g0, w, h)
      requires Snap2(MapOf(direction)) == Shifted(g0, w, h, direction, LateralExtent(direction, size), points[..i])
      requires LateralsWithin(direction, points[..i], MapLateralLength(direction))
      modifies MapOf(direction)
      ensures ok <==> 0 <= Lateral(direction, points[i]) < MapLateralLength(direction)
      ensures ok ==> Snap2(MapOf(direction)) == Shifted(g0, w, h, direction, LateralExtent(direction, size), points[..i + 1])
      ensures ok ==> LateralsWithin(direction, points[..i + 1], MapLateralLength(direction))
    {
      var p := points[i];
      ok := 0 <= Lateral(direction, p) < MapLateralLength(direction);
      if ok {
        ShiftMap(direction, size, p);
        assert points[..i + 1][..i] == points[..i];
        assert points[..i + 1] == points[..i] + [p];
      }
    }

    /** RecomputeEnergyMapRange: after a seam of a vertical or horizontal direction has been
        carved, decode it, shift each of its cells out of the direction's map, refill from the
        seam's start index, and mark the other direction dirty. Decoding that runs out of step
        codes, or a cell whose lateral position is outside the map's lines, is an
        IndexOutOfRange. Any other direction does nothing. */
    method RecomputeEnergyMapRange(seam: Seam, size: Size) returns (r: Outcome)
      requires seam.direction == Vertical || seam.direction == Horizontal ==>
        0 <= seam.startIndex < LateralExtent(seam.direction, size) &&
        Covers(seam.direction, size) && EnergyCovers(size) && MapOf(seam.direction) != energyFunction.EnergyMap &&
        MapOf(seam.direction).Length0 < IntMax && MapOf(seam.direction).Length1 < IntMax
      modifies this, MapOf(seam.direction)
      ensures !(seam.direction == Vertical || seam.direction == Horizontal) ==>
        r == Pass && unchanged(this) && unchanged(MapOf(seam.direction))
      ensures (seam.direction == Vertical || seam.direction == Horizontal) && Locations(seam, size).Err? ==>
        r == Fail(IndexOutOfRange)
      ensures (seam.direction == Vertical || seam.direction == Horizontal) && Locations(seam, size).Ok? ==>
        (r == Pass <==> LateralsWithin(seam.direction, Locations(seam, size).value, old(MapLateralLength(seam.direction)))) &&
        (r.Fail? ==> r.error == IndexOutOfRange)
      ensures r == Pass && (seam.direction == Vertical || seam.direction == Horizontal) ==>
        var d := seam.direction;
        var shifted := Shifted(old(Snap2(MapOf(d))), old(MapOf(d).Length0), old(MapOf(d).Length1), d,
                               LateralExtent(d, size), Locations(seam, size).value);
        energyFunction == old(energyFunction) &&
        verticalMap == old(verticalMap) && horizontalMap == old(horizontalMap) &&
        verticalUsed == old(verticalUsed) && horizontalUsed == old(horizontalUsed) &&
        Holds(MapOf(d), Fill(d, size, seam.startIndex, seam.startIndex, d == Vertical, true),
              Grids(shifted, old(Snap2(UsedOf(d))), old(Snap2(energyFunction.EnergyMap)))) &&
        (forall x, y :: 0 <= x < MapOf(d).Length0 && 0 <= y < MapOf(d).Length1 && !InBounds(x, y, size) ==>
          MapOf(d)[x, y] == shifted[x][y]) &&
        !DirtyOf(d) && LowestOf(d) == SortPairs(Candidates(ViewOf(d, size)))
      ensures r == Pass && seam.direction == Vertical ==> horizontalDirty && lowestHorizontal == old(lowestHorizontal)
      ensures r == Pass && seam.direction == Horizontal ==> verticalDirty && lowestVertical == old(lowestVertical)
    {
      var direction := seam.direction;
      if !(direction == Vertical || direction == Horizontal) {
        return Pass;
      }
      var located := PixelLocations(seam, size);
      if located.Err? {
        return Fail(IndexOutOfRange);
      }
      LocationsBounds(seam, size);
      r := ShiftAndRefill(direction, size, seam.startIndex, located.value);
    }

    /** RecomputeEnergyMapRange once the seam's cells are decoded: shift the map along each of
        them, refill the lines from the start index on, and mark the other direction dirty. */
    method ShiftAndRefill(direction: Direction, size: Size, start: int, points: seq<Point>) returns (r: Outcome)
      requires (direction == Vertical || direction == Horizontal) && 0 <= start < LateralExtent(direction, size)
      requires Covers(direction, size) && EnergyCovers(size) && MapOf(direction) != energyFunction.EnergyMap
      requires MapOf(direction).Length0 < IntMax && MapOf(direction).Length1 < IntMax
      requires forall q :: q in points ==> 0 <= Along(direction, q) < AlongExtent(direction, size)
      modifies this, MapOf(direction)
      ensures r == Pass <==> LateralsWithin(direction, points, old(MapLateralLength(direction)))
      ensures r.Fail? ==> r.error == IndexOutOfRange
      ensures r == Pass ==>
        var d := direction;
        var shifted := Shifted(old(Snap2(MapOf(d))), old(MapOf(d).Length0), old(MapOf(d).Length1), d,
                               LateralExtent(d, size), points);
        energyFunction == old(energyFunction) &&
        verticalMap == old(verticalMap) && horizontalMap == old(horizontalMap) &&
        verticalUsed == old(verticalUsed) && horizontalUsed == old(horizontalUsed) &&
        Holds(MapOf(d), Fill(d, size, start, start, d == Vertical, true),
              Grids(shifted, old(Snap2(UsedOf(d))), old(Snap2(energyFunction.EnergyMap)))) &&
        (forall x, y :: 0 <= x < MapOf(d).Length0 && 0 <= y < MapOf(d).Length1 && !InBounds(x, y, size) ==>
          MapOf(d)[x, y] == shifted[x][y]) &&
        !DirtyOf(d) && LowestOf(d) == SortPairs(Candidates(ViewOf(d, size)))
      ensures r == Pass && direction == Vertical ==> horizontalDirty && lowestHorizontal == old(lowestHorizontal)
      ensures r == Pass && direction == Horizontal ==> verticalDirty && lowestVertical == old(lowestVertical)
    {
      r := ShiftAll(direction, size, points);
      if r.Fail? {
        return;
      }
      r := ComputeSubEnergyMap(direction, start, start, size);
      if direction == Vertical {
        horizontalDirty := true;
      } else {
        verticalDirty := true;
      }
    }
  }
}
