/** SeamFunctions/CumulativeEnergy.cs of the root revision: per direction a cumulative map, a
    claimed-cell mask and the endpoint list sorted by cost. A full recompute reallocates all
    three and fills the map; a ranked seam is backtracked from the k-th cheapest endpoint, and
    every cell it passes is claimed and given rank k in the caller's index map. The fill does
    not look at claims; the backtrack scans sideways past claimed cells. */
module RootCumulative {
  import opened Wrappers
  import opened Constants
  import opened Numerics
  import opened Utilities
  import opened Sweep
  import opened CumulativeMaps
  import opened Comparers
  import opened Seams
  import opened RootBacktrack
  import opened SobelFilter

  /** The endpoint list before sorting: the cells of the last along line in lateral order, each
      with its stored cumulative cost. */
  function Endpoints(d: Direction, size: Size, cum: seq<seq<Int32>>): (r: seq<Pair>)
    requires Fits(cum, size) && (AlongExtent(d, size) > 0 || LateralExtent(d, size) == 0)
  {
    seq(LateralExtent(d, size), l requires 0 <= l < LateralExtent(d, size) =>
      Pair(At(d, AlongExtent(d, size) - 1, l), cum[At(d, AlongExtent(d, size) - 1, l).x][At(d, AlongExtent(d, size) - 1, l).y] as int))
  }

  /** The endpoint list holds one entry per cell of the last along line, keyed by that cell. */
  lemma EndpointsCoverLastLine(d: Direction, size: Size, cum: seq<seq<Int32>>)
    requires Fits(cum, size) && AlongExtent(d, size) > 0
    ensures var r := Endpoints(d, size, cum);
      |r| == LateralExtent(d, size) &&
      forall j :: 0 <= j < |r| ==>
        Along(d, r[j].key) == AlongExtent(d, size) - 1 && Lateral(d, r[j].key) == j &&
        InBounds(r[j].key.x, r[j].key.y, size) && r[j].value == cum[r[j].key.x][r[j].key.y] as int
  {
  }

  /** The harvest loop of ComputeSubEnergyMap: walk the last along line and list each cell with
      its stored cost. With no along line but a non-empty lateral extent the first read lands
      on index -1. */
  method Harvest(cum: array2<Int32>, d: Direction, size: Size) returns (r: Result<seq<Pair>>)
    requires d == Vertical || d == Horizontal
    requires size.width <= cum.Length0 && size.height <= cum.Length1
    ensures r.Err? <==> AlongExtent(d, size) == 0 && LateralExtent(d, size) > 0
    ensures r.Err? ==> r.error == IndexOutOfRange
    ensures r.Ok? ==> r.value == Endpoints(d, size, Snap2(cum))
  {
    var x, y, xInc, yInc := 0, 0, 0, 0;
    if d == Vertical {
      y, xInc := size.height - 1, 1;
    } else {
      x, yInc := size.width - 1, 1;
    }
    var list: seq<Pair> := [];
    while x < size.width && y < size.height
      invariant d == Vertical ==> y == size.height - 1 && xInc == 1 && yInc == 0 && 0 <= x <= size.width && |list| == x
      invariant d != Vertical ==> x == size.width - 1 && xInc == 0 && yInc == 1 && 0 <= y <= size.height && |list| == y
      invariant AlongExtent(d, size) == 0 ==> list == []
      invariant forall j :: 0 <= j < |list| ==>
        list[j] == Pair(At(d, AlongExtent(d, size) - 1, j), cum[At(d, AlongExtent(d, size) - 1, j).x, At(d, AlongExtent(d, size) - 1, j).y] as int)
      decreases size.width + size.height - x - y
    {
      if !(0 <= x < cum.Length0 && 0 <= y < cum.Length1) {
        return Err(IndexOutOfRange);
      }
      list := list + [Pair(Point(x, y), cum[x, y] as int)];
      x, y := x + xInc, y + yInc;
    }
    return Ok(list);
  }

  /** The sideways scan of GetNeighbour from (x, y), the first cell after lateral offset l on
      line a: step while the cell is inside the grid and claimed, then report it with its cost,
      or int.MaxValue when the scan left the grid. */
  method ScanLine(cum: array2<Int32>, used: array2<bool>, d: Direction, size: Size, x: int, y: int, xInc: int, yInc: int,
                  ghost v: View, ghost a: int, ghost l: int, ghost dl: int) returns (n: Neighbour)
    requires v == View(d, size, Snap2(cum), Snap2(used)) && ValidView(v) && (dl == 1 || dl == -1)
    requires Point(x, y) == At(d, a, l + dl)
    requires d == Vertical ==> xInc == dl && yInc == 0
    requires d != Vertical ==> yInc == dl && xInc == 0
    ensures n == Scan(v, a, l, dl)
  {
    var currentX, currentY, m := SkipClaimed(used, d, size, x, y, xInc, yInc, v, a, l, dl);
    var currentEnergy := IntMax as int;
    if InBounds(currentX, currentY, size) {
      currentEnergy := cum[currentX, currentY] as int;
    }
    ScanStops(v, a, m, dl);
    return Neighbour(Point(currentX, currentY), currentEnergy);
  }

  /** The loop of the sideways scan: step over the claimed in-grid cells. It stops at lateral
      offset m, whose cell is outside the grid or unclaimed, and the scan from l is the scan
      that looks at m first. */
  method SkipClaimed(used: array2<bool>, d: Direction, size: Size, x: int, y: int, xInc: int, yInc: int,
                     ghost v: View, ghost a: int, ghost l: int, ghost dl: int) returns (cx: int, cy: int, ghost m: int)
    requires ValidView(v) && v.d == d && v.size == size && v.used == Snap2(used) && (dl == 1 || dl == -1)
    requires Point(x, y) == At(d, a, l + dl)
    requires d == Vertical ==> xInc == dl && yInc == 0
    requires d != Vertical ==> yInc == dl && xInc == 0
    ensures Point(cx, cy) == At(d, a, m) && (!InBounds(cx, cy, size) || !v.used[cx][cy])
    ensures Scan(v, a, l, dl) == Scan(v, a, m - dl, dl)
  {
    cx, cy, m := x, y, l + dl;
    while InBounds(cx, cy, size) && used[cx, cy]
      invariant Point(cx, cy) == At(d, a, m)
      invariant Scan(v, a, l, dl) == Scan(v, a, m - dl, dl)
      decreases if dl > 0 then LateralExtent(d, size) - m else m + 1
    {
      ScanSkips(v, a, m, dl, cx, cy);
      cx, cy, m := cx + xInc, cy + yInc, m + dl;
    }
  }

  /** The mask `after` holds the claims of `before` and the given cells, and no others. */
  predicate ClaimsAdded(after: seq<seq<bool>>, before: seq<seq<bool>>, cells: seq<Point>)
  {
    |after| == |before| && (forall i :: 0 <= i < |after| ==> |after[i]| == |before[i]|) &&
    forall i, j :: 0 <= i < |after| && 0 <= j < |after[i]| ==> after[i][j] == (before[i][j] || Point(i, j) in cells)
  }

  /** The index map `after` holds rank k on the given cells and `before` elsewhere. */
  predicate RanksAdded(after: seq<seq<Int32>>, before: seq<seq<Int32>>, cells: seq<Point>, k: Int32)
  {
    |after| == |before| && (forall i :: 0 <= i < |after| ==> |after[i]| == |before[i]|) &&
    forall i, j :: 0 <= i < |after| && 0 <= j < |after[i]| ==>
      after[i][j] == if Point(i, j) in cells then k else before[i][j]
  }

  lemma ClaimsCompose(a: seq<seq<bool>>, b: seq<seq<bool>>, c: seq<seq<bool>>, first: seq<Point>, second: seq<Point>)
    requires ClaimsAdded(b, a, first) && ClaimsAdded(c, b, second)
    ensures ClaimsAdded(c, a, second + first)
  {
  }

  lemma RanksCompose(a: seq<seq<Int32>>, b: seq<seq<Int32>>, c: seq<seq<Int32>>, first: seq<Point>, second: seq<Point>, k: Int32)
    requires RanksAdded(b, a, first, k) && RanksAdded(c, b, second, k)
    ensures RanksAdded(c, a, second + first, k)
  {
  }

  /** The step-code array across one iteration: the code lands at pixelIndex i, above the
      untouched Straight prefix. */
  lemma CodesAdvance(before: seq<SeamPixelDirection>, after: seq<SeamPixelDirection>, i: nat,
                     code: SeamPixelDirection, done: seq<SeamPixelDirection>)
    requires before == Straights(i + 1) + done && after == before[i := code]
    ensures after == Straights(i) + ([code] + done)
  {
    assert after == Straights(i) + ([code] + done);
  }

  /** BuildSeam's loop state as values: where the walk stands, and the claim mask, the index map
      and the step codes as they are at that point. */
  datatype Progress = Progress(at: Place, used: seq<seq<bool>>, ranks: seq<seq<Int32>>, codes: seq<SeamPixelDirection>)

  /** The loop's invariant over values: the walk from start is on its way through `whole`, the
      codes above the current pixelIndex are recorded and the rest still Straight, and exactly
      the cells passed are newly claimed and hold rank k. */
  ghost predicate Tracing(v0: View, reach: Size, start: Point, whole: Result<Trace>, index0: seq<seq<Int32>>, k: Int32, g: Progress)
    requires ValidView(v0)
  {
    Walking(v0, reach, start, g.at, whole) &&
    g.at.i >= 0 && g.codes == Straights(g.at.i + 1) + g.at.codes &&
    ClaimsAdded(g.used, v0.used, g.at.cells + [start]) &&
    RanksAdded(g.ranks, index0, g.at.cells + [start], k)
  }

  /** One committed step keeps the loop's invariant: the walk moves to the chosen cell, its code
      is recorded, and the cell is claimed and ranked. */
  lemma TracingAdvances(v0: View, w: View, reach: Size, start: Point, whole: Result<Trace>, index0: seq<seq<Int32>>,
                        k: Int32, g: Progress, m: Move, used: seq<seq<bool>>, ranks: seq<seq<Int32>>,
                        codes: seq<SeamPixelDirection>)
    requires ValidView(v0) && ValidView(w) && w.size == v0.size
    requires Tracing(v0, reach, start, whole, index0, k, g) && g.at.i > 0
    requires Step(v0, reach, g.at.cur) == Step(w, reach, g.at.cur)
    requires Choice(w, g.at.cur) == Ok(m) && InBounds(m.cell.x, m.cell.y, v0.size) && InBounds(m.cell.x, m.cell.y, reach)
    requires 0 <= g.at.i < |g.codes| && codes == g.codes[g.at.i := m.code]
    requires ClaimsAdded(used, g.used, [m.cell]) && RanksAdded(ranks, g.ranks, [m.cell], k)
    ensures Tracing(v0, reach, start, whole, index0, k,
                    Progress(Place(m.cell, g.at.i - 1, [m.cell] + g.at.cells, [m.code] + g.at.codes), used, ranks, codes))
  {
    var at := g.at;
    Advance(v0, w, reach, start, at, m, whole);
    CodesAdvance(g.codes, codes, at.i, m.code, at.codes);
    ClaimsCompose(v0.used, g.used, used, at.cells + [start], [m.cell]);
    RanksCompose(index0, g.ranks, ranks, at.cells + [start], [m.cell], k);
    AppendAssoc([m.cell], at.cells, [start]);
  }

  /** The walk back from an end cell starts there, with nothing claimed or recorded yet. */
  lemma WalkStarts(v0: View, reach: Size, start: Point)
    requires ValidView(v0) && InBounds(start.x, start.y, v0.size)
    ensures Walking(v0, reach, start, Place(start, AlongExtent(v0.d, v0.size) - 1, [], []),
                    Walk(v0, reach, start, AlongExtent(v0.d, v0.size) - 1))
  {
    var whole := Walk(v0, reach, start, AlongExtent(v0.d, v0.size) - 1);
    match whole
    case Err(e) =>
    case Ok(t) =>
      assert t.cells + [] == t.cells && t.codes + [] == t.codes;
  }

  /** Having walked back to the first line, the build is the seam of the codes recorded, from
      the lateral coordinate reached, with every cell passed claimed. */
  lemma WalkEnds(v0: View, reach: Size, start: Point, at: Place, codes: seq<SeamPixelDirection>)
    requires ValidView(v0) && InBounds(start.x, start.y, v0.size) && InBounds(start.x, start.y, reach)
    requires Walking(v0, reach, start, at, Walk(v0, reach, start, AlongExtent(v0.d, v0.size) - 1))
    requires at.i == 0 && codes == Straights(1) + at.codes
    ensures Build(v0, reach, start, true) ==
      Ok(Built(Seam(codes, v0.d, if v0.d == Vertical then at.cur.x else at.cur.y, 0), at.cells + [start]))
  {
    var whole := Walk(v0, reach, start, AlongExtent(v0.d, v0.size) - 1);
    Finish(v0, reach, at, whole);
    var t := whole.value;
    assert t == Trace(at.cells, [Straight] + at.codes);
    assert Origin(t, start) == at.cur;
    assert Straights(1) == [Straight];
    BuildOfWalk(v0, reach, start);
  }

  /** A walk that fails makes the build fail with the same error. */
  lemma WalkFails(v0: View, reach: Size, start: Point, e: Error)
    requires ValidView(v0) && InBounds(start.x, start.y, v0.size) && InBounds(start.x, start.y, reach)
    requires Walk(v0, reach, start, AlongExtent(v0.d, v0.size) - 1) == Err(e)
    ensures Build(v0, reach, start, true) == Err(e)
  {
    BuildOfWalk(v0, reach, start);
  }

  /** The loop's invariant holds on entry: at the end cell, claimed and ranked alone, with
      every code still Straight. */
  lemma TracingStarts(v0: View, reach: Size, start: Point, index0: seq<seq<Int32>>, k: Int32,
                      used: seq<seq<bool>>, ranks: seq<seq<Int32>>, codes: seq<SeamPixelDirection>)
    requires ValidView(v0) && InBounds(start.x, start.y, v0.size)
    requires ClaimsAdded(used, v0.used, [start]) && RanksAdded(ranks, index0, [start], k)
    requires |codes| == AlongExtent(v0.d, v0.size) && forall j :: 0 <= j < |codes| ==> codes[j] == Straight
    ensures Tracing(v0, reach, start, Walk(v0, reach, start, AlongExtent(v0.d, v0.size) - 1), index0, k,
                    Progress(Place(start, AlongExtent(v0.d, v0.size) - 1, [], []), used, ranks, codes))
  {
    WalkStarts(v0, reach, start);
    assert codes == Straights(AlongExtent(v0.d, v0.size) - 1 + 1) + [];
    assert [] + [start] == [start];
  }

  /** When the loop has reached pixelIndex 0, the build it was tracing is its seam, and the
      cells it claimed and ranked are exactly the build's. */
  lemma TracingEnds(v0: View, reach: Size, start: Point, index0: seq<seq<Int32>>, k: Int32, g: Progress)
    requires ValidView(v0) && InBounds(start.x, start.y, v0.size) && InBounds(start.x, start.y, reach)
    requires Tracing(v0, reach, start, Walk(v0, reach, start, AlongExtent(v0.d, v0.size) - 1), index0, k, g)
    requires g.at.i == 0
    ensures var b := Build(v0, reach, start, true);
      b.Ok? && b.value.seam == Seam(g.codes, v0.d, if v0.d == Vertical then g.at.cur.x else g.at.cur.y, 0) &&
      ClaimsAdded(g.used, v0.used, b.value.claimed) && RanksAdded(g.ranks, index0, b.value.claimed, k)
  {
    assert Straights(g.at.i + 1) == Straights(1);
    WalkEnds(v0, reach, start, g.at, g.codes);
  }

  lemma AppendAssoc<T>(a: seq<T>, b: seq<T>, c: seq<T>)
    ensures a + (b + c) == (a + b) + c
  {
  }

  /** Claims the backtrack has made lie on the lines from p's onward, so a move from p goes as it
      would have before the backtrack began. */
  lemma ClaimsAbove(v0: View, w: View, reach: Size, cells: seq<Point>, p: Point)
    requires ValidView(v0) && ValidView(w) && v0.d == w.d && v0.size == w.size && v0.cum == w.cum
    requires InBounds(p.x, p.y, v0.size) && ClaimsAdded(w.used, v0.used, cells)
    requires forall c :: c in cells ==> Along(v0.d, c) >= Along(v0.d, p)
    ensures Step(v0, reach, p) == Step(w, reach, p)
  {
    LineBehindUnclaimed(v0, w, cells, Along(v0.d, p));
    StepFrame(v0, w, reach, p);
  }

  /** Claims on the lines from a onward leave the line behind a as it was. */
  lemma LineBehindUnclaimed(v0: View, w: View, cells: seq<Point>, a: int)
    requires ValidView(v0) && ValidView(w) && v0.d == w.d && v0.size == w.size && v0.cum == w.cum
    requires ClaimsAdded(w.used, v0.used, cells)
    requires forall c :: c in cells ==> Along(v0.d, c) >= a
    ensures SameLine(v0, w, a - 1)
  {
    var b := a - 1;
    if 0 <= b < AlongExtent(v0.d, v0.size) {
      forall j | 0 <= j < LateralExtent(v0.d, v0.size)
        ensures w.used[At(v0.d, b, j).x][At(v0.d, b, j).y] == v0.used[At(v0.d, b, j).x][At(v0.d, b, j).y]
      {
        AtInBounds(v0.d, b, j, v0.size);
      }
    }
  }

  /** The extent of the caller's index map; a missing one has none. */
  function Reach(m: array2?<Int32>): Size
  {
    if m == null then Size(0, 0) else Size(m.Length0, m.Length1)
  }

  /** The comparisons of BuildSeam's loop among the three neighbours, and the step code of the
      one chosen. */
  method PickMove(l: Neighbour, s: Neighbour, t: Neighbour) returns (m: Move)
    ensures m == Picked(l, s, t)
  {
    var chosen;
    if l.cost < s.cost {
      chosen := if l.cost < t.cost then l else t;
    } else {
      chosen := if !(s.cost < t.cost) then t else s;
    }
    var code := Straight;
    if chosen == t {
      code := Right;
    } else if chosen == l {
      code := Left;
    }
    return Move(chosen.cell, code);
  }

  /** The rank write of BuildSeam: the index map gains rank k on the cell, or the cell is
      outside it and this is an IndexOutOfRange. */
  method Rank(indexMap: array2<Int32>, cell: Point, k: Int32) returns (r: Outcome)
    modifies indexMap
    ensures r.Fail? <==> !InBounds(cell.x, cell.y, Reach(indexMap))
    ensures r.Fail? ==> r.error == IndexOutOfRange
    ensures r.Pass? ==> RanksAdded(Snap2(indexMap), old(Snap2(indexMap)), [cell], k)
  {
    if !(0 <= cell.x < indexMap.Length0 && 0 <= cell.y < indexMap.Length1) {
      return Fail(IndexOutOfRange);
    }
    indexMap[cell.x, cell.y] := k;
    return Pass;
  }

  class CumulativeEnergy {
    var energyFunction: Sobel
    var verticalMap: array2<Int32>
    var horizontalMap: array2<Int32>
    var verticalUsed: array2<bool>
    var horizontalUsed: array2<bool>
    var lowestVertical: seq<Pair>
    var lowestHorizontal: seq<Pair>

    constructor (energy: Sobel)
      ensures energyFunction == energy && lowestVertical == [] && lowestHorizontal == []
      ensures verticalMap.Length0 == verticalMap.Length1 == horizontalMap.Length0 == horizontalMap.Length1 == 0
      ensures verticalUsed.Length0 == verticalUsed.Length1 == horizontalUsed.Length0 == horizontalUsed.Length1 == 0
      ensures fresh(verticalMap) && fresh(horizontalMap) && fresh(verticalUsed) && fresh(horizontalUsed)
      ensures verticalMap != horizontalMap && verticalUsed != horizontalUsed
    {
      energyFunction := energy;
      verticalMap := new Int32[0, 0];
      horizontalMap := new Int32[0, 0];
      verticalUsed := new bool[0, 0];
      horizontalUsed := new bool[0, 0];
      lowestVertical, lowestHorizontal := [], [];
    }

    function MapOf(d: Direction): array2<Int32>
      reads this
    {
      if d == Vertical then verticalMap else horizontalMap
    }

    function UsedOf(d: Direction): array2<bool>
      reads this
    {
      if d == Vertical then verticalUsed else horizontalUsed
    }

    function LowestOf(d: Direction): seq<Pair>
      reads this
    {
      if d == Vertical then lowestVertical else lowestHorizontal
    }

    /** The arrays of direction d cover a grid of the given size. */
    predicate Covers(d: Direction, size: Size)
      reads this
    {
      size.width <= MapOf(d).Length0 && size.height <= MapOf(d).Length1 &&
      size.width <= UsedOf(d).Length0 && size.height <= UsedOf(d).Length1
    }

    /** Direction d's map and mask as a backtrack reads them. */
    function ViewOf(d: Direction, size: Size): (v: View)
      reads this, MapOf(d), UsedOf(d)
      requires (d == Vertical || d == Horizontal) && Covers(d, size)
      ensures ValidView(v)
    {
      View(d, size, Snap2(MapOf(d)), Snap2(UsedOf(d)))
    }

    /** ComputeEntireEnergyMap: new zeroed map and unclaimed mask for the direction, then the
        fill from start offset 0 to end offset L - 1. */
    method ComputeEntireEnergyMap(direction: Direction, size: Size) returns (r: Outcome)
      requires direction == Vertical || direction == Horizontal
      requires size.width <= energyFunction.EnergyMap.Length0 && size.height <= energyFunction.EnergyMap.Length1
      modifies this
      ensures fresh(MapOf(direction)) && fresh(UsedOf(direction))
      ensures MapOf(direction).Length0 == size.width && MapOf(direction).Length1 == size.height
      ensures UsedOf(direction).Length0 == size.width && UsedOf(direction).Length1 == size.height
      ensures energyFunction == old(energyFunction)
      ensures direction == Vertical ==>
        horizontalMap == old(horizontalMap) && horizontalUsed == old(horizontalUsed) && lowestHorizontal == old(lowestHorizontal)
      ensures direction == Horizontal ==>
        verticalMap == old(verticalMap) && verticalUsed == old(verticalUsed) && lowestVertical == old(lowestVertical)
      ensures forall x, y :: 0 <= x < size.width && 0 <= y < size.height ==> !UsedOf(direction)[x, y]
      ensures Holds(MapOf(direction), EntireFill(direction, size, false, false),
                    Grids(Zeros(size), NoClaims(size), Snap2(energyFunction.EnergyMap)))
      ensures r.Fail? <==> AlongExtent(direction, size) == 0 && LateralExtent(direction, size) > 0
      ensures r.Fail? ==> r.error == IndexOutOfRange && LowestOf(direction) == []
      ensures r.Pass? ==> LowestOf(direction) == SortPairs(Endpoints(direction, size, Snap2(MapOf(direction))))
    {
      var cum := new Int32[size.width, size.height]((i, j) => 0);
      var used := new bool[size.width, size.height]((i, j) => false);
      ZerosSnapshot(cum, size);
      NoClaimsSnapshot(used, size);
      var endOffset := Reset(direction, cum, used);
      ghost var energy := Snap2(energyFunction.EnergyMap);
      assert Grids(Snap2(cum), Snap2(used), energy) == Grids(Zeros(size), NoClaims(size), energy);
      assert Fill(direction, size, 0, endOffset, false, false) == EntireFill(direction, size, false, false);
      r := ComputeSubEnergyMap(direction, 0, endOffset, size);
    }

    /** The branch of ComputeEntireEnergyMap that installs the new arrays and an empty list for
        the direction, and picks the last lateral offset as the end offset. */
    method Reset(direction: Direction, cum: array2<Int32>, used: array2<bool>) returns (endOffset: int)
      requires direction == Vertical || direction == Horizontal
      requires cum.Length0 == used.Length0 && cum.Length1 == used.Length1
      modifies this
      ensures MapOf(direction) == cum && UsedOf(direction) == used && LowestOf(direction) == []
      ensures endOffset == LateralExtent(direction, Size(cum.Length0, cum.Length1)) - 1
      ensures energyFunction == old(energyFunction)
      ensures direction == Vertical ==>
        horizontalMap == old(horizontalMap) && horizontalUsed == old(horizontalUsed) && lowestHorizontal == old(lowestHorizontal)
      ensures direction == Horizontal ==>
        verticalMap == old(verticalMap) && verticalUsed == old(verticalUsed) && lowestVertical == old(lowestVertical)
    {
      if direction == Vertical {
        verticalMap, verticalUsed, lowestVertical := cum, used, [];
        endOffset := cum.Length0 - 1;
      } else {
        horizontalMap, horizontalUsed, lowestHorizontal := cum, used, [];
        endOffset := cum.Length1 - 1;
      }
    }

    /** ComputeSubEnergyMap: the fill from the given offsets (claims ignored), then the endpoint
        list cleared, harvested and sorted by cost. */
    method ComputeSubEnergyMap(direction: Direction, startOffset: int, endOffset: int, size: Size) returns (r: Outcome)
      requires direction == Vertical || direction == Horizontal
      requires ValidFill(Fill(direction, size, startOffset, endOffset, false, false))
      requires Covers(direction, size) && MapOf(direction) != energyFunction.EnergyMap
      requires size.width <= energyFunction.EnergyMap.Length0 && size.height <= energyFunction.EnergyMap.Length1
      modifies this, MapOf(direction)
      ensures verticalMap == old(verticalMap) && horizontalMap == old(horizontalMap)
      ensures verticalUsed == old(verticalUsed) && horizontalUsed == old(horizontalUsed)
      ensures energyFunction == old(energyFunction)
      ensures direction == Vertical ==> lowestHorizontal == old(lowestHorizontal)
      ensures direction == Horizontal ==> lowestVertical == old(lowestVertical)
      ensures Holds(MapOf(direction), Fill(direction, size, startOffset, endOffset, false, false),
                    Grids(old(Snap2(MapOf(direction))), old(Snap2(UsedOf(direction))), old(Snap2(energyFunction.EnergyMap))))
      ensures forall x, y :: 0 <= x < MapOf(direction).Length0 && 0 <= y < MapOf(direction).Length1 && !InBounds(x, y, size) ==>
        MapOf(direction)[x, y] == old(MapOf(direction)[x, y])
      ensures r.Fail? <==> AlongExtent(direction, size) == 0 && LateralExtent(direction, size) > 0
      ensures r.Fail? ==> r.error == IndexOutOfRange && LowestOf(direction) == []
      ensures r.Pass? ==> LowestOf(direction) == SortPairs(Endpoints(direction, size, Snap2(MapOf(direction))))
    {
      var cum := MapOf(direction);
      FillMap(cum, UsedOf(direction), energyFunction.EnergyMap, Fill(direction, size, startOffset, endOffset, false, false));
      if direction == Vertical {
        lowestVertical := [];
      } else {
        lowestHorizontal := [];
      }
      var harvested := Harvest(cum, direction, size);
      if harvested.Err? {
        return Fail(harvested.error);
      }
      var sorted := SortPairs(harvested.value);
      if direction == Vertical {
        lowestVertical := sorted;
      } else {
        lowestHorizontal := sorted;
      }
      return Pass;
    }

    /** SetUsedPixel: claim an in-grid cell; a cell outside the grid is an ArgumentOutOfRange. */
    method SetUsedPixel(direction: Direction, x: int, y: int, size: Size) returns (r: Outcome)
      requires Covers(direction, size)
      modifies UsedOf(direction)
      ensures !InBounds(x, y, size) ==> r == Fail(ArgumentOutOfRange) && unchanged(UsedOf(direction))
      ensures InBounds(x, y, size) ==> r == Pass
      ensures InBounds(x, y, size) ==>
        forall i, j :: 0 <= i < UsedOf(direction).Length0 && 0 <= j < UsedOf(direction).Length1 ==>
          UsedOf(direction)[i, j] == (old(UsedOf(direction)[i, j]) || (i == x && j == y))
    {
      if !InBounds(x, y, size) {
        return Fail(ArgumentOutOfRange);
      }
      if direction == Vertical {
        verticalUsed[x, y] := true;
      } else {
        horizontalUsed[x, y] := true;
      }
      return Pass;
    }

    /** GetNeighbour from the in-grid cell (x, y). STRAIGHT reads the cell behind directly;
        LEFT and RIGHT step onto the line behind and scan sideways while the cell is inside the
        grid and claimed. */
    method GetNeighbour(direction: Direction, x: int, y: int, size: Size, t: NeighbourType) returns (r: Result<Neighbour>)
      requires (direction == Vertical || direction == Horizontal) && Covers(direction, size) && InBounds(x, y, size)
      ensures r == NeighbourOf(ViewOf(direction, size), Point(x, y), t)
    {
      if t == StraightNeighbour {
        r := StraightNeighbourOf(direction, x, y, size);
      } else {
        var n := SideNeighbourOf(direction, x, y, size, t);
        r := Ok(n);
      }
    }

    /** The STRAIGHT case of GetNeighbour: the cell behind, read without a bounds test on its
        claim. */
    method StraightNeighbourOf(direction: Direction, x: int, y: int, size: Size) returns (r: Result<Neighbour>)
      requires (direction == Vertical || direction == Horizontal) && Covers(direction, size) && InBounds(x, y, size)
      ensures r == StraightBehind(ViewOf(direction, size), Point(x, y))
    {
      var cum, used := MapOf(direction), UsedOf(direction);
      var currentEnergy := IntMax as int;
      if direction == Vertical {
        if y - 1 < 0 {
          return Err(IndexOutOfRange);
        }
        return Ok(Neighbour(Point(x, y - 1), if used[x, y - 1] then currentEnergy else cum[x, y - 1] as int));
      } else {
        if x - 1 < 0 {
          return Err(IndexOutOfRange);
        }
        return Ok(Neighbour(Point(x - 1, y), if used[x - 1, y] then currentEnergy else cum[x - 1, y] as int));
      }
    }

    /** The LEFT and RIGHT cases of GetNeighbour: step onto the line behind and scan sideways. */
    method SideNeighbourOf(direction: Direction, x: int, y: int, size: Size, t: NeighbourType) returns (n: Neighbour)
      requires (direction == Vertical || direction == Horizontal) && Covers(direction, size) && InBounds(x, y, size)
      requires t != StraightNeighbour
      ensures n == SideNeighbour(ViewOf(direction, size), Point(x, y), t)
    {
      ghost var v := ViewOf(direction, size);
      var currentX, currentY := x, y;
      var xInc, yInc := 0, 0;
      if direction == Vertical {
        currentY := currentY - 1;
        xInc := if t == LeftNeighbour then -1 else 1;
      } else {
        currentX := currentX - 1;
        yInc := if t == LeftNeighbour then 1 else -1;
      }
      ghost var a, l0, dl := Along(direction, Point(x, y)) - 1, Lateral(direction, Point(x, y)), ScanStep(direction, t);
      n := ScanLine(MapOf(direction), UsedOf(direction), direction, size, currentX + xInc, currentY + yInc, xInc, yInc, v, a, l0, dl);
    }

    /** The first half of an iteration of BuildSeam's loop from the in-grid cell (x, y): the
        three neighbours and the choice among them. */
    method ChooseNeighbour(direction: Direction, size: Size, x: int, y: int) returns (r: Result<Move>)
      requires (direction == Vertical || direction == Horizontal) && Covers(direction, size) && InBounds(x, y, size)
      ensures r == Choice(ViewOf(direction, size), Point(x, y))
    {
      var left := GetNeighbour(direction, x, y, size, LeftNeighbour);
      var straight := GetNeighbour(direction, x, y, size, StraightNeighbour);
      if straight.Err? {
        return Err(straight.error);
      }
      var right := GetNeighbour(direction, x, y, size, RightNeighbour);
      var m := PickMove(left.value, straight.value, right.value);
      return Ok(m);
    }

    /** The second half: the step code written at pixelIndex unless the move is straight, then
        the chosen cell claimed and given rank k. */
    method Commit(direction: Direction, size: Size, m: Move, indexMap: array2<Int32>, k: Int32,
                  codes: array<SeamPixelDirection>, pixelIndex: int) returns (r: Outcome)
      requires Covers(direction, size) && 0 <= pixelIndex < codes.Length && codes[pixelIndex] == Straight
      requires indexMap != MapOf(direction)
      modifies UsedOf(direction), indexMap, codes
      ensures unchanged(MapOf(direction))
      ensures r.Fail? <==> !InBounds(m.cell.x, m.cell.y, size) || !InBounds(m.cell.x, m.cell.y, Reach(indexMap))
      ensures r.Fail? ==> r.error == if !InBounds(m.cell.x, m.cell.y, size) then ArgumentOutOfRange else IndexOutOfRange
      ensures r.Pass? ==> codes[..] == old(codes[..])[pixelIndex := m.code]
      ensures r.Pass? ==> ClaimsAdded(Snap2(UsedOf(direction)), old(Snap2(UsedOf(direction))), [m.cell])
      ensures r.Pass? ==> RanksAdded(Snap2(indexMap), old(Snap2(indexMap)), [m.cell], k)
    {
      if m.code != Straight {
        codes[pixelIndex] := m.code;
      }
      r := Claim(direction, m.cell, size);
      if r.Fail? {
        return;
      }
      r := Rank(indexMap, m.cell, k);
    }

    /** SetUsedPixel on a cell, seen on the whole mask: the mask gains that claim alone. */
    method Claim(direction: Direction, cell: Point, size: Size) returns (r: Outcome)
      requires Covers(direction, size)
      modifies UsedOf(direction)
      ensures r.Fail? <==> !InBounds(cell.x, cell.y, size)
      ensures r.Fail? ==> r.error == ArgumentOutOfRange
      ensures r.Pass? ==> ClaimsAdded(Snap2(UsedOf(direction)), old(Snap2(UsedOf(direction))), [cell])
    {
      r := SetUsedPixel(direction, cell.x, cell.y, size);
    }

    /** BuildSeam from the end cell (x, y): claim it and give it rank k, then step back one line
        at a time, claiming and ranking every cell passed and recording each move's code, and
        take the lateral coordinate of the cell reached as the start index. */
    method BuildSeam(direction: Direction, x: int, y: int, size: Size, indexMap: array2?<Int32>, k: Int32) returns (r: Result<Seam>)
      requires (direction == Vertical || direction == Horizontal) && Covers(direction, size)
      requires indexMap != MapOf(direction)
      modifies UsedOf(direction), indexMap
      ensures var b := Build(old(ViewOf(direction, size)), Reach(indexMap), Point(x, y), indexMap != null);
        (b.Err? ==> r == Err(b.error)) &&
        (b.Ok? ==>
          r == Ok(b.value.seam) && indexMap != null &&
          ClaimsAdded(Snap2(UsedOf(direction)), old(Snap2(UsedOf(direction))), b.value.claimed) &&
          RanksAdded(Snap2(indexMap), old(Snap2(indexMap)), b.value.claimed, k))
      ensures !InBounds(x, y, size) ==> Snap2(UsedOf(direction)) == old(Snap2(UsedOf(direction)))
      ensures InBounds(x, y, size) && (indexMap == null || !InBounds(x, y, Reach(indexMap))) ==>
        ClaimsAdded(Snap2(UsedOf(direction)), old(Snap2(UsedOf(direction))), [Point(x, y)])
    {
      ghost var v0 := ViewOf(direction, size);
      assert v0.d == direction && v0.size == size;
      ghost var reach := Reach(indexMap);
      ghost var start := Point(x, y);
      var claim := SetUsedPixel(direction, x, y, size);
      if claim.Fail? {
        assert Build(v0, reach, start, indexMap != null) == Err(ArgumentOutOfRange);
        return Err(claim.error);
      }
      assert ClaimsAdded(Snap2(UsedOf(direction)), v0.used, [start]);
      if indexMap == null {
        assert Build(v0, reach, start, false) == Err(NullReference);
        return Err(NullReference);
      }
      ghost var index0 := old(Snap2(indexMap));
      if !(0 <= x < indexMap.Length0 && 0 <= y < indexMap.Length1) {
        assert Build(v0, reach, start, true) == Err(IndexOutOfRange);
        return Err(IndexOutOfRange);
      }
      indexMap[x, y] := k;
      assert RanksAdded(Snap2(indexMap), index0, [start], k);
      r := TraceBack(direction, size, indexMap, k, x, y, v0, index0);
    }

    /** BuildSeam's loop, from the end cell (x, y) once it is claimed and ranked: the rest of the
        build, with the cells it claims and ranks. */
    method TraceBack(direction: Direction, size: Size, indexMap: array2<Int32>, k: Int32, x: int, y: int,
                     ghost v0: View, ghost index0: seq<seq<Int32>>)
      returns (r: Result<Seam>)
      requires (direction == Vertical || direction == Horizontal) && Covers(direction, size) && indexMap != MapOf(direction)
      requires ValidView(v0) && v0.d == direction && v0.size == size && v0.cum == Snap2(MapOf(direction))
      requires InBounds(x, y, size) && InBounds(x, y, Reach(indexMap))
      requires ClaimsAdded(Snap2(UsedOf(direction)), v0.used, [Point(x, y)])
      requires RanksAdded(Snap2(indexMap), index0, [Point(x, y)], k)
      modifies UsedOf(direction), indexMap
      ensures var b := Build(v0, Reach(indexMap), Point(x, y), true);
        (b.Err? ==> r == Err(b.error)) &&
        (b.Ok? ==>
          r == Ok(b.value.seam) &&
          ClaimsAdded(Snap2(UsedOf(direction)), v0.used, b.value.claimed) &&
          RanksAdded(Snap2(indexMap), index0, b.value.claimed, k))
    {
      ghost var reach := Reach(indexMap);
      ghost var start := Point(x, y);
      var pixelCount := if direction == Vertical then size.height else size.width;
      var codes := new SeamPixelDirection[pixelCount](_ => Straight);
      ghost var whole := Walk(v0, reach, start, AlongExtent(v0.d, v0.size) - 1);
      ghost var g0 := Progress(Place(start, AlongExtent(v0.d, v0.size) - 1, [], []), Snap2(UsedOf(direction)), Snap2(indexMap), codes[..]);
      TracingStarts(v0, reach, start, index0, k, g0.used, g0.ranks, g0.codes);
      var reached;
      ghost var g;
      reached, g := WalkBack(direction, size, indexMap, k, codes, x, y, v0, reach, start, whole, index0, g0);
      if reached.Err? {
        WalkFails(v0, reach, start, reached.error);
        return Err(reached.error);
      }
      TracingEnds(v0, reach, start, index0, k, g);
      var current := reached.value;
      return Ok(Seam(codes[..], direction, if direction == Vertical then current.x else current.y, 0));
    }

    /** The loop of BuildSeam over the step-code array: from the end cell (x, y) back to the
        first line, either failing as the walk `whole` does or reaching the cell where the walk
        ends, with every code recorded and every cell passed claimed and ranked. */
    method WalkBack(direction: Direction, size: Size, indexMap: array2<Int32>, k: Int32, codes: array<SeamPixelDirection>,
                    x: int, y: int, ghost v0: View, ghost reach: Size, ghost start: Point, ghost whole: Result<Trace>,
                    ghost index0: seq<seq<Int32>>, ghost g0: Progress)
      returns (r: Result<Point>, ghost g: Progress)
      requires (direction == Vertical || direction == Horizontal) && Covers(direction, size) && indexMap != MapOf(direction)
      requires ValidView(v0) && v0.d == direction && v0.size == size && v0.cum == Snap2(MapOf(direction))
      requires reach == Reach(indexMap) && g0.at.cur == Point(x, y) && g0.at.i == codes.Length - 1
      requires g0.used == Snap2(UsedOf(direction)) && g0.ranks == Snap2(indexMap) && g0.codes == codes[..]
      requires Tracing(v0, reach, start, whole, index0, k, g0)
      modifies UsedOf(direction), indexMap, codes
      ensures r.Err? ==> whole == Err(r.error)
      ensures r.Ok? ==> g.at.cur == r.value && g.at.i == 0
      ensures r.Ok? ==> g.used == Snap2(UsedOf(direction)) && g.ranks == Snap2(indexMap) && g.codes == codes[..]
      ensures r.Ok? ==> Tracing(v0, reach, start, whole, index0, k, g)
    {
      var pixelIndex := codes.Length - 1;
      var currentX, currentY := x, y;
      g := g0;
      while pixelIndex > 0
        invariant g.at.cur == Point(currentX, currentY) && g.at.i == pixelIndex
        invariant Traced(direction, size, indexMap, codes, v0, reach, start, whole, index0, k, g)
      {
        var step;
        ghost var next;
        step, next := Iterate(direction, size, indexMap, k, codes, pixelIndex, currentX, currentY,
                              v0, reach, start, whole, index0, g);
        if step.Err? {
          return Err(step.error), g;
        }
        currentX, currentY := step.value.cell.x, step.value.cell.y;
        pixelIndex := pixelIndex - 1;
        g := next;
      }
      return Ok(Point(currentX, currentY)), g;
    }

    /** The state of the walk back at g, tied to the arrays it updates: the walk is on its way
        (Tracing), and the claim mask, the index map and the codes array hold g's snapshots. */
    ghost predicate Traced(direction: Direction, size: Size, indexMap: array2<Int32>, codes: array<SeamPixelDirection>,
                           v0: View, reach: Size, start: Point, whole: Result<Trace>, index0: seq<seq<Int32>>,
                           k: Int32, g: Progress)
      reads this, MapOf(direction), UsedOf(direction), indexMap, codes
    {
      (direction == Vertical || direction == Horizontal) && Covers(direction, size) && indexMap != MapOf(direction) &&
      ValidView(v0) && v0.d == direction && v0.size == size && v0.cum == Snap2(MapOf(direction)) &&
      reach == Reach(indexMap) &&
      g.used == Snap2(UsedOf(direction)) && g.ranks == Snap2(indexMap) && g.codes == codes[..] &&
      Tracing(v0, reach, start, whole, index0, k, g)
    }

    /** One iteration of BuildSeam's loop from the in-grid cell (x, y) with pixelIndex i, which
        continues the walk `whole` from start: on success the loop stands at `next`, one line
        back, and on failure the walk fails with the same error. */
    method Iterate(direction: Direction, size: Size, indexMap: array2<Int32>, k: Int32, codes: array<SeamPixelDirection>,
                   pixelIndex: int, x: int, y: int, ghost v0: View, ghost reach: Size, ghost start: Point,
                   ghost whole: Result<Trace>, ghost index0: seq<seq<Int32>>, ghost g: Progress)
      returns (r: Result<Move>, ghost next: Progress)
      requires pixelIndex > 0 && g.at.cur == Point(x, y) && g.at.i == pixelIndex
      requires Traced(direction, size, indexMap, codes, v0, reach, start, whole, index0, k, g)
      modifies UsedOf(direction), indexMap, codes
      ensures r.Err? ==> whole == Err(r.error)
      ensures r.Ok? ==> next.at.cur == r.value.cell && next.at.i == pixelIndex - 1
      ensures r.Ok? ==> next.used == Snap2(UsedOf(direction)) && next.ranks == Snap2(indexMap) && next.codes == codes[..]
      ensures r.Ok? ==> Tracing(v0, reach, start, whole, index0, k, next)
    {
      next := g;
      var at := g.at;
      ghost var p := at.cur;
      ghost var w := ViewOf(direction, size);
      assert w.used == g.used;
      ClaimsAbove(v0, w, reach, at.cells + [start], p);
      assert codes[pixelIndex] == g.codes[pixelIndex] == Straight;
      var step := ChooseNeighbour(direction, size, x, y);
      if step.Err? {
        Halt(v0, w, reach, start, at, whole);
        return Err(step.error), next;
      }
      var m := step.value;
      var committed := Commit(direction, size, m, indexMap, k, codes, pixelIndex);
      if committed.Fail? {
        Halt(v0, w, reach, start, at, whole);
        return Err(committed.error), next;
      }
      TracingAdvances(v0, w, reach, start, whole, index0, k, g, m, Snap2(UsedOf(direction)), Snap2(indexMap), codes[..]);
      next := Progress(Place(m.cell, at.i - 1, [m.cell] + at.cells, [m.code] + at.codes),
                       Snap2(UsedOf(direction)), Snap2(indexMap), codes[..]);
      return Ok(m), next;
    }

    /** GetKthLowestEnergySeam: the seam backtracked from the k-th cheapest endpoint, valued at
        that endpoint's cost. A rank outside the list is an ArgumentOutOfRange. */
    method GetKthLowestEnergySeam(direction: Direction, size: Size, k: Int32, indexMap: array2?<Int32>) returns (r: Result<Seam>)
      requires (direction == Vertical || direction == Horizontal) && Covers(direction, size)
      requires indexMap != MapOf(direction)
      modifies UsedOf(direction), indexMap
      ensures !(0 <= k as int < |LowestOf(direction)|) ==>
        r == Err(ArgumentOutOfRange) && unchanged(UsedOf(direction)) && (indexMap != null ==> unchanged(indexMap))
      ensures 0 <= k as int < |LowestOf(direction)| ==>
        var e := LowestOf(direction)[k];
        var b := Build(old(ViewOf(direction, size)), Reach(indexMap), e.key, indexMap != null);
        (b.Err? ==> r == Err(b.error)) &&
        (b.Ok? ==>
          r == Ok(b.value.seam.(seamValue := e.value)) && indexMap != null &&
          ClaimsAdded(Snap2(UsedOf(direction)), old(Snap2(UsedOf(direction))), b.value.claimed) &&
          RanksAdded(Snap2(indexMap), old(Snap2(indexMap)), b.value.claimed, k))
      ensures 0 <= k as int < |LowestOf(direction)| ==>
        var p := LowestOf(direction)[k].key;
        (!InBounds(p.x, p.y, size) ==> Snap2(UsedOf(direction)) == old(Snap2(UsedOf(direction)))) &&
        (InBounds(p.x, p.y, size) && (indexMap == null || !InBounds(p.x, p.y, Reach(indexMap))) ==>
          ClaimsAdded(Snap2(UsedOf(direction)), old(Snap2(UsedOf(direction))), [p]))
    {
      var lowest := LowestOf(direction);
      if !(0 <= k as int < |lowest|) {
        return Err(ArgumentOutOfRange);
      }
      var seam :- BuildSeam(direction, lowest[k].key.x, lowest[k].key.y, size, indexMap, k);
      return Ok(seam.(seamValue := lowest[k].value));
    }

    /** RecomputeEnergyMapRange: the body is commented out in this revision, so it changes
        nothing. */
    method RecomputeEnergyMapRange(seam: Seam, size: Size)
    {
    }
  }
}
