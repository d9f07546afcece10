/** What the root revision's BuildSeam computes, over value snapshots. From the end cell it
    steps back one along line at a time; on the line before it looks at three neighbours: the
    cell straight behind, and the first unclaimed cell found by scanning sideways in each
    direction. It moves to the cheapest of the three (the right-hand one on every tie), records
    a step code, and claims the cell. */
module RootBacktrack {
  import opened Wrappers
  import opened Constants
  import opened Numerics
  import opened Utilities
  import opened Sweep
  import opened Seams

  /** KeyValuePair<Point, int>: a neighbour cell and what it costs to step there. */
  datatype Neighbour = Neighbour(cell: Point, cost: int)

  /** Which way GetNeighbour scans for a Left or Right neighbour: a vertical seam's Left looks
      towards smaller x, a horizontal seam's Left towards larger y. */
  function ScanStep(d: Direction, t: NeighbourType): (dl: int)
    requires t != StraightNeighbour
    ensures dl == 1 || dl == -1
  {
    if (d == Vertical) == (t == LeftNeighbour) then -1 else 1
  }

  /** The lateral scan of GetNeighbour on along line a: look at lateral l + dl, l + 2dl, ...;
      skip claimed cells, stop at the first unclaimed one with its cost, or at the first cell
      outside the grid with cost int.MaxValue. */
  function Scan(v: View, a: int, l: int, dl: int): Neighbour
    requires ValidView(v) && (dl == 1 || dl == -1)
    decreases if dl > 0 then LateralExtent(v.d, v.size) - l else l + 1
  {
    var q := At(v.d, a, l + dl);
    if !InBounds(q.x, q.y, v.size) then Neighbour(q, IntMax as int)
    else if v.used[q.x][q.y] then Scan(v, a, l + dl, dl)
    else Neighbour(q, v.cum[q.x][q.y] as int)
  }

  /** A claimed in-grid cell is skipped: the scan goes on from it. */
  lemma ScanSkips(v: View, a: int, m: int, dl: int, x: int, y: int)
    requires ValidView(v) && (dl == 1 || dl == -1) && Point(x, y) == At(v.d, a, m)
    requires InBounds(x, y, v.size) && v.used[x][y]
    ensures Scan(v, a, m - dl, dl) == Scan(v, a, m, dl)
  {
  }

  /** The scan stops at the first cell outside the grid or unclaimed. */
  lemma ScanStops(v: View, a: int, m: int, dl: int)
    requires ValidView(v) && (dl == 1 || dl == -1)
    requires var q := At(v.d, a, m); !InBounds(q.x, q.y, v.size) || !v.used[q.x][q.y]
    ensures var q := At(v.d, a, m);
      Scan(v, a, m - dl, dl) == Neighbour(q, if InBounds(q.x, q.y, v.size) then v.cum[q.x][q.y] as int else IntMax as int)
  {
  }

  /** GetNeighbour for LEFT or RIGHT from the cell p: a scan along the line before p's. */
  function SideNeighbour(v: View, p: Point, t: NeighbourType): Neighbour
    requires ValidView(v) && t != StraightNeighbour
  {
    Scan(v, Along(v.d, p) - 1, Lateral(v.d, p), ScanStep(v.d, t))
  }

  /** GetNeighbour for STRAIGHT from an in-grid cell p: the cell straight behind, at
      int.MaxValue when claimed. Its claim is read without a bounds test, so behind the leading
      line this is an IndexOutOfRange. */
  function StraightBehind(v: View, p: Point): Result<Neighbour>
    requires ValidView(v) && InBounds(p.x, p.y, v.size)
  {
    var q := At(v.d, Along(v.d, p) - 1, Lateral(v.d, p));
    if !InBounds(q.x, q.y, v.size) then Err(IndexOutOfRange)
    else Ok(Neighbour(q, if v.used[q.x][q.y] then IntMax as int else v.cum[q.x][q.y] as int))
  }

  function Chosen(c: Pick, left: Neighbour, straight: Neighbour, right: Neighbour): Neighbour
  {
    match c
    case First => left
    case Second => straight
    case Third => right
  }

  /** One backtracking move: the cell stepped to and the step code recorded for it. */
  datatype Move = Move(cell: Point, code: SeamPixelDirection)

  /** The neighbour BuildSeam's loop moves to from the in-grid cell p, and its code. The
      comparison is Choose3 on (left, straight, right). The code is Right when the chosen
      neighbour equals the right one (as a key and value pair), else Left when it equals the
      left one, else Straight. */
  function Choice(v: View, p: Point): Result<Move>
    requires ValidView(v) && InBounds(p.x, p.y, v.size)
  {
    var left := SideNeighbour(v, p, LeftNeighbour);
    match StraightBehind(v, p)
    case Err(e) => Err(e)
    case Ok(straight) => Ok(Picked(left, straight, SideNeighbour(v, p, RightNeighbour)))
  }

  /** The move to the neighbour the comparisons pick, with the code of the first of right and
      left that equals it, Straight when neither does. */
  function Picked(left: Neighbour, straight: Neighbour, right: Neighbour): Move
  {
    var chosen := Chosen(Choose3(left.cost, straight.cost, right.cost), left, straight, right);
    Move(chosen.cell, if chosen == right then Right else if chosen == left then Left else Straight)
  }

  /** One iteration of BuildSeam's loop from the in-grid cell p: the choice, then its claim and
      rank. Claiming a chosen cell outside the grid raises ArgumentOutOfRange; one outside
      the caller's index map, of extent `reach`, raises IndexOutOfRange. */
  function Step(v: View, reach: Size, p: Point): (r: Result<Move>)
    requires ValidView(v) && InBounds(p.x, p.y, v.size)
    ensures r.Ok? ==> InBounds(r.value.cell.x, r.value.cell.y, v.size) && InBounds(r.value.cell.x, r.value.cell.y, reach)
  {
    match Choice(v, p)
    case Err(e) => Err(e)
    case Ok(m) =>
      if !InBounds(m.cell.x, m.cell.y, v.size) then Err(ArgumentOutOfRange)
      else if !InBounds(m.cell.x, m.cell.y, reach) then Err(IndexOutOfRange)
      else Ok(m)
  }

  /** The cells a backtrack claims after its start, in along order, and the step codes of the
      seam (index 0 is never written and stays Straight). */
  datatype Trace = Trace(cells: seq<Point>, codes: seq<SeamPixelDirection>)

  /** The loop of BuildSeam from the in-grid cell p with pixelIndex i: moves at pixelIndex i,
      i - 1, ..., 1, each code stored at its pixelIndex. */
  function Walk(v: View, reach: Size, p: Point, i: int): Result<Trace>
    requires ValidView(v) && InBounds(p.x, p.y, v.size) && i >= -1
    decreases i, 1
  {
    if i <= 0 then Ok(Trace([], if i < 0 then [] else [Straight])) else WalkOn(v, reach, p, i)
  }

  /** One iteration of the loop at pixelIndex i > 0, then the walk from the cell it moves to. */
  function WalkOn(v: View, reach: Size, p: Point, i: int): Result<Trace>
    requires ValidView(v) && InBounds(p.x, p.y, v.size) && i > 0
    decreases i, 0
  {
    match Step(v, reach, p)
    case Err(e) => Err(e)
    case Ok(m) =>
      match Walk(v, reach, m.cell, i - 1)
      case Err(e) => Err(e)
      case Ok(t) => Ok(Trace(t.cells + [m.cell], t.codes + [m.code]))
  }

  /** The cell a walk ends on: its earliest claimed cell, or the start when it made no move. */
  function Origin(t: Trace, start: Point): Point
  {
    if t.cells == [] then start else t.cells[0]
  }

  /** A walk's result with moves already made appended: `cells` and `codes` are what the
      iterations before it produced. */
  function Extend(r: Result<Trace>, cells: seq<Point>, codes: seq<SeamPixelDirection>): Result<Trace>
  {
    match r
    case Err(e) => Err(e)
    case Ok(t) => Ok(Trace(t.cells + cells, t.codes + codes))
  }

  /** What BuildSeam yields from the end cell `start`: the seam with its step codes, the
      lateral coordinate of its origin as start index and value 0, together with every cell it
      claims. Claiming a start outside the grid raises ArgumentOutOfRange, a missing index map
      is a NullReference, and a start outside the index map an IndexOutOfRange. */
  datatype Built = Built(seam: Seam, claimed: seq<Point>)

  function Build(v: View, reach: Size, start: Point, hasIndexMap: bool): Result<Built>
    requires ValidView(v)
  {
    if !InBounds(start.x, start.y, v.size) then Err(ArgumentOutOfRange)
    else if !hasIndexMap then Err(NullReference)
    else if !InBounds(start.x, start.y, reach) then Err(IndexOutOfRange)
    else
      match Walk(v, reach, start, AlongExtent(v.d, v.size) - 1)
      case Err(e) => Err(e)
      case Ok(t) => Ok(Built(Seam(t.codes, v.d, Lateral(v.d, Origin(t, start)), 0), t.cells + [start]))
  }

  /** The lateral position j cells beyond l in scan direction dl. */
  function Beyond(l: int, j: int, dl: int): int
  {
    if dl > 0 then l + j else l - j
  }

  /** How many cells beyond l, in scan direction dl, the lateral position k lies. */
  function Distance(l: int, k: int, dl: int): int
  {
    if dl > 0 then k - l else l - k
  }

  /** GetNeighbour's scan finds the first unclaimed cell beyond l on line a: every cell it
      passes over is inside the grid and claimed, and it stops either on an unclaimed cell
      inside the grid, with that cell's cost, or on the first cell outside it, at
      int.MaxValue. */
  lemma {:induction false} ScanSkipsClaimed(v: View, a: int, l: int, dl: int)
    requires ValidView(v) && (dl == 1 || dl == -1)
    ensures var n := Scan(v, a, l, dl);
      var m := Distance(l, Lateral(v.d, n.cell), dl);
      Along(v.d, n.cell) == a && m >= 1 &&
      (forall j :: 1 <= j < m ==> Claimed(v, At(v.d, a, Beyond(l, j, dl)))) &&
      (if InBounds(n.cell.x, n.cell.y, v.size)
       then !v.used[n.cell.x][n.cell.y] && n.cost == v.cum[n.cell.x][n.cell.y] as int
       else n.cost == IntMax as int)
    decreases if dl > 0 then LateralExtent(v.d, v.size) - l else l + 1
  {
    var q := At(v.d, a, l + dl);
    if InBounds(q.x, q.y, v.size) && v.used[q.x][q.y] {
      ScanSkipsClaimed(v, a, l + dl, dl);
      var n := Scan(v, a, l, dl);
      var m := Distance(l, Lateral(v.d, n.cell), dl);
      forall j | 1 <= j < m
        ensures Claimed(v, At(v.d, a, Beyond(l, j, dl)))
      {
        if j > 1 {
          assert Beyond(l, j, dl) == Beyond(l + dl, j - 1, dl);
        }
      }
    }
  }

  /** The cell p is inside the grid and claimed. */
  predicate Claimed(v: View, p: Point)
    requires ValidView(v)
  {
    InBounds(p.x, p.y, v.size) && v.used[p.x][p.y]
  }

  /** Two views agree on along line a. */
  predicate SameLine(v: View, w: View, a: int)
    requires ValidView(v) && ValidView(w)
  {
    v.d == w.d && v.size == w.size &&
    (0 <= a < AlongExtent(v.d, v.size) ==>
      forall j :: 0 <= j < LateralExtent(v.d, v.size) ==>
        v.used[At(v.d, a, j).x][At(v.d, a, j).y] == w.used[At(v.d, a, j).x][At(v.d, a, j).y] &&
        v.cum[At(v.d, a, j).x][At(v.d, a, j).y] == w.cum[At(v.d, a, j).x][At(v.d, a, j).y])
  }

  /** A scan reads nothing but its own line. */
  lemma {:induction false} ScanFrame(v: View, w: View, a: int, l: int, dl: int)
    requires ValidView(v) && ValidView(w) && (dl == 1 || dl == -1) && SameLine(v, w, a)
    ensures Scan(v, a, l, dl) == Scan(w, a, l, dl)
    decreases if dl > 0 then LateralExtent(v.d, v.size) - l else l + 1
  {
    var q := At(v.d, a, l + dl);
    if InBounds(q.x, q.y, v.size) {
      AtInBounds(v.d, a, l + dl, v.size);
      if v.used[q.x][q.y] {
        ScanFrame(v, w, a, l + dl, dl);
      }
    }
  }

  /** A backtracking move from p reads nothing but the line behind p. */
  lemma StepFrame(v: View, w: View, reach: Size, p: Point)
    requires ValidView(v) && ValidView(w) && InBounds(p.x, p.y, v.size)
    requires SameLine(v, w, Along(v.d, p) - 1)
    ensures Step(v, reach, p) == Step(w, reach, p)
  {
    var a, l := Along(v.d, p) - 1, Lateral(v.d, p);
    ScanFrame(v, w, a, l, ScanStep(v.d, LeftNeighbour));
    ScanFrame(v, w, a, l, ScanStep(v.d, RightNeighbour));
    StraightFrame(v, w, p);
    assert Choice(v, p) == Choice(w, p);
  }

  /** The cell straight behind p, and its claim and cost, are read from the line behind. */
  lemma StraightFrame(v: View, w: View, p: Point)
    requires ValidView(v) && ValidView(w) && InBounds(p.x, p.y, v.size)
    requires SameLine(v, w, Along(v.d, p) - 1)
    ensures StraightBehind(v, p) == StraightBehind(w, p)
  {
    var a, l := Along(v.d, p) - 1, Lateral(v.d, p);
    var q := At(v.d, a, l);
    if InBounds(q.x, q.y, v.size) {
      AtInBounds(v.d, a, l, v.size);
    }
  }


  /** How a move is chosen: it goes one along line back, to the left neighbour only when that
      is strictly cheaper than both others, straight back only when that is no dearer than the
      left one and strictly cheaper than the right one, and to the right neighbour whenever it
      is no dearer than either; the code names the neighbour taken. */
  lemma StepChoice(v: View, reach: Size, p: Point)
    requires ValidView(v) && InBounds(p.x, p.y, v.size) && Step(v, reach, p).Ok?
    ensures StraightBehind(v, p).Ok?
    ensures var left, straight, right :=
        SideNeighbour(v, p, LeftNeighbour), StraightBehind(v, p).value, SideNeighbour(v, p, RightNeighbour);
      var m := Step(v, reach, p).value;
      Along(v.d, m.cell) == Along(v.d, p) - 1 &&
      (m.code == Left <==> left.cost < straight.cost && left.cost < right.cost) &&
      (m.code == Straight <==> straight.cost <= left.cost && straight.cost < right.cost) &&
      (m.code == Right <==> right.cost <= left.cost && right.cost <= straight.cost) &&
      (m.code == Left ==> m.cell == left.cell) &&
      (m.code == Straight ==> m.cell == straight.cell) &&
      (m.code == Right ==> m.cell == right.cell)
  {
    var a, l := Along(v.d, p) - 1, Lateral(v.d, p);
    ScanSkipsClaimed(v, a, l, ScanStep(v.d, LeftNeighbour));
    ScanSkipsClaimed(v, a, l, ScanStep(v.d, RightNeighbour));
    var left, right := SideNeighbour(v, p, LeftNeighbour), SideNeighbour(v, p, RightNeighbour);
    var straight := StraightBehind(v, p).value;
    assert Lateral(v.d, straight.cell) == l;
    assert left.cell != right.cell && left.cell != straight.cell && right.cell != straight.cell;
  }

  /** A successful walk from pixelIndex i claims one cell on each of the i lines behind p, in
      along order, each inside the grid and the index map, and produces i + 1 step codes whose
      first stays Straight. */
  lemma {:induction false} WalkShape(v: View, reach: Size, p: Point, i: int)
    requires ValidView(v) && InBounds(p.x, p.y, v.size) && i >= -1 && Walk(v, reach, p, i).Ok?
    ensures var t := Walk(v, reach, p, i).value;
      |t.codes| == i + 1 && |t.cells| == (if i < 0 then 0 else i) &&
      (i >= 0 ==> t.codes[0] == Straight) &&
      forall j :: 0 <= j < |t.cells| ==>
        Along(v.d, t.cells[j]) == Along(v.d, p) - i + j &&
        InBounds(t.cells[j].x, t.cells[j].y, v.size) && InBounds(t.cells[j].x, t.cells[j].y, reach)
    decreases i
  {
    if i > 0 {
      var m := Step(v, reach, p).value;
      StepChoice(v, reach, p);
      WalkShape(v, reach, m.cell, i - 1);
    }
  }

  /** A seam built from a cell on the last along line has one step code per along line, its
      first Straight, and claims exactly one cell on every along line, in order, the last being
      the end cell and the first being the cell its start index names. */
  lemma BuildShape(v: View, reach: Size, start: Point, hasIndexMap: bool)
    requires ValidView(v) && Build(v, reach, start, hasIndexMap).Ok?
    requires Along(v.d, start) == AlongExtent(v.d, v.size) - 1
    ensures var b := Build(v, reach, start, hasIndexMap).value;
      var n := AlongExtent(v.d, v.size);
      |b.seam.pixelDirections| == n && b.seam.pixelDirections[0] == Straight &&
      b.seam.direction == v.d && b.seam.seamValue == 0 &&
      |b.claimed| == n && b.claimed[n - 1] == start &&
      Lateral(v.d, b.claimed[0]) == b.seam.startIndex &&
      forall j :: 0 <= j < n ==> Along(v.d, b.claimed[j]) == j && InBounds(b.claimed[j].x, b.claimed[j].y, v.size)
  {
    WalkShape(v, reach, start, AlongExtent(v.d, v.size) - 1);
  }

  /** GetNeighbour from the in-grid cell p, for each neighbour type. */
  function NeighbourOf(v: View, p: Point, t: NeighbourType): Result<Neighbour>
    requires ValidView(v) && InBounds(p.x, p.y, v.size)
  {
    if t == StraightNeighbour then StraightBehind(v, p) else Ok(SideNeighbour(v, p, t))
  }

  /** One more iteration of the loop, seen from the whole walk: a move to m followed by the
      walk from m is the walk from p. */
  lemma ExtendStep(v: View, reach: Size, p: Point, i: int, m: Move, cells: seq<Point>, codes: seq<SeamPixelDirection>)
    requires ValidView(v) && InBounds(p.x, p.y, v.size) && i > 0 && Step(v, reach, p) == Ok(m)
    ensures Extend(Walk(v, reach, p, i), cells, codes) == Extend(Walk(v, reach, m.cell, i - 1), [m.cell] + cells, [m.code] + codes)
  {
    match Walk(v, reach, m.cell, i - 1)
    case Err(e) =>
    case Ok(t) =>
      assert (t.cells + [m.cell]) + cells == t.cells + ([m.cell] + cells);
      assert (t.codes + [m.code]) + codes == t.codes + ([m.code] + codes);
  }

  /** Where BuildSeam's loop stands: at the cell cur with pixelIndex i, having claimed `cells`
      (latest first) and recorded `codes` for the pixelIndexes above i. */
  datatype Place = Place(cur: Point, i: int, cells: seq<Point>, codes: seq<SeamPixelDirection>)

  /** The loop at `at` is on its way through the walk `whole` from start: cur is in the grid,
      the latest cell claimed, and no cell claimed lies on a line before cur's. */
  ghost predicate Walking(v0: View, reach: Size, start: Point, at: Place, whole: Result<Trace>)
    requires ValidView(v0)
  {
    InBounds(at.cur.x, at.cur.y, v0.size) && at.i >= 0 &&
    (at.cells == [] ==> at.cur == start) && (at.cells != [] ==> at.cells[0] == at.cur) &&
    (forall c :: c in at.cells + [start] ==> Along(v0.d, c) >= Along(v0.d, at.cur)) &&
    Ahead(v0, reach, at) == whole
  }

  /** The whole walk as seen from `at`: the rest of the walk from its cell, followed by what
      has been recorded so far. */
  ghost function Ahead(v0: View, reach: Size, at: Place): Result<Trace>
    requires ValidView(v0) && InBounds(at.cur.x, at.cur.y, v0.size) && at.i >= 0
  {
    Extend(Walk(v0, reach, at.cur, at.i), at.cells, at.codes)
  }

  /** The loop's bookkeeping across one successful iteration: when the move chosen on the
      current view w (on which a move from the loop's cell goes as on the view v0 the backtrack
      started from) is inside the grid and the index map, it is the walk's next move, one line
      back, and the loop stands at the cell it reaches. */
  lemma Advance(v0: View, w: View, reach: Size, start: Point, at: Place, m: Move, whole: Result<Trace>)
    requires ValidView(v0) && ValidView(w) && w.size == v0.size && Walking(v0, reach, start, at, whole) && at.i > 0
    requires Step(v0, reach, at.cur) == Step(w, reach, at.cur)
    requires Choice(w, at.cur) == Ok(m) && InBounds(m.cell.x, m.cell.y, v0.size) && InBounds(m.cell.x, m.cell.y, reach)
    ensures Walking(v0, reach, start, Place(m.cell, at.i - 1, [m.cell] + at.cells, [m.code] + at.codes), whole)
  {
    assert Step(w, reach, at.cur) == Ok(m);
    ExtendStep(v0, reach, at.cur, at.i, m, at.cells, at.codes);
    StepGoesBack(v0, reach, at.cur);
    StillAhead(v0.d, at.cells, start, at.cur, m.cell);
    var next := Place(m.cell, at.i - 1, [m.cell] + at.cells, [m.code] + at.codes);
    assert Ahead(v0, reach, next) == Ahead(v0, reach, at);
    assert next.cells[0] == next.cur;
  }

  /** A step lands on the line behind. */
  lemma StepGoesBack(v: View, reach: Size, p: Point)
    requires ValidView(v) && InBounds(p.x, p.y, v.size) && Step(v, reach, p).Ok?
    ensures Along(v.d, Step(v, reach, p).value.cell) == Along(v.d, p) - 1
  {
    StepChoice(v, reach, p);
  }

  /** Cells on or after p's line are after the line behind it, and so is the cell q there. */
  lemma StillAhead(d: Direction, cells: seq<Point>, start: Point, p: Point, q: Point)
    requires forall c :: c in cells + [start] ==> Along(d, c) >= Along(d, p)
    requires Along(d, q) == Along(d, p) - 1
    ensures forall c :: c in ([q] + cells) + [start] ==> Along(d, c) >= Along(d, q)
  {
    forall c | c in ([q] + cells) + [start]
      ensures Along(d, c) >= Along(d, q)
    {
      if c != q {
        assert c in cells + [start];
      }
    }
  }


  /** An iteration that fails on the current view fails the whole walk with the same error. */
  lemma Halt(v0: View, w: View, reach: Size, start: Point, at: Place, whole: Result<Trace>)
    requires ValidView(v0) && ValidView(w) && w.size == v0.size && Walking(v0, reach, start, at, whole) && at.i > 0
    requires Step(v0, reach, at.cur) == Step(w, reach, at.cur)
    requires Step(w, reach, at.cur).Err?
    ensures whole == Err(Step(w, reach, at.cur).error)
  {
    assert Walk(v0, reach, at.cur, at.i) == WalkOn(v0, reach, at.cur, at.i);
  }

  /** At pixelIndex 0 the walk is over: what it produced is what the iterations recorded, with
      the untouched code at index 0. */
  lemma Finish(v0: View, reach: Size, at: Place, whole: Result<Trace>)
    requires ValidView(v0) && InBounds(at.cur.x, at.cur.y, v0.size) && at.i == 0
    requires Ahead(v0, reach, at) == whole
    ensures whole == Ok(Trace(at.cells, [Straight] + at.codes))
  {
    assert Walk(v0, reach, at.cur, at.i) == Ok(Trace([], [Straight]));
    assert [] + at.cells == at.cells;
  }

  /** Build from an end cell inside the grid and the index map is the walk's outcome. */
  lemma BuildOfWalk(v: View, reach: Size, start: Point)
    requires ValidView(v) && InBounds(start.x, start.y, v.size) && InBounds(start.x, start.y, reach)
    ensures Walk(v, reach, start, AlongExtent(v.d, v.size) - 1).Err? ==>
      Build(v, reach, start, true) == Err(Walk(v, reach, start, AlongExtent(v.d, v.size) - 1).error)
    ensures Walk(v, reach, start, AlongExtent(v.d, v.size) - 1).Ok? ==>
      var t := Walk(v, reach, start, AlongExtent(v.d, v.size) - 1).value;
      Build(v, reach, start, true) == Ok(Built(Seam(t.codes, v.d, Lateral(v.d, Origin(t, start)), 0), t.cells + [start]))
  {
  }
}
