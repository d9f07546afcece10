/** What the trunk revision's BuildSeam computes, over value snapshots. From the end cell it
    steps back one along line at a time to the cheapest of the three cells on the line before
    (claimed cells and cells outside the grid cost int.MaxValue; the right-hand one wins every
    tie), clamps the lateral position to the grid, records the step code at the current pixel
    index unless the move was clamped or straight, and asks for the chosen cell to be claimed. */
module TrunkBacktrack {
  import opened Wrappers
  import opened Constants
  import opened Numerics
  import opened Utilities
  import opened Sweep
  import opened Seams

  /** GetCumulativeEnergy over a snapshot: the stored cost of an unclaimed cell of the grid,
      int.MaxValue for a claimed cell or one outside the grid. */
  function CostAt(v: View, p: Point): Int32
    requires ValidView(v)
  {
    if InBounds(p.x, p.y, v.size) && !v.used[p.x][p.y] then v.cum[p.x][p.y] else IntMax
  }

  /** One move back: the lateral position after it, the step code written for it (none when
      the move is straight or clamped), and the cell handed to SetUsedPixel. */
  datatype BackStep = BackStep(lat: int, code: Option<SeamPixelDirection>, mark: Point)

  /** The move from lateral l on along line a. A move towards lower lateral positions is Left
      for a vertical seam and Right for a horizontal one, and the other way round; a move that
      would leave the grid is clamped back to its edge and records nothing. */
  function StepFrom(v: View, a: int, l: int): (m: BackStep)
    requires ValidView(v)
  {
    var d := v.d;
    var p0, p1, p2 := At(d, a - 1, l - 1), At(d, a - 1, l), At(d, a - 1, l + 1);
    Move(d, LateralExtent(d, v.size), l, Choose3(CostAt(v, p0), CostAt(v, p1), CostAt(v, p2)), p0, p1, p2)
  }

  /** The move the pick c makes from lateral l among n lateral positions, the candidates being
      p0, p1 and p2 in lateral order. */
  function Move(d: Direction, n: int, l: int, c: Pick, p0: Point, p1: Point, p2: Point): BackStep
  {
    match c
    case First =>
      if l - 1 < 0 then BackStep(0, None, p0)
      else BackStep(l - 1, Some(if d == Vertical then Left else Right), p0)
    case Second => BackStep(l, None, p1)
    case Third =>
      if l + 1 > n - 1 then BackStep(n - 1, None, p2)
      else BackStep(l + 1, Some(if d == Vertical then Right else Left), p2)
  }

  /** A recorded code is the move decoding makes forward, the opposite of the move back; from
      inside the grid the move stays inside, goes at most one position, and records a code
      exactly when it changes the lateral position. */
  lemma StepFromMoves(v: View, a: int, l: int)
    requires ValidView(v)
    ensures var m := StepFrom(v, a, l);
      (m.code.Some? ==> Delta(v.d, m.code.value) == l - m.lat && m.lat != l) &&
      (0 <= l < LateralExtent(v.d, v.size) ==>
        0 <= m.lat < LateralExtent(v.d, v.size) && -1 <= m.lat - l <= 1 && (m.code.None? <==> m.lat == l))
  {
  }

  /** The cell handed to SetUsedPixel is an adjacent cell on the line before, no costlier than
      the other two; inside the grid it is the cell moved to. */
  lemma StepFromMark(v: View, a: int, l: int)
    requires ValidView(v)
    ensures var m := StepFrom(v, a, l);
      Along(v.d, m.mark) == a - 1 && -1 <= Lateral(v.d, m.mark) - l <= 1 &&
      (InBounds(m.mark.x, m.mark.y, v.size) && 0 <= l < LateralExtent(v.d, v.size) ==> m.mark == At(v.d, a - 1, m.lat)) &&
      CostAt(v, m.mark) <= CostAt(v, At(v.d, a - 1, l - 1)) && CostAt(v, m.mark) <= CostAt(v, At(v.d, a - 1, l)) &&
      CostAt(v, m.mark) <= CostAt(v, At(v.d, a - 1, l + 1))
  {
  }

  /** The move back from lateral l on along line a, given the three candidate cells and
      their costs. */
  lemma StepFromCandidates(v: View, a: int, l: int, p0: Point, p1: Point, p2: Point, e0: int, e1: int, e2: int)
    requires ValidView(v)
    requires p0 == At(v.d, a - 1, l - 1) && p1 == At(v.d, a - 1, l) && p2 == At(v.d, a - 1, l + 1)
    requires e0 == CostAt(v, p0) as int && e1 == CostAt(v, p1) as int && e2 == CostAt(v, p2) as int
    ensures StepFrom(v, a, l) == Move(v.d, LateralExtent(v.d, v.size), l, Choose3(e0, e1, e2), p0, p1, p2)
  {
  }

  /** The cell handed to SetUsedPixel lies on the line stepped back to. */
  lemma MarkOnLineBefore(v: View, a: int, l: int)
    requires ValidView(v)
    ensures Along(v.d, StepFrom(v, a, l).mark) == a - 1
  {
  }

  /** BuildSeam's loop state as values: the along line a and lateral position l of the current
      cell, the pixel index i, the step codes so far, the cells handed to SetUsedPixel in order,
      and the lateral positions visited, from the current line to the end cell's. */
  datatype Walker = Walker(a: int, l: int, i: int, codes: seq<SeamPixelDirection>, marks: seq<Point>, lats: seq<int>)

  /** The walker after the move m back from w's current cell. */
  function Advance(w: Walker, m: BackStep): (r: Walker)
    requires 0 < w.i < |w.codes|
    ensures r.i == w.i - 1 && |r.codes| == |w.codes|
  {
    Walker(w.a - 1, m.lat, w.i - 1, if m.code.Some? then w.codes[w.i := m.code.value] else w.codes,
           w.marks + [m.mark], [m.lat] + w.lats)
  }

  /** One iteration of the loop. */
  function Next(v: View, w: Walker): (r: Walker)
    requires ValidView(v) && 0 < w.i < |w.codes|
  {
    Advance(w, StepFrom(v, w.a, w.l))
  }

  /** The loop from w until the pixel index reaches 0. */
  function Run(v: View, w: Walker): Walker
    requires ValidView(v) && w.i < |w.codes|
    decreases if w.i > 0 then w.i else 0
  {
    if w.i <= 0 then w else Run(v, Next(v, w))
  }

  /** The state on entry to the loop from the end cell: pixel index N - 1 and N Straight codes,
      N being the along extent. */
  function Begin(v: View, start: Point): Walker
  {
    var n := AlongExtent(v.d, v.size);
    Walker(Along(v.d, start), Lateral(v.d, start), n - 1, Straights(n), [], [Lateral(v.d, start)])
  }

  /** The walker BuildSeam ends with. */
  function Built(v: View, start: Point): Walker
    requires ValidView(v)
  {
    Run(v, Begin(v, start))
  }

  /** The seam BuildSeam returns: its codes, its direction, and the lateral position it reached
      as the start index; the seam value is left at 0. */
  function BuiltSeam(v: View, start: Point): Seam
    requires ValidView(v)
  {
    var w := Built(v, start);
    Seam(w.codes, v.d, w.l, 0)
  }

  /** The cells along lines 0, 1, ... at the given lateral positions. */
  function Cells(d: Direction, lats: seq<int>): (ps: seq<Point>)
    ensures |ps| == |lats| && forall k :: 0 <= k < |lats| ==> ps[k] == At(d, k, lats[k])
  {
    seq(|lats|, k requires 0 <= k < |lats| => At(d, k, lats[k]))
  }

  /** The last cell lies on the given point when its line and lateral position are the point's. */
  lemma CellsEnd(d: Direction, lats: seq<int>, p: Point)
    requires |lats| > 0 && Along(d, p) == |lats| - 1 && lats[|lats| - 1] == Lateral(d, p)
    ensures Cells(d, lats)[|lats| - 1] == p
  {
    var q := Cells(d, lats)[|lats| - 1];
    assert q.x == p.x && q.y == p.y;
  }

  /** What the loop keeps when it starts from an in-grid cell of the last along line: the
      current line is the pixel index; the lateral positions visited stay in the grid, end at
      the end cell's, and begin at the current one; the codes at and below the pixel index are
      still Straight; and each code above it is the move that decoding makes from the line
      before to its own. */
  ghost predicate OnTrack(v: View, start: Point, w: Walker)
  {
    var n, d := AlongExtent(v.d, v.size), v.d;
    w.a == w.i && 0 <= w.i < n && |w.codes| == n && |w.lats| == n - w.i &&
    w.lats[0] == w.l && w.lats[|w.lats| - 1] == Lateral(d, start) &&
    (forall j :: 0 <= j < |w.lats| ==> 0 <= w.lats[j] < LateralExtent(d, v.size)) &&
    (forall j :: 0 <= j <= w.i ==> w.codes[j] == Straight) &&
    (forall j :: w.i < j < n ==> Delta(d, w.codes[j]) == w.lats[j - w.i] - w.lats[j - w.i - 1])
  }

  /** The cells handed to SetUsedPixel: one per iteration, on the line stepped back to; each one
      inside the grid is the cell visited on that line. */
  ghost predicate MarksVisited(v: View, w: Walker)
    requires |w.lats| == AlongExtent(v.d, v.size) - w.i
  {
    var n, d := AlongExtent(v.d, v.size), v.d;
    |w.marks| == n - 1 - w.i &&
    forall j :: 0 <= j < |w.marks| ==>
      Along(d, w.marks[j]) == n - 2 - j &&
      (InBounds(w.marks[j].x, w.marks[j].y, v.size) ==> w.marks[j] == At(d, n - 2 - j, w.lats[n - 2 - j - w.i]))
  }

  lemma BeginOnTrack(v: View, start: Point)
    requires ValidView(v) && InBounds(start.x, start.y, v.size)
    requires Along(v.d, start) == AlongExtent(v.d, v.size) - 1
    ensures OnTrack(v, start, Begin(v, start)) && MarksVisited(v, Begin(v, start))
  {
  }

  /** A move that stays in the grid, goes at most one position and records exactly the
      decoding move when it goes anywhere keeps the walker on track. */
  lemma AdvanceOnTrack(v: View, start: Point, w: Walker, m: BackStep)
    requires OnTrack(v, start, w) && w.i > 0
    requires 0 <= m.lat < LateralExtent(v.d, v.size)
    requires m.code.Some? ==> Delta(v.d, m.code.value) == w.l - m.lat
    requires m.code.None? ==> m.lat == w.l
    ensures OnTrack(v, start, Advance(w, m))
  {
    var n, d, r := AlongExtent(v.d, v.size), v.d, Advance(w, m);
    forall j | 0 <= j < |r.lats|
      ensures 0 <= r.lats[j] < LateralExtent(d, v.size)
    {
      if j > 0 {
        assert r.lats[j] == w.lats[j - 1];
      }
    }
    forall j | r.i < j < n
      ensures Delta(d, r.codes[j]) == r.lats[j - r.i] - r.lats[j - r.i - 1]
    {
      if j == w.i {
        assert r.lats[1] == w.l;
      } else {
        assert r.codes[j] == w.codes[j];
        assert r.lats[j - r.i] == w.lats[j - w.i] && r.lats[j - r.i - 1] == w.lats[j - w.i - 1];
      }
    }
  }

  /** A move whose mark lies on the line stepped back to, and inside the grid is the cell
      moved to, keeps the marks on the visited cells. */
  lemma AdvanceMarksVisited(v: View, w: Walker, m: BackStep)
    requires 0 < w.i < |w.codes| && |w.lats| == AlongExtent(v.d, v.size) - w.i && MarksVisited(v, w)
    requires Along(v.d, m.mark) == w.i - 1
    requires InBounds(m.mark.x, m.mark.y, v.size) ==> m.mark == At(v.d, w.i - 1, m.lat)
    ensures |Advance(w, m).lats| == AlongExtent(v.d, v.size) - Advance(w, m).i && MarksVisited(v, Advance(w, m))
  {
    var n, d, r := AlongExtent(v.d, v.size), v.d, Advance(w, m);
    forall j | 0 <= j < |r.marks|
      ensures Along(d, r.marks[j]) == n - 2 - j &&
        (InBounds(r.marks[j].x, r.marks[j].y, v.size) ==> r.marks[j] == At(d, n - 2 - j, r.lats[n - 2 - j - r.i]))
    {
      if j < |w.marks| {
        assert r.marks[j] == w.marks[j];
        assert r.lats[n - 2 - j - r.i] == w.lats[n - 2 - j - w.i];
      } else {
        assert r.marks[j] == m.mark && n - 2 - j == w.i - 1 && r.lats[n - 2 - j - r.i] == m.lat;
      }
    }
  }

  lemma NextOnTrack(v: View, start: Point, w: Walker)
    requires ValidView(v) && OnTrack(v, start, w) && MarksVisited(v, w) && w.i > 0
    ensures OnTrack(v, start, Next(v, w)) && MarksVisited(v, Next(v, w))
  {
    StepFromMoves(v, w.a, w.l);
    StepFromMark(v, w.a, w.l);
    AdvanceOnTrack(v, start, w, StepFrom(v, w.a, w.l));
    AdvanceMarksVisited(v, w, StepFrom(v, w.a, w.l));
  }

  lemma {:induction false} RunOnTrack(v: View, start: Point, w: Walker)
    requires ValidView(v) && OnTrack(v, start, w) && MarksVisited(v, w)
    ensures Run(v, w).i == 0 && OnTrack(v, start, Run(v, w)) && MarksVisited(v, Run(v, w))
    decreases w.i
  {
    if w.i > 0 {
      NextOnTrack(v, start, w);
      RunOnTrack(v, start, Next(v, w));
    }
  }

  /** Decoding the seam from line k on, the lateral position before line k being that of line
      k - 1 (or the start index for k = 0), yields the visited cells from line k on. */
  lemma {:induction false} DecodeFrom(s: Seam, size: Size, lats: seq<int>, k: nat, lat: int)
    requires |lats| == |s.pixelDirections| == AlongExtent(s.direction, size) > 0 && k <= |lats|
    requires s.pixelDirections[0] == Straight && lat == if k == 0 then lats[0] else lats[k - 1]
    requires forall j :: 0 <= j < |lats| ==> 0 <= lats[j] < LateralExtent(s.direction, size)
    requires forall j :: 0 < j < |lats| ==> Delta(s.direction, s.pixelDirections[j]) == lats[j] - lats[j - 1]
    ensures WalkFrom(s, size, k, lat) == Ok(Cells(s.direction, lats)[k..])
    decreases |lats| - k
  {
    var d := s.direction;
    if k < |lats| {
      assert 0 <= lat < LateralExtent(d, size) by {
        if k > 0 { assert 0 <= lats[k - 1] < LateralExtent(d, size); }
      }
      assert lat + Delta(d, s.pixelDirections[k]) == lats[k] by {
        if k > 0 { assert Delta(d, s.pixelDirections[k]) == lats[k] - lats[k - 1]; }
      }
      assert WalkFrom(s, size, k, lat) == Prepend([At(d, k, lats[k])], WalkFrom(s, size, k + 1, lats[k]));
      DecodeFrom(s, size, lats, k + 1, lats[k]);
      CellsSplit(d, lats, k);
    } else {
      assert Cells(d, lats)[k..] == [];
    }
  }

  /** The cells from line k on are the cell on line k followed by the cells after it. */
  lemma CellsSplit(d: Direction, lats: seq<int>, k: nat)
    requires k < |lats|
    ensures Cells(d, lats)[k..] == [At(d, k, lats[k])] + Cells(d, lats)[k + 1..]
  {
  }

  /** A seam whose codes are the moves between the given lateral positions, one per along
      line, decodes into the cells at those positions. */
  lemma DecodeAll(s: Seam, size: Size, lats: seq<int>)
    requires |lats| == |s.pixelDirections| == AlongExtent(s.direction, size) > 0
    requires s.startIndex == lats[0] && s.pixelDirections[0] == Straight
    requires forall j :: 0 <= j < |lats| ==> 0 <= lats[j] < LateralExtent(s.direction, size)
    requires forall j :: 0 < j < |lats| ==> Delta(s.direction, s.pixelDirections[j]) == lats[j] - lats[j - 1]
    ensures Locations(s, size) == Ok(Cells(s.direction, lats))
  {
    DecodeFrom(s, size, lats, 0, lats[0]);
    assert Cells(s.direction, lats)[0..] == Cells(s.direction, lats);
  }

  /** A finished walk decodes into the cells it visited. */
  lemma WalkerDecodes(v: View, start: Point, w: Walker)
    requires ValidView(v) && OnTrack(v, start, w) && w.i == 0
    ensures Locations(Seam(w.codes, v.d, w.l, 0), v.size) == Ok(Cells(v.d, w.lats))
  {
    var s, n := Seam(w.codes, v.d, w.l, 0), AlongExtent(v.d, v.size);
    assert |w.lats| == |s.pixelDirections| == n > 0 && s.pixelDirections[0] == Straight;
    forall j | 0 < j < |w.lats|
      ensures Delta(s.direction, s.pixelDirections[j]) == w.lats[j] - w.lats[j - 1]
    {
      assert j - w.i == j;
    }
    DecodeAll(s, v.size, w.lats);
  }

  /** A finished walk from a cell of the last along line visits one cell per line and ends
      at that cell. */
  lemma WalkerEnds(v: View, start: Point, w: Walker)
    requires Along(v.d, start) == AlongExtent(v.d, v.size) - 1
    requires OnTrack(v, start, w) && w.i == 0
    ensures var ps := Cells(v.d, w.lats);
      |ps| == AlongExtent(v.d, v.size) && ps[|ps| - 1] == start
  {
    CellsEnd(v.d, w.lats, start);
  }

  /** The cells a finished walk hands to SetUsedPixel inside the grid are cells it visited. */
  lemma WalkerMarks(v: View, w: Walker)
    requires |w.lats| == AlongExtent(v.d, v.size) && w.i == 0 && MarksVisited(v, w)
    ensures forall q :: q in w.marks && InBounds(q.x, q.y, v.size) ==> q in Cells(v.d, w.lats)
  {
    var ps := Cells(v.d, w.lats);
    forall q | q in w.marks && InBounds(q.x, q.y, v.size)
      ensures q in ps
    {
      var j :| 0 <= j < |w.marks| && w.marks[j] == q;
      var line := AlongExtent(v.d, v.size) - 2 - j;
      assert q == At(v.d, line, w.lats[line]) == ps[line];
    }
  }

  /** The round trip: a seam built from an in-grid cell of the last along line decodes into one
      cell per along line, namely the cells the backtrack visited, ending at the end cell; each
      cell handed to SetUsedPixel inside the grid is one of them. */
  lemma BuiltSeamDecodes(v: View, start: Point)
    requires ValidView(v) && InBounds(start.x, start.y, v.size)
    requires Along(v.d, start) == AlongExtent(v.d, v.size) - 1
    ensures var w := Built(v, start);
      var ps := Cells(v.d, w.lats);
      Locations(BuiltSeam(v, start), v.size) == Ok(ps) &&
      |ps| == AlongExtent(v.d, v.size) && ps[|ps| - 1] == start &&
      forall q :: q in w.marks && InBounds(q.x, q.y, v.size) ==> q in ps
  {
    BeginOnTrack(v, start);
    RunOnTrack(v, start, Begin(v, start));
    WalkerDecodes(v, start, Built(v, start));
    WalkerEnds(v, start, Built(v, start));
    WalkerMarks(v, Built(v, start));
  }
}
