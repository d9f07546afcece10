/** Seam.cs: a seam is a start index on the first along line plus one step code per along
    line; PixelLocations decodes it into the cells it passes through. */
module Seams {
  import opened Constants
  import opened Utilities
  import opened Wrappers
  import opened Sweep

  datatype Seam = Seam(pixelDirections: seq<SeamPixelDirection>, direction: Direction, startIndex: int,
                       seamValue: int)

  /** A fresh step-code array: n codes, all Straight. */
  function Straights(n: nat): (s: seq<SeamPixelDirection>)
    ensures |s| == n && forall j :: 0 <= j < n ==> s[j] == Straight
  {
    seq(n, _ => Straight)
  }

  /** The lateral move one step code makes. A vertical seam moves x up on Left and down on Right;
      any other seam moves y down on Left and up on Right. */
  function Delta(d: Direction, c: SeamPixelDirection): (r: int)
    ensures -1 <= r <= 1
    ensures r == 0 <==> c == Straight
  {
    match c
    case Straight => 0
    case Left => if d == Vertical then 1 else -1
    case Right => if d == Vertical then -1 else 1
  }

  /** The lateral offset accumulated by the first n step codes. */
  function Offset(d: Direction, codes: seq<SeamPixelDirection>, n: nat): int
    requires n <= |codes|
  {
    if n == 0 then 0 else Offset(d, codes, n - 1) + Delta(d, codes[n - 1])
  }

  /** The lateral offset the step codes from..to-1 make. */
  function Drift(d: Direction, codes: seq<SeamPixelDirection>, from: nat, to: nat): int
    requires from <= to <= |codes|
  {
    Offset(d, codes, to) - Offset(d, codes, from)
  }

  function Prepend(ps: seq<Point>, r: Result<seq<Point>>): Result<seq<Point>>
  {
    match r
    case Ok(q) => Ok(ps + q)
    case Err(e) => Err(e)
  }

  /** The cells PixelLocations yields from along line i onward, the current lateral coordinate
      being lat. Running out of step codes before the loop stops is an IndexOutOfRange. */
  function WalkFrom(s: Seam, size: Size, i: nat, lat: int): Result<seq<Point>>
    decreases AlongExtent(s.direction, size) - i
  {
    if !(lat < LateralExtent(s.direction, size) && i < AlongExtent(s.direction, size)) then Ok([])
    else if i >= |s.pixelDirections| then Err(IndexOutOfRange)
    else
      var lat' := lat + Delta(s.direction, s.pixelDirections[i]);
      Prepend([At(s.direction, i, lat')], WalkFrom(s, size, i + 1, lat'))
  }

  /** The cells of the seam inside a grid of the given size. */
  function Locations(s: Seam, size: Size): Result<seq<Point>>
  {
    WalkFrom(s, size, 0, s.startIndex)
  }

  lemma PrependAppend(a: seq<Point>, b: seq<Point>, r: Result<seq<Point>>)
    ensures Prepend(a, Prepend(b, r)) == Prepend(a + b, r)
  {
    if r.Ok? {
      assert a + (b + r.value) == (a + b) + r.value;
    }
  }

  lemma PrependNothing(r: Result<seq<Point>>)
    ensures Prepend([], r) == r
  {
    if r.Ok? {
      assert [] + r.value == r.value;
    }
  }

  /** The cells PixelLocations yields from along line i onward before its enumeration ends,
      normally or by running out of step codes: a caller that consumes them one at a time has
      handled all of these when the decoder throws. */
  function YieldedFrom(s: Seam, size: Size, i: nat, lat: int): seq<Point>
    decreases AlongExtent(s.direction, size) - i
  {
    if !(lat < LateralExtent(s.direction, size) && i < AlongExtent(s.direction, size)) || i >= |s.pixelDirections| then []
    else
      var lat' := lat + Delta(s.direction, s.pixelDirections[i]);
      [At(s.direction, i, lat')] + YieldedFrom(s, size, i + 1, lat')
  }

  function Yielded(s: Seam, size: Size): seq<Point>
  {
    YieldedFrom(s, size, 0, s.startIndex)
  }

  /** A walk that completes yields exactly the cells it returns. */
  lemma {:induction false} YieldedFromWalk(s: Seam, size: Size, i: nat, lat: int)
    requires WalkFrom(s, size, i, lat).Ok?
    ensures WalkFrom(s, size, i, lat).value == YieldedFrom(s, size, i, lat)
    decreases AlongExtent(s.direction, size) - i
  {
    if lat < LateralExtent(s.direction, size) && i < AlongExtent(s.direction, size) {
      var lat' := lat + Delta(s.direction, s.pixelDirections[i]);
      YieldedFromWalk(s, size, i + 1, lat');
    }
  }

  /** The k-th cell yielded from line i lies on along line i + k. */
  lemma {:induction false} YieldedFromLines(s: Seam, size: Size, i: nat, lat: int, k: int)
    requires 0 <= k < |YieldedFrom(s, size, i, lat)|
    ensures Along(s.direction, YieldedFrom(s, size, i, lat)[k]) == i + k
    decreases AlongExtent(s.direction, size) - i
  {
    var lat' := lat + Delta(s.direction, s.pixelDirections[i]);
    AtCoordinates(s.direction, i, lat');
    if k > 0 {
      YieldedFromLines(s, size, i + 1, lat', k - 1);
    }
  }

  /** The cells yielded and, when the walk completes, the cells returned lie one per along line,
      in order. */
  lemma YieldedLines(s: Seam, size: Size)
    ensures forall k :: 0 <= k < |Yielded(s, size)| ==> Along(s.direction, Yielded(s, size)[k]) == k
    ensures Locations(s, size).Ok? ==> Locations(s, size).value == Yielded(s, size)
  {
    forall k | 0 <= k < |Yielded(s, size)|
      ensures Along(s.direction, Yielded(s, size)[k]) == k
    {
      YieldedFromLines(s, size, 0, s.startIndex, k);
    }
    if Locations(s, size).Ok? {
      YieldedFromWalk(s, size, 0, s.startIndex);
    }
  }

  /** PixelLocations: decode the seam by walking its step codes. */
  method PixelLocations(s: Seam, size: Size) returns (r: Result<seq<Point>>)
    ensures r == Locations(s, size)
  {
    var x, y, xInc, yInc, currentIndex := 0, 0, 0, 0, 0;
    if s.direction == Vertical {
      x := s.startIndex;
      yInc := 1;
    } else {
      y := s.startIndex;
      xInc := 1;
    }
    var points: seq<Point> := [];
    PrependNothing(Locations(s, size));
    while x < size.width && y < size.height
      invariant 0 <= currentIndex
      invariant s.direction == Vertical ==> y == currentIndex && xInc == 0 && yInc == 1
      invariant s.direction != Vertical ==> x == currentIndex && xInc == 1 && yInc == 0
      invariant Locations(s, size) == Prepend(points, WalkFrom(s, size, currentIndex, Lateral(s.direction, Point(x, y))))
      decreases AlongExtent(s.direction, size) - currentIndex
    {
      if currentIndex >= |s.pixelDirections| {
        assert WalkFrom(s, size, currentIndex, Lateral(s.direction, Point(x, y))) == Err(IndexOutOfRange);
        return Err(IndexOutOfRange);
      }
      var seamPixelDirection := s.pixelDirections[currentIndex];
      currentIndex := currentIndex + 1;
      if seamPixelDirection == Left {
        if s.direction == Vertical { x := x + 1; } else { y := y - 1; }
      } else if seamPixelDirection == Right {
        if s.direction == Vertical { x := x - 1; } else { y := y + 1; }
      }
      PrependAppend(points, [Point(x, y)], WalkFrom(s, size, currentIndex, Lateral(s.direction, Point(x, y))));
      points := points + [Point(x, y)];
      x, y := x + xInc, y + yInc;
    }
    assert WalkFrom(s, size, currentIndex, Lateral(s.direction, Point(x, y))) == Ok([]);
    assert points + [] == points;
    r := Ok(points);
  }

  /** A successful walk from line i that yields cells ends within the codes and the along
      extent. */
  lemma {:induction false} WalkFromLength(s: Seam, size: Size, i: nat, lat: int)
    requires WalkFrom(s, size, i, lat).Ok?
    ensures var ps := WalkFrom(s, size, i, lat).value;
      |ps| > 0 ==> i + |ps| <= |s.pixelDirections| && i + |ps| <= AlongExtent(s.direction, size)
    decreases AlongExtent(s.direction, size) - i
  {
    var d, codes := s.direction, s.pixelDirections;
    if lat < LateralExtent(d, size) && i < AlongExtent(d, size) {
      WalkFromLength(s, size, i + 1, lat + Delta(d, codes[i]));
    }
  }

  /** The cells ps lie on consecutive along lines from i, the k-th at lateral lat plus the offset
      of the codes i..i+k. */
  ghost predicate ShapedFrom(d: Direction, codes: seq<SeamPixelDirection>, i: nat, lat: int, ps: seq<Point>)
    requires i <= |codes|
  {
    forall k :: 0 <= k < |ps| && i + k + 1 <= |codes| ==>
      ps[k] == At(d, i + k, lat + Offset(d, codes, i + k + 1) - Offset(d, codes, i))
  }

  /** What a successful walk from line i yields: cells shaped by the codes from line i. */
  lemma {:induction false} WalkFromShape(s: Seam, size: Size, i: nat, lat: int)
    requires WalkFrom(s, size, i, lat).Ok? && i <= |s.pixelDirections|
    ensures ShapedFrom(s.direction, s.pixelDirections, i, lat, WalkFrom(s, size, i, lat).value)
    decreases AlongExtent(s.direction, size) - i
  {
    var d, codes := s.direction, s.pixelDirections;
    if lat < LateralExtent(d, size) && i < AlongExtent(d, size) {
      var lat' := lat + Delta(d, codes[i]);
      WalkFromShape(s, size, i + 1, lat');
      var ps := WalkFrom(s, size, i, lat).value;
      var rest := WalkFrom(s, size, i + 1, lat').value;
      assert i < |codes| && ps == [At(d, i, lat')] + rest;
      ShapeStep(d, codes, i, lat, lat', ps, rest);
    }
  }

  /** One line of WalkFromShape: the cell on line i in front of the cells from line i + 1. */
  lemma ShapeStep(d: Direction, codes: seq<SeamPixelDirection>, i: nat, lat: int, lat': int, ps: seq<Point>, rest: seq<Point>)
    requires i < |codes| && lat' == lat + Delta(d, codes[i]) && ps == [At(d, i, lat')] + rest
    requires ShapedFrom(d, codes, i + 1, lat', rest)
    ensures ShapedFrom(d, codes, i, lat, ps)
  {
    assert Offset(d, codes, i + 1) == Offset(d, codes, i) + Delta(d, codes[i]);
    forall k | 0 <= k < |ps| && i + k + 1 <= |codes|
      ensures ps[k] == At(d, i + k, lat + Offset(d, codes, i + k + 1) - Offset(d, codes, i))
    {
      if k > 0 {
        assert ps[k] == rest[k - 1];
      }
    }
  }

  /** Closed form of a decoded seam: the k-th cell lies on along line k, at the start index
      moved by the first k+1 step codes; there is at most one cell per along line and the
      decoder never reads past the codes it has. */
  lemma LocationsClosedForm(s: Seam, size: Size)
    requires Locations(s, size).Ok?
    ensures var ps := Locations(s, size).value;
      |ps| <= |s.pixelDirections| && |ps| <= AlongExtent(s.direction, size) &&
      forall k :: 0 <= k < |ps| ==>
        ps[k] == At(s.direction, k, s.startIndex + Offset(s.direction, s.pixelDirections, k + 1))
  {
    WalkFromLength(s, size, 0, s.startIndex);
    WalkFromShape(s, size, 0, s.startIndex);
  }

  /** The decoder fails only by running out of step codes. */
  lemma {:induction false} WalkFromFailure(s: Seam, size: Size, i: nat, lat: int)
    requires WalkFrom(s, size, i, lat).Err?
    ensures WalkFrom(s, size, i, lat).error == IndexOutOfRange
    ensures i < |s.pixelDirections| ==> |s.pixelDirections| < AlongExtent(s.direction, size)
    decreases AlongExtent(s.direction, size) - i
  {
    var d := s.direction;
    if i < |s.pixelDirections| {
      WalkFromFailure(s, size, i + 1, lat + Delta(d, s.pixelDirections[i]));
    }
  }

  lemma LocationsFailure(s: Seam, size: Size)
    requires Locations(s, size).Err?
    ensures Locations(s, size).error == IndexOutOfRange
    ensures |s.pixelDirections| < AlongExtent(s.direction, size)
  {
    WalkFromFailure(s, size, 0, s.startIndex);
  }

  /** Every cell a walk from line i yields lies on an along line in [i, along extent), and its
      lateral coordinate is at most the lateral extent: the loop test is made before a step code
      moves the lateral coordinate, so the last move may end one past the grid. */
  lemma {:induction false} WalkFromBounds(s: Seam, size: Size, i: nat, lat: int)
    requires WalkFrom(s, size, i, lat).Ok?
    ensures forall q :: q in WalkFrom(s, size, i, lat).value ==>
      i <= Along(s.direction, q) < AlongExtent(s.direction, size) && Lateral(s.direction, q) <= LateralExtent(s.direction, size)
    decreases AlongExtent(s.direction, size) - i
  {
    var d := s.direction;
    if lat < LateralExtent(d, size) && i < AlongExtent(d, size) {
      var lat' := lat + Delta(d, s.pixelDirections[i]);
      WalkFromBounds(s, size, i + 1, lat');
      AtCoordinates(d, i, lat');
    }
  }

  /** The cells of a decoded seam stay on the grid's along lines and at most one past its
      lateral extent. */
  lemma LocationsBounds(s: Seam, size: Size)
    requires Locations(s, size).Ok?
    ensures forall q :: q in Locations(s, size).value ==>
      0 <= Along(s.direction, q) < AlongExtent(s.direction, size) && Lateral(s.direction, q) <= LateralExtent(s.direction, size)
  {
    WalkFromBounds(s, size, 0, s.startIndex);
  }

  /** Consecutive cells of a decoded seam lie on consecutive along lines and differ laterally by
      at most one: a seam is 8-connected. */
  lemma LocationsConnected(s: Seam, size: Size, k: nat)
    requires Locations(s, size).Ok?
    requires 0 < k < |Locations(s, size).value|
    ensures var ps := Locations(s, size).value;
      Along(s.direction, ps[k]) == Along(s.direction, ps[k - 1]) + 1 &&
      -1 <= Lateral(s.direction, ps[k]) - Lateral(s.direction, ps[k - 1]) <= 1
  {
    LocationsClosedForm(s, size);
  }

  /** A seam whose step codes cover every along line and whose path stays inside the grid decodes
      into exactly one cell per along line. */
  lemma {:induction false} WalkFromComplete(s: Seam, size: Size, i: nat, lat: int)
    requires i <= AlongExtent(s.direction, size) <= |s.pixelDirections|
    requires forall k :: i <= k < AlongExtent(s.direction, size) ==>
      lat + Drift(s.direction, s.pixelDirections, i, k) < LateralExtent(s.direction, size)
    ensures WalkFrom(s, size, i, lat).Ok?
    ensures |WalkFrom(s, size, i, lat).value| == AlongExtent(s.direction, size) - i
    decreases AlongExtent(s.direction, size) - i
  {
    var d, codes := s.direction, s.pixelDirections;
    if i < AlongExtent(d, size) {
      assert lat + Drift(d, codes, i, i) < LateralExtent(d, size);
      var lat', next := lat + Delta(d, codes[i]), i + 1;
      forall k | next <= k < AlongExtent(d, size)
        ensures lat' + Drift(d, codes, next, k) < LateralExtent(d, size)
      {
        assert lat + Drift(d, codes, i, k) < LateralExtent(d, size);
      }
      WalkFromComplete(s, size, next, lat');
    }
  }

  lemma LocationsComplete(s: Seam, size: Size)
    requires AlongExtent(s.direction, size) <= |s.pixelDirections|
    requires forall k :: 0 <= k < AlongExtent(s.direction, size) ==>
      s.startIndex + Offset(s.direction, s.pixelDirections, k) < LateralExtent(s.direction, size)
    ensures Locations(s, size).Ok?
    ensures |Locations(s, size).value| == AlongExtent(s.direction, size)
  {
    forall k | 0 <= k < AlongExtent(s.direction, size)
      ensures s.startIndex + Drift(s.direction, s.pixelDirections, 0, k) < LateralExtent(s.direction, size)
    {
    }
    WalkFromComplete(s, size, 0, s.startIndex);
  }
}
