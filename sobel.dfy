/** The Sobel energy filter (trunk/EnergyFunctions/Sobel.cs; the root revision's copy of the two
    private helpers is identical) and the energy map object that holds its output
    (trunk/EnergyFunctions/EnergyFunction.cs). */
module SobelFilter {
  import opened Constants
  import opened Numerics
  import opened Utilities
  import opened Pixels
  import opened Wrappers
  import opened Sweep
  import opened Seams

  /** Move a coordinate into [0, n): negative values go to 0, values at or past n to n - 1. */
  function Clamp(v: int, n: nat): (r: int)
    ensures n > 0 ==> 0 <= r < n
    ensures 0 <= v < n ==> r == v
  {
    if v < 0 then 0 else if v >= n then n - 1 else v
  }

  /** GetSobelPixel: the luminance of the nearest cell of the grid, so that the filter
      replicates the border; in an empty grid every read is 255. */
  function SobelPixel(img: seq<seq<Rgb>>, size: Size, x: int, y: int): (r: Byte)
    requires Fits(img, size)
    ensures InBounds(x, y, size) ==> r == GetPixel(img, size, x, y)
    ensures size.width == 0 || size.height == 0 ==> r == ByteMax
  {
    GetPixel(img, size, Clamp(x, size.width), Clamp(y, size.height))
  }

  /** The neighbour of (x, y) at column offset i and row offset j, as GetSobelPixel reads it. */
  function Tap(img: seq<seq<Rgb>>, size: Size, x: int, y: int, i: int, j: int): Byte
    requires Fits(img, size)
  {
    SobelPixel(img, size, x + i, y + j)
  }

  /** The first gradient of GetSobelEnergy: the row above minus the row below, the middle
      column counting twice. */
  function GradientX(img: seq<seq<Rgb>>, size: Size, x: int, y: int): int
    requires Fits(img, size)
  {
    var p0, p1, p2 := Tap(img, size, x, y, -1, -1), Tap(img, size, x, y, 0, -1), Tap(img, size, x, y, 1, -1);
    var p6, p7, p8 := Tap(img, size, x, y, -1, 1), Tap(img, size, x, y, 0, 1), Tap(img, size, x, y, 1, 1);
    p0 + (p1 + p1) + p2 - p6 - (p7 + p7) - p8
  }

  /** The second gradient: the right column minus the left column, the middle row counting twice. */
  function GradientY(img: seq<seq<Rgb>>, size: Size, x: int, y: int): int
    requires Fits(img, size)
  {
    var p0, p2, p3 := Tap(img, size, x, y, -1, -1), Tap(img, size, x, y, 1, -1), Tap(img, size, x, y, -1, 0);
    var p5, p6, p8 := Tap(img, size, x, y, 1, 0), Tap(img, size, x, y, -1, 1), Tap(img, size, x, y, 1, 1);
    p2 + (p5 + p5) + p8 - p0 - (p3 + p3) - p6
  }

  function Norm2(a: int, b: int): (r: nat)
  {
    Square(a) + Square(b)
  }

  /** The capped floor of the magnitude of a gradient (gx, gy). */
  function Magnitude(gx: int, gy: int): (r: Byte)
  {
    Cap255(ISqrt(Norm2(gx, gy)))
  }

  /** GetSobelEnergy: the floor of the gradient magnitude, capped at 255; a cell outside the grid
      has energy 255. */
  function SobelEnergy(img: seq<seq<Rgb>>, size: Size, x: int, y: int): (r: Byte)
    requires Fits(img, size)
    ensures !InBounds(x, y, size) ==> r == ByteMax
  {
    if InBounds(x, y, size) then Magnitude(GradientX(img, size, x, y), GradientY(img, size, x, y))
    else ByteMax
  }

  /** Inside the grid the energy is the floor of the gradient magnitude sqrt(gx^2 + gy^2), or
      255 when the magnitude reaches 255. */
  lemma SobelMagnitude(img: seq<seq<Rgb>>, size: Size, x: int, y: int)
    requires Fits(img, size) && InBounds(x, y, size)
    ensures var r, n := SobelEnergy(img, size, x, y), Norm2(GradientX(img, size, x, y), GradientY(img, size, x, y));
      (r < 255 ==> r * r <= n < (r + 1) * (r + 1)) && (r == 255 ==> 255 * 255 <= n)
  {
    var n := Norm2(GradientX(img, size, x, y), GradientY(img, size, x, y));
    ISqrtBounds(n);
    if ISqrt(n) >= 255 {
      MulMono(255, ISqrt(n));
    }
  }

  /** The Sobel kernels as 3x3 weight tables, indexed by column offset i and row offset j. */
  function KernelX(i: int, j: int): int
  {
    -j * (if i == 0 then 2 else 1)
  }

  function KernelY(i: int, j: int): int
  {
    i * (if j == 0 then 2 else 1)
  }

  /** The weighted sum of the border-replicated neighbourhood of (x, y), weights drawn from k. */
  function Convolve(k: (int, int) -> int, img: seq<seq<Rgb>>, size: Size, x: int, y: int): int
    requires Fits(img, size)
  {
    k(-1, -1) * Tap(img, size, x, y, -1, -1) + k(0, -1) * Tap(img, size, x, y, 0, -1) + k(1, -1) * Tap(img, size, x, y, 1, -1)
      + k(-1, 0) * Tap(img, size, x, y, -1, 0) + k(0, 0) * Tap(img, size, x, y, 0, 0) + k(1, 0) * Tap(img, size, x, y, 1, 0)
      + k(-1, 1) * Tap(img, size, x, y, -1, 1) + k(0, 1) * Tap(img, size, x, y, 0, 1) + k(1, 1) * Tap(img, size, x, y, 1, 1)
  }

  /** The two gradients are the convolutions with the Sobel kernels, so the filter computes the
      textbook Sobel magnitude. */
  lemma GradientsAreKernels(img: seq<seq<Rgb>>, size: Size, x: int, y: int)
    requires Fits(img, size)
    ensures GradientX(img, size, x, y) == Convolve(KernelX, img, size, x, y)
    ensures GradientY(img, size, x, y) == Convolve(KernelY, img, size, x, y)
  {
    assert KernelX(-1, -1) == 1 && KernelX(0, -1) == 2 && KernelX(1, -1) == 1;
    assert KernelX(-1, 0) == 0 && KernelX(0, 0) == 0 && KernelX(1, 0) == 0;
    assert KernelX(-1, 1) == -1 && KernelX(0, 1) == -2 && KernelX(1, 1) == -1;
    assert KernelY(-1, -1) == -1 && KernelY(0, -1) == 0 && KernelY(1, -1) == 1;
    assert KernelY(-1, 0) == -2 && KernelY(0, 0) == 0 && KernelY(1, 0) == 2;
    assert KernelY(-1, 1) == -1 && KernelY(0, 1) == 0 && KernelY(1, 1) == 1;
  }

  /** A cell whose neighbourhood has one luminance has energy 0. */
  lemma SobelFlat(img: seq<seq<Rgb>>, size: Size, x: int, y: int, c: Byte)
    requires Fits(img, size)
    requires InBounds(x, y, size)
    requires forall i, j :: -1 <= i <= 1 && -1 <= j <= 1 ==> Tap(img, size, x, y, i, j) == c
    ensures SobelEnergy(img, size, x, y) == 0
  {
    assert Tap(img, size, x, y, -1, -1) == c && Tap(img, size, x, y, 0, -1) == c && Tap(img, size, x, y, 1, -1) == c;
    assert Tap(img, size, x, y, -1, 0) == c && Tap(img, size, x, y, 1, 0) == c;
    assert Tap(img, size, x, y, -1, 1) == c && Tap(img, size, x, y, 0, 1) == c && Tap(img, size, x, y, 1, 1) == c;
    assert GradientX(img, size, x, y) == 0 && GradientY(img, size, x, y) == 0;
  }

  /** The image with rows and columns exchanged, over a grid of the given size. */
  function Transpose(img: seq<seq<Rgb>>, size: Size): (t: seq<seq<Rgb>>)
    requires Fits(img, size)
    ensures IsGrid(t, size.height, size.width)
    ensures forall a, b :: 0 <= a < size.height && 0 <= b < size.width ==> t[a][b] == img[b][a]
  {
    seq(size.height, a requires 0 <= a < size.height => seq(size.width, b requires 0 <= b < size.width => img[b][a]))
  }

  function Swap(size: Size): Size
  {
    Size(size.height, size.width)
  }

  lemma TransposeTap(img: seq<seq<Rgb>>, size: Size, x: int, y: int, i: int, j: int)
    requires Fits(img, size)
    ensures Fits(Transpose(img, size), Swap(size))
    ensures Tap(Transpose(img, size), Swap(size), y, x, j, i) == Tap(img, size, x, y, i, j)
  {
  }

  /** Transposing the image exchanges the two gradients and negates them. */
  lemma TransposeGradients(img: seq<seq<Rgb>>, size: Size, x: int, y: int)
    requires Fits(img, size)
    ensures Fits(Transpose(img, size), Swap(size))
    ensures GradientX(Transpose(img, size), Swap(size), y, x) == -GradientY(img, size, x, y)
    ensures GradientY(Transpose(img, size), Swap(size), y, x) == -GradientX(img, size, x, y)
  {
    TransposeTap(img, size, x, y, -1, -1);
    TransposeTap(img, size, x, y, 0, -1);
    TransposeTap(img, size, x, y, 1, -1);
    TransposeTap(img, size, x, y, -1, 0);
    TransposeTap(img, size, x, y, 1, 0);
    TransposeTap(img, size, x, y, -1, 1);
    TransposeTap(img, size, x, y, 0, 1);
    TransposeTap(img, size, x, y, 1, 1);
  }

  /** Exchanging and negating the two components leaves the magnitude unchanged. */
  lemma MagnitudeSwap(gx: int, gy: int, hx: int, hy: int)
    requires hx == -gy && hy == -gx
    ensures Magnitude(hx, hy) == Magnitude(gx, gy)
  {
    assert Square(hx) == Square(gy) && Square(hy) == Square(gx);
  }

  /** The filter does not prefer an axis: transposing the image transposes its energy map, so
      seams along either axis weigh the same edges. */
  lemma SobelTranspose(img: seq<seq<Rgb>>, size: Size, x: int, y: int)
    requires Fits(img, size)
    ensures Fits(Transpose(img, size), Swap(size))
    ensures SobelEnergy(Transpose(img, size), Swap(size), y, x) == SobelEnergy(img, size, x, y)
  {
    var t := Transpose(img, size);
    TransposeGradients(img, size, x, y);
    MagnitudeSwap(GradientX(img, size, x, y), GradientY(img, size, x, y),
                  GradientX(t, Swap(size), y, x), GradientY(t, Swap(size), y, x));
  }

  /** The cells the root revision's ComputeLocalEnergy rewrites for one seam point p: the cell
      before p on its along line when p's lateral coordinate is positive, and p itself when its
      lateral coordinate is below the lateral extent. */
  predicate Covers(d: Direction, size: Size, p: Point, c: Point)
  {
    (Lateral(d, p) > 0 && c == At(d, Along(d, p), Lateral(d, p) - 1)) ||
    (Lateral(d, p) < LateralExtent(d, size) && c == p)
  }

  /** Some point of ps covers c. */
  predicate Refreshed(d: Direction, size: Size, ps: seq<Point>, c: Point)
    decreases |ps|
  {
    |ps| > 0 && (Refreshed(d, size, ps[..|ps| - 1], c) || Covers(d, size, ps[|ps| - 1], c))
  }

  /** Taking one more point covers what that point covers. */
  lemma RefreshedStep(d: Direction, size: Size, ps: seq<Point>, i: nat)
    requires i < |ps|
    ensures forall c :: Refreshed(d, size, ps[..i + 1], c) <==> Refreshed(d, size, ps[..i], c) || Covers(d, size, ps[i], c)
  {
    assert ps[..i + 1][..i] == ps[..i];
  }

  /** No point of ps has a negative lateral coordinate. Writing the energy of such a point is an
      IndexOutOfRange. */
  predicate NoneNegative(d: Direction, ps: seq<Point>)
  {
    forall k :: 0 <= k < |ps| ==> Lateral(d, ps[k]) >= 0
  }

  /** The cells Refreshed names are exactly those some point covers. */
  lemma {:induction false} RefreshedIff(d: Direction, size: Size, ps: seq<Point>, c: Point)
    ensures Refreshed(d, size, ps, c) <==> exists k :: 0 <= k < |ps| && Covers(d, size, ps[k], c)
    decreases |ps|
  {
    if |ps| > 0 {
      var front := ps[..|ps| - 1];
      RefreshedIff(d, size, front, c);
      if Refreshed(d, size, front, c) {
        var k :| 0 <= k < |front| && Covers(d, size, front[k], c);
        assert ps[k] == front[k];
      }
      forall k | 0 <= k < |front| && Covers(d, size, ps[k], c)
        ensures Refreshed(d, size, front, c)
      {
        assert front[k] == ps[k];
      }
    }
  }

  /** A seam the root ComputeLocalEnergy accepts rewrites only cells of the current grid, on
      the along lines the seam passes through. */
  lemma RefreshedInGrid(s: Seam, size: Size, c: Point)
    requires Locations(s, size).Ok? && NoneNegative(s.direction, Locations(s, size).value)
    requires Refreshed(s.direction, size, Locations(s, size).value, c)
    ensures InBounds(c.x, c.y, size)
    ensures exists q :: q in Locations(s, size).value && Along(s.direction, q) == Along(s.direction, c)
  {
    var d, ps := s.direction, Locations(s, size).value;
    RefreshedIff(d, size, ps, c);
    var k :| 0 <= k < |ps| && Covers(d, size, ps[k], c);
    LocationsBounds(s, size);
    assert ps[k] in ps;
    AtCoordinates(d, Along(d, ps[k]), Lateral(d, ps[k]) - 1);
    AtInBounds(d, Along(d, c), Lateral(d, c), size);
    assert c == At(d, Along(d, c), Lateral(d, c));
  }

  /** Sobel plus the energy map its base class EnergyFunction holds. */
  class Sobel {
    var EnergyMap: array2<Int32>

    constructor (width: nat, height: nat)
      ensures fresh(EnergyMap) && EnergyMap.Length0 == width && EnergyMap.Length1 == height
    {
      EnergyMap := new Int32[width, height]((i, j) => 0);
    }

    /** EnergyFunction.GetEnergy: the stored energy of a cell of the current grid, 255 outside it. */
    function GetEnergy(x: int, y: int, size: Size): (r: int)
      reads this, EnergyMap
      requires size.width <= EnergyMap.Length0 && size.height <= EnergyMap.Length1
      ensures InBounds(x, y, size) ==> r == EnergyMap[x, y]
      ensures !InBounds(x, y, size) ==> r == ByteMax
    {
      if InBounds(x, y, size) then EnergyMap[x, y] else ByteMax
    }

    /** ComputeEnergy: a new map with the bitmap's dimensions, holding the Sobel energy of every
        cell of the current grid and 0 elsewhere. */
    method ComputeEnergy(bitmap: array2<Rgb>, size: Size)
      requires size.width <= bitmap.Length0 && size.height <= bitmap.Length1
      modifies this
      ensures fresh(EnergyMap)
      ensures EnergyMap.Length0 == bitmap.Length0 && EnergyMap.Length1 == bitmap.Length1
      ensures forall x, y :: 0 <= x < EnergyMap.Length0 && 0 <= y < EnergyMap.Length1 ==>
        EnergyMap[x, y] == if InBounds(x, y, size) then SobelEnergy(Snap2(bitmap), size, x, y) as int else 0
    {
      var img := Snap2(bitmap);
      var energy := new Int32[bitmap.Length0, bitmap.Length1]((i, j) => 0);
      FillByColumns(energy, size, (x, y) => SobelEnergy(img, size, x, y));
      EnergyMap := energy;
    }

    /** ComputeLocalEnergy: when a bitmap is given, recompute every cell of the current grid
        against the bitmap's own extent, row by row for a vertical direction and column by column
        otherwise; nothing else changes. */
    method ComputeLocalEnergy(bitmap: array2?<Rgb>, size: Size, direction: Direction)
      requires size.width <= EnergyMap.Length0 && size.height <= EnergyMap.Length1
      modifies EnergyMap
      ensures bitmap == null ==> unchanged(EnergyMap)
      ensures bitmap != null ==> forall x, y :: 0 <= x < EnergyMap.Length0 && 0 <= y < EnergyMap.Length1 ==>
        EnergyMap[x, y] == if InBounds(x, y, size)
          then SobelEnergy(Snap2(bitmap), Size(bitmap.Length0, bitmap.Length1), x, y) as int
          else old(EnergyMap[x, y])
    {
      if bitmap != null {
        var img, whole := Snap2(bitmap), Size(bitmap.Length0, bitmap.Length1);
        if direction == Vertical {
          RefreshByRows(EnergyMap, size, (x, y) => SobelEnergy(img, whole, x, y));
        } else {
          RefreshByColumns(EnergyMap, size, (x, y) => SobelEnergy(img, whole, x, y));
        }
      }
    }

    /** ComputeLocalEnergy of the root revision: when a bitmap is given, decode the seam and,
        for each of its points in order, recompute the cell before it on its along line (when
        there is one) and the point itself (when it lies inside the grid). A point with a
        negative lateral coordinate makes the write out of range; the decoder's own failure is
        passed on. Cells the seam does not cover keep their energy. */
    method ComputeLocalEnergyAlongSeam(bitmap: array2?<Rgb>, size: Size, seam: Seam) returns (r: Outcome)
      requires size.width <= EnergyMap.Length0 && size.height <= EnergyMap.Length1
      requires bitmap != null ==> size.width <= bitmap.Length0 && size.height <= bitmap.Length1
      modifies EnergyMap
      ensures bitmap == null ==> r == Pass && unchanged(EnergyMap)
      ensures bitmap != null ==>
        (r == Pass <==> Locations(seam, size).Ok? && NoneNegative(seam.direction, Locations(seam, size).value))
      ensures r.Fail? ==> r.error == IndexOutOfRange
      ensures bitmap != null && r == Pass ==>
        forall x, y :: 0 <= x < EnergyMap.Length0 && 0 <= y < EnergyMap.Length1 ==>
          EnergyMap[x, y] == if Refreshed(seam.direction, size, Locations(seam, size).value, Point(x, y))
            then SobelEnergy(Snap2(bitmap), size, x, y) as int else old(EnergyMap[x, y])
    {
      if bitmap == null {
        return Pass;
      }
      var img := Snap2(bitmap);
      r := RefreshAlongSeam(EnergyMap, size, seam, (x, y) => SobelEnergy(img, size, x, y));
    }
  }

  /** The loop of the root ComputeLocalEnergy, writing e(x, y) for the energy of (x, y). */
  method RefreshAlongSeam(grid: array2<Int32>, size: Size, seam: Seam, e: (int, int) -> Byte) returns (r: Outcome)
    requires size.width <= grid.Length0 && size.height <= grid.Length1
    modifies grid
    ensures r == Pass <==> Locations(seam, size).Ok? && NoneNegative(seam.direction, Locations(seam, size).value)
    ensures r.Fail? ==> r.error == IndexOutOfRange
    ensures r == Pass ==> forall x, y :: 0 <= x < grid.Length0 && 0 <= y < grid.Length1 ==>
      grid[x, y] == if Refreshed(seam.direction, size, Locations(seam, size).value, Point(x, y))
        then e(x, y) as int else old(grid[x, y])
  {
    var located := PixelLocations(seam, size);
    if located.Err? {
      LocationsFailure(seam, size);
      return Fail(located.error);
    }
    LocationsBounds(seam, size);
    r := RefreshPoints(grid, size, seam.direction, located.value, e);
  }

  /** The foreach over the decoded points: rewrite what each covers, in order, until a point
      fails. */
  method RefreshPoints(grid: array2<Int32>, size: Size, d: Direction, points: seq<Point>, e: (int, int) -> Byte)
    returns (r: Outcome)
    requires size.width <= grid.Length0 && size.height <= grid.Length1
    requires forall q :: q in points ==> 0 <= Along(d, q) < AlongExtent(d, size) && Lateral(d, q) <= LateralExtent(d, size)
    modifies grid
    ensures r == Pass <==> NoneNegative(d, points)
    ensures r.Fail? ==> r.error == IndexOutOfRange
    ensures r == Pass ==> forall x, y :: 0 <= x < grid.Length0 && 0 <= y < grid.Length1 ==>
      grid[x, y] == if Refreshed(d, size, points, Point(x, y)) then e(x, y) as int else old(grid[x, y])
  {
    for i := 0 to |points|
      invariant forall k :: 0 <= k < i ==> Lateral(d, points[k]) >= 0
      invariant forall x, y :: 0 <= x < grid.Length0 && 0 <= y < grid.Length1 ==>
        grid[x, y] == if Refreshed(d, size, points[..i], Point(x, y)) then e(x, y) as int else old(grid[x, y])
    {
      assert points[i] in points;
      RefreshedStep(d, size, points, i);
      label before:
      r := RefreshAround(grid, size, d, points[i], e);
      if r.Fail? {
        return;
      }
      forall x, y | 0 <= x < grid.Length0 && 0 <= y < grid.Length1
        ensures grid[x, y] == if Refreshed(d, size, points[..i + 1], Point(x, y)) then e(x, y) as int else old(grid[x, y])
      {
        if !Covers(d, size, points[i], Point(x, y)) {
          assert grid[x, y] == old@before(grid[x, y]);
        }
      }
    }
    assert points[..|points|] == points;
    r := Pass;
  }

  /** One iteration of that loop: rewrite the cells seam point p covers, in the source's order; a
      negative lateral coordinate fails on the write of p itself. */
  method RefreshAround(grid: array2<Int32>, size: Size, d: Direction, p: Point, e: (int, int) -> Byte)
    returns (r: Outcome)
    requires size.width <= grid.Length0 && size.height <= grid.Length1
    requires 0 <= Along(d, p) < AlongExtent(d, size) && Lateral(d, p) <= LateralExtent(d, size)
    modifies grid
    ensures r == Pass <==> Lateral(d, p) >= 0
    ensures r.Fail? ==> r.error == IndexOutOfRange
    ensures r == Pass ==> forall x, y :: 0 <= x < grid.Length0 && 0 <= y < grid.Length1 ==>
      grid[x, y] == if Covers(d, size, p, Point(x, y)) then e(x, y) as int else old(grid[x, y])
  {
    if d == Vertical {
      if p.x > 0 {
        grid[p.x - 1, p.y] := e(p.x - 1, p.y);
      }
      if p.x < size.width {
        if p.x < 0 {
          return Fail(IndexOutOfRange);
        }
        grid[p.x, p.y] := e(p.x, p.y);
      }
    } else {
      if p.y > 0 {
        grid[p.x, p.y - 1] := e(p.x, p.y - 1);
      }
      if p.y < size.height {
        if p.y < 0 {
          return Fail(IndexOutOfRange);
        }
        grid[p.x, p.y] := e(p.x, p.y);
      }
    }
    r := Pass;
  }

  /** The loop of ComputeEnergy: column by column, write e(x, y) into every cell of the current
      grid; cells outside it keep their values. */
  method FillByColumns(grid: array2<Int32>, size: Size, e: (int, int) -> Byte)
    requires size.width <= grid.Length0 && size.height <= grid.Length1
    modifies grid
    ensures forall x, y :: 0 <= x < grid.Length0 && 0 <= y < grid.Length1 ==>
      grid[x, y] == if InBounds(x, y, size) then e(x, y) as int else old(grid[x, y])
  {
    for x := 0 to size.width
      invariant forall i, j :: 0 <= i < grid.Length0 && 0 <= j < grid.Length1 ==>
        grid[i, j] == if i < x && j < size.height then e(i, j) as int else old(grid[i, j])
    {
      for y := 0 to size.height
        invariant forall i, j :: 0 <= i < grid.Length0 && 0 <= j < grid.Length1 ==>
          grid[i, j] == if (i < x && j < size.height) || (i == x && j < y) then e(i, j) as int else old(grid[i, j])
      {
        grid[x, y] := e(x, y);
      }
    }
  }

  /** The horizontal loop of ComputeLocalEnergy: column by column, rewrite every cell of the
      current grid with e. The source's branch for a cell whose new value is -1 cannot run, since
      the value just written is a byte. */
  method RefreshByColumns(grid: array2<Int32>, size: Size, e: (int, int) -> Byte)
    requires size.width <= grid.Length0 && size.height <= grid.Length1
    modifies grid
    ensures forall x, y :: 0 <= x < grid.Length0 && 0 <= y < grid.Length1 ==>
      grid[x, y] == if InBounds(x, y, size) then e(x, y) as int else old(grid[x, y])
  {
    for i := 0 to size.width
      invariant forall x, y :: 0 <= x < grid.Length0 && 0 <= y < grid.Length1 ==>
        grid[x, y] == if x < i && y < size.height then e(x, y) as int else old(grid[x, y])
    {
      for j := 0 to size.height
        invariant forall x, y :: 0 <= x < grid.Length0 && 0 <= y < grid.Length1 ==>
          grid[x, y] == if (x < i && y < size.height) || (x == i && y < j) then e(x, y) as int else old(grid[x, y])
      {
        grid[i, j] := e(i, j);
        if grid[i, j] == -1 {
          assert false;
        }
      }
    }
  }

  /** The vertical loop of ComputeLocalEnergy: row by row, rewrite every cell of the current grid
      with e; as above, the branch for a new value of -1 cannot run. */
  method RefreshByRows(grid: array2<Int32>, size: Size, e: (int, int) -> Byte)
    requires size.width <= grid.Length0 && size.height <= grid.Length1
    modifies grid
    ensures forall x, y :: 0 <= x < grid.Length0 && 0 <= y < grid.Length1 ==>
      grid[x, y] == if InBounds(x, y, size) then e(x, y) as int else old(grid[x, y])
  {
    for i := 0 to size.height
      invariant forall x, y :: 0 <= x < grid.Length0 && 0 <= y < grid.Length1 ==>
        grid[x, y] == if x < size.width && y < i then e(x, y) as int else old(grid[x, y])
    {
      for j := 0 to size.width
        invariant forall x, y :: 0 <= x < grid.Length0 && 0 <= y < grid.Length1 ==>
          grid[x, y] == if (x < size.width && y < i) || (y == i && x < j) then e(x, y) as int
                        else old(grid[x, y])
      {
        grid[j, i] := e(j, i);
        if grid[j, i] == -1 {
          assert false;
        }
      }
    }
  }
}
