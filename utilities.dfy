/** The grid helpers of trunk/Utilities.cs: the bounds test and the in-place line shift. */
module Utilities {
  import opened Constants
  import opened Numerics

  /** System.Drawing.Size: an image extent. */
  datatype Size = Size(width: nat, height: nat)

  /** System.Drawing.Point: a cell coordinate, possibly outside the grid. */
  datatype Point = Point(x: int, y: int)

  /** True when (x, y) lies inside a grid of the given size. */
  predicate InBounds(x: int, y: int, size: Size)
  {
    0 <= x < size.width && 0 <= y < size.height
  }

  /** A value snapshot of a 2D array, so that specification functions can speak of an array's
      contents at one moment. */
  function Snap2<T>(a: array2<T>): (s: seq<seq<T>>)
    reads a
    ensures |s| == a.Length0
    ensures forall i :: 0 <= i < a.Length0 ==> |s[i]| == a.Length1
    ensures forall i, j :: 0 <= i < a.Length0 && 0 <= j < a.Length1 ==> s[i][j] == a[i, j]
  {
    seq(a.Length0, i requires 0 <= i < a.Length0 reads a =>
      seq(a.Length1, j requires 0 <= j < a.Length1 reads a => a[i, j]))
  }

  /** Two grids with the same shape and the same cells are equal. */
  lemma GridsEqual<T>(a: seq<seq<T>>, b: seq<seq<T>>)
    requires |a| == |b| && forall i :: 0 <= i < |a| ==> |a[i]| == |b[i]|
    requires forall i, j :: 0 <= i < |a| && 0 <= j < |a[i]| ==> a[i][j] == b[i][j]
    ensures a == b
  {
    forall i | 0 <= i < |a|
      ensures a[i] == b[i]
    {
    }
  }

  /** A rectangular grid of values with `w` columns and `h` rows, indexed [x][y]. */
  predicate IsGrid<T>(g: seq<seq<T>>, w: int, h: int)
  {
    |g| == w && forall i :: 0 <= i < |g| ==> |g[i]| == h
  }

  /** The snapshot g covers every cell of a grid of the given size. */
  predicate Fits<T>(g: seq<seq<T>>, size: Size)
  {
    size.width <= |g| && forall i :: 0 <= i < size.width ==> size.height <= |g[i]|
  }

  /** The last cell ShiftArray writes along the shifted line: toIndex - 1, or fromIndex when the
      range holds fewer than two cells. */
  function ShiftEnd(fromIndex: int, toIndex: int): int
  {
    if fromIndex < toIndex - 1 then toIndex - 1 else fromIndex
  }

  /** ShiftArray: shift one line of a 2D array one cell towards lower indices over
      [fromIndex, toIndex), and write defaultValue into the vacated last cell. For a vertical
      direction the line is row `offset` (cells (j, offset)); for a horizontal one it is column
      `offset` (cells (offset, j)). For any other direction the source loops forever, so the
      direction is part of the precondition. */
  method ShiftArray<T>(grid: array2<T>, direction: Direction, offset: int, fromIndex: int, toIndex: int,
                       defaultValue: T)
    requires direction == Vertical || direction == Horizontal
    requires grid.Length0 < IntMax && grid.Length1 < IntMax
    requires direction == Vertical ==> 0 <= offset < grid.Length1 && 0 <= fromIndex < grid.Length0 && toIndex <= grid.Length0
    requires direction == Horizontal ==> 0 <= offset < grid.Length0 && 0 <= fromIndex < grid.Length1 && toIndex <= grid.Length1
    modifies grid
    ensures direction == Vertical ==> forall i, j :: 0 <= i < grid.Length0 && 0 <= j < grid.Length1 ==>
      grid[i, j] == (if j == offset && fromIndex <= i < toIndex - 1 then old(grid[i + 1, j])
                      else if j == offset && i == ShiftEnd(fromIndex, toIndex) then defaultValue
                      else old(grid[i, j]))
    ensures direction == Horizontal ==> forall i, j :: 0 <= i < grid.Length0 && 0 <= j < grid.Length1 ==>
      grid[i, j] == (if i == offset && fromIndex <= j < toIndex - 1 then old(grid[i, j + 1])
                      else if i == offset && j == ShiftEnd(fromIndex, toIndex) then defaultValue
                      else old(grid[i, j]))
  {
    var x, y, xMax, yMax, xInc, yInc := 0, 0, IntMax as int, IntMax as int, 0, 0;
    if direction == Vertical {
      x, y, xMax, xInc := fromIndex, offset, toIndex - 1, 1;
    } else {
      x, y, yMax, yInc := offset, fromIndex, toIndex - 1, 1;
    }
    while x < xMax && y < yMax
      invariant direction == Vertical ==> y == offset && fromIndex <= x <= ShiftEnd(fromIndex, toIndex)
      invariant direction == Horizontal ==> x == offset && fromIndex <= y <= ShiftEnd(fromIndex, toIndex)
      invariant direction == Vertical ==> xMax == toIndex - 1 && yMax == IntMax && xInc == 1 && yInc == 0
      invariant direction == Horizontal ==> yMax == toIndex - 1 && xMax == IntMax && xInc == 0 && yInc == 1
      invariant direction == Vertical ==> forall i, j :: 0 <= i < grid.Length0 && 0 <= j < grid.Length1 ==>
        grid[i, j] == (if j == offset && fromIndex <= i < x then old(grid[i + 1, j]) else old(grid[i, j]))
      invariant direction == Horizontal ==> forall i, j :: 0 <= i < grid.Length0 && 0 <= j < grid.Length1 ==>
        grid[i, j] == (if i == offset && fromIndex <= j < y then old(grid[i, j + 1]) else old(grid[i, j]))
      decreases xMax - x + yMax - y
    {
      grid[x, y] := grid[x + xInc, y + yInc];
      x, y := x + xInc, y + yInc;
    }
    grid[x, y] := defaultValue;
  }
}
