/** The pixel-buffer surgery of both revisions' SeamImage: copying the overlap of two bitmaps
    (CopyBitmap), shifting one line of pixels out (the trunk's ShiftPixels) and splitting an
    averaged pixel into a line (ShiftAddPixels). A bitmap is an array of pixels indexed [x, y]
    whose stride is three bytes per pixel, so the byte loops of the source move whole pixels,
    and the pixel after the last one of a row is the first one of the row below. An access
    the source makes outside the bitmap's pixels (unsafe code addressing past the buffer) is
    a failure in this model. */
module Bitmaps {
  import opened Constants
  import opened Numerics
  import opened Utilities
  import opened Wrappers
  import opened Pixels

  /** The colour of a pixel that is written as three zero bytes, and of a new bitmap's pixels. */
  const Black: Rgb := Rgb(0, 0, 0)

  /** (byte)((a + b) / 2) on two channels: the floor average, which never leaves the range
      between them, so the cast to byte never truncates. */
  function Average(a: Byte, b: Byte): (r: Byte)
    ensures a <= r <= b || b <= r <= a
    ensures 2 * r == a + b || 2 * r + 1 == a + b
  {
    (a + b) / 2
  }

  function AverageRgb(p: Rgb, q: Rgb): (r: Rgb)
    ensures r.blue == Average(p.blue, q.blue) && r.green == Average(p.green, q.green) && r.red == Average(p.red, q.red)
  {
    Rgb(Average(p.blue, q.blue), Average(p.green, q.green), Average(p.red, q.red))
  }

  /** Averaging a pixel with itself gives it back. */
  lemma AverageSame(p: Rgb)
    ensures AverageRgb(p, p) == p
  {
  }

  /** The pixels of a grid g at lateral positions from..to-1 of one line: row y for a vertical
      direction, column x otherwise. */
  function Line(g: seq<seq<Rgb>>, d: Direction, along: int, from: int, to: int): (s: seq<Rgb>)
    requires Rect(g) && 0 <= from <= to
    requires d == Vertical ==> to <= |g| && 0 <= along < Height(g)
    requires d != Vertical ==> 0 <= along < |g| && to <= Height(g)
    ensures |s| == to - from
  {
    if d == Vertical then seq(to - from, k requires 0 <= k < to - from => g[from + k][along])
    else g[along][from..to]
  }

  /** The number of rows of a grid indexed [x][y]. */
  function Height(g: seq<seq<Rgb>>): nat
  {
    if |g| == 0 then 0 else |g[0]|
  }

  /** g is rectangular: every column has the same number of rows. */
  predicate Rect(g: seq<seq<Rgb>>)
  {
    IsGrid(g, |g|, Height(g))
  }

  /** The grid g with cell (x, y) replaced by c. */
  function Put(g: seq<seq<Rgb>>, x: int, y: int, c: Rgb): (r: seq<seq<Rgb>>)
    requires 0 <= x < |g| && 0 <= y < |g[x]|
  {
    g[x := g[x][y := c]]
  }

  // ---------------------------------------------------------------- CopyBitmap

  /** The destination after CopyBitmap: every cell inside both bitmaps takes the source's pixel,
      every other cell keeps its own. */
  function Overlaid(dest: seq<seq<Rgb>>, src: seq<seq<Rgb>>, w: nat, h: nat, sw: nat, sh: nat): (r: seq<seq<Rgb>>)
    requires IsGrid(dest, w, h) && IsGrid(src, sw, sh)
    ensures IsGrid(r, w, h)
  {
    seq(w, i requires 0 <= i < w =>
      seq(h, j requires 0 <= j < h => if i < sw && j < sh then src[i][j] else dest[i][j]))
  }

  /** Copying a second time changes nothing. */
  lemma OverlaidIdempotent(dest: seq<seq<Rgb>>, src: seq<seq<Rgb>>, w: nat, h: nat, sw: nat, sh: nat)
    requires IsGrid(dest, w, h) && IsGrid(src, sw, sh)
    ensures Overlaid(Overlaid(dest, src, w, h, sw, sh), src, w, h, sw, sh) == Overlaid(dest, src, w, h, sw, sh)
  {
    var once := Overlaid(dest, src, w, h, sw, sh);
    GridsEqual(Overlaid(once, src, w, h, sw, sh), once);
  }

  /** Onto a bitmap no larger than the source, the copy is the source's top-left corner, and onto
      one of the same size it is the source itself. */
  lemma OverlaidCorner(dest: seq<seq<Rgb>>, src: seq<seq<Rgb>>, w: nat, h: nat, sw: nat, sh: nat)
    requires IsGrid(dest, w, h) && IsGrid(src, sw, sh) && w <= sw && h <= sh
    ensures forall i, j :: 0 <= i < w && 0 <= j < h ==> Overlaid(dest, src, w, h, sw, sh)[i][j] == src[i][j]
    ensures w == sw && h == sh ==> Overlaid(dest, src, w, h, sw, sh) == src
  {
    if w == sw && h == sh {
      var r := Overlaid(dest, src, w, h, sw, sh);
      forall i | 0 <= i < w
        ensures r[i] == src[i]
      {
      }
    }
  }

  /** CopyBitmap: copy rows [0, min height) and bytes [0, min stride) of each row, that is the
      pixels both bitmaps have, from src to dest. */
  method CopyBitmap(src: array2<Rgb>, dest: array2<Rgb>)
    modifies dest
    ensures Snap2(dest) == Overlaid(old(Snap2(dest)), old(Snap2(src)), dest.Length0, dest.Length1, src.Length0, src.Length1)
  {
    ghost var d0, s0 := Snap2(dest), Snap2(src);
    var yLimit := if src.Length1 < dest.Length1 then src.Length1 else dest.Length1;
    var xLimit := if dest.Length0 < src.Length0 then dest.Length0 else src.Length0;
    var y := 0;
    while y < yLimit
      invariant 0 <= y <= yLimit
      invariant forall i, j :: 0 <= i < src.Length0 && 0 <= j < src.Length1 ==> src[i, j] == s0[i][j]
      invariant forall i, j :: 0 <= i < dest.Length0 && 0 <= j < dest.Length1 ==>
        dest[i, j] == if i < xLimit && j < y then s0[i][j] else d0[i][j]
    {
      var x := 0;
      while x < xLimit
        invariant 0 <= x <= xLimit
        invariant forall i, j :: 0 <= i < src.Length0 && 0 <= j < src.Length1 ==> src[i, j] == s0[i][j]
        invariant forall i, j :: 0 <= i < dest.Length0 && 0 <= j < dest.Length1 ==>
          dest[i, j] == if (i < xLimit && j < y) || (i < x && j == y) then s0[i][j] else d0[i][j]
      {
        dest[x, y] := src[x, y];
        x := x + 1;
      }
      y := y + 1;
    }
    GridsEqual(Snap2(dest), Overlaid(d0, s0, dest.Length0, dest.Length1, src.Length0, src.Length1));
  }

  // ---------------------------------------------------------------- ShiftPixels

  /** The pixels ShiftPixels touches at lateral position l of line `along`, the line holding
      `extent` cells of the current grid, lie inside a bitmap of w x h pixels. */
  predicate ShiftFits(d: Direction, along: int, l: int, extent: int, w: int, h: int)
  {
    if d == Vertical then 0 <= along < h && 0 <= l < w && extent <= w
    else 0 <= along < w && 0 <= l < h && extent <= h
  }

  /** The grid after ShiftPixels at lateral position l of line `along`: the cells l..extent-2
      take their successors' pixels and the last cell written, ShiftEnd(l, extent), turns black;
      every other cell keeps its pixel. */
  function ShiftedOut(g: seq<seq<Rgb>>, d: Direction, along: int, l: int, extent: int): (r: seq<seq<Rgb>>)
    requires Rect(g)
    requires ShiftFits(d, along, l, extent, |g|, Height(g))
    ensures IsGrid(r, |g|, Height(g))
  {
    seq(|g|, i requires 0 <= i < |g| =>
      seq(Height(g), j requires 0 <= j < Height(g) => ShiftedOutCell(g, d, along, l, extent, i, j)))
  }

  function ShiftedOutCell(g: seq<seq<Rgb>>, d: Direction, along: int, l: int, extent: int, i: int, j: int): Rgb
    requires Rect(g)
    requires ShiftFits(d, along, l, extent, |g|, Height(g))
    requires 0 <= i < |g| && 0 <= j < Height(g)
  {
    var lat := if d == Vertical then i else j;
    var on := if d == Vertical then j == along else i == along;
    if on && l <= lat < extent - 1 then (if d == Vertical then g[i + 1][j] else g[i][j + 1])
    else if on && lat == ShiftEnd(l, extent) then Black
    else g[i][j]
  }

  /** ShiftPixels removes the pixel at l from its line: the rest of the line slides one place
      towards l and the line ends in black. */
  lemma ShiftedOutLine(g: seq<seq<Rgb>>, d: Direction, along: int, l: int, extent: int)
    requires Rect(g)
    requires ShiftFits(d, along, l, extent, |g|, Height(g)) && l < extent
    ensures Line(ShiftedOut(g, d, along, l, extent), d, along, l, extent) == Line(g, d, along, l + 1, extent) + [Black]
  {
    var a, b := Line(ShiftedOut(g, d, along, l, extent), d, along, l, extent), Line(g, d, along, l + 1, extent) + [Black];
    forall k | 0 <= k < |a|
      ensures a[k] == b[k]
    {
      ShiftedOutAt(g, d, along, l, extent, k);
    }
  }

  /** The k-th cell of the shifted line from l on. */
  lemma ShiftedOutAt(g: seq<seq<Rgb>>, d: Direction, along: int, l: int, extent: int, k: int)
    requires Rect(g)
    requires ShiftFits(d, along, l, extent, |g|, Height(g)) && 0 <= k < extent - l
    ensures Line(ShiftedOut(g, d, along, l, extent), d, along, l, extent)[k] ==
            if k < extent - l - 1 then Line(g, d, along, l + 1, extent)[k] else Black
  {
    var r := ShiftedOut(g, d, along, l, extent);
    var i, j := if d == Vertical then l + k else along, if d == Vertical then along else l + k;
    assert Line(r, d, along, l, extent)[k] == r[i][j] == ShiftedOutCell(g, d, along, l, extent, i, j);
  }

  /** The cells of the line before l keep their pixels. */
  lemma ShiftedOutKeepsFront(g: seq<seq<Rgb>>, d: Direction, along: int, l: int, extent: int)
    requires Rect(g)
    requires ShiftFits(d, along, l, extent, |g|, Height(g))
    ensures Line(ShiftedOut(g, d, along, l, extent), d, along, 0, l) == Line(g, d, along, 0, l)
  {
    var r := ShiftedOut(g, d, along, l, extent);
    var a, b := Line(r, d, along, 0, l), Line(g, d, along, 0, l);
    forall k | 0 <= k < |a|
      ensures a[k] == b[k]
    {
      if d == Vertical {
        assert a[k] == r[k][along];
      } else {
        assert a[k] == r[along][k];
      }
    }
  }

  /** ShiftPixels: remove the pixel (x, y) from its row (vertical) or column (otherwise) of the
      current grid of width x height cells, by ShiftArray's line shift with black as the value
      left behind. Any direction but Vertical and Horizontal leaves the bitmap alone. */
  method ShiftPixels(bmp: array2<Rgb>, direction: Direction, x: int, y: int, width: int, height: int) returns (r: Outcome)
    requires bmp.Length0 < IntMax && bmp.Length1 < IntMax
    modifies bmp
    ensures direction != Vertical && direction != Horizontal ==> r == Pass && unchanged(bmp)
    ensures direction == Vertical || direction == Horizontal ==>
      var along, l, extent := if direction == Vertical then y else x, if direction == Vertical then x else y,
                              if direction == Vertical then width else height;
      (r == Pass <==> ShiftFits(direction, along, l, extent, bmp.Length0, bmp.Length1)) &&
      (r.Fail? ==> r.error == IndexOutOfRange && unchanged(bmp)) &&
      (r == Pass ==> Snap2(bmp) == ShiftedOut(old(Snap2(bmp)), direction, along, l, extent))
  {
    if direction != Vertical && direction != Horizontal {
      return Pass;
    }
    var along, l, extent := if direction == Vertical then y else x, if direction == Vertical then x else y,
                            if direction == Vertical then width else height;
    if !ShiftFits(direction, along, l, extent, bmp.Length0, bmp.Length1) {
      return Fail(IndexOutOfRange);
    }
    ghost var g0 := Snap2(bmp);
    ShiftArray(bmp, direction, along, l, extent, Black);
    GridsEqual(Snap2(bmp), ShiftedOut(g0, direction, along, l, extent));
    return Pass;
  }

  // ---------------------------------------------------------------- ShiftAddPixels

  /** A vertical ShiftAddPixels at (x, y) in a row of `width` cells either runs its loop (when
      x + 3 <= width - 1) or does not; these are the pixels it then touches, all inside a
      bitmap of w x h pixels. Without the loop it reads the pixel after (width - 1, y), which
      is the first pixel of the row below when the row is the bitmap's full width. A
      horizontal one runs its loop only when y + 2 <= h - 1, and without it reads the row
      below the bitmap. */
  predicate SpliceFits(d: Direction, x: int, y: int, width: int, w: int, h: int)
  {
    if d == Vertical then
      0 <= y < h && width <= w &&
      (if x + 3 <= width - 1 then -1 <= x else 2 <= width && (width == w ==> y + 1 < h))
    else 0 <= x < w && 0 <= y && y + 2 <= h - 1
  }

  /** The pixel the bitmap's buffer holds right after those up to (x - 1, y), read row by row:
      (x, y) inside the row, the first pixel of the row below past the row's end. */
  function Following(g: seq<seq<Rgb>>, x: int, y: int): Rgb
    requires Rect(g) && 0 <= x <= |g| && 0 <= y < Height(g) && (x == |g| ==> y + 1 < Height(g))
  {
    if x < |g| then g[x][y] else g[0][y + 1]
  }

  /** The grid after a vertical ShiftAddPixels at (x, y) in a row of `width` cells. When the
      loop runs, pixels x+3..width-1 take the old x+2..width-2 and pixel x+2 becomes the average
      of the old x+1 and x+2; otherwise only pixel width-1 changes, to the average of the pixel
      before it and the one following it in the buffer. */
  function SplicedRow(g: seq<seq<Rgb>>, x: int, y: int, width: int): (r: seq<seq<Rgb>>)
    requires Rect(g)
    requires SpliceFits(Vertical, x, y, width, |g|, Height(g))
    ensures IsGrid(r, |g|, Height(g))
  {
    seq(|g|, i requires 0 <= i < |g| =>
      seq(Height(g), j requires 0 <= j < Height(g) => SplicedRowCell(g, x, y, width, i, j)))
  }

  function SplicedRowCell(g: seq<seq<Rgb>>, x: int, y: int, width: int, i: int, j: int): Rgb
    requires Rect(g)
    requires SpliceFits(Vertical, x, y, width, |g|, Height(g))
    requires 0 <= i < |g| && 0 <= j < Height(g)
  {
    if j != y then g[i][j]
    else if x + 3 <= width - 1 then
      (if x + 3 <= i < width then g[i - 1][j]
       else if i == x + 2 then AverageRgb(g[x + 1][j], g[x + 2][j])
       else g[i][j])
    else if i == width - 1 then AverageRgb(g[width - 2][j], Following(g, width, j))
    else g[i][j]
  }

  /** The grid after a horizontal ShiftAddPixels at (x, y): rows y+2..h-1 of column x take the
      old rows y+1..h-2 and row y+1 becomes the average of the old rows y and y+1. */
  function SplicedColumn(g: seq<seq<Rgb>>, x: int, y: int): (r: seq<seq<Rgb>>)
    requires Rect(g)
    requires SpliceFits(Horizontal, x, y, 0, |g|, Height(g))
    ensures IsGrid(r, |g|, Height(g))
  {
    seq(|g|, i requires 0 <= i < |g| =>
      seq(Height(g), j requires 0 <= j < Height(g) => SplicedColumnCell(g, x, y, i, j)))
  }

  function SplicedColumnCell(g: seq<seq<Rgb>>, x: int, y: int, i: int, j: int): Rgb
    requires Rect(g)
    requires SpliceFits(Horizontal, x, y, 0, |g|, Height(g))
    requires 0 <= i < |g| && 0 <= j < Height(g)
  {
    if i != x then g[i][j]
    else if y + 2 <= j then g[i][j - 1]
    else if j == y + 1 then AverageRgb(g[i][y], g[i][y + 1])
    else g[i][j]
  }

  /** The line form of a vertical splice that runs its loop: the averaged pixel goes in at
      x + 2, before the old pixel there, the rest of the row moves one place on, and the row's
      last pixel drops off the end. */
  lemma SplicedRowLine(g: seq<seq<Rgb>>, x: int, y: int, width: int)
    requires Rect(g) && SpliceFits(Vertical, x, y, width, |g|, Height(g)) && x + 3 <= width - 1
    ensures Line(SplicedRow(g, x, y, width), Vertical, y, x + 2, width) ==
            [AverageRgb(g[x + 1][y], g[x + 2][y])] + Line(g, Vertical, y, x + 2, width - 1)
  {
    var s := SplicedRow(g, x, y, width);
    var a := Line(s, Vertical, y, x + 2, width);
    var b := [AverageRgb(g[x + 1][y], g[x + 2][y])] + Line(g, Vertical, y, x + 2, width - 1);
    forall k | 0 <= k < |a|
      ensures a[k] == b[k]
    {
      assert a[k] == s[x + 2 + k][y];
    }
  }

  /** The line form of a horizontal splice: the averaged pixel goes in at y + 1, the rest of
      the column moves one place down, and its last pixel drops off the end. */
  lemma SplicedColumnLine(g: seq<seq<Rgb>>, x: int, y: int)
    requires Rect(g) && SpliceFits(Horizontal, x, y, 0, |g|, Height(g))
    ensures Line(SplicedColumn(g, x, y), Horizontal, x, y + 1, Height(g)) ==
            [AverageRgb(g[x][y], g[x][y + 1])] + Line(g, Horizontal, x, y + 1, Height(g) - 1)
  {
    var s := SplicedColumn(g, x, y);
    var a := Line(s, Horizontal, x, y + 1, Height(g));
    var b := [AverageRgb(g[x][y], g[x][y + 1])] + Line(g, Horizontal, x, y + 1, Height(g) - 1);
    forall k | 0 <= k < |a|
      ensures a[k] == b[k]
    {
      assert a[k] == s[x][y + 1 + k];
    }
  }

  /** Shifting the averaged pixel out again (ShiftPixels at x + 2 over the same row) restores
      the grid, except that the pixel the splice pushed off the end of the row is now black. */
  lemma ShiftUndoesSpliceRow(g: seq<seq<Rgb>>, x: int, y: int, width: int)
    requires Rect(g) && SpliceFits(Vertical, x, y, width, |g|, Height(g)) && x + 3 <= width - 1
    ensures ShiftedOut(SplicedRow(g, x, y, width), Vertical, y, x + 2, width) == Put(g, width - 1, y, Black)
  {
    var s := SplicedRow(g, x, y, width);
    var a := ShiftedOut(s, Vertical, y, x + 2, width);
    var b := Put(g, width - 1, y, Black);
    forall i, j | 0 <= i < |a| && 0 <= j < |a[i]|
      ensures a[i][j] == b[i][j]
    {
      if j == y && x + 2 <= i < width - 1 {
        assert a[i][j] == s[i + 1][j];
      }
    }
    GridsEqual(a, b);
  }

  /** The same for a horizontal splice, shifted out again at y + 1 of column x. */
  lemma ShiftUndoesSpliceColumn(g: seq<seq<Rgb>>, x: int, y: int)
    requires Rect(g) && SpliceFits(Horizontal, x, y, 0, |g|, Height(g))
    ensures ShiftedOut(SplicedColumn(g, x, y), Horizontal, x, y + 1, Height(g)) == Put(g, x, Height(g) - 1, Black)
  {
    var s := SplicedColumn(g, x, y);
    var a := ShiftedOut(s, Horizontal, x, y + 1, Height(g));
    var b := Put(g, x, Height(g) - 1, Black);
    forall i, j | 0 <= i < |a| && 0 <= j < |a[i]|
      ensures a[i][j] == b[i][j]
    {
      if i == x && y + 1 <= j < Height(g) - 1 {
        assert a[i][j] == s[i][j + 1];
      }
    }
    GridsEqual(a, b);
  }

  /** ShiftAddPixels: split an averaged pixel into the row (vertical) or column (horizontal)
      of (x, y) of a bitmap whose current width is `width`; any other direction changes
      nothing. The vertical copy loop runs down from the row's last pixel while the byte index
      exceeds 6, the horizontal one up from the bitmap's last row to row y + 2. */
  method ShiftAddPixels(bmp: array2<Rgb>, direction: Direction, x: int, y: int, width: int) returns (r: Outcome)
    modifies bmp
    ensures direction != Vertical && direction != Horizontal ==> r == Pass && unchanged(bmp)
    ensures direction == Vertical || direction == Horizontal ==>
      (r == Pass <==> SpliceFits(direction, x, y, width, bmp.Length0, bmp.Length1)) &&
      (r.Fail? ==> r.error == IndexOutOfRange && unchanged(bmp))
    ensures r == Pass && direction == Vertical ==> forall i, j :: 0 <= i < bmp.Length0 && 0 <= j < bmp.Length1 ==>
      bmp[i, j] == SplicedRowCell(old(Snap2(bmp)), x, y, width, i, j)
    ensures r == Pass && direction == Horizontal ==> forall i, j :: 0 <= i < bmp.Length0 && 0 <= j < bmp.Length1 ==>
      bmp[i, j] == SplicedColumnCell(old(Snap2(bmp)), x, y, i, j)
  {
    if direction != Vertical && direction != Horizontal {
      return Pass;
    }
    if !SpliceFits(direction, x, y, width, bmp.Length0, bmp.Length1) {
      return Fail(IndexOutOfRange);
    }
    if direction == Vertical {
      SpliceRow(bmp, x, y, width);
    } else {
      SpliceColumn(bmp, x, y);
    }
    return Pass;
  }

  /** The vertical case of ShiftAddPixels, inside the bitmap. */
  method SpliceRow(bmp: array2<Rgb>, x: int, y: int, width: int)
    requires SpliceFits(Vertical, x, y, width, bmp.Length0, bmp.Length1)
    modifies bmp
    ensures forall i, j :: 0 <= i < bmp.Length0 && 0 <= j < bmp.Length1 ==>
      bmp[i, j] == SplicedRowCell(old(Snap2(bmp)), x, y, width, i, j)
  {
    ghost var g0 := Snap2(bmp);
    var dst := width - 1;
    while dst > x + 2
      invariant x + 2 <= dst <= width - 1 || (dst == width - 1 && width - 1 <= x + 2)
      invariant forall i, j :: 0 <= i < bmp.Length0 && 0 <= j < bmp.Length1 ==>
        bmp[i, j] == if j == y && dst < i < width then g0[i - 1][j] else g0[i][j]
    {
      bmp[dst, y] := bmp[dst - 1, y];
      dst := dst - 1;
    }
    // the pixel after the last one of a row is the first one of the row below
    if dst + 1 < bmp.Length0 {
      bmp[dst, y] := AverageRgb(bmp[dst - 1, y], bmp[dst + 1, y]);
    } else {
      bmp[dst, y] := AverageRgb(bmp[dst - 1, y], bmp[0, y + 1]);
    }
  }

  /** The horizontal case of ShiftAddPixels, inside the bitmap. */
  method SpliceColumn(bmp: array2<Rgb>, x: int, y: int)
    requires SpliceFits(Horizontal, x, y, 0, bmp.Length0, bmp.Length1)
    modifies bmp
    ensures forall i, j :: 0 <= i < bmp.Length0 && 0 <= j < bmp.Length1 ==>
      bmp[i, j] == SplicedColumnCell(old(Snap2(bmp)), x, y, i, j)
  {
    ghost var g0 := Snap2(bmp);
    var dst := bmp.Length1 - 1;
    while dst > y + 1
      invariant y + 1 <= dst <= bmp.Length1 - 1
      invariant forall i, j {:trigger bmp[i, j]} :: 0 <= i < bmp.Length0 && 0 <= j < bmp.Length1 ==>
        bmp[i, j] == if i == x && dst < j then g0[i][j - 1] else g0[i][j]
    {
      bmp[x, dst] := bmp[x, dst - 1];
      dst := dst - 1;
    }
    bmp[x, dst] := AverageRgb(bmp[x, dst - 1], bmp[x, dst + 1]);
  }
}
