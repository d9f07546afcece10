/** The trunk revision's SeamImage: a bitmap with a current width and height that may be
    smaller than the bitmap's own, the Sobel energy function and the trunk CumulativeEnergy
    seam function. CarveSeam shifts every cell of a seam out of its line and shrinks the
    current size; AddSeam grows the image one seam at a time, splitting an averaged pixel into
    each line the seam crosses; GetKBestSeams harvests the k cheapest seams. */
module TrunkSeamImage {
  import opened Wrappers
  import opened Numerics
  import opened Utilities
  import opened Constants
  import opened Pixels
  import opened Sweep
  import opened Seams
  import opened Comparers
  import opened SobelFilter
  import opened Bitmaps
  import opened TrunkCumulative
  import opened CumulativeMaps
  import opened TrunkBacktrack
  import RootSeamImage

  // ---------------------------------------------------------------- folds over a seam's cells

  /** The two pixel operations a seam is walked with: CarveSeam's ShiftPixels and
      AddSeamToBitmap's ShiftAddPixels. */
  datatype Edit = Carve | Splice

  /** The operation at cell p of a bitmap of w x h pixels whose current lines hold `extent`
      cells stays inside the bitmap. */
  predicate EditFits(e: Edit, d: Direction, p: Point, extent: int, w: int, h: int)
  {
    match e
    case Carve => ShiftFits(d, Along(d, p), Lateral(d, p), extent, w, h)
    case Splice => SpliceFits(d, p.x, p.y, extent, w, h)
  }

  /** Every cell of ps fits. */
  predicate AllFit(e: Edit, d: Direction, ps: seq<Point>, extent: int, w: int, h: int)
  {
    forall k :: 0 <= k < |ps| ==> EditFits(e, d, ps[k], extent, w, h)
  }

  /** One cell of the bitmap after the operation at p. */
  function EditedCell(e: Edit, g: seq<seq<Rgb>>, w: nat, h: nat, d: Direction, p: Point, extent: int, i: int, j: int): Rgb
    requires IsGrid(g, w, h) && (d == Vertical || d == Horizontal) && EditFits(e, d, p, extent, w, h)
    requires 0 <= i < w && 0 <= j < h
  {
    assert Height(g) == h;
    match e
    case Carve => ShiftedOutCell(g, d, Along(d, p), Lateral(d, p), extent, i, j)
    case Splice => if d == Vertical then SplicedRowCell(g, p.x, p.y, extent, i, j) else SplicedColumnCell(g, p.x, p.y, i, j)
  }

  /** The bitmap after the operation at p. */
  function Edited(e: Edit, g: seq<seq<Rgb>>, w: nat, h: nat, d: Direction, p: Point, extent: int): (r: seq<seq<Rgb>>)
    requires IsGrid(g, w, h) && (d == Vertical || d == Horizontal) && EditFits(e, d, p, extent, w, h)
    ensures IsGrid(r, w, h)
  {
    seq(w, i requires 0 <= i < w => seq(h, j requires 0 <= j < h => EditedCell(e, g, w, h, d, p, extent, i, j)))
  }

  /** The bitmap after the operation at each cell of ps in turn, or None when one of them
      leaves the bitmap. A direction other than Vertical and Horizontal changes nothing. */
  function EditedAll(e: Edit, g: seq<seq<Rgb>>, w: nat, h: nat, d: Direction, ps: seq<Point>, extent: int)
    : (r: Option<seq<seq<Rgb>>>)
    requires IsGrid(g, w, h)
    ensures r.Some? ==> IsGrid(r.value, w, h)
    decreases |ps|
  {
    if !(d == Vertical || d == Horizontal) || |ps| == 0 then Some(g)
    else
      match EditedAll(e, g, w, h, d, ps[..|ps| - 1], extent)
      case None => None
      case Some(m) =>
        if EditFits(e, d, ps[|ps| - 1], extent, w, h) then Some(Edited(e, m, w, h, d, ps[|ps| - 1], extent)) else None
  }

  /** The walk completes exactly when every cell fits. */
  lemma {:induction false} EditedAllSome(e: Edit, g: seq<seq<Rgb>>, w: nat, h: nat, d: Direction, ps: seq<Point>, extent: int)
    requires IsGrid(g, w, h) && (d == Vertical || d == Horizontal)
    ensures EditedAll(e, g, w, h, d, ps, extent).Some? <==> AllFit(e, d, ps, extent, w, h)
    decreases |ps|
  {
    if |ps| > 0 {
      var n := |ps| - 1;
      var front := ps[..n];
      EditedAllSome(e, g, w, h, d, front, extent);
      assert forall k :: 0 <= k < n ==> front[k] == ps[k];
      if AllFit(e, d, front, extent, w, h) && EditFits(e, d, ps[n], extent, w, h) {
        forall k | 0 <= k < |ps|
          ensures EditFits(e, d, ps[k], extent, w, h)
        {
          if k < n {
            assert front[k] == ps[k];
          }
        }
      }
    }
  }

  /** The cells of ps lie on the along lines 0, 1, ..., one each, as a decoded seam's do. */
  predicate OnLines(d: Direction, ps: seq<Point>)
  {
    forall k :: 0 <= k < |ps| ==> Along(d, ps[k]) == k
  }

  /** The cell (i, j) after the whole walk: the operation at the seam's cell on its line, or
      the old pixel when the seam does not reach that line. */
  function WalkedCell(e: Edit, g: seq<seq<Rgb>>, w: nat, h: nat, d: Direction, ps: seq<Point>, extent: int, i: int, j: int): Rgb
    requires IsGrid(g, w, h) && (d == Vertical || d == Horizontal) && AllFit(e, d, ps, extent, w, h)
    requires 0 <= i < w && 0 <= j < h
  {
    var a := Along(d, Point(i, j));
    if 0 <= a < |ps| then EditedCell(e, g, w, h, d, ps[a], extent, i, j) else g[i][j]
  }

  /** An operation changes only the cells on the line of the cell it is made at. */
  lemma EditedOffLine(e: Edit, g: seq<seq<Rgb>>, w: nat, h: nat, d: Direction, p: Point, extent: int, i: int, j: int)
    requires IsGrid(g, w, h) && (d == Vertical || d == Horizontal) && EditFits(e, d, p, extent, w, h)
    requires 0 <= i < w && 0 <= j < h && Along(d, Point(i, j)) != Along(d, p)
    ensures EditedCell(e, g, w, h, d, p, extent, i, j) == g[i][j]
  {
  }

  /** Two bitmaps that agree on along line a. */
  predicate SameLine(g: seq<seq<Rgb>>, g': seq<seq<Rgb>>, w: nat, h: nat, d: Direction, a: int)
    requires IsGrid(g, w, h) && IsGrid(g', w, h)
  {
    forall i, j :: 0 <= i < w && 0 <= j < h && Along(d, Point(i, j)) == a ==> g[i][j] == g'[i][j]
  }

  /** An operation reads only the line it is made on and the next one (a vertical splice that
      skips its loop on a full-width row reads the first pixel of the row below). */
  lemma EditedOnLine(e: Edit, g: seq<seq<Rgb>>, g': seq<seq<Rgb>>, w: nat, h: nat, d: Direction, p: Point, extent: int, i: int, j: int)
    requires IsGrid(g, w, h) && IsGrid(g', w, h) && (d == Vertical || d == Horizontal) && EditFits(e, d, p, extent, w, h)
    requires SameLine(g, g', w, h, d, Along(d, p)) && SameLine(g, g', w, h, d, Along(d, p) + 1)
    requires 0 <= i < w && 0 <= j < h && Along(d, Point(i, j)) == Along(d, p)
    ensures EditedCell(e, g, w, h, d, p, extent, i, j) == EditedCell(e, g', w, h, d, p, extent, i, j)
  {
    if d == Vertical {
      assert forall i' :: 0 <= i' < w ==> Along(d, Point(i', j)) == Along(d, p) && g[i'][j] == g'[i'][j];
      if e == Splice && j + 1 < h {
        assert Along(d, Point(0, j + 1)) == Along(d, p) + 1;
      }
    } else {
      assert forall j' :: 0 <= j' < h ==> Along(d, Point(i, j')) == Along(d, p) && g[i][j'] == g'[i][j'];
    }
  }

  /** Closed form of a walk along a decoded seam: each line the seam reaches holds the
      operation at the seam's cell on it made to the original bitmap, and every other line is
      left as it was. */
  lemma {:induction false} EditedAllCells(e: Edit, g: seq<seq<Rgb>>, w: nat, h: nat, d: Direction, ps: seq<Point>, extent: int)
    requires IsGrid(g, w, h) && (d == Vertical || d == Horizontal)
    requires OnLines(d, ps) && AllFit(e, d, ps, extent, w, h)
    ensures EditedAll(e, g, w, h, d, ps, extent).Some?
    ensures forall i, j :: 0 <= i < w && 0 <= j < h ==>
      EditedAll(e, g, w, h, d, ps, extent).value[i][j] == WalkedCell(e, g, w, h, d, ps, extent, i, j)
    decreases |ps|
  {
    EditedAllSome(e, g, w, h, d, ps, extent);
    if |ps| > 0 {
      var n := |ps| - 1;
      var front := ps[..n];
      assert forall k :: 0 <= k < n ==> front[k] == ps[k];
      assert OnLines(d, front) && AllFit(e, d, front, extent, w, h);
      EditedAllCells(e, g, w, h, d, front, extent);
      var m := EditedAll(e, g, w, h, d, front, extent).value;
      assert EditedAll(e, g, w, h, d, ps, extent).value == Edited(e, m, w, h, d, ps[n], extent);
      WalkStep(e, g, m, w, h, d, ps, extent);
    } else {
      GridsEqual(EditedAll(e, g, w, h, d, ps, extent).value, g);
    }
  }

  /** The last step of EditedAllCells: the operation at the seam's last cell, made to the walk
      along the cells before it. */
  lemma WalkStep(e: Edit, g: seq<seq<Rgb>>, m: seq<seq<Rgb>>, w: nat, h: nat, d: Direction, ps: seq<Point>, extent: int)
    requires IsGrid(g, w, h) && IsGrid(m, w, h) && (d == Vertical || d == Horizontal) && |ps| > 0
    requires OnLines(d, ps) && AllFit(e, d, ps, extent, w, h)
    requires AllFit(e, d, ps[..|ps| - 1], extent, w, h)
    requires forall i, j :: 0 <= i < w && 0 <= j < h ==> m[i][j] == WalkedCell(e, g, w, h, d, ps[..|ps| - 1], extent, i, j)
    ensures forall i, j :: 0 <= i < w && 0 <= j < h ==>
      Edited(e, m, w, h, d, ps[|ps| - 1], extent)[i][j] == WalkedCell(e, g, w, h, d, ps, extent, i, j)
  {
    var n := |ps| - 1;
    var front := ps[..n];
    var r := Edited(e, m, w, h, d, ps[n], extent);
    assert SameLine(m, g, w, h, d, n) && SameLine(m, g, w, h, d, n + 1) by {
      forall i, j | 0 <= i < w && 0 <= j < h && n <= Along(d, Point(i, j)) <= n + 1
        ensures m[i][j] == g[i][j]
      {
        assert m[i][j] == WalkedCell(e, g, w, h, d, front, extent, i, j);
      }
    }
    forall i, j | 0 <= i < w && 0 <= j < h
      ensures r[i][j] == WalkedCell(e, g, w, h, d, ps, extent, i, j)
    {
      assert m[i][j] == WalkedCell(e, g, w, h, d, front, extent, i, j);
      if Along(d, Point(i, j)) == n {
        EditedOnLine(e, m, g, w, h, d, ps[n], extent, i, j);
      } else {
        EditedOffLine(e, m, w, h, d, ps[n], extent, i, j);
        var a := Along(d, Point(i, j));
        if 0 <= a < n {
          assert front[a] == ps[a];
        }
      }
    }
  }

  /** A single operation is ShiftPixels' shift or ShiftAddPixels' splice. */
  lemma EditedIsBitmapOperation(e: Edit, g: seq<seq<Rgb>>, w: nat, h: nat, d: Direction, p: Point, extent: int)
    requires IsGrid(g, w, h) && (d == Vertical || d == Horizontal) && EditFits(e, d, p, extent, w, h)
    ensures Rect(g) && Height(g) == h
    ensures e == Carve ==> Edited(e, g, w, h, d, p, extent) == ShiftedOut(g, d, Along(d, p), Lateral(d, p), extent)
    ensures e == Splice && d == Vertical ==> Edited(e, g, w, h, d, p, extent) == SplicedRow(g, p.x, p.y, extent)
    ensures e == Splice && d == Horizontal ==> Edited(e, g, w, h, d, p, extent) == SplicedColumn(g, p.x, p.y)
  {
    assert Height(g) == h;
    var r := Edited(e, g, w, h, d, p, extent);
    if e == Carve {
      GridsEqual(r, ShiftedOut(g, d, Along(d, p), Lateral(d, p), extent));
    } else if d == Vertical {
      GridsEqual(r, SplicedRow(g, p.x, p.y, extent));
    } else {
      GridsEqual(r, SplicedColumn(g, p.x, p.y));
    }
  }

  /** The number of cells on an along line of a w x h bitmap. */
  function LineLength(d: Direction, w: nat, h: nat): nat
  {
    if d == Vertical then w else h
  }

  /** A line the seam reaches, after the whole walk, is that line after the single operation at
      the seam's cell on it. */
  lemma LineOfWalk(e: Edit, g: seq<seq<Rgb>>, w: nat, h: nat, d: Direction, ps: seq<Point>, extent: int, a: int)
    requires IsGrid(g, w, h) && (d == Vertical || d == Horizontal)
    requires OnLines(d, ps) && AllFit(e, d, ps, extent, w, h) && 0 <= a < |ps|
    ensures EditedAll(e, g, w, h, d, ps, extent).Some? && Rect(g) && Height(g) == h
    ensures var r, s := EditedAll(e, g, w, h, d, ps, extent).value, Edited(e, g, w, h, d, ps[a], extent);
      Rect(r) && Rect(s) && Height(r) == Height(s) == h &&
      Line(r, d, a, 0, LineLength(d, w, h)) == Line(s, d, a, 0, LineLength(d, w, h))
  {
    EditedAllCells(e, g, w, h, d, ps, extent);
    EditedIsBitmapOperation(e, g, w, h, d, ps[a], extent);
    var r, s := EditedAll(e, g, w, h, d, ps, extent).value, Edited(e, g, w, h, d, ps[a], extent);
    assert Height(r) == h && Height(s) == h;
    var n := LineLength(d, w, h);
    var lr, ls := Line(r, d, a, 0, n), Line(s, d, a, 0, n);
    forall k | 0 <= k < n
      ensures lr[k] == ls[k]
    {
      var c := At(d, a, k);
      assert lr[k] == r[c.x][c.y] && ls[k] == s[c.x][c.y];
      assert r[c.x][c.y] == WalkedCell(e, g, w, h, d, ps, extent, c.x, c.y);
    }
  }

  /** A line of a grid cut at m. */
  lemma LineSplit(g: seq<seq<Rgb>>, d: Direction, a: int, from: int, m: int, to: int)
    requires Rect(g) && 0 <= from <= m <= to
    requires d == Vertical ==> to <= |g| && 0 <= a < Height(g)
    requires d != Vertical ==> 0 <= a < |g| && to <= Height(g)
    ensures Line(g, d, a, from, to) == Line(g, d, a, from, m) + Line(g, d, a, m, to)
  {
    if d == Vertical {
      RowSplit(g, a, from, m, to);
    } else {
      ColumnSplit(g, d, a, from, m, to);
    }
  }

  /** A row of a grid cut at m. */
  lemma RowSplit(g: seq<seq<Rgb>>, a: int, from: int, m: int, to: int)
    requires Rect(g) && 0 <= from <= m <= to <= |g| && 0 <= a < Height(g)
    ensures Line(g, Vertical, a, from, to) == Line(g, Vertical, a, from, m) + Line(g, Vertical, a, m, to)
  {
    var x, y, z := Line(g, Vertical, a, from, to), Line(g, Vertical, a, from, m), Line(g, Vertical, a, m, to);
    forall k | 0 <= k < |x|
      ensures x[k] == (y + z)[k]
    {
      if k < |y| {
        assert x[k] == g[from + k][a] == y[k];
      } else {
        assert x[k] == g[m + (k - |y|)][a] == z[k - |y|];
      }
    }
  }

  /** A column of a grid cut at m. */
  lemma ColumnSplit(g: seq<seq<Rgb>>, d: Direction, a: int, from: int, m: int, to: int)
    requires Rect(g) && d != Vertical && 0 <= from <= m <= to && 0 <= a < |g| && to <= Height(g)
    ensures Line(g, d, a, from, to) == Line(g, d, a, from, m) + Line(g, d, a, m, to)
  {
    assert g[a][from..to] == g[a][from..m] + g[a][m..to];
  }

  /** Two grids that agree on a whole line agree on every front part of it. */
  lemma LineFront(r: seq<seq<Rgb>>, s: seq<seq<Rgb>>, d: Direction, a: int, m: int, n: int)
    requires Rect(r) && Rect(s) && 0 <= m <= n
    requires d == Vertical ==> n <= |r| && n <= |s| && 0 <= a < Height(r) && a < Height(s)
    requires d != Vertical ==> 0 <= a < |r| && a < |s| && n <= Height(r) && n <= Height(s)
    requires Line(r, d, a, 0, n) == Line(s, d, a, 0, n)
    ensures Line(r, d, a, 0, m) == Line(s, d, a, 0, m)
  {
    var x, y := Line(r, d, a, 0, m), Line(s, d, a, 0, m);
    forall k | 0 <= k < m
      ensures x[k] == y[k]
    {
      assert x[k] == Line(r, d, a, 0, n)[k] && y[k] == Line(s, d, a, 0, n)[k];
    }
  }

  /** One shift removes the pixel at l from the current part of its line. */
  lemma ShiftedOutWhole(g: seq<seq<Rgb>>, d: Direction, a: int, l: int, extent: int)
    requires Rect(g)
    requires ShiftFits(d, a, l, extent, |g|, Height(g)) && l < extent
    ensures Line(ShiftedOut(g, d, a, l, extent), d, a, 0, extent) == Line(g, d, a, 0, l) + Line(g, d, a, l + 1, extent) + [Black]
  {
    var s := ShiftedOut(g, d, a, l, extent);
    LineSplit(s, d, a, 0, l, extent);
    ShiftedOutKeepsFront(g, d, a, l, extent);
    ShiftedOutLine(g, d, a, l, extent);
  }

  /** CarveSeam removes the seam's pixel from every line it reaches: the line's pixels before
      it stay, the pixels after it move one place towards it, and the last current cell turns
      black. */
  lemma CarvedLine(g: seq<seq<Rgb>>, w: nat, h: nat, d: Direction, ps: seq<Point>, extent: int, a: int)
    requires IsGrid(g, w, h) && (d == Vertical || d == Horizontal)
    requires OnLines(d, ps) && AllFit(Carve, d, ps, extent, w, h) && 0 <= a < |ps|
    requires Lateral(d, ps[a]) < extent
    ensures EditedAll(Carve, g, w, h, d, ps, extent).Some? && Rect(g) && Height(g) == h
    ensures var r, l := EditedAll(Carve, g, w, h, d, ps, extent).value, Lateral(d, ps[a]);
      Rect(r) && Height(r) == h && extent <= LineLength(d, w, h) &&
      Line(r, d, a, 0, extent) == Line(g, d, a, 0, l) + Line(g, d, a, l + 1, extent) + [Black]
  {
    LineOfWalk(Carve, g, w, h, d, ps, extent, a);
    var l := Lateral(d, ps[a]);
    assert Along(d, ps[a]) == a && EditFits(Carve, d, ps[a], extent, w, h);
    EditedIsBitmapOperation(Carve, g, w, h, d, ps[a], extent);
    var r, s := EditedAll(Carve, g, w, h, d, ps, extent).value, Edited(Carve, g, w, h, d, ps[a], extent);
    CarvedFront(g, r, s, d, a, l, extent, LineLength(d, w, h));
  }

  /** A grid r that agrees on line a with the single shift s at lateral position l has lost
      that line's pixel at l. */
  lemma CarvedFront(g: seq<seq<Rgb>>, r: seq<seq<Rgb>>, s: seq<seq<Rgb>>, d: Direction, a: int, l: int, extent: int, n: int)
    requires Rect(g) && Rect(r) && Rect(s) && Height(r) == Height(s) == Height(g)
    requires ShiftFits(d, a, l, extent, |g|, Height(g)) && l < extent && n == LineLength(d, |g|, Height(g))
    requires |r| == |s| == |g| && s == ShiftedOut(g, d, a, l, extent)
    requires Line(r, d, a, 0, n) == Line(s, d, a, 0, n)
    ensures Line(r, d, a, 0, extent) == Line(g, d, a, 0, l) + Line(g, d, a, l + 1, extent) + [Black]
  {
    LineFront(r, s, d, a, extent, n);
    ShiftedOutWhole(g, d, a, l, extent);
  }

  // ---------------------------------------------------------------- walking a decoded seam

  /** The first n cells of ps have been handled and left the bitmap `after`. */
  lemma WalkOne(e: Edit, g: seq<seq<Rgb>>, w: nat, h: nat, d: Direction, ps: seq<Point>, extent: int, i: int, m: seq<seq<Rgb>>)
    requires IsGrid(g, w, h) && 0 <= i < |ps|
    requires EditedAll(e, g, w, h, d, ps[..i], extent) == Some(m)
    requires (d == Vertical || d == Horizontal) ==> EditFits(e, d, ps[i], extent, w, h)
    ensures IsGrid(m, w, h)
    ensures (d == Vertical || d == Horizontal) ==>
      EditedAll(e, g, w, h, d, ps[..i + 1], extent) == Some(Edited(e, m, w, h, d, ps[i], extent))
    ensures !(d == Vertical || d == Horizontal) ==> EditedAll(e, g, w, h, d, ps[..i + 1], extent) == Some(m)
  {
    assert ps[..i + 1][..i] == ps[..i];
  }

  /** A bitmap of w x h black pixels, as new Bitmap creates it. */
  function Blacks(w: nat, h: nat): (g: seq<seq<Rgb>>)
    ensures IsGrid(g, w, h)
  {
    seq(w, _ => seq(h, _ => Black))
  }

  function Larger(a: int, b: int): int
  {
    if a < b then b else a
  }

  /** The i-th seam of a direction's sorted endpoint list over view v: the backtrack of the
      entry's endpoint, carrying the entry's cost as its value. */
  function Ranked(v: View, list: seq<Pair>, i: nat): (s: Seam)
    requires ValidView(v) && i < |list|
    ensures s.direction == v.d && s.seamValue == list[i].value
  {
    BuiltSeam(v, list[i].key).(seamValue := list[i].value)
  }

  /** The seam a lookup with index i yields over the vertical view and list (vv, lv) and the
      horizontal ones (vh, lh): the i-th seam of Vertical or Horizontal, or for any other
      direction the vertical one when its cost is strictly smaller and the horizontal one
      otherwise. */
  function Picked(d: Direction, vv: View, lv: seq<Pair>, vh: View, lh: seq<Pair>, i: nat): (s: Seam)
    requires ValidView(vv) && ValidView(vh) && vv.d == Vertical && vh.d == Horizontal
    requires d == Vertical ==> i < |lv|
    requires d == Horizontal ==> i < |lh|
    requires d != Vertical && d != Horizontal ==> i < |lv| && i < |lh|
    ensures RootSeamImage.Harvested(s, d, lv, lh, i)
  {
    if d == Vertical then Ranked(vv, lv, i)
    else if d == Horizontal then Ranked(vh, lh, i)
    else if lv[i].value < lh[i].value then Ranked(vv, lv, i)
    else Ranked(vh, lh, i)
  }

  /** The map, mask and sorted endpoint list ComputeEntireEnergyMap leaves for direction d and
      the given size, from the energy map `energy`. */
  ghost predicate ComputedArrays(d: Direction, size: Size, cum: array2<Int32>, used: array2<bool>, lowest: seq<Pair>,
                                 energy: array2<Int32>)
    reads cum, used, energy
    requires d == Vertical || d == Horizontal
  {
    size.width <= cum.Length0 && size.height <= cum.Length1 && size.width <= used.Length0 && size.height <= used.Length1 &&
    Snap2(used) == NoClaims(size) &&
    Holds(cum, EntireFill(d, size, d == Vertical, true), Grids(Zeros(size), NoClaims(size), Snap2(energy))) &&
    lowest == SortPairs(Candidates(View(d, size, Snap2(cum), Snap2(used))))
  }

  /** A direction's flag, arrays and endpoint list as a clean direction of the given size
      has them: not dirty, both arrays covering the size, the list sorted by cost. */
  ghost predicate CleanParts(dirty: bool, size: Size, cum: array2<Int32>, used: array2<bool>, lowest: seq<Pair>) {
    !dirty && size.width <= cum.Length0 && size.height <= cum.Length1 &&
    size.width <= used.Length0 && size.height <= used.Length1 && SortedByValue(lowest)
  }

  /** The outcome of walking an Edit over the cells a seam's decoder yields for the given size,
      from bitmap g to bitmap g2: the first `done` cells handled in order, the walk stopped at
      the first cell that does not fit, and a normal end exactly when every yielded cell was
      handled and the decoder finished without running out of step codes. */
  ghost predicate Walked(e: Edit, seam: Seam, size: Size, g: seq<seq<Rgb>>, g2: seq<seq<Rgb>>, w: nat, h: nat,
                         extent: int, r: Outcome, done: nat)
    requires IsGrid(g, w, h)
  {
    var ps, d := Yielded(seam, size), seam.direction;
    done <= |ps| &&
    EditedAll(e, g, w, h, d, ps[..done], extent) == Some(g2) &&
    (done < |ps| ==> (d == Vertical || d == Horizontal) && !EditFits(e, d, ps[done], extent, w, h)) &&
    (r == Pass <==> done == |ps| && Locations(seam, size).Ok?)
  }

  /** CarveSeam's walk: ShiftPixels over lines of the current lateral extent. */
  ghost predicate Carved(seam: Seam, size: Size, g: seq<seq<Rgb>>, g2: seq<seq<Rgb>>, r: Outcome, done: nat)
  {
    Rect(g) && Walked(Carve, seam, size, g, g2, |g|, Height(g), LateralExtent(seam.direction, size), r, done)
  }

  /** AddSeamToBitmap's walk: ShiftAddPixels with the current width. */
  ghost predicate Spliced(seam: Seam, size: Size, g: seq<seq<Rgb>>, g2: seq<seq<Rgb>>, r: Outcome, done: nat)
  {
    Rect(g) && Walked(Splice, seam, size, g, g2, |g|, Height(g), size.width, r, done)
  }

  /** The trunk revision's SeamImage: the bitmap, the current size (which CarveSeam can make
      smaller than the bitmap), the Sobel energy function and the trunk CumulativeEnergy seam
      function that shares it. */
  class SeamImage {
    var bitmap: array2<Rgb>
    var width: int
    var height: int
    const energyFunction: Sobel
    const seamFunction: CumulativeEnergy

    function ImageSize(): Size
      reads this
      requires 0 <= width && 0 <= height
    {
      Size(width, height)
    }

    /** A direction's part of the seam function is clean, covers the current size, and its
        endpoint list is sorted by cost. */
    ghost predicate Clean(d: Direction)
      reads this, seamFunction
      requires 0 <= width && 0 <= height
    {
      CleanParts(seamFunction.DirtyOf(d), ImageSize(), seamFunction.MapOf(d), seamFunction.UsedOf(d), seamFunction.LowestOf(d))
    }

    /** The current size lies inside the bitmap, the seam function works on this image's
        energy, which covers the current size, and both directions are clean. Nothing in this
        revision's SeamImage marks a direction dirty. */
    ghost predicate Valid()
      reads this, energyFunction, seamFunction
    {
      0 <= width <= bitmap.Length0 < IntMax && 0 <= height <= bitmap.Length1 < IntMax &&
      seamFunction.energyFunction == energyFunction && seamFunction.EnergyCovers(ImageSize()) &&
      Clean(Vertical) && Clean(Horizontal) && seamFunction.verticalUsed != seamFunction.horizontalUsed
    }

    /** Direction d's map, mask and list are ComputeEntireEnergyMap's for the current size. */
    ghost predicate Computed(d: Direction)
      reads this, energyFunction, energyFunction.EnergyMap, seamFunction, seamFunction.MapOf(d), seamFunction.UsedOf(d)
      requires 0 <= width && 0 <= height && (d == Vertical || d == Horizontal)
    {
      ComputedArrays(d, ImageSize(), seamFunction.MapOf(d), seamFunction.UsedOf(d), seamFunction.LowestOf(d), energyFunction.EnergyMap)
    }

    /** The energy of every current cell is the Sobel energy of the bitmap. */
    ghost predicate Energized()
      reads this, bitmap, energyFunction, energyFunction.EnergyMap
      requires 0 <= width <= bitmap.Length0 && 0 <= height <= bitmap.Length1
    {
      width <= energyFunction.EnergyMap.Length0 && height <= energyFunction.EnergyMap.Length1 &&
      forall x, y :: 0 <= x < width && 0 <= y < height ==>
        energyFunction.EnergyMap[x, y] == SobelEnergy(Snap2(bitmap), ImageSize(), x, y) as int
    }

    /** RecomputeEntireImage's state: the energy is the bitmap's and both directions are
        computed from it. */
    ghost predicate Derived()
      reads this, bitmap, energyFunction, energyFunction.EnergyMap, seamFunction, seamFunction.verticalMap,
            seamFunction.verticalUsed, seamFunction.horizontalMap, seamFunction.horizontalUsed
      requires Valid()
    {
      Energized() && Computed(Vertical) && Computed(Horizontal)
    }

    /** How many seams a direction can hand out: the length of its endpoint list, or of the
        shorter list when both are consulted. */
    function Available(d: Direction): int
      reads this, seamFunction
    {
      var nv, nh := |seamFunction.lowestVertical|, |seamFunction.lowestHorizontal|;
      if d == Vertical then nv else if d == Horizontal then nh else if nv < nh then nv else nh
    }

    /** The constructor: the energy function, a new seam function sharing it, and the bitmap,
        whose setter takes its size and recomputes the entire image. */
    constructor (bmp: array2<Rgb>, energy: Sobel)
      requires bmp.Length0 < IntMax && bmp.Length1 < IntMax
      modifies energy
      ensures Valid() && Derived()
      ensures bitmap == bmp && width == bmp.Length0 && height == bmp.Length1
      ensures energyFunction == energy && fresh(seamFunction)
    {
      energyFunction := energy;
      seamFunction := new CumulativeEnergy(energy);
      bitmap := bmp;
      width, height := bmp.Length0, bmp.Length1;
      new;
      RecomputeEntireImage();
    }

    /** RecomputeEntireImage: the energy of the current size, then the entire cumulative maps
        of both directions. */
    method RecomputeEntireImage()
      requires 0 <= width <= bitmap.Length0 < IntMax && 0 <= height <= bitmap.Length1 < IntMax
      requires seamFunction.energyFunction == energyFunction
      modifies energyFunction, seamFunction
      ensures Valid() && Derived()
      ensures fresh(energyFunction.EnergyMap) && fresh(seamFunction.verticalUsed) && fresh(seamFunction.horizontalUsed)
      ensures unchanged(bitmap)
    {
      energyFunction.ComputeEnergy(bitmap, ImageSize());
      assert Energized();
      ComputeMaps();
      assert Valid();
    }

    /** The two ComputeEntireEnergyMap calls of RecomputeEntireImage, vertical first. */
    method ComputeMaps()
      requires 0 <= width && 0 <= height
      requires seamFunction.energyFunction == energyFunction && seamFunction.EnergyCovers(ImageSize())
      modifies seamFunction
      ensures seamFunction.energyFunction == energyFunction
      ensures Clean(Vertical) && Clean(Horizontal) && Computed(Vertical) && Computed(Horizontal)
      ensures fresh(seamFunction.verticalUsed) && fresh(seamFunction.horizontalUsed)
      ensures seamFunction.verticalUsed != seamFunction.horizontalUsed
    {
      ComputeDirection(Vertical);
      ghost var vm, vu, lv := seamFunction.verticalMap, seamFunction.verticalUsed, seamFunction.lowestVertical;
      assert ComputedArrays(Vertical, ImageSize(), vm, vu, lv, energyFunction.EnergyMap);
      assert CleanParts(seamFunction.verticalDirty, ImageSize(), vm, vu, lv);
      ComputeDirection(Horizontal);
      assert seamFunction.verticalMap == vm && seamFunction.verticalUsed == vu && seamFunction.lowestVertical == lv;
    }

    /** One ComputeEntireEnergyMap call of RecomputeEntireImage: direction d computed and
        clean, the other direction's part of the seam function untouched. */
    method ComputeDirection(d: Direction)
      requires 0 <= width && 0 <= height && (d == Vertical || d == Horizontal)
      requires seamFunction.energyFunction == energyFunction && seamFunction.EnergyCovers(ImageSize())
      modifies seamFunction
      ensures seamFunction.energyFunction == energyFunction && Clean(d) && Computed(d) && fresh(seamFunction.UsedOf(d))
      ensures d == Vertical ==>
        seamFunction.horizontalMap == old(seamFunction.horizontalMap) && seamFunction.horizontalUsed == old(seamFunction.horizontalUsed) &&
        seamFunction.lowestHorizontal == old(seamFunction.lowestHorizontal) && seamFunction.horizontalDirty == old(seamFunction.horizontalDirty)
      ensures d == Horizontal ==>
        seamFunction.verticalMap == old(seamFunction.verticalMap) && seamFunction.verticalUsed == old(seamFunction.verticalUsed) &&
        seamFunction.lowestVertical == old(seamFunction.lowestVertical) && seamFunction.verticalDirty == old(seamFunction.verticalDirty)
    {
      var _ := seamFunction.ComputeEntireEnergyMap(d, ImageSize());
      SortPairsSorted(Candidates(seamFunction.ViewOf(d, ImageSize())));
    }

    /** GetKthLowestEnergySeam on a clean direction d: the i-th entry of its endpoint list,
        backtracked into a seam of direction d that carries the entry's cost, unless i is at
        least the width and more than the height or past the list. Only d's claim mask changes. */
    method Nth(d: Direction, i: int) returns (s: Result<Seam>)
      requires Valid() && (d == Vertical || d == Horizontal)
      modifies seamFunction, seamFunction.UsedOf(d)
      ensures Valid() && Kept()
      ensures s.Ok? <==> !(i >= width && i > height) && 0 <= i < |seamFunction.LowestOf(d)|
      ensures s.Err? ==> s.error == ArgumentOutOfRange
      ensures s.Ok? ==> s.value == Ranked(old(seamFunction.ViewOf(d, ImageSize())), seamFunction.LowestOf(d), i)
    {
      s := seamFunction.GetKthLowestEnergySeam(d, ImageSize(), i);
    }

    /** The seam function keeps its arrays, lists and flags: only claim masks may change. */
    twostate predicate Kept()
      reads this, seamFunction
    {
      seamFunction.verticalMap == old(seamFunction.verticalMap) && seamFunction.horizontalMap == old(seamFunction.horizontalMap) &&
      seamFunction.verticalUsed == old(seamFunction.verticalUsed) && seamFunction.horizontalUsed == old(seamFunction.horizontalUsed) &&
      seamFunction.lowestVertical == old(seamFunction.lowestVertical) &&
      seamFunction.lowestHorizontal == old(seamFunction.lowestHorizontal) &&
      bitmap == old(bitmap) && width == old(width) && height == old(height)
    }

    /** One lookup of GetKBestSeams and AddSeam: the i-th lowest seam of Vertical or
        Horizontal, or for any other direction the i-th of both, the vertical one kept only when
        its cost is strictly smaller. */
    method Lookup(d: Direction, i: int) returns (s: Result<Seam>)
      requires Valid()
      modifies seamFunction, seamFunction.verticalUsed, seamFunction.horizontalUsed
      ensures Valid() && Kept()
      ensures s.Ok? <==> !(i >= width && i > height) && 0 <= i < Available(d)
      ensures s.Err? ==> s.error == ArgumentOutOfRange
      ensures s.Ok? ==> s.value == Picked(d, old(seamFunction.ViewOf(Vertical, ImageSize())), seamFunction.lowestVertical,
                                          old(seamFunction.ViewOf(Horizontal, ImageSize())), seamFunction.lowestHorizontal, i)
      ensures s.Ok? ==> RootSeamImage.Harvested(s.value, d, seamFunction.lowestVertical, seamFunction.lowestHorizontal, i)
    {
      if d == Vertical || d == Horizontal {
        s := Nth(d, i);
      } else {
        s := Both(d, i);
      }
    }

    /** Lookup for a direction other than Vertical or Horizontal: the vertical i-th seam, then
        the horizontal one; the first exception ends it. */
    method Both(d: Direction, i: int) returns (s: Result<Seam>)
      requires Valid() && d != Vertical && d != Horizontal
      modifies seamFunction, seamFunction.verticalUsed, seamFunction.horizontalUsed
      ensures Valid() && Kept()
      ensures s.Ok? <==> !(i >= width && i > height) && 0 <= i < Available(d)
      ensures s.Err? ==> s.error == ArgumentOutOfRange
      ensures s.Ok? ==> s.value == Picked(d, old(seamFunction.ViewOf(Vertical, ImageSize())), seamFunction.lowestVertical,
                                          old(seamFunction.ViewOf(Horizontal, ImageSize())), seamFunction.lowestHorizontal, i)
    {
      ghost var vh := seamFunction.ViewOf(Horizontal, ImageSize());
      var first := Nth(Vertical, i);
      if first.Err? {
        return first;
      }
      assert seamFunction.ViewOf(Horizontal, ImageSize()) == vh;
      var second := Nth(Horizontal, i);
      if second.Err? {
        return second;
      }
      s := if first.value.seamValue < second.value.seamValue then first else second;
    }

    /** GetKBestSeams: nothing (null) when both dimensions are below k; otherwise k lookups,
        the i-th with index i, collected in order. A lookup's exception ends the harvest. The
        index the source passes by reference is read and left as it is by the seam function
        (see README), so the count k stays fixed. */
    method GetKBestSeams(direction: Direction, k: Int32) returns (r: Result<Option<seq<Seam>>>)
      requires Valid()
      modifies seamFunction, seamFunction.verticalUsed, seamFunction.horizontalUsed
      ensures Valid() && Kept()
      ensures r == Ok(None) <==> width < k as int && height < k as int
      ensures r.Err? ==> r.error == ArgumentOutOfRange
      ensures !(width < k as int && height < k as int) ==> (r.Ok? <==> k as int <= Available(direction))
      ensures r.Ok? && r.value.Some? ==> |r.value.value| == Larger(k as int, 0)
      ensures r.Ok? && r.value.Some? ==> forall j :: 0 <= j < |r.value.value| ==>
        RootSeamImage.Harvested(r.value.value[j], direction, seamFunction.lowestVertical, seamFunction.lowestHorizontal, j)
      ensures r.Ok? && r.value.Some? ==> forall a, b :: 0 <= a < b < |r.value.value| ==>
        r.value.value[a].seamValue <= r.value.value[b].seamValue
    {
      if width < k as int && height < k as int {
        return Ok(None);
      }
      ghost var lv, lh := seamFunction.lowestVertical, seamFunction.lowestHorizontal;
      var seams: seq<Seam> := [];
      var i: Int32 := 0;
      while i < k
        invariant 0 <= i as int <= Larger(k as int, 0) && i as int <= Available(direction)
        invariant Valid() && Kept() && seamFunction.lowestVertical == lv && seamFunction.lowestHorizontal == lh
        invariant |seams| == i as int
        invariant forall j :: 0 <= j < |seams| ==> RootSeamImage.Harvested(seams[j], direction, lv, lh, j)
      {
        var s := Lookup(direction, i as int);
        if s.Err? {
          return Err(s.error);
        }
        seams := seams + [s.value];
        i := i + 1;
      }
      RootSeamImage.HarvestAscending(seams, direction, lv, lh);
      r := Ok(Some(seams));
    }

    /** CarveSeam: ShiftPixels, with the current size, at every cell the seam's decoder yields,
        in order; then the current width (vertical seam) or height (any other) shrinks by one.
        An exception of ShiftPixels or of the decoder ends the walk with the cells before it
        shifted (`done` of them) and the size unchanged. */
    method CarveSeam(seam: Seam) returns (r: Outcome, ghost done: nat)
      requires Valid()
      modifies this, bitmap
      ensures bitmap == old(bitmap)
      ensures Carved(seam, old(ImageSize()), old(Snap2(bitmap)), Snap2(bitmap), r, done)
      ensures r.Fail? ==> r.error == IndexOutOfRange && width == old(width) && height == old(height)
      ensures r == Pass && seam.direction == Vertical ==> width == old(width) - 1 && height == old(height)
      ensures r == Pass && seam.direction != Vertical ==> width == old(width) && height == old(height) - 1
      ensures width >= 0 && height >= 0 ==> Valid()
    {
      r, done := ShiftSeam(seam);
      if r.Pass? {
        if seam.direction == Vertical {
          width := width - 1;
        } else {
          height := height - 1;
        }
      }
    }

    /** The walk of CarveSeam, before the size changes. */
    method ShiftSeam(seam: Seam) returns (r: Outcome, ghost done: nat)
      requires Valid()
      modifies bitmap
      ensures Carved(seam, ImageSize(), old(Snap2(bitmap)), Snap2(bitmap), r, done)
      ensures r.Fail? ==> r.error == IndexOutOfRange
    {
      var size := ImageSize();
      ghost var g0, w, h := Snap2(bitmap), bitmap.Length0, bitmap.Length1;
      ghost var d, extent := seam.direction, LateralExtent(seam.direction, size);
      var ps := Yielded(seam, size);
      var i := 0;
      while i < |ps|
        invariant 0 <= i <= |ps|
        invariant EditedAll(Carve, g0, w, h, d, ps[..i], extent) == Some(Snap2(bitmap))
      {
        var shifted := ShiftAt(seam.direction, ps, i, g0, extent);
        if shifted.Fail? {
          return shifted, i;
        }
        i := i + 1;
      }
      done := i;
      var located := PixelLocations(seam, size);
      if located.Err? {
        LocationsFailure(seam, size);
        return Fail(located.error), done;
      }
      r := Pass;
    }

    /** One ShiftPixels call of CarveSeam's walk, at the i-th yielded cell. */
    method ShiftAt(d: Direction, ps: seq<Point>, i: int, ghost g0: seq<seq<Rgb>>, ghost extent: int) returns (shifted: Outcome)
      requires 0 <= width && 0 <= height && bitmap.Length0 < IntMax && bitmap.Length1 < IntMax
      requires 0 <= i < |ps| && extent == LateralExtent(d, ImageSize()) && IsGrid(g0, bitmap.Length0, bitmap.Length1)
      requires EditedAll(Carve, g0, bitmap.Length0, bitmap.Length1, d, ps[..i], extent) == Some(Snap2(bitmap))
      modifies bitmap
      ensures shifted.Pass? ==> EditedAll(Carve, g0, bitmap.Length0, bitmap.Length1, d, ps[..i + 1], extent) == Some(Snap2(bitmap))
      ensures shifted.Fail? ==> shifted.error == IndexOutOfRange && Snap2(bitmap) == old(Snap2(bitmap))
      ensures shifted.Fail? ==> (d == Vertical || d == Horizontal) && !EditFits(Carve, d, ps[i], extent, bitmap.Length0, bitmap.Length1)
    {
      ghost var before, w, h := Snap2(bitmap), bitmap.Length0, bitmap.Length1;
      shifted := ShiftPixels(bitmap, d, ps[i].x, ps[i].y, width, height);
      if shifted.Pass? {
        if d == Vertical || d == Horizontal {
          EditedIsBitmapOperation(Carve, before, w, h, d, ps[i], extent);
        }
        WalkOne(Carve, g0, w, h, d, ps, extent, i, before);
      }
    }

    /** AddSeamToBitmap: ShiftAddPixels, with the current width, at every cell the seam's
        decoder yields for the current size, in order. An exception ends the walk with the
        cells before it spliced. */
    method AddSeamToBitmap(seam: Seam) returns (r: Outcome, ghost done: nat)
      requires 0 <= width && 0 <= height
      modifies bitmap
      ensures Spliced(seam, ImageSize(), old(Snap2(bitmap)), Snap2(bitmap), r, done)
      ensures r.Fail? ==> r.error == IndexOutOfRange
    {
      var size := ImageSize();
      ghost var g0, w, h := Snap2(bitmap), bitmap.Length0, bitmap.Length1;
      var ps := Yielded(seam, size);
      var i := 0;
      while i < |ps|
        invariant 0 <= i <= |ps|
        invariant EditedAll(Splice, g0, w, h, seam.direction, ps[..i], width) == Some(Snap2(bitmap))
      {
        var spliced := SpliceAt(seam.direction, ps, i, g0);
        if spliced.Fail? {
          return spliced, i;
        }
        i := i + 1;
      }
      done := i;
      var located := PixelLocations(seam, size);
      if located.Err? {
        LocationsFailure(seam, size);
        return Fail(located.error), done;
      }
      r := Pass;
    }

    /** One ShiftAddPixels call of AddSeamToBitmap's walk, at the i-th yielded cell. */
    method SpliceAt(d: Direction, ps: seq<Point>, i: int, ghost g0: seq<seq<Rgb>>) returns (spliced: Outcome)
      requires 0 <= i < |ps| && IsGrid(g0, bitmap.Length0, bitmap.Length1)
      requires EditedAll(Splice, g0, bitmap.Length0, bitmap.Length1, d, ps[..i], width) == Some(Snap2(bitmap))
      modifies bitmap
      ensures spliced.Pass? ==> EditedAll(Splice, g0, bitmap.Length0, bitmap.Length1, d, ps[..i + 1], width) == Some(Snap2(bitmap))
      ensures spliced.Fail? ==> spliced.error == IndexOutOfRange && Snap2(bitmap) == old(Snap2(bitmap))
      ensures spliced.Fail? ==> (d == Vertical || d == Horizontal) && !EditFits(Splice, d, ps[i], width, bitmap.Length0, bitmap.Length1)
    {
      ghost var before, w, h := Snap2(bitmap), bitmap.Length0, bitmap.Length1;
      spliced := ShiftAddPixels(bitmap, d, ps[i].x, ps[i].y, width);
      if spliced.Pass? {
        if d == Vertical || d == Horizontal {
          EditedIsBitmapOperation(Splice, before, w, h, d, ps[i], width);
          if d == Vertical {
            SnapOfCells(bitmap, SplicedRow(before, ps[i].x, ps[i].y, width));
          } else {
            SnapOfCells(bitmap, SplicedColumn(before, ps[i].x, ps[i].y));
          }
        }
        WalkOne(Splice, g0, w, h, d, ps, extent := width, i := i, m := before);
      }
    }

    /** AddSeam: while both dimensions are below the minimum size, grow the image by one seam
        (see Grow); an exception ends the loop. The image is left as it is when it already
        reaches the minimum in one dimension. */
    method AddSeam(direction: Direction, minimumSize: Size, paintSeam: bool) returns (r: Outcome)
      requires Valid() && minimumSize.width < IntMax && minimumSize.height < IntMax
      modifies this, energyFunction, seamFunction, seamFunction.verticalUsed, seamFunction.horizontalUsed
      ensures r == Pass ==> Valid() && !(width < minimumSize.width && height < minimumSize.height)
      ensures r == Pass ==> old(width) <= width <= Larger(old(width), minimumSize.width)
      ensures r == Pass ==> old(height) <= height <= Larger(old(height), minimumSize.height)
      ensures r == Pass && old(width) < minimumSize.width && old(height) < minimumSize.height ==> Derived()
      ensures !(old(width) < minimumSize.width && old(height) < minimumSize.height) ==>
        r == Pass && width == old(width) && height == old(height) && bitmap == old(bitmap)
      ensures r.Fail? ==> r.error == ArgumentOutOfRange || r.error == InvalidArgument || r.error == IndexOutOfRange
    {
      ghost var ran := false;
      while width < minimumSize.width && height < minimumSize.height
        invariant Valid()
        invariant old(width) <= width <= Larger(old(width), minimumSize.width)
        invariant old(height) <= height <= Larger(old(height), minimumSize.height)
        invariant ran ==> Derived()
        invariant !ran ==> width == old(width) && height == old(height) && bitmap == old(bitmap)
        invariant !(old(width) < minimumSize.width && old(height) < minimumSize.height) ==> !ran
        invariant seamFunction.verticalUsed == old(seamFunction.verticalUsed) || fresh(seamFunction.verticalUsed)
        invariant seamFunction.horizontalUsed == old(seamFunction.horizontalUsed) || fresh(seamFunction.horizontalUsed)
        decreases minimumSize.width - width + minimumSize.height - height
      {
        var grown;
        ghost var seam, done;
        grown, seam, done := Grow(direction);
        if grown.Fail? {
          return grown;
        }
        ran := true;
      }
      r := Pass;
    }

    /** One round of AddSeam's loop: the lookup with index 1, then the dimension of the found
        seam's direction grows by one (and stays grown whatever follows); a new black bitmap of
        the new size (new Bitmap refuses a dimension below 1) receives the overlap of the old
        one and the seam is spliced into it with AddSeamToBitmap; finally the energy and both
        cumulative maps are recomputed for the new size. */
    method Grow(direction: Direction) returns (r: Outcome, ghost seam: Seam, ghost done: nat)
      requires Valid() && width + 1 < IntMax && height + 1 < IntMax
      modifies this, energyFunction, seamFunction, seamFunction.verticalUsed, seamFunction.horizontalUsed
      ensures r == Fail(ArgumentOutOfRange) ==> width == old(width) && height == old(height) && bitmap == old(bitmap)
      ensures r != Fail(ArgumentOutOfRange) ==>
        RootSeamImage.Harvested(seam, direction, old(seamFunction.lowestVertical), old(seamFunction.lowestHorizontal), 1) &&
        seam == Picked(direction, old(seamFunction.ViewOf(Vertical, ImageSize())), old(seamFunction.lowestVertical),
                       old(seamFunction.ViewOf(Horizontal, ImageSize())), old(seamFunction.lowestHorizontal), 1)
      ensures r != Fail(ArgumentOutOfRange) && seam.direction == Vertical ==> width == old(width) + 1 && height == old(height)
      ensures r != Fail(ArgumentOutOfRange) && seam.direction != Vertical ==> width == old(width) && height == old(height) + 1
      ensures r != Fail(ArgumentOutOfRange) ==> (r == Fail(InvalidArgument) <==> width == 0 || height == 0)
      ensures r == Pass || r == Fail(IndexOutOfRange) ==>
        fresh(bitmap) && bitmap.Length0 == width && bitmap.Length1 == height &&
        Spliced(seam, Size(width, height),
                Overlaid(Blacks(width, height), old(Snap2(bitmap)), width, height, old(bitmap.Length0), old(bitmap.Length1)),
                Snap2(bitmap), r, done)
      ensures r == Pass ==> Valid() && Derived()
      ensures r == Pass ==> fresh(seamFunction.verticalUsed) && fresh(seamFunction.horizontalUsed)
      ensures r.Fail? ==> r.error == ArgumentOutOfRange || r.error == InvalidArgument || r.error == IndexOutOfRange
    {
      seam := Seam([], direction, 0, 0);
      var found := Lookup(direction, 1);
      if found.Err? {
        return Fail(found.error), seam, 0;
      }
      var lowest := found.value;
      seam := lowest;
      r, done := Adopt(lowest);
    }

    /** The part of Grow after the lookup: the dimension of the seam's direction grows by one,
        a size with a zero dimension is refused, and the rest is Enlarge. */
    method Adopt(seam: Seam) returns (r: Outcome, ghost done: nat)
      requires Valid() && width + 1 < IntMax && height + 1 < IntMax
      modifies this, energyFunction, seamFunction
      ensures seam.direction == Vertical ==> width == old(width) + 1 && height == old(height)
      ensures seam.direction != Vertical ==> width == old(width) && height == old(height) + 1
      ensures r == Fail(InvalidArgument) <==> width == 0 || height == 0
      ensures r == Pass || r == Fail(IndexOutOfRange) ==>
        fresh(bitmap) && bitmap.Length0 == width && bitmap.Length1 == height &&
        Spliced(seam, Size(width, height),
                Overlaid(Blacks(width, height), old(Snap2(bitmap)), width, height, old(bitmap.Length0), old(bitmap.Length1)),
                Snap2(bitmap), r, done)
      ensures r == Pass ==> Valid() && Derived()
      ensures r == Pass ==> fresh(seamFunction.verticalUsed) && fresh(seamFunction.horizontalUsed)
      ensures r.Fail? ==> r.error == InvalidArgument || r.error == IndexOutOfRange
    {
      if seam.direction == Vertical {
        width := width + 1;
      } else {
        height := height + 1;
      }
      if width <= 0 || height <= 0 {
        return Fail(InvalidArgument), 0;
      }
      ghost var g := Overlaid(Blacks(width, height), old(Snap2(bitmap)), width, height, old(bitmap.Length0), old(bitmap.Length1));
      assert bitmap == old(bitmap) && Snap2(bitmap) == old(Snap2(bitmap));
      r, done := Enlarge(seam);
      assert Spliced(seam, Size(width, height), g, Snap2(bitmap), r, done);
    }

    /** The part of Grow after the size has grown: the new bitmap, the splice, and the
        recomputation. */
    method Enlarge(seam: Seam) returns (r: Outcome, ghost done: nat)
      requires 0 < width < IntMax && 0 < height < IntMax && seamFunction.energyFunction == energyFunction
      modifies this, energyFunction, seamFunction
      ensures width == old(width) && height == old(height)
      ensures fresh(bitmap) && bitmap.Length0 == width && bitmap.Length1 == height
      ensures Spliced(seam, Size(width, height),
                Overlaid(Blacks(width, height), old(Snap2(bitmap)), width, height, old(bitmap.Length0), old(bitmap.Length1)),
                Snap2(bitmap), r, done)
      ensures r.Fail? ==> r.error == IndexOutOfRange
      ensures r == Pass ==> Valid() && Derived()
      ensures r == Pass ==> fresh(seamFunction.verticalUsed) && fresh(seamFunction.horizontalUsed)
    {
      ghost var g := Overlaid(Blacks(width, height), Snap2(bitmap), width, height, bitmap.Length0, bitmap.Length1);
      var grown := Copied();
      bitmap := grown;
      r, done := AddSeamToBitmap(seam);
      ghost var after := Snap2(bitmap);
      assert Spliced(seam, Size(width, height), g, after, r, done);
      if r.Pass? {
        RecomputeEntireImage();
      }
      assert Snap2(bitmap) == after;
    }

    /** The new bitmap of the current size, black, with the overlap of the old one copied in. */
    method Copied() returns (grown: array2<Rgb>)
      requires 0 <= width && 0 <= height
      ensures fresh(grown) && grown.Length0 == width && grown.Length1 == height
      ensures Snap2(grown) == Overlaid(Blacks(width, height), Snap2(bitmap), width, height, bitmap.Length0, bitmap.Length1)
    {
      grown := new Rgb[width, height]((_, _) => Black);
      SnapOfCells(grown, Blacks(width, height));
      CopyBitmap(bitmap, grown);
    }
  }
}
