/** The root revision's CarveSeams (SeamImage.cs) on values and on arrays. Both copy loops scan
    the bitmap line by line against an index map of seam ranks: the vertical carve scans rows,
    left to right, the horizontal carve scans columns, top to bottom (line a, cell l is
    Sweep.At(d, a, l)). A cell ranked below k belongs to one of the k seams being removed and is
    listed under its rank; every other pixel is copied. The vertical carve writes the copied
    pixels row after row into one flat buffer; the horizontal carve writes each column's copied
    pixels down the same column. */
module Carving {
  import opened Wrappers
  import opened Numerics
  import opened Utilities
  import opened Pixels
  import opened Bitmaps
  import opened Constants
  import opened Sweep

  /** The seam rank an index map holds for cell c; a cell outside the map counts as ranked by
      no seam. */
  function RankOf(ranks: seq<seq<Int32>>, c: Point): Int32
  {
    if 0 <= c.x < |ranks| && 0 <= c.y < |ranks[c.x]| then ranks[c.x][c.y] else IntMax
  }

  /** The pixel of img at cell c, or black outside img. */
  function PixelOf(img: seq<seq<Rgb>>, c: Point): Rgb
  {
    if 0 <= c.x < |img| && 0 <= c.y < |img[c.x]| then img[c.x][c.y] else Black
  }

  /** The cells among the first l of line a that the carve copies, in scan order: those whose
      rank is not below k. */
  function KeptLine(ranks: seq<seq<Int32>>, k: int, d: Direction, a: int, l: nat): (r: seq<Point>)
    ensures |r| <= l
  {
    if l == 0 then []
    else
      var c := At(d, a, l - 1);
      KeptLine(ranks, k, d, a, l - 1) + (if RankOf(ranks, c) < k then [] else [c])
  }

  /** The cells the carve copies, in scan order, once it has passed the first a lines, each n
      cells long, and the first l cells of line a. */
  function KeptScan(ranks: seq<seq<Int32>>, k: int, d: Direction, n: nat, a: nat, l: nat): seq<Point>
    decreases a, l
  {
    if l == 0 then (if a == 0 then [] else KeptScan(ranks, k, d, n, a - 1, n))
    else
      var c := At(d, a, l - 1);
      KeptScan(ranks, k, d, n, a, l - 1) + (if RankOf(ranks, c) < k then [] else [c])
  }

  /** The cells of the given rank the same scan has met, in scan order. */
  function RankedScan(ranks: seq<seq<Int32>>, rank: int, d: Direction, n: nat, a: nat, l: nat): seq<Point>
    decreases a, l
  {
    if l == 0 then (if a == 0 then [] else RankedScan(ranks, rank, d, n, a - 1, n))
    else
      var c := At(d, a, l - 1);
      RankedScan(ranks, rank, d, n, a, l - 1) + (if RankOf(ranks, c) == rank then [c] else [])
  }

  /** removedPixels[rank].Add(c), creating the list first when the rank has none. */
  function Record(removed: map<Int32, seq<Point>>, rank: Int32, c: Point): (r: map<Int32, seq<Point>>)
    ensures rank in r && r[rank] == (if rank in removed then removed[rank] else []) + [c]
    ensures forall q :: q != rank ==> (q in r <==> q in removed) && (q in removed ==> r[q] == removed[q])
  {
    removed[rank := (if rank in removed then removed[rank] else []) + [c]]
  }

  /** What the scan does to removedPixels at cell c of the given rank: it lists the cell when
      the rank is below k and leaves the lists alone otherwise. */
  function Visit(removed: map<Int32, seq<Point>>, rank: Int32, c: Point, k: int): map<Int32, seq<Point>>
  {
    if rank < k then Record(removed, rank, c) else removed
  }

  /** removedPixels once the scan has passed the first a lines, each n cells long, and the
      first l cells of line a. */
  function RemovedScan(ranks: seq<seq<Int32>>, k: int, d: Direction, n: nat, a: nat, l: nat): map<Int32, seq<Point>>
    decreases a, l
  {
    if l == 0 then (if a == 0 then map[] else RemovedScan(ranks, k, d, n, a - 1, n))
    else
      var c := At(d, a, l - 1);
      Visit(RemovedScan(ranks, k, d, n, a, l - 1), RankOf(ranks, c), c, k)
  }

  /** The scan has passed cell c once it has passed the first a lines, each n cells long, and
      the first l cells of line a. */
  predicate Before(d: Direction, n: nat, a: nat, l: nat, c: Point)
  {
    (0 <= Along(d, c) < a && 0 <= Lateral(d, c) < n) || (Along(d, c) == a && 0 <= Lateral(d, c) < l)
  }

  /** removedPixels at that point: a list for every rank below k that some passed cell holds,
      and that list is exactly the passed cells of that rank, in scan order. */
  ghost predicate Recorded(removed: map<Int32, seq<Point>>, ranks: seq<seq<Int32>>, k: int, d: Direction, n: nat, a: nat, l: nat)
  {
    forall rank ::
      (rank in removed <==> rank < k && RankedScan(ranks, rank, d, n, a, l) != []) &&
      (rank in removed ==> removed[rank] == RankedScan(ranks, rank, d, n, a, l))
  }

  /** Line a keeps exactly its cells whose rank is not below k. */
  lemma {:induction false} KeptLineMember(ranks: seq<seq<Int32>>, k: int, d: Direction, a: int, l: nat, c: Point)
    ensures c in KeptLine(ranks, k, d, a, l) <==> Along(d, c) == a && 0 <= Lateral(d, c) < l && RankOf(ranks, c) >= k
  {
    if l > 0 {
      KeptLineMember(ranks, k, d, a, l - 1, c);
      AtCoordinates(d, a, l - 1);
    }
  }

  lemma {:induction false} KeptScanSound(ranks: seq<seq<Int32>>, k: int, d: Direction, n: nat, a: nat, l: nat, c: Point)
    requires l <= n && c in KeptScan(ranks, k, d, n, a, l)
    ensures Before(d, n, a, l, c) && RankOf(ranks, c) >= k
    decreases a, l
  {
    if l == 0 {
      KeptScanSound(ranks, k, d, n, a - 1, n, c);
    } else if c in KeptScan(ranks, k, d, n, a, l - 1) {
      KeptScanSound(ranks, k, d, n, a, l - 1, c);
    } else {
      assert c == At(d, a, l - 1);
    }
  }

  lemma {:induction false} KeptScanComplete(ranks: seq<seq<Int32>>, k: int, d: Direction, n: nat, a: nat, l: nat, c: Point)
    requires l <= n && Before(d, n, a, l, c) && RankOf(ranks, c) >= k
    ensures c in KeptScan(ranks, k, d, n, a, l)
    decreases a, l
  {
    if l == 0 {
      KeptScanComplete(ranks, k, d, n, a - 1, n, c);
    } else if c != At(d, a, l - 1) {
      KeptScanComplete(ranks, k, d, n, a, l - 1, c);
    }
  }

  /** The carve copies exactly the passed cells whose rank is not below k. */
  lemma KeptScanMember(ranks: seq<seq<Int32>>, k: int, d: Direction, n: nat, a: nat, l: nat, c: Point)
    requires l <= n
    ensures c in KeptScan(ranks, k, d, n, a, l) <==> Before(d, n, a, l, c) && RankOf(ranks, c) >= k
  {
    if c in KeptScan(ranks, k, d, n, a, l) {
      KeptScanSound(ranks, k, d, n, a, l, c);
    }
    if Before(d, n, a, l, c) && RankOf(ranks, c) >= k {
      KeptScanComplete(ranks, k, d, n, a, l, c);
    }
  }

  lemma {:induction false} RankedScanSound(ranks: seq<seq<Int32>>, rank: int, d: Direction, n: nat, a: nat, l: nat, c: Point)
    requires l <= n && c in RankedScan(ranks, rank, d, n, a, l)
    ensures Before(d, n, a, l, c) && RankOf(ranks, c) == rank
    decreases a, l
  {
    if l == 0 {
      RankedScanSound(ranks, rank, d, n, a - 1, n, c);
    } else if c in RankedScan(ranks, rank, d, n, a, l - 1) {
      RankedScanSound(ranks, rank, d, n, a, l - 1, c);
    } else {
      assert c == At(d, a, l - 1);
    }
  }

  lemma {:induction false} RankedScanComplete(ranks: seq<seq<Int32>>, rank: int, d: Direction, n: nat, a: nat, l: nat, c: Point)
    requires l <= n && Before(d, n, a, l, c) && RankOf(ranks, c) == rank
    ensures c in RankedScan(ranks, rank, d, n, a, l)
    decreases a, l
  {
    if l == 0 {
      RankedScanComplete(ranks, rank, d, n, a - 1, n, c);
    } else if c != At(d, a, l - 1) {
      RankedScanComplete(ranks, rank, d, n, a, l - 1, c);
    }
  }

  /** The scan meets exactly the passed cells holding the given rank. */
  lemma RankedScanMember(ranks: seq<seq<Int32>>, rank: int, d: Direction, n: nat, a: nat, l: nat, c: Point)
    requires l <= n
    ensures c in RankedScan(ranks, rank, d, n, a, l) <==> Before(d, n, a, l, c) && RankOf(ranks, c) == rank
  {
    if c in RankedScan(ranks, rank, d, n, a, l) {
      RankedScanSound(ranks, rank, d, n, a, l, c);
    }
    if Before(d, n, a, l, c) && RankOf(ranks, c) == rank {
      RankedScanComplete(ranks, rank, d, n, a, l, c);
    }
  }

  /** The scan lists a rank exactly when it is below k and some passed cell holds it, and its
      list is then that rank's cells in scan order. */
  lemma {:induction false} RemovedScanAt(ranks: seq<seq<Int32>>, k: int, d: Direction, n: nat, a: nat, l: nat, rank: Int32)
    requires l <= n
    ensures rank in RemovedScan(ranks, k, d, n, a, l) <==> rank < k && RankedScan(ranks, rank, d, n, a, l) != []
    ensures rank in RemovedScan(ranks, k, d, n, a, l) ==> RemovedScan(ranks, k, d, n, a, l)[rank] == RankedScan(ranks, rank, d, n, a, l)
    decreases a, l
  {
    if l > 0 {
      RemovedScanAt(ranks, k, d, n, a, l - 1, rank);
    } else if a > 0 {
      RemovedScanAt(ranks, k, d, n, a - 1, n, rank);
    }
  }

  /** The scan builds exactly the lists Recorded describes. */
  lemma RemovedScanRecorded(ranks: seq<seq<Int32>>, k: int, d: Direction, n: nat, a: nat, l: nat)
    requires l <= n
    ensures Recorded(RemovedScan(ranks, k, d, n, a, l), ranks, k, d, n, a, l)
  {
    forall rank: Int32
      ensures rank in RemovedScan(ranks, k, d, n, a, l) <==> rank < k && RankedScan(ranks, rank, d, n, a, l) != []
      ensures rank in RemovedScan(ranks, k, d, n, a, l) ==> RemovedScan(ranks, k, d, n, a, l)[rank] == RankedScan(ranks, rank, d, n, a, l)
    {
      RemovedScanAt(ranks, k, d, n, a, l, rank);
    }
  }

  /** The scan splits the cells it has passed between the copied ones and the lists of
      removedPixels: a passed cell is copied exactly when it is not listed, and it is listed
      under its own rank only. */
  lemma CopiedOrRecorded(removed: map<Int32, seq<Point>>, ranks: seq<seq<Int32>>, k: int, d: Direction, n: nat, a: nat, l: nat, c: Point)
    requires l <= n && Recorded(removed, ranks, k, d, n, a, l) && Before(d, n, a, l, c)
    ensures c in KeptScan(ranks, k, d, n, a, l) <==> !exists rank :: rank in removed && c in removed[rank]
    ensures forall rank :: rank in removed && c in removed[rank] ==> rank == RankOf(ranks, c) < k
  {
    KeptScanMember(ranks, k, d, n, a, l, c);
    RankedScanMember(ranks, RankOf(ranks, c), d, n, a, l, c);
    forall rank | rank in removed && c in removed[rank]
      ensures rank == RankOf(ranks, c) < k
    {
      RankedScanSound(ranks, rank, d, n, a, l, c);
    }
  }

  /** The scan part way through line a is the scan of the lines before it followed by what
      line a keeps so far. */
  lemma {:induction false} KeptScanSplit(ranks: seq<seq<Int32>>, k: int, d: Direction, n: nat, a: nat, l: nat)
    ensures KeptScan(ranks, k, d, n, a, l) == KeptScan(ranks, k, d, n, a, 0) + KeptLine(ranks, k, d, a, l)
  {
    if l > 0 {
      KeptScanSplit(ranks, k, d, n, a, l - 1);
    }
  }

  /** Each scanned cell adds at most one copied cell. */
  lemma {:induction false} KeptLineGrows(ranks: seq<seq<Int32>>, k: int, d: Direction, a: int, l: nat, m: nat)
    requires l <= m
    ensures |KeptLine(ranks, k, d, a, l)| <= |KeptLine(ranks, k, d, a, m)|
    decreases m
  {
    if l < m {
      KeptLineGrows(ranks, k, d, a, l, m - 1);
    }
  }

  /** The copies made part way through line a never outnumber those of the whole scan of b
      lines. */
  lemma {:induction false} KeptScanGrows(ranks: seq<seq<Int32>>, k: int, d: Direction, n: nat, a: nat, l: nat, b: nat)
    requires a < b && l <= n
    ensures |KeptScan(ranks, k, d, n, a, l)| <= |KeptScan(ranks, k, d, n, b, 0)|
    decreases b - a, n - l
  {
    if l < n {
      KeptScanGrows(ranks, k, d, n, a, l + 1, b);
    } else if a + 1 < b {
      KeptScanGrows(ranks, k, d, n, a + 1, 0, b);
    }
  }

  /** Where line y starts in a flat buffer n pixels wide: n places for each line before it. */
  function RowStart(y: nat, n: nat): nat
  {
    if y == 0 then 0 else RowStart(y - 1, n) + n
  }

  lemma {:induction false} RowStartMono(y: nat, z: nat, n: nat)
    requires y <= z
    ensures RowStart(y, n) <= RowStart(z, n)
    decreases z
  {
    if y < z {
      RowStartMono(y, z - 1, n);
    }
  }

  /** In closed form, line y starts at y * n. */
  lemma {:induction false} RowStartIsProduct(y: nat, n: nat)
    ensures RowStart(y, n) == y * n
    decreases y
  {
    if y > 0 {
      RowStartIsProduct(y - 1, n);
      assert (y - 1) * n + n == y * n;
    }
  }

  /** Place (x, y) of a flat buffer n wide and h high lies inside it. */
  lemma FlatBelow(n: nat, h: nat, x: nat, y: nat)
    requires y < h && x < n
    ensures RowStart(y, n) + x < RowStart(h, n)
  {
    RowStartMono(y + 1, h, n);
  }

  /** Two different places of a flat buffer have different flat positions. */
  lemma FlatDistinct(n: nat, x1: nat, y1: nat, x2: nat, y2: nat)
    requires x1 < n && x2 < n && (x1 != x2 || y1 != y2)
    ensures RowStart(y1, n) + x1 != RowStart(y2, n) + x2
  {
    if y1 < y2 {
      FlatBelow(n, y2, x1, y1);
    } else if y2 < y1 {
      FlatBelow(n, y1, x2, y2);
    }
  }

  /** Each of the first a lines keeps exactly m cells. */
  ghost predicate EvenLines(ranks: seq<seq<Int32>>, k: int, d: Direction, n: nat, a: nat, m: nat)
  {
    forall y :: 0 <= y < a ==> |KeptLine(ranks, k, d, y, n)| == m
  }

  /** When every row keeps the same number m of cells (a carve of k seams that each claim one
      cell per row keeps m = width - k), the copied cells fill exactly a rows of m. */
  lemma {:induction false} EvenLinesLength(ranks: seq<seq<Int32>>, k: int, d: Direction, n: nat, a: nat, m: nat)
    requires EvenLines(ranks, k, d, n, a, m)
    ensures |KeptScan(ranks, k, d, n, a, 0)| == RowStart(a, m)
    decreases a
  {
    if a > 0 {
      assert EvenLines(ranks, k, d, n, a - 1, m);
      EvenLinesLength(ranks, k, d, n, a - 1, m);
      KeptScanSplit(ranks, k, d, n, a - 1, n);
    }
  }

  /** The scan of the first b lines is a prefix of the scan of the first a lines, b <= a. */
  lemma {:induction false} KeptScanPrefix(ranks: seq<seq<Int32>>, k: int, d: Direction, n: nat, b: nat, a: nat)
    requires b <= a
    ensures KeptScan(ranks, k, d, n, b, 0) <= KeptScan(ranks, k, d, n, a, 0)
    decreases a
  {
    if b < a {
      KeptScanPrefix(ranks, k, d, n, b, a - 1);
      KeptScanSplit(ranks, k, d, n, a - 1, n);
    }
  }

  /** ... and the flat layout puts line y's copied cells, in order, at the start of line y of
      the new buffer: each output row is its input row with the removed cells taken out. */
  lemma EvenLinesAlign(ranks: seq<seq<Int32>>, k: int, d: Direction, n: nat, a: nat, m: nat, x: nat, y: nat)
    requires EvenLines(ranks, k, d, n, a, m) && y < a && x < m
    ensures RowStart(y, m) + x < |KeptScan(ranks, k, d, n, a, 0)|
    ensures KeptScan(ranks, k, d, n, a, 0)[RowStart(y, m) + x] == KeptLine(ranks, k, d, y, n)[x]
  {
    assert EvenLines(ranks, k, d, n, y, m);
    EvenLinesLength(ranks, k, d, n, y, m);
    KeptScanSplit(ranks, k, d, n, y, n);
    KeptScanPrefix(ranks, k, d, n, y + 1, a);
    var front, line := KeptScan(ranks, k, d, n, y, 0), KeptLine(ranks, k, d, y, n);
    assert KeptScan(ranks, k, d, n, y + 1, 0) == front + line;
    assert (front + line)[|front| + x] == line[x];
  }

  /** The cells the scan has passed at line a, cell l (l <= n) lie inside a grid of the given
      size. */
  predicate ScanFits(d: Direction, n: nat, a: nat, l: nat, size: Size)
  {
    var lines := if l == 0 then a else a + 1;
    l <= n && if d == Vertical then n <= size.width && lines <= size.height else lines <= size.width && n <= size.height
  }

  /** Index maps filled with zeros, as the root constructor allocates them. */
  function ZeroRanks(size: Size): (g: seq<seq<Int32>>)
    ensures IsGrid(g, size.width, size.height) && forall x, y :: 0 <= x < size.width && 0 <= y < size.height ==> g[x][y] == 0
  {
    seq(size.width, _ => seq(size.height, _ => 0))
  }

  /** Index maps filled with int.MaxValue, a rank no carve reaches. */
  function Unranked(size: Size): (g: seq<seq<Int32>>)
    ensures IsGrid(g, size.width, size.height) && forall x, y :: 0 <= x < size.width && 0 <= y < size.height ==> g[x][y] == IntMax
  {
    seq(size.width, _ => seq(size.height, _ => IntMax))
  }

  /** Every cell of a size-shaped index map holds the given rank. */
  ghost predicate Uniform(ranks: seq<seq<Int32>>, size: Size, rank: int)
  {
    IsGrid(ranks, size.width, size.height) &&
    forall x, y :: 0 <= x < size.width && 0 <= y < size.height ==> ranks[x][y] == rank
  }

  lemma ZeroRanksUniform(size: Size)
    ensures Uniform(ZeroRanks(size), size, 0)
  {
  }

  lemma UnrankedUniform(size: Size)
    ensures Uniform(Unranked(size), size, IntMax)
  {
  }

  /** With the zero-filled maps of the root constructor and no ranked seams, every cell reads
      as claimed by the first seam: a carve of one or more seams copies nothing, so the new
      bitmap stays black ... */
  lemma {:induction false} ZeroRanksDropEverything(ranks: seq<seq<Int32>>, size: Size, k: int, d: Direction, n: nat, a: nat, l: nat)
    requires Uniform(ranks, size, 0) && k >= 1 && ScanFits(d, n, a, l, size)
    ensures KeptScan(ranks, k, d, n, a, l) == []
    decreases a, l
  {
    if l > 0 {
      ZeroRanksDropEverything(ranks, size, k, d, n, a, l - 1);
      assert RankOf(ranks, At(d, a, l - 1)) == 0;
    } else if a > 0 {
      ZeroRanksDropEverything(ranks, size, k, d, n, a - 1, n);
    }
  }

  /** ... and lists every passed cell under rank 0. */
  lemma {:induction false} ZeroRanksListEverything(ranks: seq<seq<Int32>>, size: Size, d: Direction, n: nat, a: nat, l: nat)
    requires Uniform(ranks, size, 0) && ScanFits(d, n, a, l, size)
    ensures |RankedScan(ranks, 0, d, n, a, l)| == RowStart(a, n) + l
    decreases a, l
  {
    if l > 0 {
      ZeroRanksListEverything(ranks, size, d, n, a, l - 1);
      assert RankOf(ranks, At(d, a, l - 1)) == 0;
    } else if a > 0 {
      ZeroRanksListEverything(ranks, size, d, n, a - 1, n);
    }
  }

  /** With maps whose unranked cells hold int.MaxValue, no cell is dropped: a carve with no
      ranked seams copies every passed cell ... */
  lemma {:induction false} UnrankedKeepsEverything(ranks: seq<seq<Int32>>, size: Size, k: Int32, d: Direction, n: nat, a: nat, l: nat)
    requires Uniform(ranks, size, IntMax) && ScanFits(d, n, a, l, size)
    ensures |KeptScan(ranks, k, d, n, a, l)| == RowStart(a, n) + l
    decreases a, l
  {
    if l > 0 {
      UnrankedKeepsEverything(ranks, size, k, d, n, a, l - 1);
      assert RankOf(ranks, At(d, a, l - 1)) == IntMax;
    } else if a > 0 {
      UnrankedKeepsEverything(ranks, size, k, d, n, a - 1, n);
    }
  }

  /** ... and lists none: no cell of such maps holds a rank below k. */
  lemma {:induction false} UnrankedListsNothing(ranks: seq<seq<Int32>>, size: Size, rank: int, d: Direction, n: nat, a: nat, l: nat)
    requires Uniform(ranks, size, IntMax) && ScanFits(d, n, a, l, size) && rank < IntMax
    ensures RankedScan(ranks, rank, d, n, a, l) == []
    decreases a, l
  {
    if l > 0 {
      UnrankedListsNothing(ranks, size, rank, d, n, a, l - 1);
      assert RankOf(ranks, At(d, a, l - 1)) == IntMax;
    } else if a > 0 {
      UnrankedListsNothing(ranks, size, rank, d, n, a - 1, n);
    }
  }

  /** Pixel (x, y) of a new bitmap `width` pixels wide that the vertical carve filled from img
      with the copied cells laid out row after row: the copied cell at flat position
      RowStart(y, width) + x, or black beyond the last one. */
  function FlatCell(img: seq<seq<Rgb>>, kept: seq<Point>, width: nat, x: int, y: nat): Rgb
  {
    var t := RowStart(y, width) + x;
    if 0 <= t < |kept| then PixelOf(img, kept[t]) else Black
  }

  /** The write position of the vertical carve in a flat buffer `width` pixels wide and h
      high: (dx, dy) is where the next copied cell goes, and dy reaches h only when the buffer
      is full. */
  predicate Cursor(kept: seq<Point>, width: nat, h: nat, dx: int, dy: int)
  {
    0 <= dx < width && 0 <= dy <= h && |kept| == RowStart(dy, width) + dx && (dy == h ==> dx == 0)
  }

  lemma CursorBound(kept: seq<Point>, width: nat, h: nat, dx: int, dy: int)
    requires Cursor(kept, width, h, dx, dy)
    ensures |kept| <= RowStart(h, width)
    ensures dy == h <==> |kept| == RowStart(h, width)
  {
    if dy < h {
      FlatBelow(width, h, dx, dy);
    }
  }

  /** dest holds the flat layout of the copied cells so far. */
  ghost predicate Filled(dest: array2<Rgb>, img: seq<seq<Rgb>>, kept: seq<Point>)
    reads dest
  {
    forall x, y :: 0 <= x < dest.Length0 && 0 <= y < dest.Length1 ==> dest[x, y] == FlatCell(img, kept, dest.Length0, x, y)
  }

  /** Copy the pixel of the copied cell c into the next free place of the flat buffer. */
  method Place(dest: array2<Rgb>, p: Rgb, dx: int, dy: int, ghost img: seq<seq<Rgb>>, ghost kept: seq<Point>, ghost c: Point)
    returns (dx': int, dy': int)
    requires p == PixelOf(img, c)
    requires Filled(dest, img, kept) && Cursor(kept, dest.Length0, dest.Length1, dx, dy) && dy < dest.Length1
    modifies dest
    ensures Filled(dest, img, kept + [c]) && Cursor(kept + [c], dest.Length0, dest.Length1, dx', dy')
  {
    var w := dest.Length0;
    dest[dx, dy] := p;
    forall x, y | 0 <= x < w && 0 <= y < dest.Length1
      ensures dest[x, y] == FlatCell(img, kept + [c], w, x, y)
    {
      if x != dx || y != dy {
        FlatDistinct(w, x, y, dx, dy);
      }
    }
    dx', dy' := dx + 1, dy;
    if dx' == w {
      dx', dy' := 0, dy + 1;
    }
  }

  /** The vertical copy loop of CarveSeams: scan the bitmap src row by row against the index
      map, list every cell ranked below k under its rank, and copy every other pixel into the
      next free place of a new black bitmap `width` pixels wide and as high as src, filling it
      row after row. Copying past the end of the new buffer is a failure. */
  method CarveRows(src: array2<Rgb>, ranks: array2<Int32>, k: Int32, width: int)
    returns (r: Result<array2<Rgb>>, removed: map<Int32, seq<Point>>)
    requires width > 0 && src.Length0 <= ranks.Length0 && src.Length1 <= ranks.Length1
    ensures r.Err? <==> |KeptScan(Snap2(ranks), k, Vertical, src.Length0, src.Length1, 0)| > RowStart(src.Length1, width)
    ensures r.Err? ==> r.error == IndexOutOfRange
    ensures r.Ok? ==> fresh(r.value) && r.value.Length0 == width && r.value.Length1 == src.Length1
    ensures r.Ok? ==> removed == RemovedScan(Snap2(ranks), k, Vertical, src.Length0, src.Length1, 0)
    ensures r.Ok? ==> Filled(r.value, Snap2(src), KeptScan(Snap2(ranks), k, Vertical, src.Length0, src.Length1, 0))
  {
    var dest := new Rgb[width, src.Length1]((_, _) => Black);
    var ok;
    ok, removed := FillRows(src, ranks, k, dest);
    r := if ok then Ok(dest) else Err(IndexOutOfRange);
  }

  /** The state of the vertical copy loop at cell (j, i): kept and removed describe the scan
      so far, dest holds the copied cells in flat layout and (dx, dy) is the next free place. */
  ghost predicate RowScan(dest: array2<Rgb>, g: seq<seq<Rgb>>, rk: seq<seq<Int32>>, k: int, w: nat, i: nat, j: nat,
                          dx: int, dy: int, removed: map<Int32, seq<Point>>, kept: seq<Point>)
    reads dest
  {
    kept == KeptScan(rk, k, Vertical, w, i, j) &&
    removed == RemovedScan(rk, k, Vertical, w, i, j) &&
    Filled(dest, g, kept) && Cursor(kept, dest.Length0, dest.Length1, dx, dy)
  }

  /** The row loop of CarveRows over a black buffer dest. */
  method FillRows(src: array2<Rgb>, ranks: array2<Int32>, k: Int32, dest: array2<Rgb>)
    returns (ok: bool, removed: map<Int32, seq<Point>>)
    requires dest.Length0 > 0 && src.Length0 <= ranks.Length0 && src.Length1 <= ranks.Length1
    requires dest != src && dest.Length1 == src.Length1 && Filled(dest, Snap2(src), [])
    modifies dest
    ensures !ok <==> |KeptScan(Snap2(ranks), k, Vertical, src.Length0, src.Length1, 0)| > RowStart(dest.Length1, dest.Length0)
    ensures ok ==> removed == RemovedScan(Snap2(ranks), k, Vertical, src.Length0, src.Length1, 0)
    ensures ok ==> Filled(dest, Snap2(src), KeptScan(Snap2(ranks), k, Vertical, src.Length0, src.Length1, 0))
  {
    var w, h := src.Length0, src.Length1;
    ghost var g, rk := Snap2(src), Snap2(ranks);
    removed := map[];
    var dx, dy := 0, 0;
    ghost var kept: seq<Point> := [];
    var i := 0;
    while i < h
      invariant 0 <= i <= h && RowScan(dest, g, rk, k, w, i, 0, dx, dy, removed, kept)
      invariant g == Snap2(src) && rk == Snap2(ranks)
    {
      ok, dx, dy, removed, kept := CarveRow(src, ranks, k, dest, i, dx, dy, removed, g, rk, kept);
      if !ok {
        return;
      }
      i := i + 1;
    }
    CursorBound(kept, dest.Length0, h, dx, dy);
    assert kept == KeptScan(rk, k, Vertical, w, h, 0);
    ok := true;
  }

  /** Row i of the vertical copy loop, continuing from the state the rows before it left. */
  method CarveRow(src: array2<Rgb>, ranks: array2<Int32>, k: Int32, dest: array2<Rgb>, i: int,
                  dx0: int, dy0: int, removed0: map<Int32, seq<Point>>,
                  ghost g: seq<seq<Rgb>>, ghost rk: seq<seq<Int32>>, ghost kept0: seq<Point>)
    returns (ok: bool, dx: int, dy: int, removed: map<Int32, seq<Point>>, ghost kept: seq<Point>)
    requires src.Length0 <= ranks.Length0 && src.Length1 <= ranks.Length1 && 0 <= i < src.Length1
    requires dest != src && dest.Length1 == src.Length1 && g == Snap2(src) && rk == Snap2(ranks)
    requires RowScan(dest, g, rk, k, src.Length0, i, 0, dx0, dy0, removed0, kept0)
    modifies dest
    ensures g == Snap2(src) && rk == Snap2(ranks)
    ensures !ok ==> |KeptScan(rk, k, Vertical, src.Length0, src.Length1, 0)| > RowStart(dest.Length1, dest.Length0)
    ensures ok ==> RowScan(dest, g, rk, k, src.Length0, i + 1, 0, dx, dy, removed, kept)
  {
    var w := src.Length0;
    dx, dy, removed, kept := dx0, dy0, removed0, kept0;
    var j := 0;
    while j < w
      invariant 0 <= j <= w && RowScan(dest, g, rk, k, w, i, j, dx, dy, removed, kept)
      invariant g == Snap2(src) && rk == Snap2(ranks)
    {
      ok, dx, dy, removed, kept := RowStep(src, ranks, k, dest, i, j, dx, dy, removed, g, rk, kept);
      if !ok {
        return;
      }
      j := j + 1;
    }
    assert KeptLine(rk, k, Vertical, i + 1, 0) == [];
    ok := true;
  }

  /** Cell (j, i) of the vertical copy loop: list it under its rank when that is below k,
      otherwise copy its pixel to the write position, failing when the new buffer is full. */
  method RowStep(src: array2<Rgb>, ranks: array2<Int32>, k: Int32, dest: array2<Rgb>, i: int, j: int,
                 dx0: int, dy0: int, removed0: map<Int32, seq<Point>>,
                 ghost g: seq<seq<Rgb>>, ghost rk: seq<seq<Int32>>, ghost kept0: seq<Point>)
    returns (ok: bool, dx: int, dy: int, removed: map<Int32, seq<Point>>, ghost kept: seq<Point>)
    requires src.Length0 <= ranks.Length0 && src.Length1 <= ranks.Length1 && 0 <= i < src.Length1 && 0 <= j < src.Length0
    requires dest != src && dest.Length1 == src.Length1 && g == Snap2(src) && rk == Snap2(ranks)
    requires RowScan(dest, g, rk, k, src.Length0, i, j, dx0, dy0, removed0, kept0)
    modifies dest
    ensures g == Snap2(src) && rk == Snap2(ranks)
    ensures !ok ==> |KeptScan(rk, k, Vertical, src.Length0, src.Length1, 0)| > RowStart(dest.Length1, dest.Length0)
    ensures ok ==> RowScan(dest, g, rk, k, src.Length0, i, j + 1, dx, dy, removed, kept)
  {
    var w, h := src.Length0, src.Length1;
    dx, dy, removed, kept := dx0, dy0, removed0, kept0;
    var c := Point(j, i);
    assert c == At(Vertical, i, j);
    var rank := ranks[j, i];
    assert rank == RankOf(rk, c);
    if rank < k {
      removed := Record(removed, rank, c);
      return true, dx, dy, removed, kept;
    }
    if dy == h {
      CursorBound(kept, dest.Length0, h, dx, dy);
      KeptScanGrows(rk, k, Vertical, w, i, j + 1, h);
      return false, dx, dy, removed, kept;
    }
    assert src[j, i] == PixelOf(g, c);
    dx, dy := Place(dest, src[j, i], dx, dy, g, kept, c);
    kept := kept + [c];
    ok := true;
  }

  /** Pixel y of a column whose copied cells, top to bottom, are `kept`: the y-th one's pixel,
      or black below the last one. */
  function ColumnCell(img: seq<seq<Rgb>>, kept: seq<Point>, y: int): Rgb
  {
    if 0 <= y < |kept| then PixelOf(img, kept[y]) else Black
  }

  /** Some column of the w by h scan copies more cells than the new bitmap's height. */
  ghost predicate ColumnOverflows(ranks: seq<seq<Int32>>, k: int, w: nat, h: nat, height: int)
  {
    exists x :: 0 <= x < w && |KeptLine(ranks, k, Horizontal, x, h)| > height
  }

  /** Every column of dest holds its copied cells at the top, in scan order, and black below. */
  ghost predicate ColumnsFilled(dest: array2<Rgb>, img: seq<seq<Rgb>>, ranks: seq<seq<Int32>>, k: int, h: nat)
    reads dest
  {
    forall x, y :: 0 <= x < dest.Length0 && 0 <= y < dest.Length1 ==>
      dest[x, y] == ColumnCell(img, KeptLine(ranks, k, Horizontal, x, h), y)
  }

  /** The horizontal copy loop of CarveSeams: scan the bitmap src column by column against the
      index map, list every cell ranked below k under its rank, and copy every other pixel of a
      column down the same column of a new black bitmap as wide as src and `height` pixels
      high. A column that copies more cells than fit is a failure. */
  method CarveColumns(src: array2<Rgb>, ranks: array2<Int32>, k: Int32, height: int)
    returns (r: Result<array2<Rgb>>, removed: map<Int32, seq<Point>>)
    requires height > 0 && src.Length0 <= ranks.Length0 && src.Length1 <= ranks.Length1
    ensures r.Err? <==> ColumnOverflows(Snap2(ranks), k, src.Length0, src.Length1, height)
    ensures r.Err? ==> r.error == IndexOutOfRange
    ensures r.Ok? ==> fresh(r.value) && r.value.Length0 == src.Length0 && r.value.Length1 == height
    ensures r.Ok? ==> removed == RemovedScan(Snap2(ranks), k, Horizontal, src.Length1, src.Length0, 0)
    ensures r.Ok? ==> ColumnsFilled(r.value, Snap2(src), Snap2(ranks), k, src.Length1)
  {
    var dest := new Rgb[src.Length0, height]((_, _) => Black);
    var ok;
    ok, removed := FillColumns(src, ranks, k, dest);
    r := if ok then Ok(dest) else Err(IndexOutOfRange);
  }

  /** The state of the column loop before column i: the scan so far is recorded, the copied
      cells of each finished column fit, and dest holds them. */
  ghost predicate ColumnLoop(dest: array2<Rgb>, g: seq<seq<Rgb>>, rk: seq<seq<Int32>>, k: int, h: nat, i: nat,
                             removed: map<Int32, seq<Point>>)
    reads dest
  {
    removed == RemovedScan(rk, k, Horizontal, h, i, 0) &&
    (forall x :: 0 <= x < i ==> |KeptLine(rk, k, Horizontal, x, h)| <= dest.Length1) &&
    forall x, y :: 0 <= x < dest.Length0 && 0 <= y < dest.Length1 ==>
      dest[x, y] == ColumnCell(g, if x < i then KeptLine(rk, k, Horizontal, x, h) else [], y)
  }

  /** The column loop of CarveColumns over a black buffer dest. */
  method FillColumns(src: array2<Rgb>, ranks: array2<Int32>, k: Int32, dest: array2<Rgb>)
    returns (ok: bool, removed: map<Int32, seq<Point>>)
    requires src.Length0 <= ranks.Length0 && src.Length1 <= ranks.Length1
    requires dest != src && dest.Length0 == src.Length0
    requires forall x, y :: 0 <= x < dest.Length0 && 0 <= y < dest.Length1 ==> dest[x, y] == Black
    modifies dest
    ensures !ok <==> ColumnOverflows(Snap2(ranks), k, src.Length0, src.Length1, dest.Length1)
    ensures ok ==> removed == RemovedScan(Snap2(ranks), k, Horizontal, src.Length1, src.Length0, 0)
    ensures ok ==> ColumnsFilled(dest, Snap2(src), Snap2(ranks), k, src.Length1)
  {
    var w, h := src.Length0, src.Length1;
    ghost var g, rk := Snap2(src), Snap2(ranks);
    removed := map[];
    var i := 0;
    while i < w
      invariant 0 <= i <= w && ColumnLoop(dest, g, rk, k, h, i, removed)
      invariant g == Snap2(src) && rk == Snap2(ranks)
    {
      ok, removed := CarveColumn(src, ranks, k, dest, i, removed, g, rk);
      if !ok {
        return;
      }
      i := i + 1;
    }
    ok := true;
  }

  /** Column i of the horizontal copy loop: it fills column i of dest with the column's copied
      cells, or fails when they do not fit. */
  method CarveColumn(src: array2<Rgb>, ranks: array2<Int32>, k: Int32, dest: array2<Rgb>, i: int,
                     removed0: map<Int32, seq<Point>>, ghost g: seq<seq<Rgb>>, ghost rk: seq<seq<Int32>>)
    returns (ok: bool, removed: map<Int32, seq<Point>>)
    requires src.Length0 <= ranks.Length0 && src.Length1 <= ranks.Length1 && 0 <= i < src.Length0
    requires dest != src && dest.Length0 == src.Length0 && g == Snap2(src) && rk == Snap2(ranks)
    requires ColumnLoop(dest, g, rk, k, src.Length1, i, removed0)
    modifies dest
    ensures g == Snap2(src) && rk == Snap2(ranks)
    ensures ok <==> |KeptLine(rk, k, Horizontal, i, src.Length1)| <= dest.Length1
    ensures ok ==> ColumnLoop(dest, g, rk, k, src.Length1, i + 1, removed)
  {
    var h := src.Length1;
    ghost var kept;
    ok, removed, kept := CarveColumnCells(src, ranks, k, dest, i, removed0, g, rk);
    if ok {
      forall x, y | 0 <= x < dest.Length0 && 0 <= y < dest.Length1
        ensures dest[x, y] == ColumnCell(g, if x < i + 1 then KeptLine(rk, k, Horizontal, x, h) else [], y)
      {
        if x != i {
          assert dest[x, y] == old(dest[x, y]);
        }
      }
    }
  }

  /** The cell loop of column i: only that column of dest changes, and it receives the
      column's copied cells. */
  method CarveColumnCells(src: array2<Rgb>, ranks: array2<Int32>, k: Int32, dest: array2<Rgb>, i: int,
                     removed0: map<Int32, seq<Point>>, ghost g: seq<seq<Rgb>>, ghost rk: seq<seq<Int32>>)
    returns (ok: bool, removed: map<Int32, seq<Point>>, ghost kept: seq<Point>)
    requires src.Length0 <= ranks.Length0 && src.Length1 <= ranks.Length1 && 0 <= i < src.Length0
    requires dest != src && dest.Length0 == src.Length0 && g == Snap2(src) && rk == Snap2(ranks)
    requires removed0 == RemovedScan(rk, k, Horizontal, src.Length1, i, 0)
    requires forall y :: 0 <= y < dest.Length1 ==> dest[i, y] == Black
    modifies dest
    ensures g == Snap2(src) && rk == Snap2(ranks)
    ensures ok <==> |KeptLine(rk, k, Horizontal, i, src.Length1)| <= dest.Length1
    ensures ok ==> kept == KeptLine(rk, k, Horizontal, i, src.Length1)
    ensures ok ==> removed == RemovedScan(rk, k, Horizontal, src.Length1, i + 1, 0)
    ensures ok ==> forall y :: 0 <= y < dest.Length1 ==> dest[i, y] == ColumnCell(g, kept, y)
    ensures forall x, y :: 0 <= x < dest.Length0 && 0 <= y < dest.Length1 && x != i ==> dest[x, y] == old(dest[x, y])
  {
    var h := src.Length1;
    removed := removed0;
    kept := [];
    var dy := 0;
    var j := 0;
    while j < h
      invariant 0 <= j <= h && kept == KeptLine(rk, k, Horizontal, i, j) && dy == |kept| <= dest.Length1
      invariant removed == RemovedScan(rk, k, Horizontal, h, i, j)
      invariant forall y :: 0 <= y < dest.Length1 ==> dest[i, y] == ColumnCell(g, kept, y)
      invariant forall x, y :: 0 <= x < dest.Length0 && 0 <= y < dest.Length1 && x != i ==> dest[x, y] == old(dest[x, y])
      invariant g == Snap2(src) && rk == Snap2(ranks)
    {
      ok, dy, removed, kept := ColumnStep(src, ranks, k, dest, i, j, dy, removed, g, rk, kept);
      if !ok {
        return;
      }
      j := j + 1;
    }
    ok := true;
  }

  /** Cell (i, j) of the horizontal copy loop: list it under its rank when that is below k,
      otherwise copy its pixel to the next place down column i, failing when the column is
      full. */
  method ColumnStep(src: array2<Rgb>, ranks: array2<Int32>, k: Int32, dest: array2<Rgb>, i: int, j: int,
                    dy0: int, removed0: map<Int32, seq<Point>>,
                    ghost g: seq<seq<Rgb>>, ghost rk: seq<seq<Int32>>, ghost kept0: seq<Point>)
    returns (ok: bool, dy: int, removed: map<Int32, seq<Point>>, ghost kept: seq<Point>)
    requires src.Length0 <= ranks.Length0 && src.Length1 <= ranks.Length1 && 0 <= i < src.Length0 && 0 <= j < src.Length1
    requires dest != src && dest.Length0 == src.Length0 && g == Snap2(src) && rk == Snap2(ranks)
    requires kept0 == KeptLine(rk, k, Horizontal, i, j) && dy0 == |kept0| <= dest.Length1
    requires removed0 == RemovedScan(rk, k, Horizontal, src.Length1, i, j)
    requires forall y :: 0 <= y < dest.Length1 ==> dest[i, y] == ColumnCell(g, kept0, y)
    modifies dest
    ensures g == Snap2(src) && rk == Snap2(ranks)
    ensures !ok ==> |KeptLine(rk, k, Horizontal, i, src.Length1)| > dest.Length1
    ensures ok ==> kept == KeptLine(rk, k, Horizontal, i, j + 1) && dy == |kept| <= dest.Length1
    ensures ok ==> removed == RemovedScan(rk, k, Horizontal, src.Length1, i, j + 1)
    ensures ok ==> forall y :: 0 <= y < dest.Length1 ==> dest[i, y] == ColumnCell(g, kept, y)
    ensures forall x, y :: 0 <= x < dest.Length0 && 0 <= y < dest.Length1 && x != i ==> dest[x, y] == old(dest[x, y])
  {
    var h := src.Length1;
    dy, removed, kept := dy0, removed0, kept0;
    var c := Point(i, j);
    assert c == At(Horizontal, i, j);
    var rank := ranks[i, j];
    assert rank == RankOf(rk, c);
    if rank < k {
      removed := Record(removed, rank, c);
      return true, dy, removed, kept;
    }
    if dy == dest.Length1 {
      KeptLineGrows(rk, k, Horizontal, i, j + 1, h);
      return false, dy, removed, kept;
    }
    assert src[i, j] == PixelOf(g, c);
    dest[i, dy] := src[i, j];
    kept := kept + [c];
    dy := dy + 1;
    ok := true;
  }
}
