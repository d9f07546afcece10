/** The root revision's SeamImage (SeamImage.cs): the image being resized, its two index maps of
    seam ranks, and the operations that rank seams (GetKBestSeams, CalculateIndexMaps), carve
    them out (CarveSeams), mark energy by hand (SetEnergy, RefineEnergy) and add seams
    (AddSeam). The bitmap is an array of pixels indexed [x, y]; the energy function is the Sobel
    filter and the seam function the root CumulativeEnergy, both objects of their own. */
module RootSeamImage {
  import opened Wrappers
  import opened Numerics
  import opened Utilities
  import opened Pixels
  import opened Constants
  import opened Seams
  import opened Comparers
  import opened SobelFilter
  import opened RootBacktrack
  import opened RootCumulative
  import opened Carving
  import opened Sweep

  // ---------------------------------------------------------------- ranks written by seam rounds

  /** The index map g with rank k written on the given cells. */
  function RankCells(g: seq<seq<Int32>>, cells: seq<Point>, k: Int32): seq<seq<Int32>>
  {
    seq(|g|, i requires 0 <= i < |g| =>
      seq(|g[i]|, j requires 0 <= j < |g[i]| => if Point(i, j) in cells then k else g[i][j]))
  }

  /** The relation the seam function promises for one claim determines the new index map. */
  lemma RanksAddedIsRankCells(after: seq<seq<Int32>>, before: seq<seq<Int32>>, cells: seq<Point>, k: Int32)
    requires RanksAdded(after, before, cells, k)
    ensures after == RankCells(before, cells, k)
  {
    var r := RankCells(before, cells, k);
    forall i | 0 <= i < |after|
      ensures after[i] == r[i]
    {
      assert forall j :: 0 <= j < |after[i]| ==> after[i][j] == r[i][j];
    }
  }

  /** The index map after rounds 0, 1, ... of seam claims, round i writing rank i on its cells. */
  function RanksThrough(g: seq<seq<Int32>>, claims: seq<seq<Point>>): seq<seq<Int32>>
    requires |claims| <= IntMax as int + 1
    decreases |claims|
  {
    if claims == [] then g
    else RankCells(RanksThrough(g, claims[..|claims| - 1]), claims[|claims| - 1], (|claims| - 1) as Int32)
  }

  /** The last round among claims that claimed c, if any round did. */
  function LastRound(claims: seq<seq<Point>>, c: Point): (r: Option<nat>)
    ensures r.Some? ==> r.value < |claims| && c in claims[r.value] &&
                        forall j :: r.value < j < |claims| ==> c !in claims[j]
    ensures r.None? ==> forall j :: 0 <= j < |claims| ==> c !in claims[j]
    decreases |claims|
  {
    if claims == [] then None
    else if c in claims[|claims| - 1] then Some(|claims| - 1)
    else LastRound(claims[..|claims| - 1], c)
  }

  /** After the rounds, each cell holds the last round that claimed it, and its old rank when no
      round did; the map keeps its shape. */
  lemma {:induction false} RanksThroughAt(g: seq<seq<Int32>>, claims: seq<seq<Point>>, x: int, y: int)
    requires |claims| <= IntMax as int + 1 && 0 <= x < |g| && 0 <= y < |g[x]|
    ensures |RanksThrough(g, claims)| == |g| && |RanksThrough(g, claims)[x]| == |g[x]|
    ensures RanksThrough(g, claims)[x][y] == match LastRound(claims, Point(x, y))
                                             case Some(i) => i as Int32
                                             case None => g[x][y]
    decreases |claims|
  {
    if claims != [] {
      RanksThroughAt(g, claims[..|claims| - 1], x, y);
    }
  }

  /** When the old map ranks a cell at |claims| or above (as int.MaxValue does), the cell ends
      ranked below |claims|, so that a carve of |claims| seams drops it, exactly when some round
      claimed it. */
  lemma RankedBelowIffClaimed(g: seq<seq<Int32>>, claims: seq<seq<Point>>, x: int, y: int)
    requires |claims| <= IntMax as int + 1 && 0 <= x < |g| && 0 <= y < |g[x]| && g[x][y] >= |claims|
    ensures |RanksThrough(g, claims)| == |g| && |RanksThrough(g, claims)[x]| == |g[x]|
    ensures RanksThrough(g, claims)[x][y] < |claims| <==> exists j :: 0 <= j < |claims| && Point(x, y) in claims[j]
  {
    RanksThroughAt(g, claims, x, y);
    if exists j :: 0 <= j < |claims| && Point(x, y) in claims[j] {
      assert LastRound(claims, Point(x, y)).Some?;
    }
  }

  /** The direction AddSeam's lookup consults: Horizontal for Horizontal and Vertical for any
      other direction (for Optimal the vertical lookup comes first). */
  function Consulted(d: Direction): (c: Direction)
    ensures c == Vertical || c == Horizontal
    ensures d == Vertical || d == Horizontal ==> c == d
  {
    if d == Horizontal then Horizontal else Vertical
  }

  /** The other one of Vertical and Horizontal. */
  function Other(d: Direction): Direction
  {
    if d == Vertical then Horizontal else Vertical
  }

  // ---------------------------------------------------------------- the seams of a round

  /** The i-th seam GetKBestSeams collects, as far as the lowest-endpoint lists decide it: for
      Vertical or Horizontal the i-th lowest seam of that direction, otherwise (Optimal) the
      vertical one only when its cost is strictly smaller than the horizontal one's. */
  predicate Harvested(s: Seam, d: Direction, lv: seq<Pair>, lh: seq<Pair>, i: nat)
  {
    match d
    case Vertical => i < |lv| && s.direction == Vertical && s.seamValue == lv[i].value
    case Horizontal => i < |lh| && s.direction == Horizontal && s.seamValue == lh[i].value
    case _ =>
      i < |lv| && i < |lh| &&
      (if lv[i].value < lh[i].value then s.direction == Vertical && s.seamValue == lv[i].value
       else s.direction == Horizontal && s.seamValue == lh[i].value)
  }

  /** Every seam of a list is the harvested seam of its own rank. */
  predicate AllHarvested(seams: seq<Seam>, d: Direction, lv: seq<Pair>, lh: seq<Pair>)
  {
    forall j :: 0 <= j < |seams| ==> Harvested(seams[j], d, lv, lh, j)
  }

  /** Collected from sorted endpoint lists, the seams come in ascending order of cost, in every
      mode. */
  lemma HarvestAscending(seams: seq<Seam>, d: Direction, lv: seq<Pair>, lh: seq<Pair>)
    requires SortedByValue(lv) && SortedByValue(lh)
    requires forall j :: 0 <= j < |seams| ==> Harvested(seams[j], d, lv, lh, j)
    ensures forall a, b :: 0 <= a < b < |seams| ==> seams[a].seamValue <= seams[b].seamValue
  {
    forall a, b | 0 <= a < b < |seams|
      ensures seams[a].seamValue <= seams[b].seamValue
    {
      assert Harvested(seams[a], d, lv, lh, a) && Harvested(seams[b], d, lv, lh, b);
      if d == Vertical || d == Horizontal {
      } else {
        assert ComparePairs(lv[a], lv[b]) <= 0 && ComparePairs(lh[a], lh[b]) <= 0;
      }
    }
  }

  // ---------------------------------------------------------------- the harvest as a function

  /** The mask `used` with the given cells claimed as well. */
  function ClaimCells(used: seq<seq<bool>>, cells: seq<Point>): (r: seq<seq<bool>>)
    ensures |r| == |used| && forall i :: 0 <= i < |r| ==> |r[i]| == |used[i]|
  {
    seq(|used|, i requires 0 <= i < |used| =>
      seq(|used[i]|, j requires 0 <= j < |used[i]| => used[i][j] || Point(i, j) in cells))
  }

  /** The relation the seam function promises for its claims determines the new mask. */
  lemma ClaimsAddedIsClaimCells(after: seq<seq<bool>>, before: seq<seq<bool>>, cells: seq<Point>)
    requires ClaimsAdded(after, before, cells)
    ensures after == ClaimCells(before, cells)
  {
    var r := ClaimCells(before, cells);
    forall i | 0 <= i < |after|
      ensures after[i] == r[i]
    {
      assert forall j :: 0 <= j < |after[i]| ==> after[i][j] == r[i][j];
    }
  }

  /** Claiming one batch of cells and then another claims both. */
  lemma ClaimCellsCompose(used: seq<seq<bool>>, first: seq<Point>, second: seq<Point>)
    ensures ClaimCells(ClaimCells(used, first), second) == ClaimCells(used, second + first)
  {
    var a, b := ClaimCells(ClaimCells(used, first), second), ClaimCells(used, second + first);
    forall i | 0 <= i < |a|
      ensures a[i] == b[i]
    {
      assert forall j :: 0 <= j < |a[i]| ==> a[i][j] == b[i][j];
    }
  }

  /** Claiming no cells leaves the mask as it is. */
  lemma ClaimCellsNone(used: seq<seq<bool>>)
    ensures ClaimCells(used, []) == used
  {
    var a := ClaimCells(used, []);
    forall i | 0 <= i < |a|
      ensures a[i] == used[i]
    {
    }
  }

  /** The claimed mask is what the seam function promises for its claims. */
  lemma ClaimCellsAdded(used: seq<seq<bool>>, cells: seq<Point>)
    ensures ClaimsAdded(ClaimCells(used, cells), used, cells)
  {
  }

  /** A mask with no cells added is the mask. */
  lemma ClaimsAddedNone(used: seq<seq<bool>>)
    ensures ClaimsAdded(used, used, [])
  {
  }

  /** The view v with the given cells claimed as well. */
  function Claiming(v: View, cells: seq<Point>): (r: View)
    ensures r.d == v.d && r.size == v.size && r.cum == v.cum
    ensures ValidView(v) ==> ValidView(r)
  {
    v.(used := ClaimCells(v.used, cells))
  }

  /** A mask that adds the cells `second` to the mask of v with `first` claimed is the mask of v
      with both claimed. */
  lemma ClaimingAgain(v: View, first: seq<Point>, second: seq<Point>, after: seq<seq<bool>>)
    requires ClaimsAdded(after, Claiming(v, first).used, second)
    ensures View(v.d, v.size, v.cum, after) == Claiming(v, second + first)
  {
    ClaimsAddedIsClaimCells(after, Claiming(v, first).used, second);
    ClaimCellsCompose(v.used, first, second);
  }

  /** One more round on the state of a harvest h: an index map ranking the round's cells on
      top of h's ranks ranks all of h's rounds and this one, and masks adding the round's claims
      to h's are those of the harvest with the round's claims. */
  lemma RoundRecorded(vv: View, hv: View, g0: seq<seq<Int32>>, h: Haul, cells: seq<Point>, vc: seq<Point>, hc: seq<Point>,
                      g: seq<seq<Int32>>, vu: seq<seq<bool>>, hu: seq<seq<bool>>)
    requires |h.claims| <= IntMax as int
    requires g == RankCells(RanksThrough(g0, h.claims), cells, |h.claims| as Int32)
    requires ClaimsAdded(vu, Claiming(vv, h.vcells).used, vc) && ClaimsAdded(hu, Claiming(hv, h.hcells).used, hc)
    ensures g == RanksThrough(g0, h.claims + [cells])
    ensures View(vv.d, vv.size, vv.cum, vu) == Claiming(vv, vc + h.vcells)
    ensures View(hv.d, hv.size, hv.cum, hu) == Claiming(hv, hc + h.hcells)
  {
    assert (h.claims + [cells])[..|h.claims|] == h.claims;
    ClaimingAgain(vv, h.vcells, vc, vu);
    ClaimingAgain(hv, h.hcells, hc, hu);
  }

  /** GetKthLowestEnergySeam with rank i on the view v: the seam built from the i-th lowest
      endpoint, valued at that endpoint's cost, with the cells it claims; a rank outside the
      list is an ArgumentOutOfRange. */
  function Lookup(v: View, reach: Size, lowest: seq<Pair>, i: int): Result<Built>
    requires ValidView(v)
  {
    if !(0 <= i < |lowest|) then Err(ArgumentOutOfRange)
    else
      match Build(v, reach, lowest[i].key, true)
      case Err(e) => Err(e)
      case Ok(b) => Ok(Built(b.seam.(seamValue := lowest[i].value), b.claimed))
  }

  /** What one round of GetKBestSeams yields: its seam, the cells it ranks, and the cells it
      claims in the vertical and in the horizontal mask. */
  datatype Yield = Yield(seam: Seam, ranked: seq<Point>, vertical: seq<Point>, horizontal: seq<Point>)

  /** Round i of GetKBestSeams over the vertical view vv and the horizontal view hv: the lookup of
      rank i in the direction, or (Optimal) in both directions, vertical first, keeping the
      vertical seam only when it is strictly cheaper. The first exception ends the round. */
  function RoundOf(d: Direction, vv: View, hv: View, reach: Size, lv: seq<Pair>, lh: seq<Pair>, i: int): (r: Result<Yield>)
    requires d != Horizontal ==> ValidView(vv)
    requires d != Vertical ==> ValidView(hv)
    ensures r.Ok? && d == Vertical ==> r.value.horizontal == []
    ensures r.Ok? && d == Horizontal ==> r.value.vertical == []
  {
    if d == Vertical then
      match Lookup(vv, reach, lv, i)
      case Err(e) => Err(e)
      case Ok(b) => Ok(Yield(b.seam, b.claimed, b.claimed, []))
    else if d == Horizontal then
      match Lookup(hv, reach, lh, i)
      case Err(e) => Err(e)
      case Ok(b) => Ok(Yield(b.seam, b.claimed, [], b.claimed))
    else
      match Lookup(vv, reach, lv, i)
      case Err(e) => Err(e)
      case Ok(b1) =>
        match Lookup(hv, reach, lh, i)
        case Err(e) => Err(e)
        case Ok(b2) =>
          Ok(Yield(if b1.seam.seamValue < b2.seam.seamValue then b1.seam else b2.seam,
                   b2.claimed + b1.claimed, b1.claimed, b2.claimed))
  }

  /** An Optimal round in terms of its two lookups, the vertical one first. */
  lemma RoundOfBoth(d: Direction, vv: View, hv: View, reach: Size, lv: seq<Pair>, lh: seq<Pair>, i: int,
                    b1: Result<Built>, b2: Result<Built>)
    requires d != Vertical && d != Horizontal && ValidView(vv) && ValidView(hv)
    requires b1 == Lookup(vv, reach, lv, i) && b2 == Lookup(hv, reach, lh, i)
    ensures RoundOf(d, vv, hv, reach, lv, lh, i) ==
      match b1
      case Err(e) => Err(e)
      case Ok(x1) =>
        match b2
        case Err(e) => Err(e)
        case Ok(x2) =>
          Ok(Yield(if x1.seam.seamValue < x2.seam.seamValue then x1.seam else x2.seam, x2.claimed + x1.claimed, x1.claimed, x2.claimed))
  {
  }

  /** The seams of rounds 0 .. n-1, the cells each round ranks, and every cell claimed in the
      vertical and in the horizontal mask. */
  datatype Haul = Haul(seams: seq<Seam>, claims: seq<seq<Point>>, vcells: seq<Point>, hcells: seq<Point>)

  /** GetKBestSeams' loop as a function: n rounds, each reading the masks of vv and hv with the
      claims of the rounds before it already made. The first exception ends the harvest. */
  function Hauled(d: Direction, vv: View, hv: View, reach: Size, lv: seq<Pair>, lh: seq<Pair>, n: nat): Result<Haul>
    requires d != Horizontal ==> ValidView(vv)
    requires d != Vertical ==> ValidView(hv)
    decreases n
  {
    if n == 0 then Ok(Haul([], [], [], []))
    else
      match Hauled(d, vv, hv, reach, lv, lh, n - 1)
      case Err(e) => Err(e)
      case Ok(h) =>
        match RoundOf(d, Claiming(vv, h.vcells), Claiming(hv, h.hcells), reach, lv, lh, n - 1)
        case Err(e) => Err(e)
        case Ok(y) => Ok(Haul(h.seams + [y.seam], h.claims + [y.ranked], y.vertical + h.vcells, y.horizontal + h.hcells))
  }

  /** One more round of the harvest h: Hauled's next step. */
  lemma HauledNext(d: Direction, vv: View, hv: View, reach: Size, lv: seq<Pair>, lh: seq<Pair>, i: nat, h: Haul)
    requires d != Horizontal ==> ValidView(vv)
    requires d != Vertical ==> ValidView(hv)
    requires Hauled(d, vv, hv, reach, lv, lh, i) == Ok(h)
    ensures Hauled(d, vv, hv, reach, lv, lh, i + 1) ==
      match RoundOf(d, Claiming(vv, h.vcells), Claiming(hv, h.hcells), reach, lv, lh, i)
      case Err(e) => Err(e)
      case Ok(y) => Ok(Haul(h.seams + [y.seam], h.claims + [y.ranked], y.vertical + h.vcells, y.horizontal + h.hcells))
  {
  }

  /** GetKBestSeams' loop from round i on, the rounds before it having harvested h; it runs up
      to round n - 1 and stops at the first exception. */
  function Resumed(d: Direction, vv: View, hv: View, reach: Size, lv: seq<Pair>, lh: seq<Pair>, h: Haul, i: nat, n: nat): Result<Haul>
    requires d != Horizontal ==> ValidView(vv)
    requires d != Vertical ==> ValidView(hv)
    decreases n - i
  {
    if i >= n then Ok(h)
    else
      match RoundOf(d, Claiming(vv, h.vcells), Claiming(hv, h.hcells), reach, lv, lh, i)
      case Err(e) => Err(e)
      case Ok(y) =>
        Resumed(d, vv, hv, reach, lv, lh, Haul(h.seams + [y.seam], h.claims + [y.ranked], y.vertical + h.vcells, y.horizontal + h.hcells), i + 1, n)
  }

  /** Resuming after the first i rounds of the harvest finishes the harvest. */
  lemma {:induction false} HauledResumed(d: Direction, vv: View, hv: View, reach: Size, lv: seq<Pair>, lh: seq<Pair>, h: Haul, i: nat, n: nat)
    requires d != Horizontal ==> ValidView(vv)
    requires d != Vertical ==> ValidView(hv)
    requires i <= n && Hauled(d, vv, hv, reach, lv, lh, i) == Ok(h)
    ensures Hauled(d, vv, hv, reach, lv, lh, n) == Resumed(d, vv, hv, reach, lv, lh, h, i, n)
    decreases n - i
  {
    if i < n {
      HauledNext(d, vv, hv, reach, lv, lh, i, h);
      match RoundOf(d, Claiming(vv, h.vcells), Claiming(hv, h.hcells), reach, lv, lh, i)
      case Err(e) =>
        HauledStops(d, vv, hv, reach, lv, lh, i + 1, n);
      case Ok(y) =>
        HauledResumed(d, vv, hv, reach, lv, lh, Haul(h.seams + [y.seam], h.claims + [y.ranked], y.vertical + h.vcells, y.horizontal + h.hcells), i + 1, n);
    }
  }

  /** A round's seam is the harvested seam of its rank: of the lookup's direction, valued at the
      endpoint's cost. */
  lemma RoundHarvested(d: Direction, vv: View, hv: View, reach: Size, lv: seq<Pair>, lh: seq<Pair>, i: int)
    requires vv.d == Vertical && hv.d == Horizontal && i >= 0
    requires d != Horizontal ==> ValidView(vv)
    requires d != Vertical ==> ValidView(hv)
    requires RoundOf(d, vv, hv, reach, lv, lh, i).Ok?
    ensures Harvested(RoundOf(d, vv, hv, reach, lv, lh, i).value.seam, d, lv, lh, i)
  {
  }

  /** A harvest that completes has one seam and one batch of ranked cells per round, and every
      seam is the harvested seam of its rank. A harvest in one direction claims nothing in the
      other direction's mask. */
  lemma {:induction false} HauledHarvested(d: Direction, vv: View, hv: View, reach: Size, lv: seq<Pair>, lh: seq<Pair>, n: nat)
    requires vv.d == Vertical && hv.d == Horizontal
    requires d != Horizontal ==> ValidView(vv)
    requires d != Vertical ==> ValidView(hv)
    requires Hauled(d, vv, hv, reach, lv, lh, n).Ok?
    ensures var h := Hauled(d, vv, hv, reach, lv, lh, n).value;
      |h.seams| == |h.claims| == n && AllHarvested(h.seams, d, lv, lh) &&
      (d == Vertical ==> h.hcells == []) && (d == Horizontal ==> h.vcells == [])
    decreases n
  {
    if n > 0 {
      HauledHarvested(d, vv, hv, reach, lv, lh, n - 1);
      var h := Hauled(d, vv, hv, reach, lv, lh, n - 1).value;
      RoundHarvested(d, Claiming(vv, h.vcells), Claiming(hv, h.hcells), reach, lv, lh, n - 1);
    }
  }

  /** A vertical round reads nothing of the horizontal view. */
  lemma RoundIgnoresOther(vv: View, hv: View, hv': View, reach: Size, lv: seq<Pair>, lh: seq<Pair>, i: int)
    requires ValidView(vv)
    ensures RoundOf(Vertical, vv, hv, reach, lv, lh, i) == RoundOf(Vertical, vv, hv', reach, lv, lh, i)
  {
  }

  /** A vertical harvest reads nothing of the horizontal view. */
  lemma {:induction false} HauledIgnoresOther(vv: View, hv: View, hv': View, reach: Size, lv: seq<Pair>, lh: seq<Pair>, n: nat)
    requires ValidView(vv)
    ensures Hauled(Vertical, vv, hv, reach, lv, lh, n) == Hauled(Vertical, vv, hv', reach, lv, lh, n)
    decreases n
  {
    if n > 0 {
      HauledIgnoresOther(vv, hv, hv', reach, lv, lh, n - 1);
      var p := Hauled(Vertical, vv, hv, reach, lv, lh, n - 1);
      if p.Ok? {
        RoundIgnoresOther(Claiming(vv, p.value.vcells), Claiming(hv, p.value.hcells), Claiming(hv', p.value.hcells), reach, lv, lh, n - 1);
      }
    }
  }

  /** An exception ends the harvest: every longer harvest ends with the same one. */
  lemma {:induction false} HauledStops(d: Direction, vv: View, hv: View, reach: Size, lv: seq<Pair>, lh: seq<Pair>, m: nat, n: nat)
    requires d != Horizontal ==> ValidView(vv)
    requires d != Vertical ==> ValidView(hv)
    requires m <= n && Hauled(d, vv, hv, reach, lv, lh, m).Err?
    ensures Hauled(d, vv, hv, reach, lv, lh, n) == Hauled(d, vv, hv, reach, lv, lh, m)
    decreases n
  {
    if m < n {
      HauledStops(d, vv, hv, reach, lv, lh, m, n - 1);
    }
  }

  // ---------------------------------------------------------------- user markings

  /** A user energy marking: a cell and the energy kind asked for there. */
  datatype Marking = Marking(at: Point, kind: EnergyType)

  /** An ink stroke: whether it is drawn in yellow, and its stylus points with their coordinates
      already cast to int. */
  datatype Stroke = Stroke(yellow: bool, points: seq<Point>)

  /** Yellow strokes ask for high energy, all others for low. */
  function KindOf(s: Stroke): EnergyType
  {
    if s.yellow then Max else Min
  }

  function StrokeMarkings(s: Stroke): seq<Marking>
  {
    seq(|s.points|, i requires 0 <= i < |s.points| => Marking(s.points[i], KindOf(s)))
  }

  /** The markings SetEnergy collects: the points of the strokes in order, each with its
      stroke's kind. */
  function Markings(strokes: seq<Stroke>): seq<Marking>
    decreases |strokes|
  {
    if strokes == [] then [] else Markings(strokes[..|strokes| - 1]) + StrokeMarkings(strokes[|strokes| - 1])
  }

  /** Every marking comes from a point of a stroke, with that stroke's kind ... */
  lemma {:induction false} MarkingsSound(strokes: seq<Stroke>, m: Marking)
    requires m in Markings(strokes)
    ensures exists i, j :: 0 <= i < |strokes| && 0 <= j < |strokes[i].points| &&
                           m == Marking(strokes[i].points[j], KindOf(strokes[i]))
    decreases |strokes|
  {
    var n := |strokes| - 1;
    if m in Markings(strokes[..n]) {
      MarkingsSound(strokes[..n], m);
      var i, j :| 0 <= i < n && 0 <= j < |strokes[..n][i].points| &&
                  m == Marking(strokes[..n][i].points[j], KindOf(strokes[..n][i]));
      assert strokes[..n][i] == strokes[i];
    } else {
      var j :| 0 <= j < |strokes[n].points| && StrokeMarkings(strokes[n])[j] == m;
    }
  }

  /** ... and every point of every stroke is marked. */
  lemma {:induction false} MarkingsComplete(strokes: seq<Stroke>, i: int, j: int)
    requires 0 <= i < |strokes| && 0 <= j < |strokes[i].points|
    ensures Marking(strokes[i].points[j], KindOf(strokes[i])) in Markings(strokes)
    decreases |strokes|
  {
    var n := |strokes| - 1;
    if i < n {
      assert strokes[..n][i] == strokes[i];
      MarkingsComplete(strokes[..n], i, j);
    } else {
      assert StrokeMarkings(strokes[n])[j] == Marking(strokes[i].points[j], KindOf(strokes[i]));
    }
  }

  /** The energy RefineEnergy writes for a marking kind: 50000 for Max and -50000 for every other
      kind. */
  function MarkedEnergy(t: EnergyType): Int32
  {
    if t == Max then MarkedHigh else MarkedLow
  }

  /** The kind of the last marking that lands on cell c, which must lie inside the grid. */
  function LastMark(marks: seq<Marking>, c: Point, size: Size): Option<EnergyType>
    decreases |marks|
  {
    if marks == [] then None
    else if marks[|marks| - 1].at == c && InBounds(c.x, c.y, size) then Some(marks[|marks| - 1].kind)
    else LastMark(marks[..|marks| - 1], c, size)
  }

  /** The energy of cell c, holding e before, after RefineEnergy applied the markings. */
  function Refined(e: Int32, marks: seq<Marking>, c: Point, size: Size): Int32
  {
    match LastMark(marks, c, size)
    case Some(t) => MarkedEnergy(t)
    case None => e
  }

  /** A cell outside the grid, or one no marking names, keeps its energy. */
  lemma {:induction false} RefinedUnmarked(e: Int32, marks: seq<Marking>, c: Point, size: Size)
    requires !InBounds(c.x, c.y, size) || forall i :: 0 <= i < |marks| ==> marks[i].at != c
    ensures Refined(e, marks, c, size) == e
    decreases |marks|
  {
    if marks != [] {
      RefinedUnmarked(e, marks[..|marks| - 1], c, size);
    }
  }

  /** A cell of the grid last named by marking i takes that marking's energy, whatever it held. */
  lemma {:induction false} RefinedMarked(e: Int32, marks: seq<Marking>, c: Point, size: Size, i: int)
    requires InBounds(c.x, c.y, size) && 0 <= i < |marks| && marks[i].at == c
    requires forall j :: i < j < |marks| ==> marks[j].at != c
    ensures Refined(e, marks, c, size) == MarkedEnergy(marks[i].kind)
    decreases |marks|
  {
    if i < |marks| - 1 {
      RefinedMarked(e, marks[..|marks| - 1], c, size, i);
    }
  }

  // ---------------------------------------------------------------- the image

  class SeamImage {
    var bitmap: array2<Rgb>
    var width: nat
    var height: nat
    var energyFunction: Sobel
    var seamFunction: CumulativeEnergy
    var verticalIndexMap: array2<Int32>
    var horizontalIndexMap: array2<Int32>
    var verticalSeams: Option<seq<Seam>>
    var horizontalSeams: Option<seq<Seam>>
    var userEnergy: seq<Marking>

    /** The current size is the bitmap's, the seam function works on this image's energy, and
        the index maps, the cumulative maps and the two claim masks are distinct arrays. */
    ghost predicate Valid()
      reads this, seamFunction
    {
      bitmap.Length0 == width && bitmap.Length1 == height && width <= IntMax && height <= IntMax &&
      seamFunction.energyFunction == energyFunction &&
      verticalIndexMap != horizontalIndexMap &&
      verticalIndexMap != seamFunction.verticalMap && verticalIndexMap != seamFunction.horizontalMap &&
      horizontalIndexMap != seamFunction.verticalMap && horizontalIndexMap != seamFunction.horizontalMap &&
      seamFunction.verticalUsed != seamFunction.horizontalUsed
    }

    function ImageSize(): Size
      reads this
    {
      Size(width, height)
    }

    /** The index map a direction works with: the vertical one for Vertical, the horizontal one
        for every other direction. */
    function IndexMapOf(d: Direction): array2<Int32>
      reads this
    {
      if d == Vertical then verticalIndexMap else horizontalIndexMap
    }

    /** The seam function's maps cover the image in the directions d ranks seams in. */
    predicate Ranks(d: Direction)
      reads this, seamFunction
    {
      (d != Horizontal ==> seamFunction.Covers(Vertical, ImageSize())) &&
      (d != Vertical ==> seamFunction.Covers(Horizontal, ImageSize()))
    }

    /** The constructor: a new seam function sharing the energy function, the bitmap's size, its
        energy computed, and two index maps of the bitmap's size filled with zeros. */
    constructor (bmp: array2<Rgb>, energy: Sobel)
      requires bmp.Length0 <= IntMax && bmp.Length1 <= IntMax
      modifies energy
      ensures Valid() && bitmap == bmp && width == bmp.Length0 && height == bmp.Length1
      ensures energyFunction == energy && fresh(seamFunction)
      ensures seamFunction.lowestVertical == [] && seamFunction.lowestHorizontal == []
      ensures fresh(verticalIndexMap) && fresh(horizontalIndexMap)
      ensures Uniform(Snap2(verticalIndexMap), ImageSize(), 0) && Uniform(Snap2(horizontalIndexMap), ImageSize(), 0)
      ensures verticalSeams == None && horizontalSeams == None && userEnergy == []
      ensures fresh(energy.EnergyMap) && energy.EnergyMap.Length0 == width && energy.EnergyMap.Length1 == height
      ensures forall x, y :: 0 <= x < width && 0 <= y < height ==>
        energy.EnergyMap[x, y] == SobelEnergy(Snap2(bmp), ImageSize(), x, y) as int
    {
      energyFunction := energy;
      seamFunction := new CumulativeEnergy(energy);
      bitmap := bmp;
      width, height := bmp.Length0, bmp.Length1;
      energy.ComputeEnergy(bmp, Size(bmp.Length0, bmp.Length1));
      verticalIndexMap := new Int32[bmp.Length0, bmp.Length1]((_, _) => 0);
      horizontalIndexMap := new Int32[bmp.Length0, bmp.Length1]((_, _) => 0);
      verticalSeams, horizontalSeams, userEnergy := None, None, [];
    }

    /** RecomputeEntireMap: the cumulative maps of both directions, recomputed from the energy. */
    method RecomputeEntireMap() returns (r: Outcome)
      requires Valid() && width <= energyFunction.EnergyMap.Length0 && height <= energyFunction.EnergyMap.Length1
      modifies seamFunction
      ensures Valid()
      ensures r.Fail? <==> (width == 0) != (height == 0)
      ensures r.Pass? ==> Ranks(Optimal)
      ensures r.Pass? ==> fresh(seamFunction.verticalUsed) && fresh(seamFunction.horizontalUsed)
      ensures r.Pass? ==> forall x, y :: 0 <= x < width && 0 <= y < height ==>
        !seamFunction.verticalUsed[x, y] && !seamFunction.horizontalUsed[x, y]
    {
      r := seamFunction.ComputeEntireEnergyMap(Vertical, ImageSize());
      if r.Fail? {
        return;
      }
      r := seamFunction.ComputeEntireEnergyMap(Horizontal, ImageSize());
    }

    /** The seam function's map and mask of direction d, over the image's size, as a backtrack
        reads them. */
    function ViewFor(d: Direction): (v: View)
      reads this, seamFunction, seamFunction.MapOf(d), seamFunction.UsedOf(d)
      requires d == Vertical || d == Horizontal
      ensures v.d == d && v.size == ImageSize()
      ensures seamFunction.Covers(d, ImageSize()) ==> v == seamFunction.ViewOf(d, ImageSize()) && ValidView(v)
    {
      View(d, ImageSize(), Snap2(seamFunction.MapOf(d)), Snap2(seamFunction.UsedOf(d)))
    }

    /** One lookup of GetKBestSeams: GetKthLowestEnergySeam of rank i in direction d, on the view
        v of that direction as it stands; it ranks i and claims exactly the cells of the seam it
        builds. */
    method KthSeam(d: Direction, i: Int32, indexMap: array2<Int32>, ghost v: View, ghost lowest: seq<Pair>) returns (s: Result<Seam>, ghost cells: seq<Point>)
      requires (d == Vertical || d == Horizontal) && seamFunction.Covers(d, ImageSize()) && i >= 0
      requires indexMap != seamFunction.MapOf(d) && v == ViewFor(d) && lowest == seamFunction.LowestOf(d)
      modifies seamFunction.UsedOf(d), indexMap
      ensures var b := Lookup(v, Reach(indexMap), lowest, i as int);
        (b.Err? ==> s == Err(b.error)) &&
        (b.Ok? ==> s == Ok(b.value.seam) && cells == b.value.claimed)
      ensures s.Ok? ==> RanksAdded(Snap2(indexMap), old(Snap2(indexMap)), cells, i)
      ensures s.Ok? ==> ClaimsAdded(Snap2(seamFunction.UsedOf(d)), old(Snap2(seamFunction.UsedOf(d))), cells)
    {
      s := seamFunction.GetKthLowestEnergySeam(d, ImageSize(), i, indexMap);
      cells := [];
      if s.Ok? {
        var e := seamFunction.LowestOf(d)[i];
        cells := Build(v, Reach(indexMap), e.key, true).value.claimed;
      }
    }

    /** GetKBestSeams: nothing (null) when both dimensions are below k; otherwise the harvest of
        k rounds (none for a negative k), round i looking up rank i, which writes rank i on the
        cells it claims in the direction's index map (claims[i]) and claim masks. An exception
        of a lookup ends the harvest. */
    method GetKBestSeams(direction: Direction, k: Int32)
      returns (r: Result<Option<seq<Seam>>>, ghost claims: seq<seq<Point>>, ghost vcells: seq<Point>, ghost hcells: seq<Point>)
      requires Valid() && Ranks(direction)
      modifies seamFunction.verticalUsed, seamFunction.horizontalUsed, IndexMapOf(direction)
      ensures r == Ok(None) <==> width < k as int && height < k as int
      ensures r == Ok(None) ==> claims == [] && vcells == [] && hcells == []
      ensures !(width < k as int && height < k as int) ==>
        var h := Hauled(direction, old(ViewFor(Vertical)), old(ViewFor(Horizontal)), Reach(IndexMapOf(direction)),
                        seamFunction.lowestVertical, seamFunction.lowestHorizontal, if k < 0 then 0 else k as int);
        (h.Err? ==> r == Err(h.error)) &&
        (h.Ok? ==> r == Ok(Some(h.value.seams)) && claims == h.value.claims && vcells == h.value.vcells && hcells == h.value.hcells)
      ensures r.Ok? && r.value.Some? ==>
        |r.value.value| == |claims| == (if k < 0 then 0 else k as int) &&
        AllHarvested(r.value.value, direction, seamFunction.lowestVertical, seamFunction.lowestHorizontal)
      ensures r.Ok? ==> |claims| <= IntMax as int + 1
      ensures r.Ok? ==> Snap2(IndexMapOf(direction)) == RanksThrough(old(Snap2(IndexMapOf(direction))), claims)
      ensures r.Ok? ==>
        ClaimsAdded(Snap2(seamFunction.verticalUsed), old(Snap2(seamFunction.verticalUsed)), vcells) &&
        ClaimsAdded(Snap2(seamFunction.horizontalUsed), old(Snap2(seamFunction.horizontalUsed)), hcells)
    {
      claims, vcells, hcells := [], [], [];
      if width < k as int && height < k as int {
        return Ok(None), claims, vcells, hcells;
      }
      var n := if k < 0 then 0 else k as int;
      ghost var vv, hv := ViewFor(Vertical), ViewFor(Horizontal);
      var seams;
      seams, claims, vcells, hcells := Harvest(direction, n, vv, hv, seamFunction.lowestVertical, seamFunction.lowestHorizontal);
      HauledResumed(direction, vv, hv, Reach(IndexMapOf(direction)), seamFunction.lowestVertical, seamFunction.lowestHorizontal,
                    Haul([], [], [], []), 0, n);
      if seams.Ok? {
        HauledHarvested(direction, vv, hv, Reach(IndexMapOf(direction)), seamFunction.lowestVertical, seamFunction.lowestHorizontal, n);
      }
      if seams.Err? {
        return Err(seams.error), claims, vcells, hcells;
      }
      return Ok(Some(seams.value)), claims, vcells, hcells;
    }

    /** The state after i rounds of GetKBestSeams' loop that started from the views vv and hv
        and the index map g0, with h the harvest so far: the index map holds g0 with the ranks of
        h's rounds, and the masks hold h's claims. */
    ghost predicate Harvesting(direction: Direction, vv: View, hv: View, g0: seq<seq<Int32>>, i: nat, h: Haul)
      reads this, seamFunction, seamFunction.verticalMap, seamFunction.horizontalMap
      reads seamFunction.verticalUsed, seamFunction.horizontalUsed, IndexMapOf(direction)
    {
      (direction != Horizontal ==> ValidView(vv)) && (direction != Vertical ==> ValidView(hv)) &&
      |h.seams| == |h.claims| == i <= IntMax as int + 1 && Snap2(IndexMapOf(direction)) == RanksThrough(g0, h.claims) &&
      ViewFor(Vertical) == Claiming(vv, h.vcells) && ViewFor(Horizontal) == Claiming(hv, h.hcells)
    }

    /** The loop of GetKBestSeams: n lookups of ranks 0 .. n-1, stopping at the first exception;
        its seams and claims are those of Hauled. */
    method Harvest(direction: Direction, n: nat, ghost vv: View, ghost hv: View, ghost lv: seq<Pair>, ghost lh: seq<Pair>)
      returns (r: Result<seq<Seam>>, ghost claims: seq<seq<Point>>, ghost vcells: seq<Point>, ghost hcells: seq<Point>)
      requires Valid() && Ranks(direction) && n <= IntMax as int
      requires vv == ViewFor(Vertical) && hv == ViewFor(Horizontal)
      requires lv == seamFunction.lowestVertical && lh == seamFunction.lowestHorizontal
      modifies seamFunction.verticalUsed, seamFunction.horizontalUsed, IndexMapOf(direction)
      ensures var h := Resumed(direction, vv, hv, Reach(IndexMapOf(direction)), lv, lh, Haul([], [], [], []), 0, n);
        (h.Err? ==> r == Err(h.error)) &&
        (h.Ok? ==> r == Ok(h.value.seams) && claims == h.value.claims && vcells == h.value.vcells && hcells == h.value.hcells)
      ensures r.Ok? ==> |claims| == n
      ensures r.Ok? ==> Snap2(IndexMapOf(direction)) == RanksThrough(old(Snap2(IndexMapOf(direction))), claims)
      ensures r.Ok? ==>
        ClaimsAdded(Snap2(seamFunction.verticalUsed), old(Snap2(seamFunction.verticalUsed)), vcells) &&
        ClaimsAdded(Snap2(seamFunction.horizontalUsed), old(Snap2(seamFunction.horizontalUsed)), hcells)
    {
      var indexMap := IndexMapOf(direction);
      ghost var g0, reach := Snap2(indexMap), Reach(indexMap);
      ghost var h := Haul([], [], [], []);
      ghost var whole := Resumed(direction, vv, hv, reach, lv, lh, h, 0, n);
      ClaimCellsNone(vv.used);
      ClaimCellsNone(hv.used);
      var seams: seq<Seam> := [];
      var i := 0;
      while i < n
        invariant 0 <= i <= n && seams == h.seams
        invariant Harvesting(direction, vv, hv, g0, i, h)
        invariant Resumed(direction, vv, hv, reach, lv, lh, h, i, n) == whole
      {
        var s;
        s, h := Step(direction, i, indexMap, vv, hv, lv, lh, g0, h);
        if s.Err? {
          return Err(s.error), h.claims, h.vcells, h.hcells;
        }
        seams := seams + [s.value];
        i := i + 1;
      }
      ClaimCellsAdded(vv.used, h.vcells);
      ClaimCellsAdded(hv.used, h.hcells);
      return Ok(seams), h.claims, h.vcells, h.hcells;
    }

    /** Round i of GetKBestSeams' loop on the harvest h of the rounds before it: RoundOf over the
        views with h's claims, whose yield extends h. */
    method Step(direction: Direction, i: nat, indexMap: array2<Int32>, ghost vv: View, ghost hv: View,
                ghost lv: seq<Pair>, ghost lh: seq<Pair>, ghost g0: seq<seq<Int32>>, ghost h: Haul)
      returns (s: Result<Seam>, ghost h': Haul)
      requires Valid() && Ranks(direction) && indexMap == IndexMapOf(direction) && i <= IntMax as int
      requires Harvesting(direction, vv, hv, g0, i, h)
      requires lv == seamFunction.lowestVertical && lh == seamFunction.lowestHorizontal
      modifies seamFunction.verticalUsed, seamFunction.horizontalUsed, indexMap
      ensures var y := RoundOf(direction, Claiming(vv, h.vcells), Claiming(hv, h.hcells), Reach(indexMap), lv, lh, i);
        (y.Err? ==> s == Err(y.error)) &&
        (y.Ok? ==> s == Ok(y.value.seam) &&
                   h' == Haul(h.seams + [y.value.seam], h.claims + [y.value.ranked],
                              y.value.vertical + h.vcells, y.value.horizontal + h.hcells))
      ensures s.Ok? ==> Harvesting(direction, vv, hv, g0, i + 1, h')
    {
      h' := h;
      ghost var cells, vc, hc;
      s, cells, vc, hc := Round(direction, i as Int32, indexMap, Claiming(vv, h.vcells), Claiming(hv, h.hcells), lv, lh);
      if s.Err? {
        return;
      }
      RoundRecorded(vv, hv, g0, h, cells, vc, hc, Snap2(indexMap), Snap2(seamFunction.verticalUsed), Snap2(seamFunction.horizontalUsed));
      assert ViewFor(Vertical) == View(vv.d, vv.size, vv.cum, Snap2(seamFunction.verticalUsed));
      assert ViewFor(Horizontal) == View(hv.d, hv.size, hv.cum, Snap2(seamFunction.horizontalUsed));
      h' := Haul(h.seams + [s.value], h.claims + [cells], vc + h.vcells, hc + h.hcells);
    }

    /** Round i of GetKBestSeams' loop: RoundOf over the views vv and hv of the masks as they
        stand, which ranks i its cells in the index map and claims them in the masks. */
    method Round(direction: Direction, i: Int32, indexMap: array2<Int32>, ghost vv: View, ghost hv: View,
                 ghost lv: seq<Pair>, ghost lh: seq<Pair>)
      returns (s: Result<Seam>, ghost cells: seq<Point>, ghost vc: seq<Point>, ghost hc: seq<Point>)
      requires Valid() && Ranks(direction) && indexMap == IndexMapOf(direction) && i >= 0
      requires vv == ViewFor(Vertical) && hv == ViewFor(Horizontal)
      requires lv == seamFunction.lowestVertical && lh == seamFunction.lowestHorizontal
      modifies seamFunction.verticalUsed, seamFunction.horizontalUsed, indexMap
      ensures var y := RoundOf(direction, vv, hv, Reach(indexMap), lv, lh, i as int);
        (y.Err? ==> s == Err(y.error)) &&
        (y.Ok? ==> s == Ok(y.value.seam) && cells == y.value.ranked && vc == y.value.vertical && hc == y.value.horizontal)
      ensures s.Ok? ==> Snap2(indexMap) == RankCells(old(Snap2(indexMap)), cells, i)
      ensures s.Ok? ==> ClaimsAdded(Snap2(seamFunction.verticalUsed), old(Snap2(seamFunction.verticalUsed)), vc)
      ensures s.Ok? ==> ClaimsAdded(Snap2(seamFunction.horizontalUsed), old(Snap2(seamFunction.horizontalUsed)), hc)
    {
      if direction == Vertical {
        s, cells := RoundSingle(direction, i, indexMap, vv, lv);
        ClaimsAddedNone(hv.used);
        vc, hc := cells, [];
      } else if direction == Horizontal {
        s, cells := RoundSingle(direction, i, indexMap, hv, lh);
        ClaimsAddedNone(vv.used);
        vc, hc := [], cells;
      } else {
        s, cells, vc, hc := RoundBoth(direction, i, indexMap, vv, hv, lv, lh);
      }
    }

    /** A round of Vertical or Horizontal: the lookup of rank i in that direction on its view v. */
    method RoundSingle(direction: Direction, i: Int32, indexMap: array2<Int32>, ghost v: View, ghost lowest: seq<Pair>) returns (s: Result<Seam>, ghost cells: seq<Point>)
      requires Valid() && (direction == Vertical || direction == Horizontal) && seamFunction.Covers(direction, ImageSize())
      requires indexMap == IndexMapOf(direction) && i >= 0 && v == ViewFor(direction) && lowest == seamFunction.LowestOf(direction)
      modifies seamFunction.UsedOf(direction), indexMap
      ensures var b := Lookup(v, Reach(indexMap), lowest, i as int);
        (b.Err? ==> s == Err(b.error)) && (b.Ok? ==> s == Ok(b.value.seam) && cells == b.value.claimed)
      ensures s.Ok? ==> Snap2(indexMap) == RankCells(old(Snap2(indexMap)), cells, i)
      ensures s.Ok? ==> ClaimsAdded(Snap2(seamFunction.UsedOf(direction)), old(Snap2(seamFunction.UsedOf(direction))), cells)
    {
      s, cells := KthSeam(direction, i, indexMap, v, lowest);
      if s.Ok? {
        RanksAddedIsRankCells(Snap2(indexMap), old(Snap2(indexMap)), cells, i);
      }
    }

    /** A round of Optimal: the lookups of rank i in both directions, vertical first, each ranking
        its cells in the same index map. */
    method RoundBoth(direction: Direction, i: Int32, indexMap: array2<Int32>, ghost vv: View, ghost hv: View,
                     ghost lv: seq<Pair>, ghost lh: seq<Pair>)
      returns (s: Result<Seam>, ghost cells: seq<Point>, ghost vc: seq<Point>, ghost hc: seq<Point>)
      requires Valid() && direction != Vertical && direction != Horizontal
      requires seamFunction.Covers(Vertical, ImageSize()) && seamFunction.Covers(Horizontal, ImageSize())
      requires indexMap == horizontalIndexMap && i >= 0
      requires vv == ViewFor(Vertical) && hv == ViewFor(Horizontal)
      requires lv == seamFunction.lowestVertical && lh == seamFunction.lowestHorizontal
      modifies seamFunction.verticalUsed, seamFunction.horizontalUsed, indexMap
      ensures var y := RoundOf(direction, vv, hv, Reach(indexMap), lv, lh, i as int);
        (y.Err? ==> s == Err(y.error)) &&
        (y.Ok? ==> s == Ok(y.value.seam) && cells == y.value.ranked && vc == y.value.vertical && hc == y.value.horizontal)
      ensures s.Ok? ==> Snap2(indexMap) == RankCells(old(Snap2(indexMap)), cells, i)
      ensures s.Ok? ==> ClaimsAdded(Snap2(seamFunction.verticalUsed), old(Snap2(seamFunction.verticalUsed)), vc)
      ensures s.Ok? ==> ClaimsAdded(Snap2(seamFunction.horizontalUsed), old(Snap2(seamFunction.horizontalUsed)), hc)
    {
      cells, vc, hc := [], [], [];
      RoundOfBoth(direction, vv, hv, Reach(indexMap), lv, lh, i as int, Lookup(vv, Reach(indexMap), lv, i as int),
                  Lookup(hv, Reach(indexMap), lh, i as int));
      var s1, cells1 := KthSeam(Vertical, i, indexMap, vv, lv);
      if s1.Err? {
        return s1, cells, vc, hc;
      }
      ghost var middle := Snap2(indexMap);
      var s2, cells2 := KthSeam(Horizontal, i, indexMap, hv, lh);
      if s2.Err? {
        return s2, cells, vc, hc;
      }
      RanksCompose(old(Snap2(indexMap)), middle, Snap2(indexMap), cells1, cells2, i);
      RanksAddedIsRankCells(Snap2(indexMap), old(Snap2(indexMap)), cells2 + cells1, i);
      s := if s1.value.seamValue < s2.value.seamValue then s1 else s2;
      cells, vc, hc := cells2 + cells1, cells1, cells2;
    }

    /** The horizontal thread of CalculateIndexMaps: the harvest of `height` horizontal seams,
        stored as the horizontal seams. It claims nothing in the vertical mask. */
    method HorizontalThread() returns (r: Outcome, ghost claims: seq<seq<Point>>)
      requires Valid() && Ranks(Horizontal)
      modifies this`horizontalSeams, seamFunction.verticalUsed, seamFunction.horizontalUsed, horizontalIndexMap
      ensures Valid()
      ensures var h := Hauled(Horizontal, old(ViewFor(Vertical)), old(ViewFor(Horizontal)), Reach(horizontalIndexMap),
                              seamFunction.lowestVertical, seamFunction.lowestHorizontal, height);
        (h.Err? ==> r == Fail(h.error)) &&
        (h.Ok? ==> r == Pass && horizontalSeams == Some(h.value.seams) && claims == h.value.claims)
      ensures r.Pass? ==> |claims| == height && Snap2(horizontalIndexMap) == RanksThrough(old(Snap2(horizontalIndexMap)), claims)
      ensures r.Pass? ==> ViewFor(Vertical) == old(ViewFor(Vertical))
    {
      ghost var vv, hv := ViewFor(Vertical), ViewFor(Horizontal);
      var h;
      ghost var vc, hc;
      h, claims, vc, hc := GetKBestSeams(Horizontal, height as Int32);
      if h.Err? {
        return Fail(h.error), claims;
      }
      HauledHarvested(Horizontal, vv, hv, Reach(horizontalIndexMap), seamFunction.lowestVertical, seamFunction.lowestHorizontal, height);
      ClaimsAddedIsClaimCells(Snap2(seamFunction.verticalUsed), vv.used, vc);
      ClaimCellsNone(vv.used);
      horizontalSeams := h.value;
      r := Pass;
    }

    /** The vertical thread of CalculateIndexMaps: the harvest of `width` vertical seams, stored
        as the vertical seams. */
    method VerticalThread() returns (r: Outcome, ghost claims: seq<seq<Point>>)
      requires Valid() && Ranks(Vertical)
      modifies this`verticalSeams, seamFunction.verticalUsed, seamFunction.horizontalUsed, verticalIndexMap
      ensures Valid()
      ensures var h := Hauled(Vertical, old(ViewFor(Vertical)), old(ViewFor(Horizontal)), Reach(verticalIndexMap),
                              seamFunction.lowestVertical, seamFunction.lowestHorizontal, width);
        (h.Err? ==> r == Fail(h.error)) &&
        (h.Ok? ==> r == Pass && verticalSeams == Some(h.value.seams) && claims == h.value.claims)
      ensures r.Pass? ==> |claims| == width && Snap2(verticalIndexMap) == RanksThrough(old(Snap2(verticalIndexMap)), claims)
    {
      ghost var vv, hv := ViewFor(Vertical), ViewFor(Horizontal);
      var v;
      ghost var vc, hc;
      v, claims, vc, hc := GetKBestSeams(Vertical, width as Int32);
      if v.Err? {
        return Fail(v.error), claims;
      }
      verticalSeams := v.value;
      r := Pass;
    }

    /** CalculateIndexMaps: the horizontal thread and the vertical thread, one after the other.
        Each ranks its own index map and claims in its own mask, so the vertical harvest reads
        the masks as they were before the horizontal one. */
    method CalculateIndexMaps() returns (r: Outcome, ghost hclaims: seq<seq<Point>>, ghost vclaims: seq<seq<Point>>)
      requires Valid() && Ranks(Optimal)
      modifies this`horizontalSeams, this`verticalSeams, seamFunction.verticalUsed, seamFunction.horizontalUsed
      modifies verticalIndexMap, horizontalIndexMap
      ensures Valid()
      ensures var hh := Hauled(Horizontal, old(ViewFor(Vertical)), old(ViewFor(Horizontal)), Reach(horizontalIndexMap),
                               seamFunction.lowestVertical, seamFunction.lowestHorizontal, height);
        var vh := Hauled(Vertical, old(ViewFor(Vertical)), old(ViewFor(Horizontal)), Reach(verticalIndexMap),
                         seamFunction.lowestVertical, seamFunction.lowestHorizontal, width);
        (hh.Err? ==> r == Fail(hh.error)) &&
        (hh.Ok? && vh.Err? ==> r == Fail(vh.error)) &&
        (hh.Ok? && vh.Ok? ==> r == Pass && horizontalSeams == Some(hh.value.seams) && hclaims == hh.value.claims &&
                               verticalSeams == Some(vh.value.seams) && vclaims == vh.value.claims)
      ensures r.Pass? ==> |hclaims| == height && |vclaims| == width
      ensures r.Pass? ==> Snap2(horizontalIndexMap) == RanksThrough(old(Snap2(horizontalIndexMap)), hclaims)
      ensures r.Pass? ==> Snap2(verticalIndexMap) == RanksThrough(old(Snap2(verticalIndexMap)), vclaims)
    {
      ghost var vv, hv := ViewFor(Vertical), ViewFor(Horizontal);
      vclaims := [];
      r, hclaims := HorizontalThread();
      if r.Fail? {
        return;
      }
      HauledIgnoresOther(vv, hv, ViewFor(Horizontal), Reach(verticalIndexMap), seamFunction.lowestVertical, seamFunction.lowestHorizontal, width);
      r, vclaims := VerticalThread();
    }

    /** The width and height CarveSeams gives the new bitmap: k fewer columns for a vertical
        carve and k fewer rows for a horizontal one, in C#'s wrapping int arithmetic. */
    function NewSize(direction: Direction, k: Int32): (int, int)
      reads this
    {
      (if direction == Vertical then Wrap32(width - k) else width,
       if direction == Horizontal then Wrap32(height - k) else height)
    }

    /** CarveSeams: a new bitmap of the new size, filled by the vertical copy loop for Vertical
        and by the horizontal one for every other direction against the direction's index map;
        it replaces the bitmap and the current size. A new size below 1 is refused by the bitmap
        constructor, an index map smaller than the bitmap by its first out-of-range read, and a
        copy that outruns the new bitmap is a failure; a failure leaves the image as it was. */
    method CarveSeams(direction: Direction, k: Int32) returns (r: Outcome)
      requires Valid()
      modifies this
      ensures Valid()
      ensures energyFunction == old(energyFunction) && seamFunction == old(seamFunction) && userEnergy == old(userEnergy)
      ensures verticalIndexMap == old(verticalIndexMap) && horizontalIndexMap == old(horizontalIndexMap)
      ensures verticalSeams == old(verticalSeams) && horizontalSeams == old(horizontalSeams)
      ensures var (w, h) := old(NewSize(direction, k));
        var m := old(IndexMapOf(direction));
        var g := old(Snap2(bitmap));
        var ranks := old(Snap2(m));
        (w <= 0 || h <= 0 ==> r == Fail(InvalidArgument)) &&
        (w > 0 && h > 0 && !(old(width) <= m.Length0 && old(height) <= m.Length1) ==> r == Fail(IndexOutOfRange)) &&
        (r.Fail? ==> bitmap == old(bitmap) && width == old(width) && height == old(height)) &&
        (w > 0 && h > 0 && old(width) <= m.Length0 && old(height) <= m.Length1 ==>
          (direction == Vertical ==>
            (r.Pass? <==> |KeptScan(ranks, k, Vertical, old(width), old(height), 0)| <= RowStart(old(height), w)) &&
            (r.Pass? ==> fresh(bitmap) && width == w && height == h &&
                         Filled(bitmap, g, KeptScan(ranks, k, Vertical, old(width), old(height), 0)))) &&
          (direction != Vertical ==>
            (r.Pass? <==> !ColumnOverflows(ranks, k, old(width), old(height), h)) &&
            (r.Pass? ==> fresh(bitmap) && width == w && height == h && ColumnsFilled(bitmap, g, ranks, k, old(height)))))
      ensures r.Fail? ==> r.error == InvalidArgument || r.error == IndexOutOfRange
    {
      var (w, h) := NewSize(direction, k);
      var indexMap := IndexMapOf(direction);
      if w <= 0 || h <= 0 {
        r := Fail(InvalidArgument);
      } else if !(width <= indexMap.Length0 && height <= indexMap.Length1) {
        r := Fail(IndexOutOfRange);
      } else {
        var carved, removed;
        if direction == Vertical {
          carved, removed := CarveRows(bitmap, indexMap, k, w);
        } else {
          carved, removed := CarveColumns(bitmap, indexMap, k, h);
        }
        if carved.Err? {
          r := Fail(carved.error);
        } else {
          bitmap := carved.value;
          width, height := w, h;
          r := Pass;
        }
      }
    }

    /** SetEnergy: the markings of the strokes replace the user energy, which RefineEnergy then
        applies. */
    method SetEnergy(strokes: seq<Stroke>) returns (r: Outcome)
      modifies this, energyFunction.EnergyMap
      ensures userEnergy == Markings(strokes)
      ensures bitmap == old(bitmap) && width == old(width) && height == old(height)
      ensures energyFunction == old(energyFunction) && seamFunction == old(seamFunction)
      ensures verticalIndexMap == old(verticalIndexMap) && horizontalIndexMap == old(horizontalIndexMap)
      ensures verticalSeams == old(verticalSeams) && horizontalSeams == old(horizontalSeams)
      ensures r.Pass? ==> Applied(old(Snap2(energyFunction.EnergyMap)), userEnergy)
      ensures r.Fail? ==> r.error == IndexOutOfRange && MissedMark(old(Snap2(energyFunction.EnergyMap)), userEnergy)
    {
      var marks: seq<Marking> := [];
      for i := 0 to |strokes|
        invariant marks == Markings(strokes[..i])
      {
        var stroke := strokes[i];
        for j := 0 to |stroke.points|
          invariant marks == Markings(strokes[..i]) + StrokeMarkings(stroke)[..j]
        {
          assert StrokeMarkings(stroke)[..j + 1] == StrokeMarkings(stroke)[..j] + [StrokeMarkings(stroke)[j]];
          marks := marks + [Marking(stroke.points[j], KindOf(stroke))];
        }
        assert StrokeMarkings(stroke)[..|stroke.points|] == StrokeMarkings(stroke);
        assert strokes[..i + 1][..i] == strokes[..i];
      }
      assert strokes[..|strokes|] == strokes;
      userEnergy := marks;
      r := RefineEnergy();
    }

    /** The energy map holds the markings applied to the energy g: every cell of the map as
        Refined from its entry in g. */
    ghost predicate Applied(g: seq<seq<Int32>>, marks: seq<Marking>)
      reads this, energyFunction, energyFunction.EnergyMap
    {
      var e := energyFunction.EnergyMap;
      IsGrid(g, e.Length0, e.Length1) &&
      forall x, y :: 0 <= x < e.Length0 && 0 <= y < e.Length1 ==> e[x, y] == Refined(g[x][y], marks, Point(x, y), ImageSize())
    }

    /** Some marking i lands inside the current size but outside the energy map, and the map
        holds the markings before it applied to the energy g. */
    ghost predicate MissedMark(g: seq<seq<Int32>>, marks: seq<Marking>)
      reads this, energyFunction, energyFunction.EnergyMap
    {
      var e := energyFunction.EnergyMap;
      exists i :: 0 <= i < |marks| && InBounds(marks[i].at.x, marks[i].at.y, ImageSize()) &&
        !(marks[i].at.x < e.Length0 && marks[i].at.y < e.Length1) && Applied(g, marks[..i])
    }

    /** RefineEnergy: for each user marking in order, a cell inside the current size takes the
        marking's energy (50000 or -50000); markings outside it are skipped. A cell of the size
        that the energy map does not hold ends the pass with an exception. */
    method RefineEnergy() returns (r: Outcome)
      modifies energyFunction.EnergyMap
      ensures r.Pass? ==> Applied(old(Snap2(energyFunction.EnergyMap)), userEnergy)
      ensures r.Fail? ==> r.error == IndexOutOfRange && MissedMark(old(Snap2(energyFunction.EnergyMap)), userEnergy)
    {
      ghost var g := Snap2(energyFunction.EnergyMap);
      var marks := userEnergy;
      for i := 0 to |marks|
        invariant Applied(g, marks[..i])
      {
        var ok := ApplyMark(g, marks, i);
        if !ok {
          return Fail(IndexOutOfRange);
        }
      }
      assert marks[..|marks|] == marks;
      r := Pass;
    }

    /** Step i of RefineEnergy's loop: marking i written into the energy map when it lies inside
        the current size, skipped when it does not; false when it lies inside the size but
        outside the map, which is then left as it was. */
    method ApplyMark(ghost g: seq<seq<Int32>>, marks: seq<Marking>, i: int) returns (ok: bool)
      requires 0 <= i < |marks| && Applied(g, marks[..i])
      modifies energyFunction.EnergyMap
      ensures ok ==> Applied(g, marks[..i + 1])
      ensures !ok ==> InBounds(marks[i].at.x, marks[i].at.y, ImageSize())
      ensures !ok ==> !(marks[i].at.x < energyFunction.EnergyMap.Length0 && marks[i].at.y < energyFunction.EnergyMap.Length1)
      ensures !ok ==> Applied(g, marks[..i])
    {
      var e := energyFunction.EnergyMap;
      var m := marks[i];
      assert marks[..i + 1][..i] == marks[..i];
      if !(0 <= m.at.x < width && 0 <= m.at.y < height) {
        assert forall c :: LastMark(marks[..i + 1], c, ImageSize()) == LastMark(marks[..i], c, ImageSize());
        return true;
      }
      if !(m.at.x < e.Length0 && m.at.y < e.Length1) {
        return false;
      }
      e[m.at.x, m.at.y] := MarkedEnergy(m.kind);
      ok := true;
    }

    /** AddSeam: while both dimensions are below the minimum, look up the seam with rank 1 and
        no index map, then grow. The lookup without an index map always ends in an exception,
        so AddSeam fails at its first iteration and otherwise does nothing. The failing lookup
        is in the consulted direction (Consulted): the list has no second entry or that entry
        lies outside the image, which is an ArgumentOutOfRange before anything is claimed, or
        the entry's cell is claimed and writing its rank into the missing index map is a
        NullReference. The other direction's mask is never touched. */
    method AddSeam(direction: Direction, minimumSize: Size, paintSeam: bool) returns (r: Outcome)
      requires Valid() && Ranks(direction)
      modifies seamFunction.verticalUsed, seamFunction.horizontalUsed
      ensures r.Pass? <==> !(width < minimumSize.width && height < minimumSize.height)
      ensures r.Fail? ==> r.error == NullReference || r.error == ArgumentOutOfRange
      ensures var d, list := Consulted(direction), seamFunction.LowestOf(Consulted(direction));
        r.Fail? ==> (r.error == ArgumentOutOfRange <==> |list| < 2 || !InBounds(list[1].key.x, list[1].key.y, ImageSize()))
      ensures var d := Consulted(direction);
        r == Fail(NullReference) ==>
          ClaimsAdded(Snap2(seamFunction.UsedOf(d)), old(Snap2(seamFunction.UsedOf(d))), [seamFunction.LowestOf(d)[1].key])
      ensures r.Pass? || r == Fail(ArgumentOutOfRange) ==> Snap2(seamFunction.UsedOf(Consulted(direction))) == old(Snap2(seamFunction.UsedOf(Consulted(direction))))
      ensures Snap2(seamFunction.UsedOf(Other(Consulted(direction)))) == old(Snap2(seamFunction.UsedOf(Other(Consulted(direction)))))
    {
      if width < minimumSize.width && height < minimumSize.height {
        var s := seamFunction.GetKthLowestEnergySeam(Consulted(direction), ImageSize(), 1, null);
        return Fail(s.error);
      }
      return Pass;
    }
  }
}
