/** Sweep coordinates shared by every seam computation. A sweep in direction d runs "along"
    one axis (y for a vertical seam, x for a horizontal one); the other axis is "lateral". The
    cumulative-energy recurrences of both revisions read the three cells at lateral l-1, l, l+1
    on the previous along line, and they break ties by the same nested comparison. */
module Sweep {
  import opened Constants
  import opened Utilities
  import opened Numerics

  /** The cell at along coordinate a, lateral coordinate l. Every direction other than Vertical
      is treated as horizontal, as the source's `if (direction == VERTICAL) ... else` does. */
  function At(d: Direction, a: int, l: int): (p: Point)
    ensures d == Vertical ==> p.x == l && p.y == a
    ensures d != Vertical ==> p.x == a && p.y == l
  {
    if d == Vertical then Point(l, a) else Point(a, l)
  }

  function Along(d: Direction, p: Point): int
  {
    if d == Vertical then p.y else p.x
  }

  function Lateral(d: Direction, p: Point): int
  {
    if d == Vertical then p.x else p.y
  }

  /** Number of along lines: the height for a vertical sweep, the width otherwise. */
  function AlongExtent(d: Direction, size: Size): nat
  {
    if d == Vertical then size.height else size.width
  }

  /** Number of cells on one along line. */
  function LateralExtent(d: Direction, size: Size): nat
  {
    if d == Vertical then size.width else size.height
  }

  lemma AtCoordinates(d: Direction, a: int, l: int)
    ensures Along(d, At(d, a, l)) == a && Lateral(d, At(d, a, l)) == l
  {
  }

  lemma AtInBounds(d: Direction, a: int, l: int, size: Size)
    ensures InBounds(At(d, a, l).x, At(d, a, l).y, size) <==>
            (0 <= a < AlongExtent(d, size) && 0 <= l < LateralExtent(d, size))
  {
  }

  /** What a backtrack reads: the direction, the grid size, and this direction's cumulative map
      and claimed-cell mask as they were when the backtrack started. */
  datatype View = View(d: Direction, size: Size, cum: seq<seq<Int32>>, used: seq<seq<bool>>)

  predicate ValidView(v: View)
  {
    (v.d == Vertical || v.d == Horizontal) && Fits(v.cum, v.size) && Fits(v.used, v.size)
  }

  /** Which of three candidates a comparison picks. */
  datatype Pick = First | Second | Third

  function PickedValue(c: Pick, e0: int, e1: int, e2: int): int
  {
    match c
    case First => e0
    case Second => e1
    case Third => e2
  }

  /** The three-way minimum selection every sweep uses: `e0 < e1 ? (e0 < e2 ? e0 : e2)
      : (e1 < e2 ? e1 : e2)`. It picks the highest-numbered candidate that holds the minimum,
      so the third candidate wins every tie it takes part in and the second wins a tie with
      the first. */
  function Choose3(e0: int, e1: int, e2: int): (c: Pick)
    ensures PickedValue(c, e0, e1, e2) <= e0 && PickedValue(c, e0, e1, e2) <= e1 && PickedValue(c, e0, e1, e2) <= e2
    ensures c == First <==> e0 < e1 && e0 < e2
    ensures c == Second <==> e1 <= e0 && e1 < e2
    ensures c == Third <==> e2 <= e0 && e2 <= e1
  {
    if e0 < e1 then (if e0 < e2 then First else Third)
    else (if e1 < e2 then Second else Third)
  }

  /** The minimum of three values, as the recurrences compute it. */
  function Min3(e0: int, e1: int, e2: int): (m: int)
    ensures m <= e0 && m <= e1 && m <= e2
    ensures m == e0 || m == e1 || m == e2
  {
    PickedValue(Choose3(e0, e1, e2), e0, e1, e2)
  }
}
