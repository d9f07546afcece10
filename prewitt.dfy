/** The Prewitt and Roberts energy filters (trunk/EnergyFunctions/Prewitt.cs, Roberts.cs). Both
    read pixel values through a lookup the base class does not define; it is a parameter here. */
module EdgeFilters {
  import opened Numerics

  function Abs(v: int): (r: nat)
    ensures r == v || r == -v
  {
    if v < 0 then -v else v
  }

  /** Prewitt.GetPixelEnergy: |right column - left column| + |bottom row - top row| over the
      eight neighbours (the centre is not read), capped at 255. */
  function PrewittEnergy(pixel: (int, int) -> Byte, x: int, y: int): (r: Byte)
  {
    var p0, p1, p2 := pixel(x - 1, y - 1), pixel(x, y - 1), pixel(x + 1, y - 1);
    var p3, p4 := pixel(x - 1, y), pixel(x + 1, y);
    var p5, p6, p7 := pixel(x - 1, y + 1), pixel(x, y + 1), pixel(x + 1, y + 1);
    var xPrewitt := p2 + p4 + p7 - p0 - p3 - p5;
    var yPrewitt := p5 + p6 + p7 - p0 - p1 - p2;
    Cap255(Abs(xPrewitt) + Abs(yPrewitt))
  }

  /** Roberts.GetPixelEnergy: the two diagonal differences of the 2x2 block whose top-left
      cell is (x, y), summed in absolute value and capped at 255. */
  function RobertsEnergy(pixel: (int, int) -> Byte, x: int, y: int): (r: Byte)
  {
    var p0, p1 := pixel(x, y), pixel(x + 1, y);
    var p2, p3 := pixel(x, y + 1), pixel(x + 1, y + 1);
    Cap255(Abs(p0 - p3) + Abs(p1 - p2))
  }

  /** The neighbour of (x, y) at column offset i and row offset j. */
  function Neighbour(pixel: (int, int) -> Byte, x: int, y: int, i: int, j: int): Byte
  {
    pixel(x + i, y + j)
  }

  /** A neighbourhood of one value has Prewitt energy 0, whatever the centre holds... */
  lemma PrewittFlat(pixel: (int, int) -> Byte, x: int, y: int, c: Byte)
    requires forall i, j :: -1 <= i <= 1 && -1 <= j <= 1 && (i, j) != (0, 0) ==> Neighbour(pixel, x, y, i, j) == c
    ensures PrewittEnergy(pixel, x, y) == 0
  {
    assert Neighbour(pixel, x, y, -1, -1) == c && Neighbour(pixel, x, y, 0, -1) == c && Neighbour(pixel, x, y, 1, -1) == c;
    assert Neighbour(pixel, x, y, -1, 0) == c && Neighbour(pixel, x, y, 1, 0) == c;
    assert Neighbour(pixel, x, y, -1, 1) == c && Neighbour(pixel, x, y, 0, 1) == c && Neighbour(pixel, x, y, 1, 1) == c;
  }

  /** ...and the centre never matters: two lookups that agree on the eight neighbours give the
      same energy. */
  lemma PrewittIgnoresCentre(p: (int, int) -> Byte, q: (int, int) -> Byte, x: int, y: int)
    requires forall i, j :: -1 <= i <= 1 && -1 <= j <= 1 && (i, j) != (0, 0) ==> Neighbour(p, x, y, i, j) == Neighbour(q, x, y, i, j)
    ensures PrewittEnergy(p, x, y) == PrewittEnergy(q, x, y)
  {
    assert Neighbour(p, x, y, -1, -1) == Neighbour(q, x, y, -1, -1) && Neighbour(p, x, y, 0, -1) == Neighbour(q, x, y, 0, -1);
    assert Neighbour(p, x, y, 1, -1) == Neighbour(q, x, y, 1, -1);
    assert Neighbour(p, x, y, -1, 0) == Neighbour(q, x, y, -1, 0) && Neighbour(p, x, y, 1, 0) == Neighbour(q, x, y, 1, 0);
    assert Neighbour(p, x, y, -1, 1) == Neighbour(q, x, y, -1, 1) && Neighbour(p, x, y, 0, 1) == Neighbour(q, x, y, 0, 1);
    assert Neighbour(p, x, y, 1, 1) == Neighbour(q, x, y, 1, 1);
  }

  /** Mirroring the image left to right mirrors its Prewitt energy. */
  lemma PrewittMirror(pixel: (int, int) -> Byte, x: int, y: int)
    ensures PrewittEnergy((a, b) => pixel(-a, b), -x, y) == PrewittEnergy(pixel, x, y)
  {
  }

  /** A 2x2 block of one value has Roberts energy 0. */
  lemma RobertsFlat(pixel: (int, int) -> Byte, x: int, y: int, c: Byte)
    requires pixel(x, y) == c && pixel(x + 1, y) == c && pixel(x, y + 1) == c && pixel(x + 1, y + 1) == c
    ensures RobertsEnergy(pixel, x, y) == 0
  {
  }

  /** Only the four cells of the block are read: two lookups that agree on them give the same
      energy. */
  lemma RobertsReadsBlock(p: (int, int) -> Byte, q: (int, int) -> Byte, x: int, y: int)
    requires p(x, y) == q(x, y) && p(x + 1, y) == q(x + 1, y)
    requires p(x, y + 1) == q(x, y + 1) && p(x + 1, y + 1) == q(x + 1, y + 1)
    ensures RobertsEnergy(p, x, y) == RobertsEnergy(q, x, y)
  {
  }

  /** The largest unclamped sum, 510 (both diagonals from 0 to 255), is capped at 255. */
  lemma RobertsSaturates(pixel: (int, int) -> Byte, x: int, y: int)
    requires pixel(x, y) == 255 && pixel(x + 1, y + 1) == 0 && pixel(x + 1, y) == 255 && pixel(x, y + 1) == 0
    ensures Abs(pixel(x, y) - pixel(x + 1, y + 1)) + Abs(pixel(x + 1, y) - pixel(x, y + 1)) == 510
    ensures RobertsEnergy(pixel, x, y) == 255
  {
  }

  /** Turning the image half a revolution maps the block at (x, y) onto the block at
      (-x-1, -y-1) and leaves its Roberts energy unchanged. */
  lemma RobertsHalfTurn(pixel: (int, int) -> Byte, x: int, y: int)
    ensures RobertsEnergy((a, b) => pixel(-a, -b), -x - 1, -y - 1) == RobertsEnergy(pixel, x, y)
  {
  }
}
