/** 24-bit pixels and their luminance. A bitmap is an array of pixels indexed [x, y]; the source
    reads pixel (x, y) at byte offset y * stride + 3 * x, blue first. */
module Pixels {
  import opened Numerics
  import opened Utilities

  datatype Rgb = Rgb(blue: Byte, green: Byte, red: Byte)

  function MinChannel(p: Rgb): int
  {
    if p.red <= p.green && p.red <= p.blue then p.red
    else if p.green <= p.blue then p.green
    else p.blue
  }

  function MaxChannel(p: Rgb): int
  {
    if p.red >= p.green && p.red >= p.blue then p.red
    else if p.green >= p.blue then p.green
    else p.blue
  }

  /** Rec. 709 luma, truncated to a byte: 0.2126 red + 0.7152 green + 0.0722 blue, computed
      exactly in ten-thousandths. */
  function Luminance(p: Rgb): (r: Byte)
  {
    var w := 2126 * p.red + 7152 * p.green + 722 * p.blue;
    assert w <= 10000 * 255;
    w / 10000
  }

  /** The weights sum to one, so the luminance lies between the darkest and the brightest
      channel, and a grey pixel keeps its level. */
  lemma LuminanceBetween(p: Rgb)
    ensures MinChannel(p) <= Luminance(p) <= MaxChannel(p)
    ensures p.red == p.green == p.blue ==> Luminance(p) == p.red
  {
    var m, n := MinChannel(p), MaxChannel(p);
    var w := 2126 * p.red + 7152 * p.green + 722 * p.blue;
    assert 10000 * m <= w <= 10000 * n;
  }

  /** Utilities.GetPixel: the luminance of the pixel at (x, y), or 255 outside the grid. */
  function GetPixel(img: seq<seq<Rgb>>, size: Size, x: int, y: int): (r: Byte)
    requires Fits(img, size)
    ensures InBounds(x, y, size) ==> MinChannel(img[x][y]) <= r <= MaxChannel(img[x][y])
    ensures !InBounds(x, y, size) ==> r == ByteMax
  {
    if InBounds(x, y, size) then LuminanceBetween(img[x][y]); Luminance(img[x][y]) else ByteMax
  }
}
