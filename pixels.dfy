/** Channel values, pixels and pixel grids shared by the rasteriser and the fitness score. */
module Pixels {

  /** An 8-bit channel value (Go `uint8`). */
  type Byte = x: int | 0 <= x < 256

  /** One RGB sample; the rendered grid keeps no alpha. */
  datatype Pixel = Pixel(r: Byte, g: Byte, b: Byte)

  const Black := Pixel(0, 0, 0)

  /** The largest difference one pixel can show: 255 per channel. */
  const MaxPixelDiff := 765

  /** A column-major grid, `grid[x][y]`, as the program's `[][]Pixel`. */
  type Grid = seq<seq<Pixel>>

  /** `grid` has exactly `w` columns of `h` rows each. */
  predicate IsGrid(grid: Grid, w: int, h: int) {
    |grid| == w && forall x :: 0 <= x < |grid| ==> |grid[x]| == h
  }

  function Abs(v: int): (r: nat)
    ensures r == v || r == -v
  {
    if v < 0 then -v else v
  }

  /** Absolute difference of two channels, computed like the source: the
      smaller value is subtracted from the larger, so the `uint8`
      subtraction never wraps. */
  function ChannelDiff(o: Byte, n: Byte): (d: nat)
    ensures d <= 255
    ensures d == Abs(o - n)
    ensures d == 0 <==> o == n
  {
    if o > n then o - n else n - o
  }

  /** `|dr| + |dg| + |db|` between an original and a rendered pixel. */
  function PixelDiff(o: Pixel, n: Pixel): (d: nat)
    ensures d <= MaxPixelDiff
    ensures d == 0 <==> o == n
  {
    ChannelDiff(o.r, n.r) + ChannelDiff(o.g, n.g) + ChannelDiff(o.b, n.b)
  }

  lemma PixelDiffSymmetric(p: Pixel, q: Pixel)
    ensures PixelDiff(p, q) == PixelDiff(q, p)
  {
  }
}
