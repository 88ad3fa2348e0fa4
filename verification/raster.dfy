/**
 * The pixel grid of a figure canvas, as values: `height` rows, each row the
 * `3 * width` bytes R, G, B of its pixels from left to right. The canvas class
 * holds one of these; every drawing operation is described here as writing one
 * colour at a list of points, in order, with points outside the grid ignored.
 */
module Raster {
  import opened Bytes

  datatype Color = Color(r: Byte, g: Byte, b: Byte)

  datatype Point = Point(x: int, y: int)

  type Grid = seq<seq<Byte>>

  /** Byte `k` (0 = red, 1 = green, 2 = blue) of a colour. */
  function Channel(c: Color, k: int): Byte
  {
    if k == 0 then c.r else if k == 1 then c.g else c.b
  }

  /** The three bytes a colour occupies in a row (`bytes(color)`). */
  function Channels(c: Color): (s: seq<Byte>)
    ensures |s| == 3 && forall k :: 0 <= k < 3 ==> s[k] == Channel(c, k)
  {
    [c.r, c.g, c.b]
  }

  /** The canvas invariant: exactly `height` rows of exactly `3 * width` bytes. */
  predicate Shaped(g: Grid, width: nat, height: nat)
  {
    |g| == height && forall y :: 0 <= y < height ==> |g[y]| == 3 * width
  }

  predicate InBounds(width: nat, height: nat, p: Point)
  {
    0 <= p.x < width && 0 <= p.y < height
  }

  /** The colour stored at a pixel: bytes `[3x, 3x + 3)` of row `y`. */
  function PixelAt(g: Grid, width: nat, height: nat, p: Point): Color
    requires Shaped(g, width, height) && InBounds(width, height, p)
  {
    Color(g[p.y][3 * p.x], g[p.y][3 * p.x + 1], g[p.y][3 * p.x + 2])
  }

  /** A row of `n` pixels of one colour, built by appending the colour `n` times. */
  function SolidRow(c: Color, n: nat): (r: seq<Byte>)
    ensures |r| == 3 * n
    ensures forall i :: 0 <= i < 3 * n ==> r[i] == Channel(c, i % 3)
  {
    if n == 0 then [] else SolidRow(c, n - 1) + Channels(c)
  }

  /** A fresh grid with every pixel set to the background colour. */
  function Filled(width: nat, height: nat, bg: Color): (g: Grid)
    ensures Shaped(g, width, height)
    ensures forall p :: InBounds(width, height, p) ==> PixelAt(g, width, height, p) == bg
  {
    seq(height, _ => SolidRow(bg, width))
  }

  /**
   * One clipped pixel write: inside the grid the pixel's three bytes become the
   * colour, outside it nothing changes. The shape is kept either way.
   */
  function WritePixel(g: Grid, width: nat, height: nat, p: Point, c: Color): (r: Grid)
    requires Shaped(g, width, height)
    ensures Shaped(r, width, height)
    ensures !InBounds(width, height, p) ==> r == g
  {
    if InBounds(width, height, p) then
      var row := g[p.y];
      var i := 3 * p.x;
      g[p.y := row[..i] + Channels(c) + row[i + 3..]]
    else
      g
  }

  /** The row update a pixel write performs inside the grid, as the loops in `Figures` write it. */
  lemma WriteInRow(g: Grid, width: nat, height: nat, p: Point, c: Color)
    requires Shaped(g, width, height) && InBounds(width, height, p)
    ensures WritePixel(g, width, height, p, c)
         == g[p.y := g[p.y][..3 * p.x] + Channels(c) + g[p.y][3 * p.x + 3..]]
  {
  }

  /**
   * Byte by byte: a write on the grid sets bytes `3x .. 3x + 2` of row `y` to
   * red, green and blue, and every other byte of every row keeps its value.
   */
  lemma WritePixelBytes(g: Grid, width: nat, height: nat, p: Point, c: Color)
    requires Shaped(g, width, height)
    ensures var r := WritePixel(g, width, height, p, c);
      forall y, i :: 0 <= y < height && 0 <= i < 3 * width ==>
        r[y][i] == if InBounds(width, height, p) && y == p.y && 3 * p.x <= i < 3 * p.x + 3
                   then Channel(c, i - 3 * p.x) else g[y][i]
  {
  }

  /** A pixel write sets exactly its own pixel, and only when it lies on the grid. */
  lemma WritePixelEffect(g: Grid, width: nat, height: nat, p: Point, c: Color)
    requires Shaped(g, width, height)
    ensures forall q :: InBounds(width, height, q) ==>
      PixelAt(WritePixel(g, width, height, p, c), width, height, q)
      == if q == p then c else PixelAt(g, width, height, q)
  {
  }

  /** Writes the colour at every point of `pts` in order. */
  function PlotAll(g: Grid, width: nat, height: nat, pts: seq<Point>, c: Color): (r: Grid)
    requires Shaped(g, width, height)
    ensures Shaped(r, width, height)
    decreases |pts|
  {
    if pts == [] then g
    else PlotAll(WritePixel(g, width, height, pts[0], c), width, height, pts[1..], c)
  }

  /**
   * After plotting, a pixel has the colour exactly when the list mentions it,
   * and otherwise keeps its old colour.
   */
  lemma {:induction false} PlotAllEffect(g: Grid, width: nat, height: nat, pts: seq<Point>, c: Color)
    requires Shaped(g, width, height)
    ensures forall q :: InBounds(width, height, q) ==>
      PixelAt(PlotAll(g, width, height, pts, c), width, height, q)
      == if q in pts then c else PixelAt(g, width, height, q)
    decreases |pts|
  {
    if pts != [] {
      WritePixelEffect(g, width, height, pts[0], c);
      PlotAllEffect(WritePixel(g, width, height, pts[0], c), width, height, pts[1..], c);
      assert forall q :: q in pts <==> q == pts[0] || q in pts[1..];
    }
  }

  /** Plotting a list is writing its first point, then plotting the rest. */
  lemma PlotAllCons(g: Grid, width: nat, height: nat, p: Point, rest: seq<Point>, c: Color)
    requires Shaped(g, width, height)
    ensures PlotAll(g, width, height, [p] + rest, c)
         == PlotAll(WritePixel(g, width, height, p, c), width, height, rest, c)
  {
    assert ([p] + rest)[1..] == rest;
  }

  /** `set_pixel` is the one-point case of plotting a list. */
  lemma WritePixelIsPlot(g: Grid, width: nat, height: nat, p: Point, c: Color)
    requires Shaped(g, width, height)
    ensures WritePixel(g, width, height, p, c) == PlotAll(g, width, height, [p], c)
  {
    assert [p][1..] == [];
  }

  /** Two grids of the same shape that agree on every pixel are the same grid. */
  lemma GridExt(g1: Grid, g2: Grid, width: nat, height: nat)
    requires Shaped(g1, width, height) && Shaped(g2, width, height)
    requires forall q :: InBounds(width, height, q) ==>
      PixelAt(g1, width, height, q) == PixelAt(g2, width, height, q)
    ensures g1 == g2
  {
    forall y | 0 <= y < height
      ensures g1[y] == g2[y]
    {
      forall i | 0 <= i < 3 * width
        ensures g1[y][i] == g2[y][i]
      {
        var q := Point(i / 3, y);
        assert InBounds(width, height, q);
        assert PixelAt(g1, width, height, q) == PixelAt(g2, width, height, q);
        assert i == 3 * q.x || i == 3 * q.x + 1 || i == 3 * q.x + 2;
      }
    }
  }

  /** Plotting a list in two parts is plotting the first part, then the second. */
  lemma {:induction false} PlotAllAppend(g: Grid, width: nat, height: nat, a: seq<Point>, b: seq<Point>, c: Color)
    requires Shaped(g, width, height)
    ensures PlotAll(g, width, height, a + b, c)
         == PlotAll(PlotAll(g, width, height, a, c), width, height, b, c)
    decreases |a|
  {
    if a != [] {
      assert (a + b)[1..] == a[1..] + b;
      PlotAllAppend(WritePixel(g, width, height, a[0], c), width, height, a[1..], b, c);
    } else {
      assert a + b == b;
    }
  }

  /** Plotting the same points in the same colour twice gives the grid of plotting them once. */
  lemma PlotAllIdempotent(g: Grid, width: nat, height: nat, pts: seq<Point>, c: Color)
    requires Shaped(g, width, height)
    ensures PlotAll(PlotAll(g, width, height, pts, c), width, height, pts, c)
         == PlotAll(g, width, height, pts, c)
  {
    var once := PlotAll(g, width, height, pts, c);
    PlotAllEffect(g, width, height, pts, c);
    PlotAllEffect(once, width, height, pts, c);
    GridExt(PlotAll(once, width, height, pts, c), once, width, height);
  }
}
