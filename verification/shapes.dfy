/**
 * The point sets that `Canvas.fill_rect` and `Canvas.draw_rect` write, and what
 * writing them does to the pixels.
 */
module Shapes {
  import opened Raster
  import opened Bresenham

  /** Row `y`, columns `x` to `hx` inclusive, left to right. */
  function Span(x: int, hx: int, y: int): seq<Point>
    decreases hx - x
  {
    if x > hx then [] else [Point(x, y)] + Span(x + 1, hx, y)
  }

  /** A span holds exactly the points of its row between its two ends. */
  lemma {:induction false} SpanMembers(x: int, hx: int, y: int)
    ensures forall p :: p in Span(x, hx, y) <==> x <= p.x <= hx && p.y == y
    decreases hx - x
  {
    if x <= hx {
      SpanMembers(x + 1, hx, y);
    }
  }

  /** Rows `y` to `hy` inclusive, top to bottom, each the span `lx..hx`. */
  function Block(lx: int, hx: int, y: int, hy: int): seq<Point>
    decreases hy - y
  {
    if y > hy then [] else Span(lx, hx, y) + Block(lx, hx, y + 1, hy)
  }

  /** A block holds exactly the points of its rectangle, both ends inclusive. */
  lemma {:induction false} BlockMembers(lx: int, hx: int, y: int, hy: int)
    ensures forall p :: p in Block(lx, hx, y, hy) <==> lx <= p.x <= hx && y <= p.y <= hy
    decreases hy - y
  {
    if y <= hy {
      SpanMembers(lx, hx, y);
      BlockMembers(lx, hx, y + 1, hy);
    }
  }

  /** A span with points left starts with its leftmost point. */
  lemma SpanCons(x: int, hx: int, y: int, tail: seq<Point>)
    requires x <= hx
    ensures Span(x, hx, y) + tail == [Point(x, y)] + (Span(x + 1, hx, y) + tail)
  {
  }

  /** A block with rows left starts with its top row. */
  lemma BlockCons(lx: int, hx: int, y: int, hy: int)
    requires y <= hy
    ensures Block(lx, hx, y, hy) == Span(lx, hx, y) + Block(lx, hx, y + 1, hy)
  {
  }

  /**
   * The pixels `fill_rect(x0, y0, x1, y1)` writes: corners normalised with
   * min/max, then clamped to the canvas, both ends inclusive.
   */
  function FillArea(width: nat, height: nat, x0: int, y0: int, x1: int, y1: int): seq<Point>
  {
    Block(Max(0, Min(x0, x1)), Min(width - 1, Max(x0, x1)),
          Max(0, Min(y0, y1)), Min(height - 1, Max(y0, y1)))
  }

  predicate InRect(x0: int, y0: int, x1: int, y1: int, p: Point)
  {
    Min(x0, x1) <= p.x <= Max(x0, x1) && Min(y0, y1) <= p.y <= Max(y0, y1)
  }

  /**
   * Filling sets exactly the canvas pixels inside the rectangle spanned by the
   * two corners (in either order) and leaves every other pixel as it was.
   */
  lemma FillPixels(g: Grid, width: nat, height: nat, x0: int, y0: int, x1: int, y1: int, c: Color)
    requires Shaped(g, width, height)
    ensures forall q :: InBounds(width, height, q) ==>
      PixelAt(PlotAll(g, width, height, FillArea(width, height, x0, y0, x1, y1), c), width, height, q)
      == if InRect(x0, y0, x1, y1, q) then c else PixelAt(g, width, height, q)
  {
    PlotAllEffect(g, width, height, FillArea(width, height, x0, y0, x1, y1), c);
    BlockMembers(Max(0, Min(x0, x1)), Min(width - 1, Max(x0, x1)),
                 Max(0, Min(y0, y1)), Min(height - 1, Max(y0, y1)));
  }

  /** Filling the same rectangle twice in the same colour gives the grid of filling it once. */
  lemma FillIdempotent(g: Grid, width: nat, height: nat, x0: int, y0: int, x1: int, y1: int, c: Color)
    requires Shaped(g, width, height)
    ensures var area := FillArea(width, height, x0, y0, x1, y1);
      PlotAll(PlotAll(g, width, height, area, c), width, height, area, c)
      == PlotAll(g, width, height, area, c)
  {
    PlotAllIdempotent(g, width, height, FillArea(width, height, x0, y0, x1, y1), c);
  }

  /** The four edges `draw_rect` draws, in its order: top, bottom, left, right. */
  function Outline(x0: int, y0: int, x1: int, y1: int): seq<Point>
  {
    Path(Segment(x0, y0, x1, y0)) + Path(Segment(x0, y1, x1, y1)) +
    Path(Segment(x0, y0, x0, y1)) + Path(Segment(x1, y0, x1, y1))
  }

  /** On the border of the rectangle spanned by the corners. */
  predicate OnBorder(x0: int, y0: int, x1: int, y1: int, p: Point)
  {
    InRect(x0, y0, x1, y1, p) && (p.x == x0 || p.x == x1 || p.y == y0 || p.y == y1)
  }

  /** The outline is exactly the rectangle's border: no interior point, no gap. */
  lemma OutlineIsBorder(x0: int, y0: int, x1: int, y1: int)
    ensures forall p :: p in Outline(x0, y0, x1, y1) <==> OnBorder(x0, y0, x1, y1, p)
  {
    AxisAlignedCover(Segment(x0, y0, x1, y0));
    AxisAlignedCover(Segment(x0, y1, x1, y1));
    AxisAlignedCover(Segment(x0, y0, x0, y1));
    AxisAlignedCover(Segment(x1, y0, x1, y1));
  }

  /** Outlining sets exactly the border pixels that lie on the canvas and no others. */
  lemma OutlinePixels(g: Grid, width: nat, height: nat, x0: int, y0: int, x1: int, y1: int, c: Color)
    requires Shaped(g, width, height)
    ensures forall q :: InBounds(width, height, q) ==>
      PixelAt(PlotAll(g, width, height, Outline(x0, y0, x1, y1), c), width, height, q)
      == if OnBorder(x0, y0, x1, y1, q) then c else PixelAt(g, width, height, q)
  {
    OutlineIsBorder(x0, y0, x1, y1);
    PlotAllEffect(g, width, height, Outline(x0, y0, x1, y1), c);
  }
}
