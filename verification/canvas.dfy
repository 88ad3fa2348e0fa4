/**
 * The figure canvas: a mutable RGB grid with clipped drawing primitives. Each
 * method is proved to leave the grid equal to a function of the old grid (see
 * modules Raster, Bresenham, Shapes and Font for what those functions write).
 */
module Figures {
  import opened Bytes
  import opened Raster
  import opened Bresenham
  import opened Shapes
  import opened Font

  /**
   * Writing the bytes of the first pending point straight into its row leaves
   * the rest of the pending points to plot.
   */
  lemma RowWriteStep(g: Grid, width: nat, height: nat, p: Point, rest: seq<Point>, c: Color)
    requires Shaped(g, width, height) && InBounds(width, height, p)
    ensures var g' := g[p.y := g[p.y][..3 * p.x] + Channels(c) + g[p.y][3 * p.x + 3..]];
      Shaped(g', width, height) &&
      PlotAll(g', width, height, rest, c) == PlotAll(g, width, height, [p] + rest, c)
  {
    PlotAllCons(g, width, height, p, rest, c);
    WriteInRow(g, width, height, p, c);
  }

  /** `COLOR_WHITE`, the default background. */
  const White: Color := Color(255, 255, 255)

  class Canvas {
    const width: nat
    const height: nat
    /** `self.pixels`: one list of `3 * width` bytes per row, top to bottom. */
    var pixels: Grid

    /** The shape invariant every operation keeps. */
    ghost predicate Valid()
      reads this
    {
      Shaped(pixels, width, height)
    }

    /** A canvas of the given size with every pixel set to `bg`. */
    constructor (width: nat, height: nat, bg: Color := White)
      ensures Valid()
      ensures this.width == width && this.height == height
      ensures pixels == Filled(width, height, bg)
    {
      var row: seq<Byte> := [];
      var n := 0;
      while n < width
        invariant 0 <= n <= width
        invariant row == SolidRow(bg, n)
      {
        row := row + Channels(bg);
        n := n + 1;
      }
      var rows: Grid := [];
      var k := 0;
      while k < height
        invariant 0 <= k <= height
        invariant |rows| == k && forall i :: 0 <= i < k ==> rows[i] == row
      {
        rows := rows + [row];
        k := k + 1;
      }
      assert forall i :: 0 <= i < height ==> rows[i] == Filled(width, height, bg)[i];
      this.width := width;
      this.height := height;
      pixels := rows;
    }

    /** `set_pixel`: writes one pixel when it lies on the canvas, otherwise does nothing. */
    method SetPixel(x: int, y: int, color: Color)
      requires Valid()
      modifies this
      ensures Valid()
      ensures pixels == WritePixel(old(pixels), width, height, Point(x, y), color)
    {
      if 0 <= x < width && 0 <= y < height {
        var idx := x * 3;
        pixels := pixels[y := pixels[y][..idx] + Channels(color) + pixels[y][idx + 3..]];
      }
    }

    /** `fill_rect`: fills the clamped, inclusive rectangle row by row. */
    method FillRect(x0: int, y0: int, x1: int, y1: int, color: Color)
      requires Valid()
      modifies this
      ensures Valid()
      ensures pixels == PlotAll(old(pixels), width, height, FillArea(width, height, x0, y0, x1, y1), color)
    {
      var lx := Max(0, Min(x0, x1));
      var hx := Min(width - 1, Max(x0, x1));
      var ly := Max(0, Min(y0, y1));
      var hy := Min(height - 1, Max(y0, y1));
      ghost var target := PlotAll(pixels, width, height, FillArea(width, height, x0, y0, x1, y1), color);
      assert FillArea(width, height, x0, y0, x1, y1) == Block(lx, hx, ly, hy);
      var y := ly;
      while y < hy + 1
        invariant ly <= y <= Max(ly, hy + 1)
        invariant Valid()
        invariant PlotAll(pixels, width, height, Block(lx, hx, y, hy), color) == target
        decreases hy + 1 - y
      {
        BlockCons(lx, hx, y, hy);
        PlotAllAppend(pixels, width, height, Span(lx, hx, y), Block(lx, hx, y + 1, hy), color);
        FillRow(lx, hx, y, color);
        y := y + 1;
      }
    }

    /** The inner loop of `fill_rect`: bytes of columns `lx..hx` of row `y` take the colour, left to right. */
    method FillRow(lx: int, hx: int, y: int, color: Color)
      requires Valid() && 0 <= y < height && 0 <= lx && hx < width
      modifies this
      ensures Valid()
      ensures pixels == PlotAll(old(pixels), width, height, Span(lx, hx, y), color)
    {
      ghost var target := PlotAll(pixels, width, height, Span(lx, hx, y), color);
      var row := pixels[y];
      var x := lx;
      while x < hx + 1
        invariant lx <= x <= Max(lx, hx + 1)
        invariant Valid() && row == pixels[y]
        invariant PlotAll(pixels, width, height, Span(x, hx, y), color) == target
        decreases hx + 1 - x
      {
        SpanCons(x, hx, y, []);
        assert Span(x, hx, y) + [] == Span(x, hx, y) && Span(x + 1, hx, y) + [] == Span(x + 1, hx, y);
        RowWriteStep(pixels, width, height, Point(x, y), Span(x + 1, hx, y), color);
        var idx := x * 3;
        row := row[..idx] + Channels(color) + row[idx + 3..];
        pixels := pixels[y := row];
        x := x + 1;
      }
    }

    /** `draw_line`: the integer Bresenham walk from (x0, y0) to (x1, y1), plotting each point. */
    method DrawLine(x0: int, y0: int, x1: int, y1: int, color: Color)
      requires Valid()
      modifies this
      ensures Valid()
      ensures pixels == PlotAll(old(pixels), width, height, Path(Segment(x0, y0, x1, y1)), color)
    {
      ghost var s := Segment(x0, y0, x1, y1);
      var dx := Abs(x1 - x0);
      var dy: int := -(Abs(y1 - y0) as int);
      var sx := if x0 < x1 then 1 else -1;
      var sy := if y0 < y1 then 1 else -1;
      var err := dx + dy;
      var x, y := x0, y0;
      ghost var i, j := 0, 0;
      ghost var target := PlotAll(pixels, width, height, Path(s), color);
      while true
        invariant Valid()
        invariant s.Reachable(i, j)
        invariant x == s.XAt(i) && y == s.YAt(j) && err == s.Err(i, j)
        invariant PlotAll(pixels, width, height, PathFrom(s, i, j), color) == target
        decreases (s.Dx() - i) + (s.Dy() - j)
      {
        ghost var before := pixels;
        SetPixel(x, y, color);
        if x == x1 && y == y1 {
          PlotAllCons(before, width, height, Point(x, y), [], color);
          break;
        }
        ghost var ni, nj := NextI(s, i, j), NextJ(s, i, j);
        PathFromCons(s, i, j);
        PlotAllCons(before, width, height, Point(x, y), PathFrom(s, ni, nj), color);
        ErrStep(s, i, j);
        var e2 := 2 * err;
        if e2 >= dy {
          err := err + dy;
          x := x + sx;
          i := i + 1;
        }
        if e2 <= dx {
          err := err + dx;
          y := y + sy;
          j := j + 1;
        }
        assert i == ni && j == nj;
      }
    }

    /** `draw_rect`: the top, bottom, left and right edges, each drawn as a line. */
    method DrawRect(x0: int, y0: int, x1: int, y1: int, color: Color)
      requires Valid()
      modifies this
      ensures Valid()
      ensures pixels == PlotAll(old(pixels), width, height, Outline(x0, y0, x1, y1), color)
    {
      ghost var top, bottom := Path(Segment(x0, y0, x1, y0)), Path(Segment(x0, y1, x1, y1));
      ghost var left, right := Path(Segment(x0, y0, x0, y1)), Path(Segment(x1, y0, x1, y1));
      ghost var g0 := pixels;
      DrawLine(x0, y0, x1, y0, color);
      DrawLine(x0, y1, x1, y1, color);
      DrawLine(x0, y0, x0, y1, color);
      DrawLine(x1, y0, x1, y1, color);
      PlotAllAppend(g0, width, height, top + bottom + left, right, color);
      PlotAllAppend(g0, width, height, top + bottom, left, color);
      PlotAllAppend(g0, width, height, top, bottom, color);
    }

    /**
     * `draw_text`: each character's glyph drawn at the cursor, set pixels only;
     * 6 pixels right per character, back to `x` and 9 pixels down per newline.
     * The font lookup `FONT_DATA.get(ch.upper(), FONT_DATA[DEFAULT_CHAR])` is `GlyphFor`.
     */
    method DrawText(x: int, y: int, text: string, color: Color)
      requires Valid()
      modifies this
      ensures Valid()
      ensures pixels == PlotAll(old(pixels), width, height, TextPoints(x, y, text), color)
    {
      DrawTextWith(GlyphFor, x, y, text, color);
    }

    /** The character loop of `draw_text`, with the glyph lookup `glyphOf`. */
    method DrawTextWith(glyphOf: char -> Glyph, x: int, y: int, text: string, color: Color)
      requires Valid()
      modifies this
      ensures Valid()
      ensures pixels == PlotAll(old(pixels), width, height, TextFrom(glyphOf, x, text, Point(x, y)), color)
    {
      var cursorX := x;
      var cursorY := y;
      ghost var target := PlotAll(pixels, width, height, TextFrom(glyphOf, x, text, Point(x, y)), color);
      var k := 0;
      while k < |text|
        invariant 0 <= k <= |text|
        invariant Valid()
        invariant PlotAll(pixels, width, height, TextFrom(glyphOf, x, text[k..], Point(cursorX, cursorY)), color) == target
      {
        var ch := text[k];
        if ch == '\n' {
          TextFromNewline(glyphOf, x, text, k, Point(cursorX, cursorY));
          cursorX := x;
          cursorY := cursorY + LineHeight;
          k := k + 1;
          continue;
        }
        TextFromGlyph(glyphOf, x, text, k, Point(cursorX, cursorY));
        ghost var rest := TextFrom(glyphOf, x, text[k + 1..], Point(cursorX + Advance, cursorY));
        var glyph := glyphOf(ch);
        PlotAllAppend(pixels, width, height, GlyphRows(glyph, 0, cursorX, cursorY), rest, color);
        DrawGlyph(glyph, cursorX, cursorY, color);
        cursorX := cursorX + Advance;
        k := k + 1;
      }
    }

    /** The row and column loops of `draw_text` for one glyph: `set_pixel` at every `#`. */
    method DrawGlyph(glyph: Glyph, cursorX: int, cursorY: int, color: Color)
      requires Valid()
      modifies this
      ensures Valid()
      ensures pixels == PlotAll(old(pixels), width, height, GlyphPoints(glyph, cursorX, cursorY), color)
    {
      ghost var target := PlotAll(pixels, width, height, GlyphRows(glyph, 0, cursorX, cursorY), color);
      var rowIdx := 0;
      while rowIdx < |glyph|
        invariant 0 <= rowIdx <= |glyph|
        invariant Valid()
        invariant PlotAll(pixels, width, height, GlyphRows(glyph, rowIdx, cursorX, cursorY), color) == target
      {
        GlyphRowsCons(glyph, rowIdx, cursorX, cursorY, []);
        assert GlyphRows(glyph, rowIdx, cursorX, cursorY) + [] == GlyphRows(glyph, rowIdx, cursorX, cursorY);
        assert GlyphRows(glyph, rowIdx + 1, cursorX, cursorY) + [] == GlyphRows(glyph, rowIdx + 1, cursorX, cursorY);
        PlotAllAppend(pixels, width, height, RowPoints(glyph[rowIdx], 0, cursorX, cursorY + rowIdx),
          GlyphRows(glyph, rowIdx + 1, cursorX, cursorY), color);
        DrawGlyphRow(glyph[rowIdx], cursorX, cursorY + rowIdx, color);
        rowIdx := rowIdx + 1;
      }
    }

    /** The column loop of `draw_text` for one glyph row: `set_pixel` at every `#`, left to right. */
    method DrawGlyphRow(pattern: string, cursorX: int, y: int, color: Color)
      requires Valid()
      modifies this
      ensures Valid()
      ensures pixels == PlotAll(old(pixels), width, height, RowPoints(pattern, 0, cursorX, y), color)
    {
      ghost var target := PlotAll(pixels, width, height, RowPoints(pattern, 0, cursorX, y), color);
      var colIdx := 0;
      while colIdx < |pattern|
        invariant 0 <= colIdx <= |pattern|
        invariant Valid()
        invariant PlotAll(pixels, width, height, RowPoints(pattern, colIdx, cursorX, y), color) == target
      {
        ghost var after := RowPoints(pattern, colIdx + 1, cursorX, y);
        RowPointsCons(pattern, colIdx, cursorX, y, []);
        assert RowPoints(pattern, colIdx, cursorX, y) + [] == RowPoints(pattern, colIdx, cursorX, y) && after + [] == after;
        if pattern[colIdx] == '#' {
          PlotAllCons(pixels, width, height, Point(cursorX + colIdx, y), after, color);
          SetPixel(cursorX + colIdx, y, color);
        } else {
          assert RowPoints(pattern, colIdx, cursorX, y) == after;
        }
        colIdx := colIdx + 1;
      }
    }
  }
}
