/**
 * The 5x7 bitmap font of the figure renderer and the layout of `Canvas.draw_text`:
 * which points a string of text writes, character by character.
 */
module Font {
  import opened Raster

  type Glyph = seq<string>

  /** `FONT_DATA`: upper-case letters, digits, '?', '-' and space; `#` marks a set pixel. */
  const FontData: map<char, Glyph> :=
    map[
      'A' := ["  #  ", " # # ", "#   #", "#####", "#   #", "#   #", "#   #"],
      'B' := ["#### ", "#   #", "#   #", "#### ", "#   #", "#   #", "#### "],
      'C' := [" ####", "#    ", "#    ", "#    ", "#    ", "#    ", " ####"],
      'D' := ["#### ", "#   #", "#   #", "#   #", "#   #", "#   #", "#### "],
      'E' := ["#####", "#    ", "#    ", "#### ", "#    ", "#    ", "#####"],
      'F' := ["#####", "#    ", "#    ", "#### ", "#    ", "#    ", "#    "],
      'G' := [" ####", "#    ", "#    ", "#  ##", "#   #", "#   #", " ####"],
      'H' := ["#   #", "#   #", "#   #", "#####", "#   #", "#   #", "#   #"],
      'I' := [" ### ", "  #  ", "  #  ", "  #  ", "  #  ", "  #  ", " ### "],
      'J' := ["  ###", "   #", "   #", "   #", "#  #", "#  #", " ## "],
      'K' := ["#   #", "#  # ", "# #  ", "##   ", "# #  ", "#  # ", "#   #"],
      'L' := ["#    ", "#    ", "#    ", "#    ", "#    ", "#    ", "#####"],
      'M' := ["#   #", "## ##", "# # #", "#   #", "#   #", "#   #", "#   #"],
      'N' := ["#   #", "##  #", "##  #", "# # #", "#  ##", "#  ##", "#   #"],
      'O' := [" ### ", "#   #", "#   #", "#   #", "#   #", "#   #", " ### "],
      'P' := ["#### ", "#   #", "#   #", "#### ", "#    ", "#    ", "#    "],
      'Q' := [" ### ", "#   #", "#   #", "#   #", "# # #", "#  ##", " ####"],
      'R' := ["#### ", "#   #", "#   #", "#### ", "# #  ", "#  # ", "#   #"],
      'S' := [" ####", "#    ", "#    ", " ### ", "    #", "    #", "#### "],
      'T' := ["#####", "  #  ", "  #  ", "  #  ", "  #  ", "  #  ", "  #  "],
      'U' := ["#   #", "#   #", "#   #", "#   #", "#   #", "#   #", " ### "],
      'V' := ["#   #", "#   #", "#   #", "#   #", "#   #", " # # ", "  #  "],
      'W' := ["#   #", "#   #", "#   #", "# # #", "# # #", "## ##", "#   #"],
      'X' := ["#   #", "#   #", " # # ", "  #  ", " # # ", "#   #", "#   #"],
      'Y' := ["#   #", "#   #", " # # ", "  #  ", "  #  ", "  #  ", "  #  "],
      'Z' := ["#####", "    #", "   # ", "  #  ", " #   ", "#    ", "#####"],
      '0' := [" ### ", "#  ##", "# # #", "# # #", "##  #", "#   #", " ### "],
      '1' := ["  #  ", " ##  ", "# #  ", "  #  ", "  #  ", "  #  ", "#####"],
      '2' := [" ### ", "#   #", "    #", "   # ", "  #  ", " #   ", "#####"],
      '3' := [" ### ", "#   #", "    #", "  ## ", "    #", "#   #", " ### "],
      '4' := ["   # ", "  ## ", " # # ", "#  # ", "#####", "   # ", "   # "],
      '5' := ["#####", "#    ", "#    ", "#### ", "    #", "#   #", " ### "],
      '6' := [" ### ", "#    ", "#    ", "#### ", "#   #", "#   #", " ### "],
      '7' := ["#####", "    #", "   # ", "   # ", "  #  ", "  #  ", "  #  "],
      '8' := [" ### ", "#   #", "#   #", " ### ", "#   #", "#   #", " ### "],
      '9' := [" ### ", "#   #", "#   #", " ####", "    #", "    #", " ### "],
      '?' := [" ### ", "#   #", "    #", "   # ", "  #  ", "     ", "  #  "],
      '-' := ["     ", "     ", "     ", "#####", "     ", "     ", "     "],
      ' ' := ["     ", "     ", "     ", "     ", "     ", "     ", "     "]
    ]

  /** `DEFAULT_CHAR`: the glyph used for characters the font does not have. */
  const DefaultChar: char := '?'

  /** Horizontal cursor advance per character and vertical advance per newline. */
  const Advance: int := 6
  const LineHeight: int := 9

  /** `ch.upper()` for ASCII: lower-case letters map to upper case, all else is unchanged. */
  function Upper(ch: char): (u: char)
    ensures 'a' <= ch <= 'z' ==> 'A' <= u <= 'Z' && u as int == ch as int - 32
    ensures !('a' <= ch <= 'z') ==> u == ch
  {
    if 'a' <= ch <= 'z' then (ch as int - 32) as char else ch
  }

  /** `FONT_DATA.get(ch.upper(), FONT_DATA[DEFAULT_CHAR])`. */
  function GlyphFor(ch: char): (g: Glyph)
    ensures g in FontData.Values
  {
    if Upper(ch) in FontData then FontData[Upper(ch)] else FontData[DefaultChar]
  }

  /** Whether glyph row `row`, column `col` is a set pixel; columns end where the row's string ends. */
  predicate Lit(glyph: Glyph, col: int, row: int)
  {
    0 <= row < |glyph| && 0 <= col < |glyph[row]| && glyph[row][col] == '#'
  }

  /** The set pixels of columns `col..` of one glyph row drawn at (cx, cy), left to right. */
  function RowPoints(pattern: string, col: nat, cx: int, cy: int): seq<Point>
    decreases |pattern| - col
  {
    if col >= |pattern| then []
    else (if pattern[col] == '#' then [Point(cx + col, cy)] else []) + RowPoints(pattern, col + 1, cx, cy)
  }

  /** A row writes exactly its `#` columns from `col` on, all on line `cy`. */
  lemma {:induction false} RowPointsMembers(pattern: string, col: nat, cx: int, cy: int)
    ensures forall p :: p in RowPoints(pattern, col, cx, cy) <==>
      p.y == cy && col <= p.x - cx < |pattern| && pattern[p.x - cx] == '#'
    decreases |pattern| - col
  {
    if col < |pattern| {
      RowPointsMembers(pattern, col + 1, cx, cy);
    }
  }

  /** The set pixels of rows `row..` of a glyph with its top-left corner at (cx, cy), row by row. */
  function GlyphRows(glyph: Glyph, row: nat, cx: int, cy: int): seq<Point>
    decreases |glyph| - row
  {
    if row >= |glyph| then []
    else RowPoints(glyph[row], 0, cx, cy + row) + GlyphRows(glyph, row + 1, cx, cy)
  }

  /** Rows `row..` of a glyph write exactly their lit cells. */
  lemma {:induction false} GlyphRowsMembers(glyph: Glyph, row: nat, cx: int, cy: int)
    ensures forall p :: p in GlyphRows(glyph, row, cx, cy) <==> row <= p.y - cy && Lit(glyph, p.x - cx, p.y - cy)
    decreases |glyph| - row
  {
    if row < |glyph| {
      RowPointsMembers(glyph[row], 0, cx, cy + row);
      GlyphRowsMembers(glyph, row + 1, cx, cy);
    }
  }

  /** The pixels one glyph sets when drawn at (cx, cy), row by row. */
  function GlyphPoints(glyph: Glyph, cx: int, cy: int): seq<Point>
  {
    GlyphRows(glyph, 0, cx, cy)
  }

  /** A glyph drawn at (cx, cy) writes exactly its `#` cells. */
  lemma GlyphPointsMembers(glyph: Glyph, cx: int, cy: int)
    ensures forall p :: p in GlyphPoints(glyph, cx, cy) <==> Lit(glyph, p.x - cx, p.y - cy)
  {
    GlyphRowsMembers(glyph, 0, cx, cy);
  }

  /** The cursor after one character: a newline returns to column `x` one line down, anything else advances. */
  function Step(x: int, cursor: Point, ch: char): Point
  {
    if ch == '\n' then Point(x, cursor.y + LineHeight) else Point(cursor.x + Advance, cursor.y)
  }

  /** The cursor after a run of characters, starting from `cursor`. */
  function CursorAfter(x: int, cursor: Point, text: string): Point
    decreases |text|
  {
    if text == [] then cursor else CursorAfter(x, Step(x, cursor, text[0]), text[1..])
  }

  /**
   * The points `draw_text` writes for `text` from `cursor` on, in drawing order,
   * with `glyphOf` as the character-to-glyph lookup.
   */
  function TextFrom(glyphOf: char -> Glyph, x: int, text: string, cursor: Point): seq<Point>
    decreases |text|
  {
    if text == [] then []
    else if text[0] == '\n' then TextFrom(glyphOf, x, text[1..], Step(x, cursor, text[0]))
    else GlyphPoints(glyphOf(text[0]), cursor.x, cursor.y) + TextFrom(glyphOf, x, text[1..], Step(x, cursor, text[0]))
  }

  /** A row with columns left starts with its first column's point, if that column is lit. */
  lemma RowPointsCons(pattern: string, col: nat, cx: int, cy: int, tail: seq<Point>)
    requires col < |pattern|
    ensures RowPoints(pattern, col, cx, cy) + tail
         == (if pattern[col] == '#' then [Point(cx + col, cy)] else []) + (RowPoints(pattern, col + 1, cx, cy) + tail)
  {
  }

  /** A glyph with rows left starts with the points of its next row. */
  lemma GlyphRowsCons(glyph: Glyph, row: nat, cx: int, cy: int, tail: seq<Point>)
    requires row < |glyph|
    ensures GlyphRows(glyph, row, cx, cy) + tail
         == RowPoints(glyph[row], 0, cx, cy + row) + (GlyphRows(glyph, row + 1, cx, cy) + tail)
  {
  }

  /** A newline at position `k` draws nothing and moves the cursor to the start of the next line. */
  lemma TextFromNewline(glyphOf: char -> Glyph, x: int, text: string, k: nat, cursor: Point)
    requires k < |text| && text[k] == '\n'
    ensures TextFrom(glyphOf, x, text[k..], cursor) == TextFrom(glyphOf, x, text[k + 1..], Point(x, cursor.y + LineHeight))
  {
    assert text[k..][0] == text[k] && text[k..][1..] == text[k + 1..];
  }

  /** Any other character at position `k` draws its glyph at the cursor, then the rest one cell right. */
  lemma TextFromGlyph(glyphOf: char -> Glyph, x: int, text: string, k: nat, cursor: Point)
    requires k < |text| && text[k] != '\n'
    ensures TextFrom(glyphOf, x, text[k..], cursor)
         == GlyphRows(glyphOf(text[k]), 0, cursor.x, cursor.y) + TextFrom(glyphOf, x, text[k + 1..], Point(cursor.x + Advance, cursor.y))
  {
    assert text[k..][0] == text[k] && text[k..][1..] == text[k + 1..];
  }

  /** The points `draw_text(x, y, text)` writes, in drawing order, with the font's lookup. */
  function TextPoints(x: int, y: int, text: string): seq<Point>
  {
    TextFrom(GlyphFor, x, text, Point(x, y))
  }

  /** Reading one more character moves the cursor by that character's step. */
  lemma {:induction false} CursorSnoc(x: int, cursor: Point, text: string, ch: char)
    ensures CursorAfter(x, cursor, text + [ch]) == Step(x, CursorAfter(x, cursor, text), ch)
    decreases |text|
  {
    if text == [] {
      assert text + [ch] == [ch];
    } else {
      assert (text + [ch])[1..] == text[1..] + [ch];
      CursorSnoc(x, Step(x, cursor, text[0]), text[1..], ch);
    }
  }

  /**
   * Cursor movement of `draw_text`: every character other than a newline moves
   * the cursor 6 pixels right on the same line; a newline puts it back at the
   * starting column `x`, 9 pixels down.
   */
  lemma CursorMoves(x: int, y: int, text: string, ch: char)
    ensures var before := CursorAfter(x, Point(x, y), text);
      var after := CursorAfter(x, Point(x, y), text + [ch]);
      (ch == '\n' ==> after == Point(x, before.y + 9)) &&
      (ch != '\n' ==> after == Point(before.x + 6, before.y))
  {
    CursorSnoc(x, Point(x, y), text, ch);
  }

  /** On a single line the n-th character is drawn 6n pixels right of the start. */
  lemma {:induction false} CursorOneLine(x: int, cursor: Point, text: string)
    requires forall i :: 0 <= i < |text| ==> text[i] != '\n'
    ensures CursorAfter(x, cursor, text) == Point(cursor.x + 6 * |text|, cursor.y)
    decreases |text|
  {
    if text != [] {
      CursorOneLine(x, Step(x, cursor, text[0]), text[1..]);
    }
  }

  /**
   * Character `i` of `text` is not a newline and its glyph, drawn at the cursor
   * reached after the characters before it, has a `#` at `p`.
   */
  predicate DrawnBy(glyphOf: char -> Glyph, x: int, text: string, cursor: Point, i: int, p: Point)
  {
    0 <= i < |text| && text[i] != '\n' &&
    var at := CursorAfter(x, cursor, text[..i]);
    Lit(glyphOf(text[i]), p.x - at.x, p.y - at.y)
  }

  /** Character `i + 1` of a text is character `i` of its tail, drawn from the cursor after the head. */
  lemma DrawnByTail(glyphOf: char -> Glyph, x: int, text: string, cursor: Point, i: int, p: Point)
    requires text != [] && 0 <= i
    ensures DrawnBy(glyphOf, x, text, cursor, i + 1, p)
        <==> DrawnBy(glyphOf, x, text[1..], Step(x, cursor, text[0]), i, p)
  {
    if i + 1 < |text| {
      var next := Step(x, cursor, text[0]);
      var pre := text[..i + 1];
      assert pre[0] == text[0] && pre[1..] == text[1..][..i];
      assert CursorAfter(x, cursor, pre) == CursorAfter(x, next, text[1..][..i]);
      assert text[1..][i] == text[i + 1];
    }
  }

  /** Character 0 is drawn at the starting cursor itself. */
  lemma DrawnByHead(glyphOf: char -> Glyph, x: int, text: string, cursor: Point, p: Point)
    requires text != [] && text[0] != '\n'
    ensures DrawnBy(glyphOf, x, text, cursor, 0, p) <==> p in GlyphPoints(glyphOf(text[0]), cursor.x, cursor.y)
  {
    assert text[..0] == [];
    GlyphPointsMembers(glyphOf(text[0]), cursor.x, cursor.y);
  }

  /**
   * A point is written by `draw_text` exactly when some non-newline character of
   * the text has a `#` there, in the glyph drawn at the cursor reached after the
   * characters before it.
   */
  lemma {:induction false} TextFromPoints(glyphOf: char -> Glyph, x: int, text: string, cursor: Point, p: Point)
    ensures p in TextFrom(glyphOf, x, text, cursor) <==> exists i :: DrawnBy(glyphOf, x, text, cursor, i, p)
    decreases |text|
  {
    if text != [] {
      var next := Step(x, cursor, text[0]);
      var head := if text[0] == '\n' then [] else GlyphPoints(glyphOf(text[0]), cursor.x, cursor.y);
      var tail := TextFrom(glyphOf, x, text[1..], next);
      assert TextFrom(glyphOf, x, text, cursor) == head + tail;
      TextFromPoints(glyphOf, x, text[1..], next, p);
      if text[0] != '\n' {
        DrawnByHead(glyphOf, x, text, cursor, p);
      }
      if p in head {
        assert DrawnBy(glyphOf, x, text, cursor, 0, p);
      } else if p in tail {
        var i :| DrawnBy(glyphOf, x, text[1..], next, i, p);
        DrawnByTail(glyphOf, x, text, cursor, i, p);
        assert DrawnBy(glyphOf, x, text, cursor, i + 1, p);
      }
      if i :| DrawnBy(glyphOf, x, text, cursor, i, p) {
        if i > 0 {
          DrawnByTail(glyphOf, x, text, cursor, i - 1, p);
          assert p in tail;
        } else {
          assert p in head;
        }
      }
    }
  }

  /** `TextFromPoints` from the starting point of `draw_text(x, y, text)`, with the font's glyphs. */
  lemma TextPixels(x: int, y: int, text: string, p: Point)
    ensures p in TextPoints(x, y, text) <==> exists i :: DrawnBy(GlyphFor, x, text, Point(x, y), i, p)
  {
    TextFromPoints(GlyphFor, x, text, Point(x, y), p);
  }

  /** Every glyph is 7 rows of at most 5 columns, so a character fits the 6x9 cell it advances by. */
  lemma GlyphShape(ch: char)
    ensures |GlyphFor(ch)| == 7
    ensures forall row :: 0 <= row < 7 ==> |GlyphFor(ch)[row]| <= 5
  {
  }

  /** A glyph drawn at (cx, cy) only writes inside the box [cx, cx + 5) x [cy, cy + 7). */
  lemma GlyphInCell(ch: char, cx: int, cy: int)
    ensures forall p :: p in GlyphPoints(GlyphFor(ch), cx, cy) ==>
      cx <= p.x < cx + 5 && cy <= p.y < cy + 7
  {
    GlyphShape(ch);
    GlyphPointsMembers(GlyphFor(ch), cx, cy);
  }

  /** Lookup ignores letter case: a lower-case letter draws its upper-case glyph. */
  lemma LowerCaseLetters(ch: char)
    requires 'a' <= ch <= 'z'
    ensures Upper(ch) in FontData && GlyphFor(ch) == FontData[Upper(ch)]
  {
  }

  /** A character the font does not know, after upper-casing, draws the '?' glyph. */
  lemma UnknownCharacters(ch: char)
    requires !('A' <= ch <= 'Z') && !('a' <= ch <= 'z') && !('0' <= ch <= '9')
    requires ch != '?' && ch != '-' && ch != ' '
    ensures GlyphFor(ch) == GlyphFor('?')
  {
  }
}
