# Verified model of the figure renderer and the Sigma rule linter

This project is a Dafny model of two parts of a small incident-postmortem
repository.

**The figure renderer** (`figures/generate_figures.py`) draws diagrams into an
in-memory RGB canvas. It then writes the canvas as a PNG file with no imaging
library.

- `Canvas` is a class whose `pixels` field holds `height` rows of `3 * width`
  bytes.
- Its drawing methods are:
  - `SetPixel`: a clipped single-pixel write;
  - `FillRect`: a normalised, clamped, inclusive rectangle fill;
  - `DrawLine`: an integer Bresenham walk over all octants;
  - `DrawRect`: four lines;
  - `DrawText`: 5x7 glyphs from the font table, 6 pixels of advance and 9 pixels of line step.
- `SetPixel` is proved to leave `pixels` equal to `WritePixel` of the old
  grid, which is `PlotAll` of the one-point list (`WritePixelIsPlot`). Each
  other drawing method is proved to leave `pixels` equal to the old grid with
  a described list of points plotted in order, by `PlotAll` in module `Raster`.
- The point lists are defined in modules `Bresenham`, `Shapes` and `Font`.
  Lemmas there state exactly which pixels each list covers.
- The PNG writer (module `Png`) is modelled as pure functions:
  - scanlines with filter type 0 (section 6 of RFC 2083);
  - the 8-byte signature (section 3.1 of RFC 2083);
  - the IHDR payload (section 4.1.1 of RFC 2083);
  - chunk framing with a CRC-32 over the tag and payload (sections 3.2 and 3.4 of RFC 2083).
- CRC-32 is defined bit by bit in module `Crc32`, following section 15 of RFC 2083.
- The compressor is a function parameter.
- A strict reader for exactly this layout is the writer's partner. Decoding
  the written bytes with a matching decompressor gives back the width, the
  height and every pixel byte.

**The Sigma linter** (`tools/lint_sigma.py`) checks the structure of
already-parsed Sigma detection rules.

- `Sigma.Validate` is `validate_sigma_file` over a loaded YAML value, a datatype.
- The result is one of three things:
  - acceptance;
  - the first failing check's error;
  - the `TypeError` that Python raises when `in` is applied to a scalar.
- `Lint.LintAll` is the loop of `main`. It collects one error per rejected
  file and returns 1 when it collected any, else 0.
- A `TypeError` escapes `main` uncaught. The model calls this outcome `Crashed`.

One point where the code is more permissive than its docstring suggests is
modelled as the code behaves. Inside a `sequence` stage,
`"condition" not in stage["detection"]` is Python's general `in`. It tests keys
for a mapping, elements for a list and substrings for a string. Any other value
(null, a number, a boolean) raises `TypeError`. Outside a sequence, by contrast,
`detection` must be a mapping with a `condition` key.

Modules and files: `bytes.dfy` (Bytes), `raster.dfy` (Raster),
`bresenham.dfy` (Bresenham), `shapes.dfy` (Shapes), `font.dfy` (Font),
`canvas.dfy` (Figures), `crc32.dfy` (Crc32), `png.dfy` (Png),
`sigma.dfy` (Sigma), `lint.dfy` (Lint), `wrappers.dfy` (Wrappers, the shared
`Option` type).

## Model

| member | source | states |
|---|---|---|
| Figures.Canvas.constructor | figures/generate_figures.py:73-79 | the new canvas has the given size and its grid is `Filled`: `height` rows of `3 * width` bytes, every pixel the background colour (white when `bg` is not given) |
| Raster.Filled | figures/generate_figures.py:75-79 | the filled grid has the canvas shape and every in-bounds pixel equals the background colour |
| Raster.SolidRow | figures/generate_figures.py:75-77 | a row of `n` pixels has `3n` bytes and byte `i` is channel `i mod 3` of the colour |
| Raster.Channels | figures/generate_figures.py:84 | `bytes(color)` is three bytes: red, green, blue |
| Figures.Canvas.SetPixel | figures/generate_figures.py:81-84 | the new grid is `WritePixel` of the old one at (x, y), and the shape invariant is kept |
| Raster.WritePixel | figures/generate_figures.py:81-84 | a clipped write keeps the grid shape and leaves the grid unchanged when the point is off the canvas |
| Raster.WritePixelBytes | figures/generate_figures.py:82-84 | byte by byte: on the canvas, bytes `3x .. 3x+2` of row `y` become red, green and blue, and every other byte of every row keeps its value; off the canvas no byte changes |
| Raster.WritePixelEffect | figures/generate_figures.py:81-84 | after a write, pixel (x, y) has the colour when it is on the canvas, and every other pixel keeps its colour |
| Raster.WritePixelIsPlot | figures/generate_figures.py:81-84 | one `set_pixel` call is plotting the one-point list |
| Raster.PlotAll | figures/generate_figures.py:81-84 | plotting a list of points in order keeps the grid shape |
| Raster.PlotAllEffect | figures/generate_figures.py:81-84 | after plotting a list, a pixel has the colour exactly when the list contains it, and otherwise keeps its old colour |
| Raster.PlotAllAppend | figures/generate_figures.py:97-101 | plotting two lists one after the other is plotting their concatenation |
| Raster.PlotAllIdempotent | figures/generate_figures.py:86-95 | plotting the same points in the same colour twice gives the same grid as plotting them once |
| Raster.GridExt | figures/generate_figures.py:78-79 | two grids of the canvas shape that agree on every pixel are equal |
| Figures.Canvas.FillRect | figures/generate_figures.py:86-95 | the new grid is the old grid with `FillArea` plotted: the corners normalised with min/max and clamped to the canvas, rows top to bottom, columns left to right |
| Shapes.FillArea | figures/generate_figures.py:87-95 | the points `fill_rect` writes: `lx = max(0, min(x0, x1))`, `hx = min(width - 1, max(x0, x1))` and likewise for rows, rows top to bottom, columns left to right (its meaning is stated by `FillPixels`) |
| Figures.Canvas.FillRow | figures/generate_figures.py:92-95 | the column loop for one row: the new grid is the old one with columns `lx..hx` of row `y` plotted, left to right |
| Shapes.SpanMembers | figures/generate_figures.py:93-95 | one row of the fill covers exactly columns `lx..hx` of that row |
| Shapes.BlockMembers | figures/generate_figures.py:91-95 | the fill's point list covers exactly `[lx, hx] x [ly, hy]`, both ends inclusive |
| Shapes.FillPixels | figures/generate_figures.py:86-95 | after `fill_rect`, exactly the canvas pixels inside the rectangle spanned by the two corners (in either order) have the colour, and every other pixel is unchanged |
| Shapes.FillIdempotent | figures/generate_figures.py:86-95 | filling the same rectangle twice gives the grid of filling it once |
| Figures.Canvas.DrawLine | figures/generate_figures.py:103-120 | the loop terminates, and the new grid is the old one with `Path(x0, y0, x1, y1)` plotted in order |
| Bresenham.PathFrom | figures/generate_figures.py:110-120 | the walk from any reachable state starts at that state's point and ends at (x1, y1) |
| Bresenham.Path | figures/generate_figures.py:103-120 | the line's first plotted point is (x0, y0) and its last is (x1, y1) |
| Bresenham.ErrStep | figures/generate_figures.py:114-120 | a step along x adds `dy` to the error term, a step along y adds `dx` |
| Bresenham.StepStays | figures/generate_figures.py:114-120 | away from the end point, a step moves at least one coordinate and never moves past the end on either axis, which makes the loop terminate |
| Bresenham.StepAdjacent | figures/generate_figures.py:114-120 | a step changes x and y by at most one each and always changes the point |
| Bresenham.PathFromSteps | figures/generate_figures.py:110-120 | consecutive plotted points are distinct 8-neighbours |
| Bresenham.PathFromInBox | figures/generate_figures.py:110-120 | every plotted point lies in the bounding box of the two end points |
| Bresenham.TracksStep | figures/generate_figures.py:114-120 | the error term stays within the major-axis bound from step to step |
| Bresenham.PathFromMajor | figures/generate_figures.py:110-120 | the walk moves along the major axis on every step, so its length is the remaining major-axis distance plus one |
| Bresenham.PathLength | figures/generate_figures.py:103-120 | the line plots exactly `max(abs(x1-x0), abs(y1-y0)) + 1` points, all distinct, the k-th at major-axis offset k |
| Bresenham.PathShape | figures/generate_figures.py:103-120 | the path has no gaps and stays inside the end points' bounding box |
| Bresenham.AxisAligned | figures/generate_figures.py:103-120 | a horizontal line stays on its row, a vertical one on its column, between the two ends |
| Bresenham.AxisAlignedCover | figures/generate_figures.py:103-120 | a horizontal line covers exactly the columns between its ends on its row, and a vertical one exactly the rows |
| Bresenham.HorizontalPath | figures/generate_figures.py:103-120 | a left-to-right horizontal line plots (x0 + k, y0) for k = 0 .. x1 - x0 |
| Bresenham.DiagonalPath | figures/generate_figures.py:103-120 | a down-right 45-degree line plots (x0 + k, y0 + k) for every k |
| Bresenham.HorizontalExample | figures/generate_figures.py:103-120 | `draw_line(x, y, x + 4, y)` plots (x, y), (x + 1, y), ..., (x + 4, y), in that order |
| Bresenham.DiagonalExample | figures/generate_figures.py:103-120 | `draw_line(0, 0, 4, 4)` plots (0,0), (1,1), (2,2), (3,3), (4,4) |
| Figures.Canvas.DrawRect | figures/generate_figures.py:97-101 | the new grid is the old one with the top, bottom, left and right edge lines plotted, in that order |
| Shapes.Outline | figures/generate_figures.py:98-101 | the points `draw_rect` writes: the top, bottom, left and right lines in that order (its meaning is stated by `OutlineIsBorder`) |
| Shapes.OutlineIsBorder | figures/generate_figures.py:97-101 | the four edges cover exactly the border points of the rectangle spanned by the corners |
| Shapes.OutlinePixels | figures/generate_figures.py:97-101 | after `draw_rect`, exactly the canvas pixels on the rectangle's border have the colour; interior and outside pixels are unchanged |
| Figures.Canvas.DrawText | figures/generate_figures.py:122-135 | the new grid is the old one with `TextPoints(x, y, text)` plotted, using the font lookup |
| Figures.Canvas.DrawTextWith | figures/generate_figures.py:122-135 | the character loop, for any glyph lookup: the new grid is the old one with `TextFrom` plotted |
| Figures.Canvas.DrawGlyph | figures/generate_figures.py:131-134 | the row and column loops: the new grid is the old one with the glyph's `#` cells at the cursor plotted, row by row |
| Figures.Canvas.DrawGlyphRow | figures/generate_figures.py:132-134 | the column loop for one glyph row: the new grid is the old one with the row's `#` cells plotted, left to right |
| Font.FontData | figures/generate_figures.py:27-67 | the 39-glyph table, each glyph 7 strings over `#` and space (its shape is stated by `GlyphShape`) |
| Font.DefaultChar | figures/generate_figures.py:69 | the fallback key `?` (its use is stated by `UnknownCharacters`) |
| Font.Upper | figures/generate_figures.py:130 | ASCII upper-casing: lower-case letters move to upper case and every other character is unchanged |
| Font.GlyphFor | figures/generate_figures.py:130 | the lookup always yields one of the font's glyphs |
| Font.RowPoints | figures/generate_figures.py:132-134 | the points of one glyph row, left to right (its meaning is stated by `RowPointsMembers`) |
| Font.GlyphRows | figures/generate_figures.py:131-134 | the points of the remaining glyph rows, top to bottom (its meaning is stated by `GlyphRowsMembers`) |
| Font.RowPointsMembers | figures/generate_figures.py:132-134 | one glyph row sets exactly its `#` columns, within the row string's own length |
| Font.GlyphRowsMembers | figures/generate_figures.py:131-134 | the remaining rows of a glyph set exactly their lit cells |
| Font.GlyphPointsMembers | figures/generate_figures.py:131-134 | a glyph drawn at the cursor sets exactly its `#` cells |
| Font.TextFrom | figures/generate_figures.py:125-135 | the points the character loop writes from a cursor, in drawing order (its meaning is stated by `TextFromPoints` and `CursorMoves`) |
| Font.TextPoints | figures/generate_figures.py:122-135 | `TextFrom` from (x, y) with the font's lookup (its meaning is stated by `TextPixels`) |
| Font.CursorSnoc | figures/generate_figures.py:124-135 | the cursor after one more character is that character's step from the previous cursor |
| Font.CursorMoves | figures/generate_figures.py:124-135 | a non-newline character advances the cursor 6 pixels on the same line; a newline resets it to `x` and 9 pixels down |
| Font.CursorOneLine | figures/generate_figures.py:124-135 | on a single line, the n-th character is drawn 6n pixels right of the start |
| Font.TextFromPoints | figures/generate_figures.py:124-135 | a point is drawn exactly when some non-newline character's glyph, placed at the cursor reached before that character, has a `#` there |
| Font.TextPixels | figures/generate_figures.py:122-135 | the same, from the start point of `draw_text(x, y, text)` and with the font's lookup |
| Font.GlyphShape | figures/generate_figures.py:27-67 | every glyph has 7 rows, and no row is longer than 5 characters |
| Font.GlyphInCell | figures/generate_figures.py:27-67 | a glyph only sets pixels in the 5x7 box at the cursor |
| Font.LowerCaseLetters | figures/generate_figures.py:130 | a lower-case letter is drawn with its upper-case glyph |
| Font.UnknownCharacters | figures/generate_figures.py:130 | a character the font lacks, even after upper-casing, is drawn with the `?` glyph |
| Bytes.BE32 | figures/generate_figures.py:143 | `struct.pack(">I", n)` is 4 bytes that read back as `n` |
| Bytes.FromBE32 | figures/generate_figures.py:143 | reading 4 big-endian bytes gives a number below 2^32 |
| Bytes.BE32Inverse | figures/generate_figures.py:143 | 4 bytes are the encoding of the number they read as, so the encoding is a bijection |
| Crc32.Checksum | figures/generate_figures.py:143 | the checksum is an unsigned 32-bit value |
| Crc32.UpdateAppend | figures/generate_figures.py:143 | the CRC register can be fed in pieces: updating with `a + b` is updating with `a`, then with `b` |
| Crc32.CheckValue | figures/generate_figures.py:143 | the checksum of the ASCII digits "123456789" is 0xCBF43926, the standard check value |
| Crc32.EndChunkChecksum | figures/generate_figures.py:150 | the CRC of the empty IEND chunk is 0xAE426082 |
| Png.Scanlines | figures/generate_figures.py:139 | the raw stream of a non-empty grid starts with filter byte 0 |
| Png.ScanlinesLength | figures/generate_figures.py:139 | the raw stream is `height * (1 + 3 * width)` bytes long |
| Png.ScanlineAt | figures/generate_figures.py:139 | row `y` sits at offset `y * (1 + 3 * width)`: a 0 filter byte, then exactly that row's bytes |
| Png.Frame | figures/generate_figures.py:142-143 | a chunk is 12 bytes longer than its payload |
| Png.FrameRoundTrip | figures/generate_figures.py:142-143 | reading a framed chunk gives back its tag, its payload and the bytes after it, and its CRC verifies |
| Png.Header | figures/generate_figures.py:145 | the IHDR payload is 13 bytes |
| Png.HeaderRoundTrip | figures/generate_figures.py:145 | the IHDR payload reads back as the width and height, with bit depth 8, colour type 2 and methods 0, 0, 0 |
| Png.Stream | figures/generate_figures.py:146-151 | the stream is `57 + len(idat)` bytes and starts with the PNG signature |
| Png.Encode | figures/generate_figures.py:138-151 | the writer succeeds exactly when width, height and compressed length fit in 32 bits; the output then has the length above and starts with the signature |
| Png.EncodeChunks | figures/generate_figures.py:146-151 | after the signature the output is exactly three chunks, IHDR, IDAT (the compressed scanlines) and an empty IEND, in that order, each with a verifying CRC |
| Png.UnfilterScanlines | figures/generate_figures.py:139 | splitting the raw stream into filter-0 scanlines gives back the grid's rows |
| Png.EncodeDecode | figures/generate_figures.py:138-151 | round trip: given a decompressor that inverts the compressor on the raw stream, decoding the output recovers the width, the height and every pixel |
| Sigma.In | tools/lint_sigma.py:55 | Python's `in` raises `TypeError` exactly when the container is not a mapping, list or string |
| Sigma.Validate | tools/lint_sigma.py:29-35 | a YAML error is reported as a parse error, and a non-mapping top level is rejected before any other check |
| Sigma.Missing | tools/lint_sigma.py:37-38 | `sorted(required_keys - data.keys())` (its meaning is stated by `MissingKeysSorted`) |
| Sigma.Truthy | tools/lint_sigma.py:66 | Python truthiness: null, false, 0 and empty strings, lists and mappings are falsy (used by `TagsCheckedLast`) |
| Sigma.MissingFromExact | tools/lint_sigma.py:37-38 | a key is listed exactly when it is required and absent from the mapping |
| Sigma.MissingFromSorted | tools/lint_sigma.py:38 | filtering a strictly sorted key list keeps it strictly sorted |
| Sigma.MissingKeysSorted | tools/lint_sigma.py:37-40 | the missing-keys error lists exactly the absent keys among `title`, `id`, `status`, `level`, each once, in sorted order |
| Sigma.MissingEmpty | tools/lint_sigma.py:37-39 | nothing is listed exactly when all four required keys are present |
| Sigma.MissingKeysFirst | tools/lint_sigma.py:37-40 | a mapping is rejected for missing keys exactly when one is absent, and the error carries exactly the sorted missing list |
| Sigma.StageVerdict | tools/lint_sigma.py:49-56 | one stage's checks in source order: mapping, `logsource`, `detection`, then `in` for "condition" (stated through `StagesAccepted` and `ValidateRaises`) |
| Sigma.StagesFrom | tools/lint_sigma.py:48-56 | the stage loop reports only stage errors |
| Sigma.StagesAccepted | tools/lint_sigma.py:48-56 | the stage loop passes exactly when every stage is a mapping with `logsource` and a `detection` that contains "condition" |
| Sigma.StagesFirstFailure | tools/lint_sigma.py:48-56 | a failing stage loop reports the verdict of its lowest-numbered failing stage, and every earlier stage passes |
| Sigma.CheckBody | tools/lint_sigma.py:42-67 | the checks after the required keys, first failure wins (stated per verdict by the `...When` lemmas and `TagsCheckedLast`) |
| Sigma.ValidateAccepts | tools/lint_sigma.py:28-67 | a rule is accepted exactly when it satisfies `WellFormed`, the order-free statement of every check |
| Sigma.ValidateRaises | tools/lint_sigma.py:45-56 | a `TypeError` happens only in a non-empty `sequence`. It comes from the first failing stage, which has `logsource` and a scalar or null `detection` |
| Sigma.NotMappingWhen | tools/lint_sigma.py:34-35 | rejected at the top level exactly when the loaded value is not a mapping |
| Sigma.RaisedWhen | tools/lint_sigma.py:37-56 | `TypeError` escapes exactly when the required keys and `type` pass, `sequence` is a non-empty list and the stage loop raises, which `ValidateRaises` places at a stage with a non-container `detection` |
| Sigma.UnsupportedTypeWhen | tools/lint_sigma.py:42-43 | rejected for its `type` exactly when the required keys are present and `type` is present and not "sequence" |
| Sigma.SequenceNotListWhen | tools/lint_sigma.py:45-47 | rejected for `sequence` exactly when the keys and `type` pass and `sequence` is present but not a non-empty list |
| Sigma.StageRejectionWhen | tools/lint_sigma.py:45-56 | a stage error is reported exactly when the keys and `type` pass, `sequence` is a non-empty list and the stage loop fails with that error |
| Sigma.MissingLogsourceWhen | tools/lint_sigma.py:57-59 | rejected for `logsource` exactly when the keys and `type` pass, there is no `sequence` and no `logsource` |
| Sigma.MissingDetectionWhen | tools/lint_sigma.py:57-61 | rejected for `detection` exactly when the keys and `type` pass, there is no `sequence`, `logsource` is present and `detection` absent |
| Sigma.DetectionWithoutConditionWhen | tools/lint_sigma.py:57-64 | rejected for the condition exactly when every earlier check passes and `detection` is not a mapping with a `condition` key |
| Sigma.TagsCheckedLast | tools/lint_sigma.py:42-67 | rejected for `tags` exactly when the required keys, `type` and the sequence or detection checks all pass and `tags` is absent or falsy |
| Lint.LintAll | tools/lint_sigma.py:70-84 | `main` crashes exactly when some file raises. Otherwise it collects `Reports(files)` and returns 1 exactly when some file was rejected and 0 exactly when every file was accepted |
| Lint.Entry | tools/lint_sigma.py:74-77 | the error one file contributes: its report when rejected, nothing otherwise (used by `ReportsSnoc`) |
| Lint.Reports | tools/lint_sigma.py:72-77 | the errors collected in file order (its meaning is stated by `ReportsExact` and `ReportsEmpty`) |
| Lint.ReportsSnoc | tools/lint_sigma.py:73-77 | one more file appends its error, if it has one, to those collected so far |
| Lint.ReportsExact | tools/lint_sigma.py:72-77 | an error is collected exactly for a rejected file and names that file and its problem; there are no more errors than files |
| Lint.ExitStatus | tools/lint_sigma.py:78-84 | when no file raises, something is collected exactly when some file is rejected, and nothing exactly when every file is accepted |
| Lint.ReportsEmpty | tools/lint_sigma.py:78-84 | nothing is collected exactly when no file is rejected |

## Left out

- Writing the file and choosing its path (figures/generate_figures.py:152-154). The model ends with the byte sequence.
- `zlib.compress` is a function parameter `compress`. The round trip assumes a decompressor that inverts it on the raw stream. Deflate itself is not part of this model.
- `zlib.crc32` is replaced by the bitwise definition in `Crc32`. Table-driven evaluation is not modelled.
- `render_attack_grid`, `render_decision_tree` and `main` in figures/generate_figures.py. They are fixed drawing scripts with path handling and printing.
- Figures.Canvas.constructor: width and height are `nat`. With a negative size, Python would build empty rows or no rows at all.
- Colour channels outside 0..255: `Color` holds bytes by type. Python's `bytes(color)` would raise `ValueError` for them.
- Rows are `seq` values that the methods reassign. In Python they are `bytearray`s mutated in place through slice assignment, so in-place update and aliasing are not captured. In `FillRow`, `row` and `pixels[y]` are kept equal by an invariant.
- Figures.Canvas.DrawText: the font lookup is passed as a function value to `DrawTextWith`, the row loop for one glyph is in `DrawGlyph` and the column loop in `DrawGlyphRow`. The structure is otherwise the source's three nested loops. In the same way, the column loop of `fill_rect` is `FillRow`.
- Font.Upper: `str.upper()` is modelled for ASCII only. Unicode case mapping is left out, including characters that upper-case to several characters and the two non-ASCII characters that upper-case onto a glyph of the font: dotless `ı` becomes `I` and long `ſ` becomes `S`.
- Font.UnknownCharacters: because `Upper` is ASCII-only, it concludes `?` also for `ı` and `ſ`, which Python draws with the `I` and `S` glyphs.
- YAML parsing, `path.read_text`, globbing the rule directory and printing (tools/lint_sigma.py:30, 71, 79-83). `Sigma.Validate` starts from the loader's result, a value or a `YAMLError`.
- Error message text: each `ValidationError` is a `Problem` value plus the file's path, not a formatted string.
- YAML values other than null, booleans, integers, strings, lists and mappings are collapsed into `Scalar`, which keeps only its truth value. Python's `in` raises `TypeError` on all of them. YAML sets (`!!set`), on which Python's `in` would not raise, are not part of this model.
- Non-string mapping keys are opaque (`NonText`). Python's equality of `True` and `1` as keys is not modelled.
- Lint.LintAll: after a `TypeError` the contract says nothing about the errors collected so far, because `main` never prints them.
- Lint.ReportsExact: states membership and a length bound, not the count of rejected files.
- tools/validate_samples.py is not part of this model.
