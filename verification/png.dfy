/**
 * The PNG writer of the figure generator: scanlines with filter byte 0, a
 * compressed image stream, and the chunk stream signature, IHDR, IDAT, IEND.
 * The compressor is a parameter. A strict reader for exactly this layout is the
 * encoder's partner: decoding what was encoded gives back the canvas.
 */
module Png {
  import opened Bytes
  import opened Raster
  import opened Crc32
  import opened Wrappers

  /** What `struct.pack(">I", ...)` rejects: a size or a payload length that does not fit 32 bits. */
  datatype PackError = SizeTooLarge | DataTooLong

  datatype Result<T> = Ok(value: T) | Fail(error: PackError)

  /** A decoded image: its dimensions and its rows of RGB bytes. */
  datatype Image = Image(width: nat, height: nat, pixels: Grid)

  /** A chunk as a reader sees it: type tag and payload. */
  datatype Chunk = Chunk(tag: seq<Byte>, data: seq<Byte>)

  /** The fixed 8-byte PNG signature `89 50 4E 47 0D 0A 1A 0A`. */
  const Signature: seq<Byte> := [0x89, 0x50, 0x4E, 0x47, 0x0D, 0x0A, 0x1A, 0x0A]

  const IHDR: seq<Byte> := [0x49, 0x48, 0x44, 0x52]
  const IDAT: seq<Byte> := [0x49, 0x44, 0x41, 0x54]
  const IEND: seq<Byte> := [0x49, 0x45, 0x4E, 0x44]

  /** `raw`: every row prefixed with filter type 0 (none), rows top to bottom. */
  function Scanlines(g: Grid): (r: seq<Byte>)
    ensures |g| > 0 ==> |r| > 0 && r[0] == 0
  {
    if g == [] then [] else [0] + g[0] + Scanlines(g[1..])
  }

  /** `chunk(tag, data)`: payload length, tag, payload, then the CRC-32 of tag and payload. */
  function Frame(tag: seq<Byte>, data: seq<Byte>): (r: seq<Byte>)
    requires |tag| == 4 && |data| < TwoTo32
    ensures |r| == |data| + 12
  {
    BE32(|data|) + tag + data + BE32(Checksum(tag + data))
  }

  /** `struct.pack(">IIBBBBB", width, height, 8, 2, 0, 0, 0)`: 8-bit truecolour, no interlace. */
  function Header(width: nat, height: nat): (r: seq<Byte>)
    requires width < TwoTo32 && height < TwoTo32
    ensures |r| == 13
  {
    BE32(width) + BE32(height) + [8, 2, 0, 0, 0]
  }

  /**
   * `write_png` without the file: the signature and the three chunks, or the
   * error `struct.pack` raises when the width, the height or the compressed
   * stream's length does not fit an unsigned 32-bit field.
   */
  function Encode(g: Grid, width: nat, height: nat, compress: seq<Byte> -> seq<Byte>): (r: Result<seq<Byte>>)
    ensures r.Ok? <==> width < TwoTo32 && height < TwoTo32 && |compress(Scanlines(g))| < TwoTo32
    ensures r.Ok? ==> |r.value| == 57 + |compress(Scanlines(g))| && r.value[..8] == Signature
  {
    var idat := compress(Scanlines(g));
    if width >= TwoTo32 || height >= TwoTo32 then Fail(SizeTooLarge)
    else if |idat| >= TwoTo32 then Fail(DataTooLong)
    else Ok(Stream(width, height, idat))
  }

  /** `png_data` joined: signature, IHDR, IDAT, then the empty IEND, with nothing after. */
  function Stream(width: nat, height: nat, idat: seq<Byte>): (r: seq<Byte>)
    requires width < TwoTo32 && height < TwoTo32 && |idat| < TwoTo32
    ensures |r| == 57 + |idat| && r[..8] == Signature
  {
    Signature + (Frame(IHDR, Header(width, height)) + (Frame(IDAT, idat) + Frame(IEND, [])))
  }

  // ---------------------------------------------------------------------------
  // The reader: the partner of the writer above.

  /**
   * Reads one chunk off the front of a stream: its length field, tag, payload
   * and CRC, which must match the CRC-32 of tag and payload. Also returns the
   * bytes after the chunk.
   */
  function ReadChunk(s: seq<Byte>): (r: Option<(Chunk, seq<Byte>)>)
    ensures r.Some? ==> |r.value.1| < |s| && |r.value.0.tag| == 4
    ensures r.Some? ==> |s| == 12 + |r.value.0.data| + |r.value.1|
  {
    if |s| < 12 then None
    else
      var n := FromBE32(s[..4]);
      if |s| < 12 + n then None
      else
        var tag, data := s[4..8], s[8..8 + n];
        if FromBE32(s[8 + n..12 + n]) != Checksum(tag + data) then None
        else Some((Chunk(tag, data), s[12 + n..]))
  }

  /** Reads a whole stream as chunks, failing on any malformed chunk or a bad checksum. */
  function ReadChunks(s: seq<Byte>): Option<seq<Chunk>>
    decreases |s|
  {
    if s == [] then Some([])
    else match ReadChunk(s)
      case None => None
      case Some((c, rest)) =>
        match ReadChunks(rest)
        case None => None
        case Some(cs) => Some([c] + cs)
  }

  /** Reads an IHDR payload that says 8-bit truecolour, compression 0, filter 0, no interlace. */
  function ReadHeader(data: seq<Byte>): Option<(nat, nat)>
  {
    if |data| == 13 && data[8..] == [8, 2, 0, 0, 0]
    then Some((FromBE32(data[..4]), FromBE32(data[4..8])))
    else None
  }

  /** Undoes `Scanlines`: each of `height` scanlines must be filter byte 0 and `3 * width` bytes. */
  function Unfilter(raw: seq<Byte>, width: nat, height: nat): (r: Option<Grid>)
    ensures r.Some? ==> Shaped(r.value, width, height)
    decreases height
  {
    if height == 0 then (if raw == [] then Some([]) else None)
    else if |raw| < 1 + 3 * width || raw[0] != 0 then None
    else match Unfilter(raw[1 + 3 * width..], width, height - 1)
      case None => None
      case Some(rows) => Some([raw[1..1 + 3 * width]] + rows)
  }

  /** A strict reader for the layout the writer produces, with `decompress` for the image stream. */
  function Decode(s: seq<Byte>, decompress: seq<Byte> -> seq<Byte>): Option<Image>
  {
    if |s| < 8 || s[..8] != Signature then None
    else match ReadChunks(s[8..])
      case None => None
      case Some(cs) =>
        if |cs| != 3 || cs[0].tag != IHDR || cs[1].tag != IDAT || cs[2] != Chunk(IEND, []) then None
        else match ReadHeader(cs[0].data)
          case None => None
          case Some((w, h)) =>
            match Unfilter(decompress(cs[1].data), w, h)
            case None => None
            case Some(g) => Some(Image(w, h, g))
  }

  // ---------------------------------------------------------------------------
  // Properties.

  /** The raw stream holds one filter byte and `3 * width` pixel bytes per row. */
  lemma {:induction false} ScanlinesLength(g: Grid, width: nat, height: nat)
    requires Shaped(g, width, height)
    ensures |Scanlines(g)| == height * (1 + 3 * width)
    decreases height
  {
    if height > 0 {
      ScanlinesLength(g[1..], width, height - 1);
    }
  }

  /** `y` rows of `n` bytes, counted without multiplying. */
  function RowOffset(y: nat, n: nat): nat
  {
    if y == 0 then 0 else n + RowOffset(y - 1, n)
  }

  /** Summing `y` rows of `n` bytes is multiplying. */
  lemma {:induction false} RowOffsetMul(y: nat, n: nat)
    ensures RowOffset(y, n) == y * n
  {
    if y > 0 {
      RowOffsetMul(y - 1, n);
      assert y * n == (y - 1) * n + n;
    }
  }

  /** Row `y` of the raw stream starts at `y * (1 + 3 * width)` with a 0 filter byte, then the row. */
  lemma ScanlineAt(g: Grid, width: nat, height: nat, y: nat)
    requires Shaped(g, width, height) && y < height
    ensures var k := y * (1 + 3 * width);
      k + 1 + 3 * width <= |Scanlines(g)| &&
      Scanlines(g)[k] == 0 && Scanlines(g)[k + 1..k + 1 + 3 * width] == g[y]
  {
    ScanlineFrom(g, width, height, y);
    RowOffsetMul(y, 1 + 3 * width);
  }

  /** `ScanlineAt` with the row's offset summed row by row. */
  lemma {:induction false} ScanlineFrom(g: Grid, width: nat, height: nat, y: nat)
    requires Shaped(g, width, height) && y < height
    ensures var k := RowOffset(y, 1 + 3 * width);
      k + 1 + 3 * width <= |Scanlines(g)| &&
      Scanlines(g)[k] == 0 && Scanlines(g)[k + 1..k + 1 + 3 * width] == g[y]
    decreases y
  {
    var s := Scanlines(g);
    var n := 1 + 3 * width;
    assert s == [0] + g[0] + Scanlines(g[1..]);
    if y == 0 {
      assert s[1..n] == g[0];
    } else {
      var t := Scanlines(g[1..]);
      ScanlineFrom(g[1..], width, height - 1, y - 1);
      var k := RowOffset(y - 1, n);
      assert RowOffset(y, n) == n + k;
      assert s[n..] == t;
      assert s[n + k] == t[k];
      assert s[n + k + 1..n + k + n] == t[k + 1..k + n];
    }
  }

  /** Reading back a framed chunk gives its tag, its payload and whatever followed it. */
  lemma FrameRoundTrip(tag: seq<Byte>, data: seq<Byte>, rest: seq<Byte>)
    requires |tag| == 4 && |data| < TwoTo32
    ensures ReadChunk(Frame(tag, data) + rest) == Some((Chunk(tag, data), rest))
  {
    var s := Frame(tag, data) + rest;
    var n := |data|;
    assert s[..4] == BE32(n);
    assert s[4..8] == tag;
    assert s[8..8 + n] == data;
    assert s[8 + n..12 + n] == BE32(Checksum(tag + data));
    assert s[12 + n..] == rest;
  }

  /** The header payload reads back as the width and height it was built from. */
  lemma HeaderRoundTrip(width: nat, height: nat)
    requires width < TwoTo32 && height < TwoTo32
    ensures ReadHeader(Header(width, height)) == Some((width, height))
  {
    var h := Header(width, height);
    assert h[..4] == BE32(width) && h[4..8] == BE32(height);
    assert h[8..] == [8, 2, 0, 0, 0];
  }

  /** Unfiltering the raw stream of a canvas gives back its rows. */
  lemma {:induction false} UnfilterScanlines(g: Grid, width: nat, height: nat)
    requires Shaped(g, width, height)
    ensures Unfilter(Scanlines(g), width, height) == Some(g)
    decreases height
  {
    if height > 0 {
      var raw := Scanlines(g);
      assert raw == [0] + g[0] + Scanlines(g[1..]);
      assert raw[1 + 3 * width..] == Scanlines(g[1..]);
      assert raw[1..1 + 3 * width] == g[0];
      UnfilterScanlines(g[1..], width, height - 1);
      assert [g[0]] + g[1..] == g;
    }
  }

  /** A framed chunk in front of a readable stream reads as that chunk, then the stream's chunks. */
  lemma ReadFramed(tag: seq<Byte>, data: seq<Byte>, rest: seq<Byte>)
    requires |tag| == 4 && |data| < TwoTo32 && ReadChunks(rest).Some?
    ensures ReadChunks(Frame(tag, data) + rest) == Some([Chunk(tag, data)] + ReadChunks(rest).value)
  {
    FrameRoundTrip(tag, data, rest);
  }

  /** A framed chunk alone reads back as that one chunk. */
  lemma ReadOneFrame(t: seq<Byte>, d: seq<Byte>)
    requires |t| == 4 && |d| < TwoTo32
    ensures ReadChunks(Frame(t, d)) == Some([Chunk(t, d)])
  {
    var none: seq<Byte> := [];
    assert Frame(t, d) + none == Frame(t, d);
    ReadFramed(t, d, none);
    assert [Chunk(t, d)] + [] == [Chunk(t, d)];
  }

  /** Two framed chunks in a row read back as exactly those two chunks. */
  lemma ReadTwoFrames(t1: seq<Byte>, d1: seq<Byte>, t2: seq<Byte>, d2: seq<Byte>)
    requires |t1| == 4 && |t2| == 4 && |d1| < TwoTo32 && |d2| < TwoTo32
    ensures ReadChunks(Frame(t1, d1) + Frame(t2, d2)) == Some([Chunk(t1, d1), Chunk(t2, d2)])
  {
    ReadOneFrame(t2, d2);
    ReadFramed(t1, d1, Frame(t2, d2));
    assert [Chunk(t1, d1)] + [Chunk(t2, d2)] == [Chunk(t1, d1), Chunk(t2, d2)];
  }

  /** Three framed chunks in a row read back as exactly those three chunks. */
  lemma ReadThreeFrames(t0: seq<Byte>, d0: seq<Byte>, t1: seq<Byte>, d1: seq<Byte>, t2: seq<Byte>, d2: seq<Byte>)
    requires |t0| == 4 && |t1| == 4 && |t2| == 4
    requires |d0| < TwoTo32 && |d1| < TwoTo32 && |d2| < TwoTo32
    ensures ReadChunks(Frame(t0, d0) + (Frame(t1, d1) + Frame(t2, d2)))
         == Some([Chunk(t0, d0), Chunk(t1, d1), Chunk(t2, d2)])
  {
    ReadTwoFrames(t1, d1, t2, d2);
    ReadFramed(t0, d0, Frame(t1, d1) + Frame(t2, d2));
    assert [Chunk(t0, d0)] + [Chunk(t1, d1), Chunk(t2, d2)] == [Chunk(t0, d0), Chunk(t1, d1), Chunk(t2, d2)];
  }

  /**
   * The stream the writer produces is the signature followed by exactly three
   * chunks whose checksums all verify: IHDR with the header, IDAT with the
   * compressed scanlines, and an empty IEND, in that order.
   */
  lemma EncodeChunks(g: Grid, width: nat, height: nat, compress: seq<Byte> -> seq<Byte>)
    requires Encode(g, width, height, compress).Ok?
    ensures var s := Encode(g, width, height, compress).value;
      ReadChunks(s[8..]) == Some([Chunk(IHDR, Header(width, height)),
                                  Chunk(IDAT, compress(Scanlines(g))),
                                  Chunk(IEND, [])])
  {
    var idat := compress(Scanlines(g));
    var body := Frame(IHDR, Header(width, height)) + (Frame(IDAT, idat) + Frame(IEND, []));
    assert (Signature + body)[8..] == body;
    ReadThreeFrames(IHDR, Header(width, height), IDAT, idat, IEND, []);
  }

  /**
   * Round trip: with a decompressor that inverts the compressor on the raw
   * stream, decoding the written bytes recovers the width, the height and
   * every pixel byte of the canvas.
   */
  lemma EncodeDecode(g: Grid, width: nat, height: nat,
                     compress: seq<Byte> -> seq<Byte>, decompress: seq<Byte> -> seq<Byte>)
    requires Shaped(g, width, height)
    requires decompress(compress(Scanlines(g))) == Scanlines(g)
    requires Encode(g, width, height, compress).Ok?
    ensures Decode(Encode(g, width, height, compress).value, decompress) == Some(Image(width, height, g))
  {
    EncodeChunks(g, width, height, compress);
    HeaderRoundTrip(width, height);
    UnfilterScanlines(g, width, height);
  }
}
