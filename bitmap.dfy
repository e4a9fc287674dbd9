/** A model of bmpfile.py: the reader of the Windows BMP header
    (BITMAPFILEHEADER followed by BITMAPINFOHEADER), the colour-table loader
    and the row unpackers for 1, 4, 8 and 24 bits per pixel.

    The pure functions below are the specification; class BmpFile at the end
    of the module is the object the source manipulates, and each of its methods
    is proved equal to one of these functions. */
module Bitmap {

  /** One byte of the file. */
  type Byte = b: int | 0 <= b < 256

  /** A colour-table entry in the order openFile stores it: (r, g, b, a). */
  datatype Entry = Entry(r: Byte, g: Byte, b: Byte, a: Byte)

  /** A pixel of a grid: an (r, g, b) triple. */
  datatype Pixel = Pixel(r: int, g: int, b: int)

  /** Rows of pixels, row 0 at the top of the picture. */
  type Grid = seq<seq<Pixel>>

  const Black := Pixel(0, 0, 0)

  /** Each exit(1) of the source, and the ValueError of the 24 bpp parser. */
  datatype DecodeError =
    | UnsupportedCompression(compression: nat)
    | WrongPaletteSize(entries: nat)
    | MissingPalette(bpp: nat)
    | UnsupportedBitDepth(bpp: nat)
    | TruncatedPixelData

  datatype Result<T> = Ok(value: T) | Err(error: DecodeError)

  datatype Outcome = Pass | Fail(error: DecodeError)

  // ---------------------------------------------------------------------
  // Little-endian fields

  function Pow2(k: nat): (p: nat)
    ensures p >= 1
  {
    if k == 0 then 1 else 2 * Pow2(k - 1)
  }

  function Pow256(n: nat): (p: nat)
    ensures p >= 1
  {
    if n == 0 then 1 else 256 * Pow256(n - 1)
  }

  lemma {:induction false} Pow256Monotone(m: nat, n: nat)
    requires m <= n
    ensures Pow256(m) <= Pow256(n)
  {
    if m < n { Pow256Monotone(m, n - 1); }
  }

  /** int.from_bytes(s, "little"): the unsigned value of s, least significant byte first. */
  function LittleEndian(s: seq<Byte>): (v: nat)
    ensures v < Pow256(|s|)
  {
    if s == [] then 0 else s[0] + 256 * LittleEndian(s[1..])
  }

  /** The n-byte little-endian encoding of v: the inverse of LittleEndian. */
  function LittleEndianBytes(v: nat, n: nat): (s: seq<Byte>)
    ensures |s| == n
  {
    if n == 0 then [] else [v % 256] + LittleEndianBytes(v / 256, n - 1)
  }

  /** Decoding an encoded value gives it back when it fits in n bytes. */
  lemma {:induction false} LittleEndianOfBytes(v: nat, n: nat)
    requires v < Pow256(n)
    ensures LittleEndian(LittleEndianBytes(v, n)) == v
  {
    if n > 0 {
      LittleEndianOfBytes(v / 256, n - 1);
    }
  }

  /** Encoding a decoded byte string gives the byte string back. */
  lemma {:induction false} BytesOfLittleEndian(s: seq<Byte>)
    ensures LittleEndianBytes(LittleEndian(s), |s|) == s
  {
    if s != [] {
      var v := LittleEndian(s[1..]);
      assert (s[0] + 256 * v) % 256 == s[0];
      assert (s[0] + 256 * v) / 256 == v;
      BytesOfLittleEndian(s[1..]);
    }
  }

  /** Python's s[lo:hi]: both bounds are cut down to the length of s. */
  function Slice(s: seq<Byte>, lo: nat, hi: nat): (t: seq<Byte>)
    requires lo <= hi
    ensures |t| <= hi - lo
    ensures hi <= |s| ==> t == s[lo..hi]
    ensures |s| <= lo ==> t == []
    ensures lo < |s| < hi ==> t == s[lo..]
  {
    var l := if lo < |s| then lo else |s|;
    var h := if hi < |s| then hi else |s|;
    s[l..h]
  }

  /** int.from_bytes(s[lo:hi], "little"): an unsigned field. A field the
      file ends before reads as 0; a field the file ends inside reads the
      bytes that are present. */
  function Field(s: seq<Byte>, lo: nat, hi: nat): (v: nat)
    requires lo <= hi
    ensures v < Pow256(hi - lo)
    ensures |s| <= lo ==> v == 0
    ensures lo < |s| < hi ==> v == LittleEndian(s[lo..])
  {
    var t := Slice(s, lo, hi);
    Pow256Monotone(|t|, hi - lo);
    LittleEndian(t)
  }

  // ---------------------------------------------------------------------
  // Header

  /** The header fields openFile reads, as they are stored in the file. */
  datatype Header = Header(fileSize: nat, dataOffset: nat, width: nat, height: nat,
                           bpp: nat, compression: nat, clrUsed: nat)

  /** bfSize, bfOffBits, biWidth, biHeight, biBitCount, biCompression and
      biClrUsed, each read unsigned from its fixed offset; the signature at
      offset 0 is not looked at. */
  function ReadHeader(s: seq<Byte>): (h: Header)
    ensures h.fileSize < Pow256(4) && h.dataOffset < Pow256(4) && h.clrUsed < Pow256(4)
    ensures h.width < Pow256(4) && h.height < Pow256(4) && h.compression < Pow256(4)
    ensures h.bpp < Pow256(2)
  {
    Header(Field(s, 0x02, 0x06), Field(s, 0x0A, 0x0E), Field(s, 0x12, 0x16),
           Field(s, 0x16, 0x1A), Field(s, 0x1C, 0x1E), Field(s, 0x1E, 0x22),
           Field(s, 0x2E, 0x32))
  }

  /** Size of BITMAPFILEHEADER plus BITMAPINFOHEADER; also where openFile
      looks for the palette when bfOffBits does not locate it. */
  const HeaderSize: nat := 0x36

  predicate Representable(h: Header)
  {
    h.fileSize < Pow256(4) && h.dataOffset < Pow256(4) && h.width < Pow256(4) &&
    h.height < Pow256(4) && h.bpp < Pow256(2) && h.compression < Pow256(4) &&
    h.clrUsed < Pow256(4)
  }

  /** Byte k of the 54-byte header that a BMP writer would produce for h:
      signature "BM", a 40-byte info header, one plane, the other fields 0. */
  function HeaderByte(h: Header, k: nat): Byte
    requires k < HeaderSize
  {
    if k < 0x02 then (if k == 0 then 0x42 else 0x4D)
    else if k < 0x06 then LittleEndianBytes(h.fileSize, 4)[k - 0x02]
    else if k < 0x0A then 0
    else if k < 0x0E then LittleEndianBytes(h.dataOffset, 4)[k - 0x0A]
    else if k < 0x12 then (if k == 0x0E then 40 else 0)
    else if k < 0x16 then LittleEndianBytes(h.width, 4)[k - 0x12]
    else if k < 0x1A then LittleEndianBytes(h.height, 4)[k - 0x16]
    else if k < 0x1C then (if k == 0x1A then 1 else 0)
    else if k < 0x1E then LittleEndianBytes(h.bpp, 2)[k - 0x1C]
    else if k < 0x22 then LittleEndianBytes(h.compression, 4)[k - 0x1E]
    else if k < 0x2E then 0
    else if k < 0x32 then LittleEndianBytes(h.clrUsed, 4)[k - 0x2E]
    else 0
  }

  function EncodeHeader(h: Header): (s: seq<Byte>)
    ensures |s| == HeaderSize
  {
    seq(HeaderSize, k requires 0 <= k < HeaderSize => HeaderByte(h, k))
  }

  /** n bytes holding the little-endian encoding of v read back as v. */
  lemma FieldReadsBack(s: seq<Byte>, lo: nat, v: nat, n: nat)
    requires lo + n <= |s| && v < Pow256(n)
    requires forall j :: 0 <= j < n ==> s[lo + j] == LittleEndianBytes(v, n)[j]
    ensures Field(s, lo, lo + n) == v
  {
    assert s[lo..lo + n] == LittleEndianBytes(v, n);
    LittleEndianOfBytes(v, n);
  }

  /** Every field written by EncodeHeader is read back by ReadHeader, whatever
      follows the header. */
  lemma HeaderRoundTrip(h: Header, rest: seq<Byte>)
    requires Representable(h)
    ensures ReadHeader(EncodeHeader(h) + rest) == h
  {
    var s := EncodeHeader(h) + rest;
    FieldReadsBack(s, 0x02, h.fileSize, 4);
    FieldReadsBack(s, 0x0A, h.dataOffset, 4);
    FieldReadsBack(s, 0x12, h.width, 4);
    FieldReadsBack(s, 0x16, h.height, 4);
    FieldReadsBack(s, 0x1C, h.bpp, 2);
    FieldReadsBack(s, 0x1E, h.compression, 4);
    FieldReadsBack(s, 0x2E, h.clrUsed, 4);
  }

  /** The header reader never looks at the two signature bytes: any file whose
      first two bytes are replaced reads the same header. */
  lemma SignatureIgnored(s: seq<Byte>, m0: Byte, m1: Byte)
    requires |s| >= 2
    ensures ReadHeader([m0, m1] + s[2..]) == ReadHeader(s)
  {
    var t := [m0, m1] + s[2..];
    assert |t| == |s|;
    assert forall k :: 2 <= k < |s| ==> t[k] == s[k];
    forall lo: nat, hi: nat | 2 <= lo <= hi
      ensures Slice(t, lo, hi) == Slice(s, lo, hi)
    {
      var a, b := Slice(t, lo, hi), Slice(s, lo, hi);
      assert |a| == |b|;
      assert forall k :: 0 <= k < |a| ==> a[k] == b[k];
    }
  }

  // ---------------------------------------------------------------------
  // Colour table

  /** numColors after openFile: biClrUsed, except that 0 at a depth of at most
      8 bits means a full table of 2^bpp entries (256 at 8 bpp). */
  function NumColors(bpp: nat, clrUsed: nat): (n: nat)
    ensures clrUsed != 0 || bpp > 8 ==> n == clrUsed
    ensures clrUsed == 0 && bpp <= 8 ==> n == Pow2(bpp) && n > 0
  {
    if clrUsed == 0 && bpp <= 8 then (if bpp == 8 then 256 else Pow2(bpp)) else clrUsed
  }

  /** Where openFile reads the colour table: the numColors*4 bytes just before
      the pixel data when they lie inside the file, else offset 0x36. */
  function PaletteStart(dataOffset: nat, numColors: nat, fileLen: nat): (o: nat)
    ensures 4 * numColors <= dataOffset <= fileLen ==> o + 4 * numColors == dataOffset
    ensures !(4 * numColors <= dataOffset <= fileLen) ==> o == HeaderSize
  {
    var offset := dataOffset - numColors * 4;
    if offset < 0 || offset + numColors * 4 > fileLen then HeaderSize else offset
  }

  /** How many entries openFile reads from start: as many of numColors as fit
      entirely inside the file. */
  function PaletteCount(start: nat, numColors: nat, fileLen: nat): (k: nat)
    ensures k <= numColors
    ensures k == 0 || start + 4 * k <= fileLen
    ensures k == numColors || start + 4 * (k + 1) > fileLen
  {
    var paletteEnd := if start + numColors * 4 < fileLen then start + numColors * 4 else fileLen;
    if paletteEnd < start then 0 else (paletteEnd - start) / 4
  }

  /** A stored entry: bytes B, G, R, A at o, kept as (r, g, b, a). */
  function EntryAt(s: seq<Byte>, o: nat): (e: Entry)
    requires o + 4 <= |s|
  {
    Entry(s[o + 2], s[o + 1], s[o], s[o + 3])
  }

  /** The colour table openFile builds: empty above 8 bpp or when numColors is
      0, otherwise PaletteCount entries from PaletteStart. */
  function ColorTable(s: seq<Byte>, bpp: nat, numColors: nat, dataOffset: nat): (t: seq<Entry>)
    ensures |t| <= numColors
    ensures bpp > 8 ==> t == []
  {
    if bpp <= 8 && numColors > 0 then
      var start := PaletteStart(dataOffset, numColors, |s|);
      var k := PaletteCount(start, numColors, |s|);
      seq(k, i requires 0 <= i < k => EntryAt(s, start + 4 * i))
    else []
  }

  /** Byte j of an entry as a BMP writer stores it: B, G, R, A. */
  function StoredByte(e: Entry, j: nat): Byte
    requires j < 4
  {
    if j == 0 then e.b else if j == 1 then e.g else if j == 2 then e.r else e.a
  }

  /** How a BMP writer stores a colour table: four bytes per entry. */
  function EncodePalette(table: seq<Entry>): (s: seq<Byte>)
    ensures |s| == 4 * |table|
  {
    seq(4 * |table|, k requires 0 <= k < 4 * |table| => StoredByte(table[k / 4], k % 4))
  }

  lemma EntryOfEncoded(s: seq<Byte>, table: seq<Entry>, start: nat, i: nat)
    requires i < |table| && start + 4 * |table| <= |s|
    requires s[start..start + 4 * |table|] == EncodePalette(table)
    ensures EntryAt(s, start + 4 * i) == table[i]
  {
    var e := EncodePalette(table);
    var o := start + 4 * i;
    assert s[o] == e[4 * i] && s[o + 1] == e[4 * i + 1];
    assert s[o + 2] == e[4 * i + 2] && s[o + 3] == e[4 * i + 3];
  }

  lemma PaletteLocated(prefixLen: nat, n: nat, fileLen: nat)
    requires prefixLen + 4 * n <= fileLen
    ensures PaletteStart(prefixLen + 4 * n, n, fileLen) == prefixLen
    ensures PaletteCount(prefixLen, n, fileLen) == n
  {
  }

  lemma ColorTableAt(s: seq<Byte>, bpp: nat, table: seq<Entry>, start: nat)
    requires bpp <= 8 && table != [] && start + 4 * |table| <= |s|
    requires forall i :: 0 <= i < |table| ==> EntryAt(s, start + 4 * i) == table[i]
    ensures ColorTable(s, bpp, |table|, start + 4 * |table|) == table
  {
    PaletteLocated(start, |table|, |s|);
  }

  /** A palette stored just before the pixel data, with biClrUsed giving its
      size, is read back entry for entry. */
  lemma ColorTableRoundTrip(s: seq<Byte>, table: seq<Entry>, start: nat, bpp: nat)
    requires bpp <= 8 && table != [] && start + 4 * |table| <= |s|
    requires s[start..start + 4 * |table|] == EncodePalette(table)
    ensures ColorTable(s, bpp, |table|, start + 4 * |table|) == table
  {
    forall i | 0 <= i < |table|
      ensures EntryAt(s, start + 4 * i) == table[i]
    {
      EntryOfEncoded(s, table, start, i);
    }
    ColorTableAt(s, bpp, table, start);
  }

  // ---------------------------------------------------------------------
  // Row geometry

  /** _row_stride: bytes per stored row, bpp*width bits rounded up to a
      multiple of 32 bits. It is a multiple of 4 and the smallest one that
      holds the row's bits. */
  function RowStride(bpp: nat, width: nat): (stride: nat)
    ensures stride % 4 == 0
    ensures 8 * stride >= bpp * width
    ensures 8 * stride < bpp * width + 32
  {
    ((bpp * width + 31) / 32) * 4
  }

  /** _is_top_down: a negative height means row 0 is stored first. */
  predicate IsTopDown(height: int)
    ensures IsTopDown(height) <==> height != 0 && AbsHeight(height) == -height
  {
    height < 0
  }

  /** _abs_height: the number of rows. */
  function AbsHeight(height: int): (h: nat)
    ensures h == height || h == -height
  {
    if height < 0 then -height else height
  }

  /** A height read from a file is never negative, so such a file is always
      treated as bottom-up. */
  lemma HeaderNeverTopDown(s: seq<Byte>)
    ensures !IsTopDown(ReadHeader(s).height)
    ensures AbsHeight(ReadHeader(s).height) == ReadHeader(s).height
  {
  }

  /** The stored row that holds displayed row y. */
  function SourceRow(y: nat, h: nat, topDown: bool): (src: nat)
    requires y < h
    ensures src < h
  {
    if topDown then y else h - 1 - y
  }

  /** Displayed rows and stored rows correspond one to one in either orientation. */
  lemma SourceRowBijective(h: nat, topDown: bool)
    ensures forall y :: 0 <= y < h ==> SourceRow(SourceRow(y, h, topDown), h, topDown) == y
    ensures forall y1, y2 :: 0 <= y1 < h && 0 <= y2 < h && SourceRow(y1, h, topDown) == SourceRow(y2, h, topDown) ==> y1 == y2
  {
  }

  /** The object state the row unpackers read: the fields openFile filled in. */
  datatype Raster = Raster(bytes: seq<Byte>, width: nat, height: int, dataOffset: nat,
                           bpp: nat, compression: nat, colorTable: seq<Entry>)

  /** Where stored row src starts: dataOffset + src * stride. */
  function RowOffset(r: Raster, src: nat): (o: nat)
    ensures o >= r.dataOffset
  {
    r.dataOffset + src * RowStride(r.bpp, r.width)
  }

  /** Consecutive stored rows start one stride apart, every row starts on a
      4-byte boundary from the pixel data, and the bytes a row's unpacker reads
      end before the next row begins. */
  lemma RowsApart(r: Raster, src: nat)
    ensures RowOffset(r, src + 1) == RowOffset(r, src) + RowStride(r.bpp, r.width)
    ensures (RowOffset(r, src) - r.dataOffset) % 4 == 0
    ensures RowOffset(r, src) + RowBytes(r.bpp, r.width) <= RowOffset(r, src + 1)
  {
    var stride := RowStride(r.bpp, r.width);
    assert (src + 1) * stride == src * stride + stride;
    var k := stride / 4;
    assert src * stride == (src * k) * 4;
  }

  /** Bytes of a row that the unpacker for this depth reads: depth*width bits
      rounded up to whole bytes. */
  function RowBytes(depth: nat, width: nat): (n: nat)
    ensures 8 * n >= depth * width && 8 * n < depth * width + 8
    ensures n <= RowStride(depth, width)
  {
    (depth * width + 7) / 8
  }

  /** Every stored row has need bytes in the file from its start. */
  predicate RowsFit(r: Raster, need: nat)
  {
    forall src :: 0 <= src < AbsHeight(r.height) ==> RowOffset(r, src) + need <= |r.bytes|
  }

  /** The 1, 4 and 8 bpp unpackers index the file unchecked; a read past its
      end would raise IndexError. This is what keeps them inside it. */
  predicate PixelReadsFit(r: Raster, depth: nat)
  {
    r.width == 0 || RowsFit(r, RowBytes(depth, r.width))
  }

  // ---------------------------------------------------------------------
  // Unpacking

  /** (v >> k) & 1 */
  function Bit(v: Byte, k: nat): (b: nat)
    ensures b < 2
  {
    (v / Pow2(k)) % 2
  }

  /** (v >> 4) & 0x0F */
  function HighNibble(v: Byte): (n: nat)
    ensures n < 16
  {
    (v / 16) % 16
  }

  /** v & 0x0F */
  function LowNibble(v: Byte): (n: nat)
    ensures n < 16
  {
    v % 16
  }

  /** A palette colour with the alpha dropped; black for an index outside the table. */
  function PaletteColor(table: seq<Entry>, idx: nat): (p: Pixel)
    ensures ByteChannels(p)
    ensures idx < |table| ==> p.r == table[idx].r && p.g == table[idx].g && p.b == table[idx].b
    ensures idx >= |table| ==> p == Black
  {
    if idx < |table| then Pixel(table[idx].r, table[idx].g, table[idx].b) else Black
  }

  /** Pixel x of a row at rowOffset, for each supported depth. */
  function PixelAt(r: Raster, depth: nat, rowOffset: nat, x: nat): (p: Pixel)
    requires depth == 1 || depth == 4 || depth == 8 || depth == 24
    requires depth == 1 ==> |r.colorTable| == 2
    requires x < r.width && rowOffset + RowBytes(depth, r.width) <= |r.bytes|
    ensures ByteChannels(p)
    ensures depth == 1 ==> p == PaletteColor(r.colorTable, 0) || p == PaletteColor(r.colorTable, 1)
  {
    if depth == 1 then
      var c := if Bit(r.bytes[rowOffset + x / 8], 7 - x % 8) == 1 then r.colorTable[1] else r.colorTable[0];
      Pixel(c.r, c.g, c.b)
    else if depth == 4 then
      var v := r.bytes[rowOffset + x / 2];
      PaletteColor(r.colorTable, if x % 2 == 0 then HighNibble(v) else LowNibble(v))
    else if depth == 8 then
      PaletteColor(r.colorTable, r.bytes[rowOffset + x])
    else
      var i := rowOffset + 3 * x;
      Pixel(r.bytes[i + 2], r.bytes[i + 1], r.bytes[i])
  }

  /** Displayed row y: the pixels of the stored row SourceRow(y). */
  function UnpackRow(r: Raster, depth: nat, y: nat): (row: seq<Pixel>)
    requires depth == 1 || depth == 4 || depth == 8 || depth == 24
    requires depth == 1 ==> |r.colorTable| == 2
    requires PixelReadsFit(r, depth) && y < AbsHeight(r.height)
    ensures |row| == r.width
  {
    var h := AbsHeight(r.height);
    var offset := RowOffset(r, SourceRow(y, h, IsTopDown(r.height)));
    seq(r.width, x requires 0 <= x < r.width => PixelAt(r, depth, offset, x))
  }

  /** The whole grid: |height| rows of width pixels. */
  function Unpack(r: Raster, depth: nat): (g: Grid)
    requires depth == 1 || depth == 4 || depth == 8 || depth == 24
    requires depth == 1 ==> |r.colorTable| == 2
    requires PixelReadsFit(r, depth)
    ensures |g| == AbsHeight(r.height)
    ensures forall y :: 0 <= y < |g| ==> |g[y]| == r.width
  {
    var h := AbsHeight(r.height);
    seq(h, y requires 0 <= y < h => UnpackRow(r, depth, y))
  }

  /** _parse_1bpp */
  function Parse1(r: Raster): (res: Result<Grid>)
    requires |r.colorTable| == 2 ==> PixelReadsFit(r, 1)
    ensures res.Err? <==> |r.colorTable| != 2
    ensures res.Err? ==> res.error == WrongPaletteSize(|r.colorTable|)
    ensures res.Ok? ==> |res.value| == AbsHeight(r.height) &&
                        forall y :: 0 <= y < |res.value| ==> |res.value[y]| == r.width
  {
    if |r.colorTable| != 2 then Err(WrongPaletteSize(|r.colorTable|)) else Ok(Unpack(r, 1))
  }

  /** _parse_4bpp */
  function Parse4(r: Raster): (res: Result<Grid>)
    requires |r.colorTable| != 0 ==> PixelReadsFit(r, 4)
    ensures res.Err? <==> r.colorTable == []
    ensures res.Err? ==> res.error == MissingPalette(4)
    ensures res.Ok? ==> |res.value| == AbsHeight(r.height) &&
                        forall y :: 0 <= y < |res.value| ==> |res.value[y]| == r.width
  {
    if |r.colorTable| == 0 then Err(MissingPalette(4)) else Ok(Unpack(r, 4))
  }

  /** _parse_8bpp */
  function Parse8(r: Raster): (res: Result<Grid>)
    requires |r.colorTable| != 0 ==> PixelReadsFit(r, 8)
    ensures res.Err? <==> r.colorTable == []
    ensures res.Err? ==> res.error == MissingPalette(8)
    ensures res.Ok? ==> |res.value| == AbsHeight(r.height) &&
                        forall y :: 0 <= y < |res.value| ==> |res.value[y]| == r.width
  {
    if |r.colorTable| == 0 then Err(MissingPalette(8)) else Ok(Unpack(r, 8))
  }

  /** _parse_24bpp: no precondition, since every row is checked against the
      file length before it is read. */
  function Parse24(r: Raster): (res: Result<Grid>)
    ensures r.compression != 0 ==> res == Err(UnsupportedCompression(r.compression))
    ensures res.Err? ==> res.error.UnsupportedCompression? || res.error.TruncatedPixelData?
    ensures res.Ok? ==> |res.value| == AbsHeight(r.height) &&
                        forall y :: 0 <= y < |res.value| ==> |res.value[y]| == r.width
  {
    if r.compression != 0 then Err(UnsupportedCompression(r.compression))
    else if !RowsFit(r, 3 * r.width) then Err(TruncatedPixelData)
    else Ok(Unpack(r, 24))
  }

  /** What keeps generatePixelGrid's unchecked reads inside the file. */
  predicate InBounds(r: Raster)
  {
    (r.bpp == 1 && |r.colorTable| == 2 ==> PixelReadsFit(r, 1)) &&
    (r.bpp == 4 && |r.colorTable| != 0 ==> PixelReadsFit(r, 4)) &&
    (r.bpp == 8 && |r.colorTable| != 0 ==> PixelReadsFit(r, 8))
  }

  /** generatePixelGrid: dispatch on the depth. */
  function PixelGrid(r: Raster): (res: Result<Grid>)
    requires InBounds(r)
    ensures res.Ok? ==> |res.value| == AbsHeight(r.height) &&
                        forall y :: 0 <= y < |res.value| ==> |res.value[y]| == r.width
    ensures (res.Err? && res.error.UnsupportedBitDepth?) <==>
              !(r.bpp == 1 || r.bpp == 4 || r.bpp == 8 || r.bpp == 24)
  {
    if r.bpp == 1 then Parse1(r)
    else if r.bpp == 4 then Parse4(r)
    else if r.bpp == 8 then Parse8(r)
    else if r.bpp == 24 then Parse24(r)
    else Err(UnsupportedBitDepth(r.bpp))
  }

  /** Stored row src of a 24 bpp raster: width pixels of bytes B, G, R. */
  function StoredRow24(r: Raster, src: nat): (row: seq<Pixel>)
    requires RowOffset(r, src) + 3 * r.width <= |r.bytes|
    ensures |row| == r.width
  {
    var o := RowOffset(r, src);
    seq(r.width, x requires 0 <= x < r.width => Pixel(r.bytes[o + 3 * x + 2], r.bytes[o + 3 * x + 1], r.bytes[o + 3 * x]))
  }

  /** The 24 bpp grid is the stored rows, in display order. */
  lemma Unpack24(r: Raster)
    requires RowsFit(r, 3 * r.width)
    ensures PixelReadsFit(r, 24)
    ensures forall y :: 0 <= y < AbsHeight(r.height) ==>
              Unpack(r, 24)[y] == StoredRow24(r, SourceRow(y, AbsHeight(r.height), IsTopDown(r.height)))
  {
    assert RowBytes(24, r.width) == 3 * r.width;
    var h := AbsHeight(r.height);
    forall y | 0 <= y < h
      ensures Unpack(r, 24)[y] == StoredRow24(r, SourceRow(y, h, IsTopDown(r.height)))
    {
      assert UnpackRow(r, 24, y) == StoredRow24(r, SourceRow(y, h, IsTopDown(r.height)));
    }
  }

  // ---------------------------------------------------------------------
  // Properties of the unpackers

  /** Bits packed most significant first, as a 1 bpp row stores its pixels. */
  function Packed(bits: seq<bool>): (v: nat)
    ensures v < Pow2(|bits|)
  {
    if bits == [] then 0 else (if bits[0] then Pow2(|bits| - 1) else 0) + Packed(bits[1..])
  }

  lemma {:induction false} Pow2Add(a: nat, b: nat)
    ensures Pow2(a + b) == Pow2(a) * Pow2(b)
  {
    if a > 0 {
      Pow2Add(a - 1, b);
    }
  }

  lemma DivUnique(v: int, p: int, q: int, r: int)
    requires p > 0 && 0 <= r < p && v == p * q + r
    ensures v / p == q
  {
    var q0, r0 := v / p, v % p;
    assert p * (q - q0) == r0 - r;
    if q > q0 {
      MulAtLeast(p, q - q0);
    } else if q < q0 {
      MulAtLeast(p, q0 - q);
    }
  }

  lemma MulAtLeast(p: int, k: int)
    requires p > 0 && k >= 1
    ensures p * k >= p
  {
  }

  /** (v / p) % 2 picks out the middle term of 2*p*above + p*b + below. */
  lemma BitAt(v: int, p: int, above: int, b: int, below: int)
    requires p >= 1 && 0 <= b < 2 && 0 <= below < p && above >= 0
    requires v == 2 * p * above + p * b + below
    ensures (v / p) % 2 == b
  {
    DivUnique(v, p, 2 * above + b, below);
  }

  /** Folding the leading bit into the bits before x. */
  lemma Regroup(total: int, rest: int, front: int, b0: int, p: int, q: int, a: int, b: int, c: int)
    requires rest == 2 * p * a + p * b + c && front == b0 * q + a
    requires total == b0 * (2 * q * p) + rest
    ensures total == 2 * p * front + p * b + c
  {
    assert 2 * p * front == b0 * (2 * q * p) + 2 * p * a;
  }

  /** Packed bits split around bit x: the bits before it, bit x, the bits after. */
  lemma {:induction false} PackedSplit(bits: seq<bool>, x: nat)
    requires x < |bits|
    ensures Packed(bits) == 2 * Pow2(|bits| - 1 - x) * Packed(bits[..x])
                            + Pow2(|bits| - 1 - x) * (if bits[x] then 1 else 0)
                            + Packed(bits[x + 1..])
  {
    if x == 0 {
      PackedFirst(bits);
    } else {
      var rest := bits[1..];
      PackedSplit(rest, x - 1);
      assert rest[..x - 1] == bits[1..x] == bits[..x][1..];
      assert rest[x - 1] == bits[x] && rest[x..] == bits[x + 1..];
      var p := Pow2(|bits| - 1 - x);
      var q := Pow2(x - 1);
      var b0 := if bits[0] then 1 else 0;
      Pow2Add(x, |bits| - 1 - x);
      assert Pow2(|bits| - 1) == (2 * q) * p;
      Regroup(Packed(bits), Packed(rest), Packed(bits[..x]), b0, p, q,
              Packed(bits[1..x]), if bits[x] then 1 else 0, Packed(bits[x + 1..]));
    }
  }

  lemma PackedFirst(bits: seq<bool>)
    requires bits != []
    ensures Packed(bits) == Pow2(|bits| - 1) * (if bits[0] then 1 else 0) + Packed(bits[1..])
  {
    assert bits[..0] == [];
  }

  /** Pixel x of a 1 bpp byte is bit 7 - x: the unpacker recovers every bit
      a writer packed into the byte. */
  lemma BitOfPacked(bits: seq<bool>, x: nat)
    requires |bits| == 8 && x < 8
    ensures Packed(bits) < 256
    ensures Bit(Packed(bits), 7 - x) == if bits[x] then 1 else 0
  {
    assert Pow2(8) == 256;
    var p, below := Pow2(7 - x), Packed(bits[x + 1..]);
    assert |bits[x + 1..]| == 7 - x && below < p;
    PackedSplit(bits, x);
    BitAt(Packed(bits), p, Packed(bits[..x]), if bits[x] then 1 else 0, below);
  }

  /** The two nibbles of a 4 bpp byte are the even (high) and odd (low) pixel. */
  lemma NibblesOfPacked(hi: nat, lo: nat)
    requires hi < 16 && lo < 16
    ensures HighNibble(16 * hi + lo) == hi && LowNibble(16 * hi + lo) == lo
  {
  }

  /** The same stored rows read top-down and bottom-up give the same grid
      upside down. */
  lemma {:induction false} OrientationReverses(r: Raster, depth: nat)
    requires depth == 1 || depth == 4 || depth == 8 || depth == 24
    requires depth == 1 ==> |r.colorTable| == 2
    requires PixelReadsFit(r, depth) && r.height > 0
    ensures var flipped := r.(height := -r.height);
            PixelReadsFit(flipped, depth) &&
            forall y :: 0 <= y < r.height ==>
              Unpack(flipped, depth)[y] == Unpack(r, depth)[r.height - 1 - y]
  {
    var flipped := r.(height := -r.height);
    forall src: nat
      ensures RowOffset(flipped, src) == RowOffset(r, src)
    {
    }
    forall y | 0 <= y < r.height
      ensures UnpackRow(flipped, depth, y) == UnpackRow(r, depth, r.height - 1 - y)
    {
      assert RowOffset(flipped, y) == RowOffset(r, y);
    }
  }

  /** The 24 bpp parser checks displayed rows one after another; it fails
      exactly when some stored row lacks 3*width bytes. */
  lemma Truncated24(r: Raster)
    requires r.compression == 0
    ensures Parse24(r) == Err(TruncatedPixelData) <==>
            exists y :: 0 <= y < AbsHeight(r.height) &&
              RowOffset(r, SourceRow(y, AbsHeight(r.height), IsTopDown(r.height))) + 3 * r.width > |r.bytes|
  {
    var h := AbsHeight(r.height);
    var td := IsTopDown(r.height);
    if !RowsFit(r, 3 * r.width) {
      var src :| 0 <= src < h && RowOffset(r, src) + 3 * r.width > |r.bytes|;
      SourceRowBijective(h, td);
      assert SourceRow(SourceRow(src, h, td), h, td) == src;
    }
  }

  // ---------------------------------------------------------------------
  // Pixel data as a BMP writer lays it out

  /** A stored row padded with zero bytes up to the stride (cut to it if
      longer). */
  function Pad(row: seq<Byte>, stride: nat): (s: seq<Byte>)
    ensures |s| == stride
    ensures forall k :: 0 <= k < |row| && k < stride ==> s[k] == row[k]
  {
    if |row| <= stride then row + seq(stride - |row|, _ => 0) else row[..stride]
  }

  /** n strides laid end to end: n * stride, built up by addition so that
      the indexing lemmas below stay linear. */
  function Span(n: nat, stride: nat): nat
  {
    if n == 0 then 0 else stride + Span(n - 1, stride)
  }

  lemma {:induction false} SpanIsProduct(n: nat, stride: nat)
    ensures Span(n, stride) == n * stride
  {
    if n > 0 {
      SpanIsProduct(n - 1, stride);
    }
  }

  /** A row that starts before stored row h ends no later than h starts. */
  lemma {:induction false} SpanBelow(src: nat, h: nat, stride: nat, k: nat)
    requires src < h && k <= stride
    ensures Span(src, stride) + k <= Span(h, stride)
  {
    if src < h - 1 {
      SpanBelow(src, h - 1, stride, k);
    }
  }

  /** The pixel data of a bottom-up file whose displayed rows encode to
      rows: the last displayed row is stored first, every row padded to
      the stride. */
  function Layout(rows: seq<seq<Byte>>, stride: nat): (s: seq<Byte>)
    ensures |s| == Span(|rows|, stride)
  {
    if rows == [] then []
    else
      var n := |rows| - 1;
      Pad(rows[n], stride) + Layout(rows[..n], stride)
  }

  /** Byte k of stored row src is byte k of displayed row |rows|-1-src. */
  lemma {:induction false} LayoutAt(rows: seq<seq<Byte>>, stride: nat, src: nat, k: nat)
    requires src < |rows| && k < |rows[|rows| - 1 - src]| && k < stride
    ensures Span(src, stride) + k < |Layout(rows, stride)|
    ensures Layout(rows, stride)[Span(src, stride) + k] == rows[|rows| - 1 - src][k]
  {
    var n := |rows| - 1;
    SpanBelow(src, |rows|, stride, k + 1);
    if src > 0 {
      assert rows[..n][|rows[..n]| - 1 - (src - 1)] == rows[|rows| - 1 - src];
      LayoutAt(rows[..n], stride, src - 1, k);
      var head, tail := Pad(rows[n], stride), Layout(rows[..n], stride);
      assert Layout(rows, stride) == head + tail;
      ConcatAt(head, tail, Span(src - 1, stride) + k);
    }
  }

  lemma ConcatAt(head: seq<Byte>, tail: seq<Byte>, j: nat)
    requires j < |tail|
    ensures (head + tail)[|head| + j] == tail[j]
  {
  }

  /** The raster of a bottom-up, uncompressed file whose pixel data follows
      prefix and whose displayed rows encode to rows. */
  function Written(prefix: seq<Byte>, rows: seq<seq<Byte>>, width: nat, depth: nat,
                   table: seq<Entry>): Raster
  {
    Raster(prefix + Layout(rows, RowStride(depth, width)), width, |rows|, |prefix|, depth, 0, table)
  }

  /** The bytes of row at offset o of s. */
  predicate StoredAt(s: seq<Byte>, o: int, row: seq<Byte>)
  {
    0 <= o && o + |row| <= |s| && forall k :: 0 <= k < |row| ==> s[o + k] == row[k]
  }

  /** Every displayed row of a written raster sits where the unpackers look
      for it: at dataOffset + src * stride for its stored row src. */
  lemma RowsWritten(prefix: seq<Byte>, rows: seq<seq<Byte>>, width: nat, depth: nat,
                    table: seq<Entry>, len: nat)
    requires len <= RowStride(depth, width)
    requires forall y :: 0 <= y < |rows| ==> |rows[y]| == len
    ensures var r := Written(prefix, rows, width, depth, table);
            RowsFit(r, len) &&
            forall y :: 0 <= y < |rows| ==> StoredAt(r.bytes, RowOffset(r, SourceRow(y, |rows|, false)), rows[y])
  {
    WrittenFits(prefix, rows, width, depth, table, len);
    var r := Written(prefix, rows, width, depth, table);
    forall y | 0 <= y < |rows|
      ensures StoredAt(r.bytes, RowOffset(r, SourceRow(y, |rows|, false)), rows[y])
    {
      WrittenRow(prefix, rows, width, depth, table, len, y);
    }
  }

  lemma WrittenFits(prefix: seq<Byte>, rows: seq<seq<Byte>>, width: nat, depth: nat,
                    table: seq<Entry>, len: nat)
    requires len <= RowStride(depth, width)
    ensures RowsFit(Written(prefix, rows, width, depth, table), len)
  {
    var r := Written(prefix, rows, width, depth, table);
    var stride := RowStride(depth, width);
    forall src | 0 <= src < |rows|
      ensures RowOffset(r, src) + len <= |r.bytes|
    {
      SpanBelow(src, |rows|, stride, len);
      SpanIsProduct(src, stride);
    }
  }

  lemma WrittenRow(prefix: seq<Byte>, rows: seq<seq<Byte>>, width: nat, depth: nat,
                   table: seq<Entry>, len: nat, y: nat)
    requires len <= RowStride(depth, width) && y < |rows|
    requires forall i :: 0 <= i < |rows| ==> |rows[i]| == len
    ensures var r := Written(prefix, rows, width, depth, table);
            StoredAt(r.bytes, RowOffset(r, SourceRow(y, |rows|, false)), rows[y])
  {
    var stride := RowStride(depth, width);
    LayoutRow(prefix, rows, stride, y);
    SpanIsProduct(|rows| - 1 - y, stride);
  }

  lemma LayoutRow(prefix: seq<Byte>, rows: seq<seq<Byte>>, stride: nat, y: nat)
    requires y < |rows| && |rows[y]| <= stride
    ensures StoredAt(prefix + Layout(rows, stride), |prefix| + Span(|rows| - 1 - y, stride), rows[y])
  {
    var src: nat := |rows| - 1 - y;
    SpanBelow(src, |rows|, stride, |rows[y]|);
    forall k | 0 <= k < |rows[y]|
      ensures (prefix + Layout(rows, stride))[|prefix| + Span(src, stride) + k] == rows[y][k]
    {
      WrittenByte(prefix, rows, stride, src, k);
    }
  }

  /** Byte k of stored row src, counted from the start of the file. */
  lemma WrittenByte(prefix: seq<Byte>, rows: seq<seq<Byte>>, stride: nat, src: nat, k: nat)
    requires src < |rows| && k < |rows[|rows| - 1 - src]| && k < stride
    ensures |prefix| + Span(src, stride) + k < |prefix + Layout(rows, stride)|
    ensures (prefix + Layout(rows, stride))[|prefix| + Span(src, stride) + k] == rows[|rows| - 1 - src][k]
  {
    LayoutAt(rows, stride, src, k);
    ConcatAt(prefix, Layout(rows, stride), Span(src, stride) + k);
  }

  /** A grid the unpackers produce from its stored rows, pixel for pixel. */
  lemma UnpackIs(r: Raster, depth: nat, expected: Grid)
    requires depth == 1 || depth == 4 || depth == 8 || depth == 24
    requires depth == 1 ==> |r.colorTable| == 2
    requires PixelReadsFit(r, depth)
    requires |expected| == AbsHeight(r.height)
    requires forall y :: 0 <= y < |expected| ==> |expected[y]| == r.width
    requires forall y, x :: 0 <= y < |expected| && 0 <= x < r.width ==>
               PixelAt(r, depth, RowOffset(r, SourceRow(y, |expected|, IsTopDown(r.height))), x) == expected[y][x]
    ensures Unpack(r, depth) == expected
  {
    forall y | 0 <= y < |expected|
      ensures UnpackRow(r, depth, y) == expected[y]
    {
    }
  }

  /** 24 bpp: each pixel as bytes B, G, R. */
  predicate ByteChannels(p: Pixel)
  {
    0 <= p.r < 256 && 0 <= p.g < 256 && 0 <= p.b < 256
  }

  function ChannelByte(p: Pixel, j: nat): Byte
    requires ByteChannels(p) && j < 3
  {
    if j == 0 then p.b else if j == 1 then p.g else p.r
  }

  function EncodeRow24(row: seq<Pixel>): (s: seq<Byte>)
    requires forall x :: 0 <= x < |row| ==> ByteChannels(row[x])
    ensures |s| == 3 * |row|
  {
    seq(3 * |row|, k requires 0 <= k < 3 * |row| => ChannelByte(row[k / 3], k % 3))
  }

  /** 8 bpp: a palette index per byte; 4 bpp: two per byte, the even pixel
      in the high nibble, the last low nibble 0 when the width is odd. */
  function EncodeRow4(idx: seq<nat>): (s: seq<Byte>)
    requires forall x :: 0 <= x < |idx| ==> idx[x] < 16
    ensures |s| == RowBytes(4, |idx|)
  {
    seq(RowBytes(4, |idx|), k requires 0 <= k < RowBytes(4, |idx|) =>
      16 * idx[2 * k] + (if 2 * k + 1 < |idx| then idx[2 * k + 1] else 0))
  }

  /** 1 bpp: eight pixels per byte, most significant bit first, the bits
      past the width 0. */
  function ByteBits(bits: seq<bool>, k: nat): (b: seq<bool>)
    ensures |b| == 8
  {
    seq(8, j requires 0 <= j < 8 => 8 * k + j < |bits| && bits[8 * k + j])
  }

  function EncodeRow1(bits: seq<bool>): (s: seq<Byte>)
    ensures |s| == RowBytes(1, |bits|)
  {
    assert Pow2(8) == 256;
    seq(RowBytes(1, |bits|), k requires 0 <= k < RowBytes(1, |bits|) => Packed(ByteBits(bits, k)))
  }

  /** What the palette unpackers show for a row of indices. */
  function Paletted(idx: seq<seq<nat>>, table: seq<Entry>): (g: Grid)
    ensures |g| == |idx| && forall y :: 0 <= y < |idx| ==> |g[y]| == |idx[y]|
  {
    seq(|idx|, y requires 0 <= y < |idx| =>
      seq(|idx[y]|, x requires 0 <= x < |idx[y]| => PaletteColor(table, idx[y][x])))
  }

  lemma PixelOfRow24(r: Raster, o: nat, row: seq<Pixel>, x: nat)
    requires |row| == r.width && x < r.width
    requires forall i :: 0 <= i < |row| ==> ByteChannels(row[i])
    requires StoredAt(r.bytes, o, EncodeRow24(row))
    ensures o + RowBytes(24, r.width) <= |r.bytes| && PixelAt(r, 24, o, x) == row[x]
  {
    assert RowBytes(24, r.width) == 3 * r.width;
    var e := EncodeRow24(row);
    assert r.bytes[o + 3 * x] == e[3 * x] == row[x].b;
    assert r.bytes[o + 3 * x + 1] == e[3 * x + 1] == row[x].g;
    assert r.bytes[o + 3 * x + 2] == e[3 * x + 2] == row[x].r;
  }

  lemma PixelOfRow8(r: Raster, o: nat, row: seq<Byte>, x: nat)
    requires |row| == r.width && x < r.width
    requires StoredAt(r.bytes, o, row)
    ensures o + RowBytes(8, r.width) <= |r.bytes| && PixelAt(r, 8, o, x) == PaletteColor(r.colorTable, row[x])
  {
    assert RowBytes(8, r.width) == r.width;
  }

  lemma PixelOfRow4(r: Raster, o: nat, idx: seq<nat>, x: nat)
    requires |idx| == r.width && x < r.width
    requires forall i :: 0 <= i < |idx| ==> idx[i] < 16
    requires StoredAt(r.bytes, o, EncodeRow4(idx))
    ensures o + RowBytes(4, r.width) <= |r.bytes| && PixelAt(r, 4, o, x) == PaletteColor(r.colorTable, idx[x])
  {
    var k := x / 2;
    var e := EncodeRow4(idx);
    assert 8 * k <= 4 * x;
    assert r.bytes[o + k] == e[k];
    var v := r.bytes[o + k];
    if x % 2 == 0 {
      assert 2 * k == x;
      var lo := if 2 * k + 1 < |idx| then idx[2 * k + 1] else 0;
      assert v == 16 * idx[x] + lo;
      NibblesOfPacked(idx[x], lo);
    } else {
      assert 2 * k + 1 == x;
      assert v == 16 * idx[2 * k] + idx[x];
      NibblesOfPacked(idx[2 * k], idx[x]);
    }
  }

  lemma PixelOfRow1(r: Raster, o: nat, bits: seq<bool>, x: nat)
    requires |bits| == r.width && x < r.width && |r.colorTable| == 2
    requires StoredAt(r.bytes, o, EncodeRow1(bits))
    ensures o + RowBytes(1, r.width) <= |r.bytes|
    ensures PixelAt(r, 1, o, x) == PaletteColor(r.colorTable, if bits[x] then 1 else 0)
  {
    var k, j := x / 8, x % 8;
    var b := ByteBits(bits, k);
    var e := EncodeRow1(bits);
    assert x == 8 * k + j;
    assert r.bytes[o + k] == e[k] == Packed(b);
    BitOfPacked(b, j);
    assert b[j] == bits[x];
    assert Bit(r.bytes[o + k], 7 - j) == if bits[x] then 1 else 0;
  }

  /** Any grid of byte-valued pixels written as 24 bpp pixel data after any
      prefix is read back exactly. */
  lemma Parse24RoundTrip(prefix: seq<Byte>, g: Grid, width: nat, table: seq<Entry>)
    requires forall y :: 0 <= y < |g| ==> |g[y]| == width
    requires forall y, x :: 0 <= y < |g| && 0 <= x < |g[y]| ==> ByteChannels(g[y][x])
    ensures var rows := seq(|g|, y requires 0 <= y < |g| => EncodeRow24(g[y]));
            Parse24(Written(prefix, rows, width, 24, table)) == Ok(g)
  {
    var rows := seq(|g|, y requires 0 <= y < |g| => EncodeRow24(g[y]));
    assert RowBytes(24, width) == 3 * width;
    RowsWritten(prefix, rows, width, 24, table, 3 * width);
    var r := Written(prefix, rows, width, 24, table);
    forall y, x | 0 <= y < |g| && 0 <= x < width
      ensures PixelAt(r, 24, RowOffset(r, SourceRow(y, |g|, false)), x) == g[y][x]
    {
      PixelOfRow24(r, RowOffset(r, SourceRow(y, |g|, false)), g[y], x);
    }
    UnpackIs(r, 24, g);
  }

  /** Any grid of byte indices written as 8 bpp pixel data is read back as
      their palette colours, black for an index past the table. */
  lemma Parse8RoundTrip(prefix: seq<Byte>, idx: seq<seq<Byte>>, width: nat, table: seq<Entry>)
    requires table != []
    requires forall y :: 0 <= y < |idx| ==> |idx[y]| == width
    ensures PixelReadsFit(Written(prefix, idx, width, 8, table), 8)
    ensures Parse8(Written(prefix, idx, width, 8, table)) == Ok(Paletted(idx, table))
  {
    assert RowBytes(8, width) == width;
    RowsWritten(prefix, idx, width, 8, table, width);
    var r := Written(prefix, idx, width, 8, table);
    var expected := Paletted(idx, table);
    forall y, x | 0 <= y < |idx| && 0 <= x < width
      ensures PixelAt(r, 8, RowOffset(r, SourceRow(y, |idx|, false)), x) == expected[y][x]
    {
      PixelOfRow8(r, RowOffset(r, SourceRow(y, |idx|, false)), idx[y], x);
    }
    UnpackIs(r, 8, expected);
  }

  /** Any grid of 4-bit indices written two to a byte is read back as their
      palette colours. */
  lemma Parse4RoundTrip(prefix: seq<Byte>, idx: seq<seq<nat>>, width: nat, table: seq<Entry>)
    requires table != []
    requires forall y :: 0 <= y < |idx| ==> |idx[y]| == width
    requires forall y, x :: 0 <= y < |idx| && 0 <= x < |idx[y]| ==> idx[y][x] < 16
    ensures var rows := seq(|idx|, y requires 0 <= y < |idx| => EncodeRow4(idx[y]));
            PixelReadsFit(Written(prefix, rows, width, 4, table), 4) &&
            Parse4(Written(prefix, rows, width, 4, table)) == Ok(Paletted(idx, table))
  {
    var rows := seq(|idx|, y requires 0 <= y < |idx| => EncodeRow4(idx[y]));
    RowsWritten(prefix, rows, width, 4, table, RowBytes(4, width));
    var r := Written(prefix, rows, width, 4, table);
    forall y, x | 0 <= y < |idx| && 0 <= x < width
      ensures PixelAt(r, 4, RowOffset(r, SourceRow(y, |idx|, false)), x) == Paletted(idx, table)[y][x]
    {
      PixelOfRow4(r, RowOffset(r, SourceRow(y, |idx|, false)), idx[y], x);
    }
    UnpackIs(r, 4, Paletted(idx, table));
  }

  /** Any grid of bits written eight to a byte is read back as the two
      palette colours, bit 1 the second. */
  lemma Parse1RoundTrip(prefix: seq<Byte>, bits: seq<seq<bool>>, width: nat, table: seq<Entry>)
    requires |table| == 2
    requires forall y :: 0 <= y < |bits| ==> |bits[y]| == width
    ensures var rows := seq(|bits|, y requires 0 <= y < |bits| => EncodeRow1(bits[y]));
            PixelReadsFit(Written(prefix, rows, width, 1, table), 1) &&
            Parse1(Written(prefix, rows, width, 1, table)) ==
            Ok(seq(|bits|, y requires 0 <= y < |bits| =>
                 seq(width, x requires 0 <= x < width => PaletteColor(table, if bits[y][x] then 1 else 0))))
  {
    var rows := seq(|bits|, y requires 0 <= y < |bits| => EncodeRow1(bits[y]));
    RowsWritten(prefix, rows, width, 1, table, RowBytes(1, width));
    var r := Written(prefix, rows, width, 1, table);
    var expected := seq(|bits|, y requires 0 <= y < |bits| =>
                      seq(width, x requires 0 <= x < width => PaletteColor(table, if bits[y][x] then 1 else 0)));
    forall y, x | 0 <= y < |bits| && 0 <= x < width
      ensures PixelAt(r, 1, RowOffset(r, SourceRow(y, |bits|, false)), x) == expected[y][x]
    {
      PixelOfRow1(r, RowOffset(r, SourceRow(y, |bits|, false)), bits[y], x);
    }
    UnpackIs(r, 1, expected);
  }

  // ---------------------------------------------------------------------
  // The whole file

  /** What openFile leaves in the object: the header, the effective numColors
      and the colour table. */
  datatype Opened = Opened(header: Header, numColors: nat, colorTable: seq<Entry>)

  /** openFile: read the header, reject compression, load the colour table. */
  function Open(s: seq<Byte>): (res: Result<Opened>)
    ensures res.Err? <==> ReadHeader(s).compression != 0
    ensures res.Err? ==> res.error == UnsupportedCompression(ReadHeader(s).compression)
    ensures res.Ok? ==> res.value.header == ReadHeader(s) && |res.value.colorTable| <= res.value.numColors
  {
    var h := ReadHeader(s);
    if h.compression != 0 then Err(UnsupportedCompression(h.compression))
    else
      var n := NumColors(h.bpp, h.clrUsed);
      Ok(Opened(h, n, ColorTable(s, h.bpp, n, h.dataOffset)))
  }

  function RasterOf(s: seq<Byte>, o: Opened): Raster
  {
    Raster(s, o.header.width, o.header.height, o.header.dataOffset, o.header.bpp,
           o.header.compression, o.colorTable)
  }

  predicate DecodeInBounds(s: seq<Byte>)
  {
    Open(s).Ok? ==> InBounds(RasterOf(s, Open(s).value))
  }

  /** Opening a file and generating its pixel grid. */
  function Decode(s: seq<Byte>): (res: Result<Grid>)
    requires DecodeInBounds(s)
    ensures ReadHeader(s).compression != 0 ==> res == Err(UnsupportedCompression(ReadHeader(s).compression))
    ensures res.Ok? ==> |res.value| == ReadHeader(s).height &&
                        forall y :: 0 <= y < |res.value| ==> |res.value[y]| == ReadHeader(s).width
  {
    match Open(s)
    case Err(e) => Err(e)
    case Ok(o) => PixelGrid(RasterOf(s, o))
  }

  /** A 2x2 monochrome file as a BMP writer lays it out: the 54-byte header,
      a two-entry palette (black, white) and two 4-byte rows stored bottom
      row first. */
  function TwoByTwo(): (s: seq<Byte>)
    ensures |s| == 70
  {
    EncodeHeader(Header(70, HeaderSize + 8, 2, 2, 1, 0, 2))
      + EncodePalette([Entry(0, 0, 0, 0), Entry(255, 255, 255, 0)])
      + [0x40, 0, 0, 0, 0x80, 0, 0, 0]
  }

  /** Decoding it gives the top row white-black and the bottom row
      black-white: the header offsets, the palette order, the bottom-up row
      order and the most-significant-bit-first packing all agree with that
      layout. */
  lemma TwoByTwoDecodes()
    ensures DecodeInBounds(TwoByTwo())
    ensures Decode(TwoByTwo()) == Ok([[White, Black], [Black, White]])
  {
    var s := TwoByTwo();
    TwoByTwoOpens();
    var r := RasterOf(s, Open(s).value);
    assert r.bytes[62] == 0x40 && r.bytes[66] == 0x80;
    TwoByTwoRows(r);
  }

  const White := Pixel(255, 255, 255)

  lemma TwoByTwoOpens()
    ensures Open(TwoByTwo()) ==
            Ok(Opened(Header(70, HeaderSize + 8, 2, 2, 1, 0, 2), 2,
                      [Entry(0, 0, 0, 0), Entry(255, 255, 255, 0)]))
  {
    var s := TwoByTwo();
    var h := Header(70, HeaderSize + 8, 2, 2, 1, 0, 2);
    var table := [Entry(0, 0, 0, 0), Entry(255, 255, 255, 0)];
    assert Pow256(2) == 65536 && Pow256(4) == 4294967296;
    HeaderRoundTrip(h, s[HeaderSize..]);
    assert EncodeHeader(h) + s[HeaderSize..] == s;
    assert s[HeaderSize..HeaderSize + 8] == EncodePalette(table);
    ColorTableRoundTrip(s, table, HeaderSize, 1);
  }

  lemma TwoByTwoRows(r: Raster)
    requires r.width == 2 && r.height == 2 && r.dataOffset == HeaderSize + 8 && r.bpp == 1
    requires r.colorTable == [Entry(0, 0, 0, 0), Entry(255, 255, 255, 0)]
    requires |r.bytes| == 70 && r.bytes[62] == 0x40 && r.bytes[66] == 0x80
    ensures InBounds(r) && PixelGrid(r) == Ok([[White, Black], [Black, White]])
  {
    assert RowStride(1, 2) == 4 && RowBytes(1, 2) == 1;
    assert PixelReadsFit(r, 1);
    TwoByTwoPixels(r);
    assert UnpackRow(r, 1, 0) == [White, Black];
    assert UnpackRow(r, 1, 1) == [Black, White];
    assert Unpack(r, 1) == [[White, Black], [Black, White]];
  }

  lemma TwoByTwoPixels(r: Raster)
    requires r.width == 2 && r.colorTable == [Entry(0, 0, 0, 0), Entry(255, 255, 255, 0)]
    requires |r.bytes| == 70 && r.bytes[62] == 0x40 && r.bytes[66] == 0x80
    ensures PixelAt(r, 1, 66, 0) == White && PixelAt(r, 1, 66, 1) == Black
    ensures PixelAt(r, 1, 62, 0) == Black && PixelAt(r, 1, 62, 1) == White
  {
    assert Pow2(6) == 64 && Pow2(7) == 128;
  }

  /** A whole 24 bpp file (header, then bottom-up padded rows of B, G, R
      bytes) decodes to the grid it was written from. */
  lemma Decode24RoundTrip(g: Grid, width: nat, fileSize: nat)
    requires forall y :: 0 <= y < |g| ==> |g[y]| == width
    requires forall y, x :: 0 <= y < |g| && 0 <= x < |g[y]| ==> ByteChannels(g[y][x])
    requires fileSize < Pow256(4) && width < Pow256(4) && |g| < Pow256(4)
    ensures var rows := seq(|g|, y requires 0 <= y < |g| => EncodeRow24(g[y]));
            var s := EncodeHeader(Header(fileSize, HeaderSize, width, |g|, 24, 0, 0))
                     + Layout(rows, RowStride(24, width));
            DecodeInBounds(s) && Decode(s) == Ok(g)
  {
    var rows := seq(|g|, y requires 0 <= y < |g| => EncodeRow24(g[y]));
    var h := Header(fileSize, HeaderSize, width, |g|, 24, 0, 0);
    var s := EncodeHeader(h) + Layout(rows, RowStride(24, width));
    assert Pow256(2) == 65536 && Pow256(4) == 4294967296;
    HeaderRoundTrip(h, Layout(rows, RowStride(24, width)));
    assert Open(s) == Ok(Opened(h, 0, []));
    assert RasterOf(s, Open(s).value) == Written(EncodeHeader(h), rows, width, 24, []);
    Parse24RoundTrip(EncodeHeader(h), g, width, []);
  }

  /** A whole 8 bpp file (header, palette just before the pixel data, then
      bottom-up padded rows of indices) decodes to the palette colours of
      its indices. */
  lemma Decode8RoundTrip(idx: seq<seq<Byte>>, width: nat, table: seq<Entry>, fileSize: nat)
    requires table != [] && HeaderSize + 4 * |table| < Pow256(4)
    requires forall y :: 0 <= y < |idx| ==> |idx[y]| == width
    requires fileSize < Pow256(4) && width < Pow256(4) && |idx| < Pow256(4)
    ensures var s := EncodeHeader(Header(fileSize, HeaderSize + 4 * |table|, width, |idx|, 8, 0, |table|))
                     + EncodePalette(table) + Layout(idx, RowStride(8, width));
            DecodeInBounds(s) && Decode(s) == Ok(Paletted(idx, table))
  {
    var h := Header(fileSize, HeaderSize + 4 * |table|, width, |idx|, 8, 0, |table|);
    var prefix := EncodeHeader(h) + EncodePalette(table);
    var s := prefix + Layout(idx, RowStride(8, width));
    assert Pow256(2) == 65536 && Pow256(4) == 4294967296;
    assert s == EncodeHeader(h) + (EncodePalette(table) + Layout(idx, RowStride(8, width)));
    HeaderRoundTrip(h, EncodePalette(table) + Layout(idx, RowStride(8, width)));
    assert s[HeaderSize..HeaderSize + 4 * |table|] == EncodePalette(table);
    ColorTableRoundTrip(s, table, HeaderSize, 8);
    assert Open(s) == Ok(Opened(h, |table|, table));
    assert RasterOf(s, Open(s).value) == Written(prefix, idx, width, 8, table);
    Parse8RoundTrip(prefix, idx, width, table);
  }

  // ---------------------------------------------------------------------
  // The object

  /** class BMPFile, field for field. Before a file is opened the source holds
      None in compression and bpp; this model holds 0. */
  class BmpFile {
    var filename: string
    var bytes: seq<Byte>
    var fileSize: nat
    var height: int
    var width: nat
    var dataOffset: nat
    var compression: nat
    var bpp: nat
    var colorTable: seq<Entry>
    var numColors: nat
    var pixelmap: Grid

    /** BMPFile(None): no file opened. */
    constructor Empty()
      ensures filename == "" && bytes == [] && fileSize == 0 && height == 0 && width == 0
      ensures dataOffset == 0 && compression == 0 && bpp == 0
      ensures colorTable == [] && numColors == 0 && pixelmap == []
    {
      filename := "";
      bytes := [];
      fileSize := 0;
      height := 0;
      width := 0;
      dataOffset := 0;
      compression := 0;
      bpp := 0;
      colorTable := [];
      numColors := 0;
      pixelmap := [];
    }

    /** The fields the row unpackers read. */
    ghost function Current(): Raster
      reads this`bytes, this`width, this`height, this`dataOffset, this`bpp,
            this`compression, this`colorTable
    {
      Raster(bytes, width, height, dataOffset, bpp, compression, colorTable)
    }

    /** openFile, given the file's name and contents. A compressed file stops
        after the header fields are stored (the source exits there). */
    method OpenFile(name: string, data: seq<Byte>) returns (outcome: Outcome)
      modifies this`filename, this`bytes, this`fileSize, this`dataOffset, this`width,
               this`height, this`bpp, this`compression, this`numColors, this`colorTable
      ensures filename == name && bytes == data
      ensures fileSize == ReadHeader(data).fileSize && dataOffset == ReadHeader(data).dataOffset
      ensures width == ReadHeader(data).width && height == ReadHeader(data).height
      ensures bpp == ReadHeader(data).bpp && compression == ReadHeader(data).compression
      ensures Open(data).Err? ==>
                outcome == Fail(Open(data).error) &&
                numColors == old(numColors) && colorTable == old(colorTable)
      ensures Open(data).Ok? ==>
                outcome == Pass && numColors == Open(data).value.numColors &&
                colorTable == Open(data).value.colorTable
    {
      filename := name;
      bytes := data;
      ReadHeaderFields();
      ghost var h := ReadHeader(data);

      if compression != 0 {
        return Fail(UnsupportedCompression(compression));
      }

      numColors := Field(data, 0x2E, 0x32);
      if numColors == 0 && bpp <= 8 {
        numColors := if bpp == 8 then 256 else Pow2(bpp);
      }
      assert numColors == NumColors(h.bpp, h.clrUsed);

      colorTable := [];
      if bpp <= 8 && numColors > 0 {
        ReadColorTable();
      }
      return Pass;
    }

    /** The header fields openFile stores, each read little-endian from its
        offset in the file. */
    method ReadHeaderFields()
      modifies this`fileSize, this`dataOffset, this`width, this`height, this`bpp, this`compression
      ensures fileSize == ReadHeader(bytes).fileSize && dataOffset == ReadHeader(bytes).dataOffset
      ensures width == ReadHeader(bytes).width && height == ReadHeader(bytes).height
      ensures bpp == ReadHeader(bytes).bpp && compression == ReadHeader(bytes).compression
    {
      ghost var header := ReadHeader(bytes);
      fileSize := Field(bytes, 0x02, 0x06);
      dataOffset := Field(bytes, 0x0A, 0x0E);
      width := Field(bytes, 0x12, 0x16);
      height := Field(bytes, 0x16, 0x1A);
      bpp := Field(bytes, 0x1C, 0x1E);
      compression := Field(bytes, 0x1E, 0x22);
    }

    /** The palette loop of openFile: PaletteCount entries from PaletteStart,
        appended one at a time to the (cleared) colour table. */
    method ReadColorTable()
      requires bpp <= 8 && numColors > 0 && colorTable == []
      modifies this`colorTable
      ensures colorTable == ColorTable(bytes, bpp, numColors, dataOffset)
    {
      var paletteBytes := numColors * 4;
      var offset := dataOffset - paletteBytes;
      if offset < 0 || offset + paletteBytes > |bytes| {
        offset := HeaderSize;
      }
      var paletteEnd := if offset + paletteBytes < |bytes| then offset + paletteBytes else |bytes|;
      var entries := (paletteEnd - offset) / 4;
      ghost var s := bytes;
      ghost var start := PaletteStart(dataOffset, numColors, |bytes|);
      ghost var count := PaletteCount(start, numColors, |bytes|);
      assert offset == start;
      assert entries < 0 ==> count == 0;
      assert entries >= 0 ==> entries == count;
      var i := 0;
      while i < entries
        invariant 0 <= i <= count && (i <= entries || i == 0)
        invariant |colorTable| == i
        invariant forall k :: 0 <= k < i ==> colorTable[k] == EntryAt(bytes, start + 4 * k)
      {
        var b := bytes[offset + i * 4 + 0];
        var g := bytes[offset + i * 4 + 1];
        var r := bytes[offset + i * 4 + 2];
        var a := bytes[offset + i * 4 + 3];
        assert Entry(r, g, b, a) == EntryAt(bytes, start + 4 * i);
        colorTable := colorTable + [Entry(r, g, b, a)];
        i := i + 1;
      }
      assert i == count;
      assert colorTable == seq(count, k requires 0 <= k < count => EntryAt(s, start + 4 * k));
    }

    /** _parse_1bpp */
    method Parse1bpp() returns (res: Result<Grid>)
      requires |colorTable| == 2 ==> PixelReadsFit(Current(), 1)
      modifies this`pixelmap
      ensures res == Parse1(Current())
      ensures pixelmap == if res.Ok? then res.value else old(pixelmap)
    {
      if |colorTable| != 2 {
        return Err(WrongPaletteSize(|colorTable|));
      }
      var stride := RowStride(bpp, width);
      var h := AbsHeight(height);
      var topDown := IsTopDown(height);
      var color0 := colorTable[0];
      var color1 := colorTable[1];

      var grid: Grid := [];
      for y := 0 to h
        invariant |grid| == y
        invariant forall k :: 0 <= k < y ==> grid[k] == UnpackRow(Current(), 1, k)
      {
        var srcRow := if topDown then y else h - 1 - y;
        var rowOffset := dataOffset + srcRow * stride;
        assert rowOffset == RowOffset(Current(), SourceRow(y, h, topDown));
        var rowPixels := Row1bpp(rowOffset, color0, color1);
        assert rowPixels == UnpackRow(Current(), 1, y);
        grid := grid + [rowPixels];
      }
      assert grid == Unpack(Current(), 1);
      pixelmap := grid;
      return Ok(grid);
    }

    /** The x loop of _parse_1bpp over the stored row at rowOffset: bit
        7 - x % 8 of byte x / 8 picks colour 1 or colour 0. */
    method Row1bpp(rowOffset: nat, color0: Entry, color1: Entry) returns (rowPixels: seq<Pixel>)
      requires |colorTable| == 2 && color0 == colorTable[0] && color1 == colorTable[1]
      requires width == 0 || rowOffset + RowBytes(1, width) <= |bytes|
      ensures |rowPixels| == width
      ensures forall k :: 0 <= k < width ==> rowPixels[k] == PixelAt(Current(), 1, rowOffset, k)
    {
      rowPixels := [];
      for x := 0 to width
        invariant |rowPixels| == x
        invariant forall k :: 0 <= k < x ==> rowPixels[k] == PixelAt(Current(), 1, rowOffset, k)
      {
        var byteIndex := x / 8;
        var bitIndex := 7 - x % 8;
        var byteValue := bytes[rowOffset + byteIndex];
        var bit := (byteValue / Pow2(bitIndex)) % 2;
        var c := if bit != 0 then color1 else color0;
        rowPixels := rowPixels + [Pixel(c.r, c.g, c.b)];
      }
    }

    /** _parse_4bpp */
    method Parse4bpp() returns (res: Result<Grid>)
      requires |colorTable| != 0 ==> PixelReadsFit(Current(), 4)
      modifies this`pixelmap
      ensures res == Parse4(Current())
      ensures pixelmap == if res.Ok? then res.value else old(pixelmap)
    {
      if |colorTable| == 0 {
        return Err(MissingPalette(4));
      }
      var stride := RowStride(bpp, width);
      var h := AbsHeight(height);
      var topDown := IsTopDown(height);

      var grid: Grid := [];
      for y := 0 to h
        invariant |grid| == y
        invariant forall k :: 0 <= k < y ==> grid[k] == UnpackRow(Current(), 4, k)
      {
        var srcRow := if topDown then y else h - 1 - y;
        var rowOffset := dataOffset + srcRow * stride;
        assert rowOffset == RowOffset(Current(), SourceRow(y, h, topDown));
        var rowPixels: seq<Pixel> := [];
        for x := 0 to width
          invariant |rowPixels| == x
          invariant forall k :: 0 <= k < x ==> rowPixels[k] == PixelAt(Current(), 4, rowOffset, k)
        {
          var byteVal := bytes[rowOffset + x / 2];
          var idx;
          if x % 2 == 0 {
            idx := (byteVal / 16) % 16;
          } else {
            idx := byteVal % 16;
          }
          var p;
          if idx < |colorTable| {
            var e := colorTable[idx];
            p := Pixel(e.r, e.g, e.b);
          } else {
            p := Pixel(0, 0, 0);
          }
          rowPixels := rowPixels + [p];
        }
        assert rowPixels == UnpackRow(Current(), 4, y);
        grid := grid + [rowPixels];
      }
      assert grid == Unpack(Current(), 4);
      pixelmap := grid;
      return Ok(grid);
    }

    /** _parse_8bpp */
    method Parse8bpp() returns (res: Result<Grid>)
      requires |colorTable| != 0 ==> PixelReadsFit(Current(), 8)
      modifies this`pixelmap
      ensures res == Parse8(Current())
      ensures pixelmap == if res.Ok? then res.value else old(pixelmap)
    {
      if |colorTable| == 0 {
        return Err(MissingPalette(8));
      }
      var stride := RowStride(bpp, width);
      var h := AbsHeight(height);
      var topDown := IsTopDown(height);

      var grid: Grid := [];
      for y := 0 to h
        invariant |grid| == y
        invariant forall k :: 0 <= k < y ==> grid[k] == UnpackRow(Current(), 8, k)
      {
        var srcRow := if topDown then y else h - 1 - y;
        var rowOffset := dataOffset + srcRow * stride;
        assert rowOffset == RowOffset(Current(), SourceRow(y, h, topDown));
        var rowPixels: seq<Pixel> := [];
        for x := 0 to width
          invariant |rowPixels| == x
          invariant forall k :: 0 <= k < x ==> rowPixels[k] == PixelAt(Current(), 8, rowOffset, k)
        {
          var idx := bytes[rowOffset + x];
          var p;
          if idx >= |colorTable| {
            p := Pixel(0, 0, 0);
          } else {
            var e := colorTable[idx];
            p := Pixel(e.r, e.g, e.b);
          }
          rowPixels := rowPixels + [p];
        }
        assert rowPixels == UnpackRow(Current(), 8, y);
        grid := grid + [rowPixels];
      }
      assert grid == Unpack(Current(), 8);
      pixelmap := grid;
      return Ok(grid);
    }

    /** _parse_24bpp: each row is checked against the file length before it
        is read; a short row raises ValueError. */
    method Parse24bpp() returns (res: Result<Grid>)
      modifies this`pixelmap
      ensures res == Parse24(Current())
      ensures pixelmap == if res.Ok? then res.value else old(pixelmap)
    {
      if compression != 0 {
        return Err(UnsupportedCompression(compression));
      }
      var bytesPerPixel := 3;
      var stride := RowStride(bpp, width);
      var h := AbsHeight(height);
      var topDown := IsTopDown(height);

      var grid: Grid := [];
      for y := 0 to h
        invariant |grid| == y
        invariant forall k :: 0 <= k < y ==>
                    RowOffset(Current(), SourceRow(k, h, topDown)) + 3 * width <= |bytes|
        invariant forall k :: 0 <= k < y ==>
                    grid[k] == StoredRow24(Current(), SourceRow(k, h, topDown))
      {
        var srcRow := if topDown then y else h - 1 - y;
        var rowOffset := dataOffset + srcRow * stride;
        assert rowOffset == RowOffset(Current(), SourceRow(y, h, topDown));
        var rowPixels: seq<Pixel> := [];

        var payloadLen := width * bytesPerPixel;
        var end := rowOffset + payloadLen;
        if end > |bytes| {
          Truncated24(Current());
          return Err(TruncatedPixelData);
        }

        var i := rowOffset;
        for x := 0 to width
          invariant |rowPixels| == x && i == rowOffset + 3 * x
          invariant forall k :: 0 <= k < x ==>
                      rowPixels[k] == Pixel(bytes[rowOffset + 3 * k + 2], bytes[rowOffset + 3 * k + 1], bytes[rowOffset + 3 * k])
        {
          var b := bytes[i + 0];
          var g := bytes[i + 1];
          var r := bytes[i + 2];
          rowPixels := rowPixels + [Pixel(r, g, b)];
          i := i + 3;
        }
        assert rowPixels == StoredRow24(Current(), srcRow);
        grid := grid + [rowPixels];
      }
      Truncated24(Current());
      Unpack24(Current());
      assert grid == Unpack(Current(), 24);
      pixelmap := grid;
      return Ok(grid);
    }

    /** generatePixelGrid */
    method GeneratePixelGrid() returns (res: Result<Grid>)
      requires InBounds(Current())
      modifies this`pixelmap
      ensures res == PixelGrid(Current())
      ensures pixelmap == if res.Ok? then res.value else old(pixelmap)
    {
      if bpp == 1 {
        res := Parse1bpp();
      } else if bpp == 4 {
        res := Parse4bpp();
      } else if bpp == 8 {
        res := Parse8bpp();
      } else if bpp == 24 {
        res := Parse24bpp();
      } else {
        res := Err(UnsupportedBitDepth(bpp));
      }
    }
  }

  /** BMPFile(url) for a url that is not None: a fresh object, then openFile. */
  method OpenBmp(name: string, data: seq<Byte>) returns (f: BmpFile, outcome: Outcome)
    ensures fresh(f) && f.filename == name && f.bytes == data && f.pixelmap == []
    ensures f.fileSize == ReadHeader(data).fileSize
    ensures outcome.Fail? <==> Open(data).Err?
    ensures Open(data).Err? ==> outcome == Fail(Open(data).error)
    ensures Open(data).Ok? ==> f.Current() == RasterOf(data, Open(data).value) &&
                               f.numColors == Open(data).value.numColors
  {
    f := new BmpFile.Empty();
    outcome := f.OpenFile(name, data);
  }
}
