/**
 * The Microsoft BMP file layout shared by `ScreenCapture::to_bmp` and
 * `Graphics::to_vector`: BITMAPFILEHEADER (14 bytes, packed), BITMAPINFOHEADER
 * (40 bytes), then the pixel array, every field little-endian.
 */
module Bmp {
  import opened Bytes

  /** sizeof(BITMAPFILEHEADER) and sizeof(BITMAPINFOHEADER). */
  const FILE_HEADER_SIZE: nat := 14
  const INFO_HEADER_SIZE: nat := 40
  /** bfType of a bitmap file: the characters "BM". */
  const BM: u16 := 0x4D42
  /** biCompression for uncompressed pixels. */
  const BI_RGB: u32 := 0

  /** BITMAP as GetObject fills it for a bitmap handle (the fields the program reads). */
  datatype Bitmap = Bitmap(width: i32, height: i32, planes: u16, bitsPixel: u16)

  datatype FileHeader = FileHeader(
    bfType: u16, bfSize: u32, bfReserved1: u16, bfReserved2: u16, bfOffBits: u32)

  datatype InfoHeader = InfoHeader(
    biSize: u32, biWidth: i32, biHeight: i32, biPlanes: u16, biBitCount: u16,
    biCompression: u32, biSizeImage: u32, biXPelsPerMeter: i32, biYPelsPerMeter: i32,
    biClrUsed: u32, biClrImportant: u32)

  function WordBytes(v: u16): (r: seq<byte>)
    ensures |r| == 2
  {
    Pow256Widths();
    LittleEndian(v, 2)
  }

  function DwordBytes(v: u32): (r: seq<byte>)
    ensures |r| == 4
  {
    Pow256Widths();
    LittleEndian(v, 4)
  }

  function LongBytes(v: i32): (r: seq<byte>)
    ensures |r| == 4
  {
    Pow256Widths();
    LittleEndian(TwosComplement(v, 4), 4)
  }

  function ReadWord(s: seq<byte>): u16
    requires |s| == 2
  {
    Pow256Widths();
    FromLittleEndian(s)
  }

  function ReadDword(s: seq<byte>): u32
    requires |s| == 4
  {
    Pow256Widths();
    FromLittleEndian(s)
  }

  function ReadLong(s: seq<byte>): i32
    requires |s| == 4
  {
    Pow256Widths();
    FromTwosComplement(FromLittleEndian(s), 4)
  }

  lemma WordRoundTrip(v: u16)
    ensures ReadWord(WordBytes(v)) == v
  {
    Pow256Widths();
    LittleEndianRoundTrip(v, 2);
  }

  lemma DwordRoundTrip(v: u32)
    ensures ReadDword(DwordBytes(v)) == v
  {
    Pow256Widths();
    LittleEndianRoundTrip(v, 4);
  }

  lemma LongRoundTrip(v: i32)
    ensures ReadLong(LongBytes(v)) == v
  {
    Pow256Widths();
    LittleEndianRoundTrip(TwosComplement(v, 4), 4);
  }

  /** The 14 object bytes of a BITMAPFILEHEADER. */
  function FileHeaderBytes(h: FileHeader): (r: seq<byte>)
    ensures |r| == FILE_HEADER_SIZE
  {
    WordBytes(h.bfType) + DwordBytes(h.bfSize) + WordBytes(h.bfReserved1)
      + WordBytes(h.bfReserved2) + DwordBytes(h.bfOffBits)
  }

  /** The 40 object bytes of a BITMAPINFOHEADER: its geometry, then its sizes and colour counts. */
  function InfoHeaderBytes(h: InfoHeader): (r: seq<byte>)
    ensures |r| == INFO_HEADER_SIZE
  {
    InfoGeometryBytes(h) + InfoSizesBytes(h)
  }

  /** Bytes 0..19: biSize, biWidth, biHeight, biPlanes, biBitCount, biCompression. */
  function InfoGeometryBytes(h: InfoHeader): (r: seq<byte>)
    ensures |r| == 20
  {
    DwordBytes(h.biSize) + LongBytes(h.biWidth) + LongBytes(h.biHeight)
      + WordBytes(h.biPlanes) + WordBytes(h.biBitCount) + DwordBytes(h.biCompression)
  }

  /** Bytes 20..39: biSizeImage, biXPelsPerMeter, biYPelsPerMeter, biClrUsed, biClrImportant. */
  function InfoSizesBytes(h: InfoHeader): (r: seq<byte>)
    ensures |r| == 20
  {
    DwordBytes(h.biSizeImage) + LongBytes(h.biXPelsPerMeter) + LongBytes(h.biYPelsPerMeter)
      + DwordBytes(h.biClrUsed) + DwordBytes(h.biClrImportant)
  }

  /** How a BMP reader takes the file header from the first 14 bytes. */
  function ParseFileHeader(s: seq<byte>): FileHeader
    requires |s| == FILE_HEADER_SIZE
  {
    FileHeader(ReadWord(s[0..2]), ReadDword(s[2..6]), ReadWord(s[6..8]),
      ReadWord(s[8..10]), ReadDword(s[10..14]))
  }

  /** How a BMP reader takes the info header from the 40 bytes that follow. */
  function ParseInfoHeader(s: seq<byte>): InfoHeader
    requires |s| == INFO_HEADER_SIZE
  {
    var g, z := s[..20], s[20..];
    InfoHeader(ReadDword(g[0..4]), ReadLong(g[4..8]), ReadLong(g[8..12]),
      ReadWord(g[12..14]), ReadWord(g[14..16]), ReadDword(g[16..20]),
      ReadDword(z[0..4]), ReadLong(z[4..8]), ReadLong(z[8..12]),
      ReadDword(z[12..16]), ReadDword(z[16..20]))
  }

  lemma FileHeaderRoundTrip(h: FileHeader)
    ensures ParseFileHeader(FileHeaderBytes(h)) == h
  {
    var s := FileHeaderBytes(h);
    assert s[0..2] == WordBytes(h.bfType);
    assert s[2..6] == DwordBytes(h.bfSize);
    assert s[6..8] == WordBytes(h.bfReserved1);
    assert s[8..10] == WordBytes(h.bfReserved2);
    assert s[10..14] == DwordBytes(h.bfOffBits);
    WordRoundTrip(h.bfType);
    DwordRoundTrip(h.bfSize);
    WordRoundTrip(h.bfReserved1);
    WordRoundTrip(h.bfReserved2);
    DwordRoundTrip(h.bfOffBits);
  }

  lemma InfoHeaderRoundTrip(h: InfoHeader)
    ensures ParseInfoHeader(InfoHeaderBytes(h)) == h
  {
    ConcatSlices(InfoGeometryBytes(h), InfoSizesBytes(h));
    InfoGeometrySlices(h);
    InfoSizesSlices(h);
    DwordRoundTrip(h.biSize);
    LongRoundTrip(h.biWidth);
    LongRoundTrip(h.biHeight);
    WordRoundTrip(h.biPlanes);
    WordRoundTrip(h.biBitCount);
    DwordRoundTrip(h.biCompression);
    DwordRoundTrip(h.biSizeImage);
    LongRoundTrip(h.biXPelsPerMeter);
    LongRoundTrip(h.biYPelsPerMeter);
    DwordRoundTrip(h.biClrUsed);
    DwordRoundTrip(h.biClrImportant);
  }

  lemma InfoGeometrySlices(h: InfoHeader)
    ensures var g := InfoGeometryBytes(h);
      && g[0..4] == DwordBytes(h.biSize) && g[4..8] == LongBytes(h.biWidth)
      && g[8..12] == LongBytes(h.biHeight) && g[12..14] == WordBytes(h.biPlanes)
      && g[14..16] == WordBytes(h.biBitCount) && g[16..20] == DwordBytes(h.biCompression)
  {
    var g := InfoGeometryBytes(h);
    ConcatSlices(DwordBytes(h.biSize) + LongBytes(h.biWidth) + LongBytes(h.biHeight)
      + WordBytes(h.biPlanes) + WordBytes(h.biBitCount), DwordBytes(h.biCompression));
    assert g[0..4] == DwordBytes(h.biSize);
    assert g[4..8] == LongBytes(h.biWidth);
    assert g[8..12] == LongBytes(h.biHeight);
    assert g[12..14] == WordBytes(h.biPlanes);
    assert g[14..16] == WordBytes(h.biBitCount);
    assert g[16..20] == DwordBytes(h.biCompression);
  }

  lemma InfoSizesSlices(h: InfoHeader)
    ensures var z := InfoSizesBytes(h);
      && z[0..4] == DwordBytes(h.biSizeImage) && z[4..8] == LongBytes(h.biXPelsPerMeter)
      && z[8..12] == LongBytes(h.biYPelsPerMeter) && z[12..16] == DwordBytes(h.biClrUsed)
      && z[16..20] == DwordBytes(h.biClrImportant)
  {
    var z := InfoSizesBytes(h);
    ConcatSlices(DwordBytes(h.biSizeImage) + LongBytes(h.biXPelsPerMeter)
      + LongBytes(h.biYPelsPerMeter) + DwordBytes(h.biClrUsed), DwordBytes(h.biClrImportant));
    assert z[0..4] == DwordBytes(h.biSizeImage);
    assert z[4..8] == LongBytes(h.biXPelsPerMeter);
    assert z[8..12] == LongBytes(h.biYPelsPerMeter);
    assert z[12..16] == DwordBytes(h.biClrUsed);
    assert z[16..20] == DwordBytes(h.biClrImportant);
  }

  /**
   * The pixel area of `size` bytes after `resize` zero-filled it and GetDIBits
   * wrote its scan lines at the start of it.
   */
  function PixelArea(size: nat, scan: seq<byte>): (r: seq<byte>)
    requires |scan| <= size
    ensures |r| == size && r[..|scan|] == scan
    ensures forall i :: |scan| <= i < size ==> r[i] == 0
  {
    scan + Zeros(size - |scan|)
  }

  /** The bytes of a BMP file: file header, info header, then the pixel area. */
  function BmpFile(fh: FileHeader, ih: InfoHeader, pixels: seq<byte>): seq<byte>
  {
    FileHeaderBytes(fh) + InfoHeaderBytes(ih) + pixels
  }

  /** Where each part of the file lies. */
  lemma BmpFileLayout(fh: FileHeader, ih: InfoHeader, pixels: seq<byte>)
    ensures var f := BmpFile(fh, ih, pixels);
      && |f| == FILE_HEADER_SIZE + INFO_HEADER_SIZE + |pixels|
      && f[..FILE_HEADER_SIZE] == FileHeaderBytes(fh)
      && f[FILE_HEADER_SIZE..FILE_HEADER_SIZE + INFO_HEADER_SIZE] == InfoHeaderBytes(ih)
      && f[FILE_HEADER_SIZE + INFO_HEADER_SIZE..] == pixels
  {
  }

  /**
   * How `to_bmp` and `to_vector` assemble a file: append both headers, resize
   * the buffer to `bfSize` with zeros, and let GetDIBits write its scan lines
   * from `bfOffBits`. The result is the BMP file whose pixel area holds them.
   */
  method AssembleFile(fh: FileHeader, ih: InfoHeader, lines: seq<byte>) returns (bmp: seq<byte>)
    requires fh.bfOffBits == FILE_HEADER_SIZE + INFO_HEADER_SIZE
    requires fh.bfSize == fh.bfOffBits + ih.biSizeImage && |lines| <= ih.biSizeImage
    ensures bmp == BmpFile(fh, ih, PixelArea(ih.biSizeImage, lines))
  {
    var off := fh.bfOffBits;
    var size := ih.biSizeImage;
    bmp := [];
    bmp := bmp + FileHeaderBytes(fh);
    bmp := bmp + InfoHeaderBytes(ih);
    ghost var headers := bmp;
    // resize: zero-fill up to bfSize
    bmp := bmp + Zeros(fh.bfSize - off);
    ghost var resized := bmp;
    // GetDIBits: the scan lines overwrite the start of the pixel area
    bmp := bmp[..off] + lines + bmp[off + |lines|..];
    ConcatSlices(headers, Zeros(size));
    assert resized[off + |lines|..] == Zeros(size)[|lines|..];
    ZerosSuffix(size, |lines|);
    assert bmp == headers + lines + Zeros(size - |lines|);
    assert bmp == headers + PixelArea(size, lines);
  }

  /** A BMP reader recovers both headers and the pixel area from the file bytes. */
  lemma BmpFileRoundTrip(fh: FileHeader, ih: InfoHeader, pixels: seq<byte>)
    ensures var f := BmpFile(fh, ih, pixels);
      && |f| == FILE_HEADER_SIZE + INFO_HEADER_SIZE + |pixels|
      && ParseFileHeader(f[..FILE_HEADER_SIZE]) == fh
      && ParseInfoHeader(f[FILE_HEADER_SIZE..FILE_HEADER_SIZE + INFO_HEADER_SIZE]) == ih
      && f[FILE_HEADER_SIZE + INFO_HEADER_SIZE..] == pixels
  {
    BmpFileLayout(fh, ih, pixels);
    FileHeaderRoundTrip(fh);
    InfoHeaderRoundTrip(ih);
  }
}
