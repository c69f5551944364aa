/**
 * `Graphics`: the screen bitmap as a BMP file in memory. Unlike
 * `ScreenCapture`, the pixel area uses DWORD-aligned rows of the bitmap's own
 * bit depth, and the fields it does not set are zero.
 */
module Graphics {
  import opened Bytes
  import opened Wrappers
  import opened Errors
  import opened Bmp

  /** Bytes per row: the row's bits rounded up to whole DWORDs. */
  function Stride(width: nat, bitCount: nat): nat
  {
    ((width * bitCount + 31) / 32) * 4
  }

  /** The smallest whole number of bytes that holds `bits` bits. */
  function BytesFor(bits: nat): nat
  {
    (bits + 7) / 8
  }

  /** A row is a whole number of DWORDs, holds every pixel bit and wastes fewer than 4 bytes. */
  lemma StrideIsAligned(width: nat, bitCount: nat)
    ensures Stride(width, bitCount) % 4 == 0
    ensures Stride(width, bitCount) >= BytesFor(width * bitCount)
    ensures Stride(width, bitCount) < BytesFor(width * bitCount) + 4
  {
    var bits := width * bitCount;
    var q := (bits + 31) / 32;
    assert 32 * q <= bits + 31 < 32 * q + 32;
  }

  /** No smaller DWORD-aligned row holds the pixel bits. */
  lemma StrideIsMinimal(width: nat, bitCount: nat, s: nat)
    requires s % 4 == 0 && s >= BytesFor(width * bitCount)
    ensures s >= Stride(width, bitCount)
  {
    var bits := width * bitCount;
    var q := (bits + 31) / 32;
    assert 8 * s >= bits;
    assert s / 4 * 32 >= bits;
  }

  /** biSizeImage as `create_bitmap_info` computes it. */
  function ImageSize(bmp: Bitmap): int
    requires bmp.width >= 0 && bmp.height >= 0
  {
    Stride(bmp.width, bmp.bitsPixel) * bmp.height
  }

  /**
   * A bitmap whose size arithmetic does not overflow: `create_bitmap_info`
   * computes the row bits and the image size in LONG, and `to_vector` the file
   * size in DWORD.
   */
  predicate Fits(bmp: Bitmap)
  {
    && bmp.width >= 0 && bmp.height >= 0
    && bmp.width * bmp.bitsPixel + 31 < I32_LIMIT
    && ImageSize(bmp) < I32_LIMIT
    && FILE_HEADER_SIZE + INFO_HEADER_SIZE + ImageSize(bmp) < U32_LIMIT
  }

  /**
   * `create_bitmap_info`: the BITMAPINFOHEADER of the bitmap, value-initialised
   * so every field it does not assign is zero; GetObject's error if it fails.
   */
  function CreateBitmapInfo(bitmapObject: Result<Bitmap, ErrorCode>): (r: Result<InfoHeader, ErrorCode>)
    requires bitmapObject.Success? ==> Fits(bitmapObject.value)
    ensures r.Failure? <==> bitmapObject.Failure?
    ensures r.Failure? ==> r.error == bitmapObject.error
    ensures r.Success? ==>
      var bmp, h := bitmapObject.value, r.value;
      && h.biSize == INFO_HEADER_SIZE
      && h.biWidth == bmp.width && h.biHeight == bmp.height
      && h.biPlanes == bmp.planes && h.biBitCount == bmp.bitsPixel
      && h.biCompression == BI_RGB && h.biClrImportant == 0
      && h.biSizeImage == ImageSize(bmp)
      && h.biSizeImage % 4 == 0
      && h.biSizeImage >= BytesFor(bmp.width * bmp.bitsPixel) * bmp.height
      && h.biXPelsPerMeter == 0 && h.biYPelsPerMeter == 0 && h.biClrUsed == 0
  {
    match bitmapObject
    case Failure(e) => Failure(e)
    case Success(bmp) =>
      StrideIsAligned(bmp.width, bmp.bitsPixel);
      StrideTimesRows(bmp.width, bmp.bitsPixel, bmp.height);
      Success(InfoHeader(
        INFO_HEADER_SIZE, bmp.width, bmp.height, bmp.planes, bmp.bitsPixel,
        BI_RGB, ((bmp.width * bmp.bitsPixel + 31) / 32) * 4 * bmp.height, 0, 0, 0, 0))
  }

  lemma StrideTimesRows(width: nat, bitCount: nat, height: nat)
    ensures (Stride(width, bitCount) * height) % 4 == 0
    ensures Stride(width, bitCount) * height >= BytesFor(width * bitCount) * height
  {
    StrideIsAligned(width, bitCount);
    var q := (width * bitCount + 31) / 32;
    assert Stride(width, bitCount) * height == 4 * (q * height);
    MulMonotone(BytesFor(width * bitCount), Stride(width, bitCount), height);
  }

  /** The BITMAPFILEHEADER `to_vector` builds for an info header. */
  function FileHeaderFor(info: InfoHeader): (fh: FileHeader)
    requires FILE_HEADER_SIZE + info.biSize + info.biSizeImage < U32_LIMIT
    ensures fh.bfType == BM && fh.bfReserved1 == 0 && fh.bfReserved2 == 0
    ensures fh.bfOffBits == FILE_HEADER_SIZE + info.biSize
    ensures fh.bfOffBits + info.biSizeImage == fh.bfSize
  {
    FileHeader(BM, FILE_HEADER_SIZE + info.biSize + info.biSizeImage, 0, 0,
      FILE_HEADER_SIZE + info.biSize)
  }

  /** GetDIBits writes no more than the pixel area the header describes. */
  predicate ScanFits(bitmapObject: Result<Bitmap, ErrorCode>, scan: Result<seq<byte>, ErrorCode>)
  {
    bitmapObject.Success? && scan.Success? && Fits(bitmapObject.value) ==>
      |scan.value| <= ImageSize(bitmapObject.value)
  }

  /** What `to_vector` returns: the BMP file of the bitmap, or the first Win32 error. */
  function Image(bitmapObject: Result<Bitmap, ErrorCode>, scan: Result<seq<byte>, ErrorCode>)
    : (r: Result<seq<byte>, ErrorCode>)
    requires bitmapObject.Success? ==> Fits(bitmapObject.value)
    requires ScanFits(bitmapObject, scan)
  {
    match CreateBitmapInfo(bitmapObject)
    case Failure(e) => Failure(e)
    case Success(info) =>
      match scan
      case Failure(e) => Failure(e)
      case Success(lines) =>
        Success(BmpFile(FileHeaderFor(info), info, PixelArea(info.biSizeImage, lines)))
  }

  /**
   * The file `to_vector` returns is exactly `bfSize` bytes: a BMP reader finds
   * the file header at 0..13, the info header at 14..53 and the pixel area
   * from `bfOffBits`.
   */
  lemma ImageLayout(bitmapObject: Result<Bitmap, ErrorCode>, scan: Result<seq<byte>, ErrorCode>)
    requires bitmapObject.Success? ==> Fits(bitmapObject.value)
    requires ScanFits(bitmapObject, scan)
    ensures Image(bitmapObject, scan).Success? <==> bitmapObject.Success? && scan.Success?
    ensures Image(bitmapObject, scan).Success? ==>
      var bytes := Image(bitmapObject, scan).value;
      var info := CreateBitmapInfo(bitmapObject).value;
      var fh := FileHeaderFor(info);
      && |bytes| == fh.bfSize
      && fh.bfOffBits == FILE_HEADER_SIZE + INFO_HEADER_SIZE
      && ParseFileHeader(bytes[..FILE_HEADER_SIZE]) == fh
      && ParseInfoHeader(bytes[FILE_HEADER_SIZE..fh.bfOffBits]) == info
      && bytes[fh.bfOffBits..] == PixelArea(info.biSizeImage, scan.value)
  {
    if bitmapObject.Success? && scan.Success? {
      var info := CreateBitmapInfo(bitmapObject).value;
      BmpFileRoundTrip(FileHeaderFor(info), info, PixelArea(info.biSizeImage, scan.value));
    }
  }

  /**
   * `to_vector`: build the headers, append their bytes, resize to `bfSize`
   * and let GetDIBits fill the pixels from `bfOffBits`.
   */
  method ToVector(bitmapObject: Result<Bitmap, ErrorCode>, scan: Result<seq<byte>, ErrorCode>)
    returns (r: Result<seq<byte>, ErrorCode>)
    requires bitmapObject.Success? ==> Fits(bitmapObject.value)
    requires ScanFits(bitmapObject, scan)
    ensures r == Image(bitmapObject, scan)
    ensures r.Failure? <==> bitmapObject.Failure? || scan.Failure?
    ensures r.Failure? ==> r.error == if bitmapObject.Failure? then bitmapObject.error else scan.error
  {
    var bmi := CreateBitmapInfo(bitmapObject);
    if bmi.Failure? {
      assert Image(bitmapObject, scan) == Failure(bmi.error);
      return Failure(bmi.error);
    }
    var info := bmi.value;
    var header := FileHeaderFor(info);
    if scan.Failure? {
      assert Image(bitmapObject, scan) == Failure(scan.error);
      return Failure(scan.error);
    }
    var bmp := AssembleFile(header, info, scan.value);
    return Success(bmp);
  }

  /**
   * The collaborators `capture_screen` calls, as what each of them yields:
   * the Graphics constructor (GetDC, CreateCompatibleDC), `capture_screen`,
   * then GetObject and GetDIBits inside `to_vector`.
   */
  datatype Desktop = Desktop(
    devices: Option<ErrorCode>,
    capture: Option<ErrorCode>,
    bitmapObject: Result<Bitmap, ErrorCode>,
    scan: Result<seq<byte>, ErrorCode>)

  predicate DesktopFits(d: Desktop)
  {
    (d.bitmapObject.Success? ==> Fits(d.bitmapObject.value)) && ScanFits(d.bitmapObject, d.scan)
  }
}
