/**
 * `ScreenCapture`: fills a BITMAPINFO and a BITMAPFILEHEADER from a captured
 * bitmap (4 bytes per pixel, no row padding), lays them out as a BMP file and
 * lists the pixel rows top-down for the PNG encoder.
 */
module ScreenCaptures {
  import opened Bytes
  import opened Wrappers
  import opened Errors
  import opened Bmp

  /** The pixel bytes `fill_bitmap_info` reserves: width * height * 4. */
  function ImageSize(bmp: Bitmap): int
  {
    bmp.width * bmp.height * 4
  }

  /**
   * A bitmap whose size arithmetic does not overflow: `fill_bitmap_info`
   * computes width * height * 4 in LONG, and `fill_bitmap_file_header` the
   * file size in DWORD.
   */
  predicate Fits(bmp: Bitmap)
  {
    && bmp.width >= 0 && bmp.height >= 0
    && ImageSize(bmp) < I32_LIMIT
    && FILE_HEADER_SIZE + INFO_HEADER_SIZE + ImageSize(bmp) < U32_LIMIT
  }

  /** The BITMAPINFOHEADER fields `fill_bitmap_info` assigns, for a bitmap. */
  ghost predicate DescribesBitmap(h: InfoHeader, bmp: Bitmap)
  {
    && h.biSize == INFO_HEADER_SIZE
    && h.biWidth == bmp.width && h.biHeight == bmp.height
    && h.biPlanes == bmp.planes && h.biBitCount == bmp.bitsPixel
    && h.biCompression == BI_RGB
    && h.biSizeImage == ImageSize(bmp)
    && h.biClrImportant == 0
  }

  class ScreenCapture {
    var bitmapInfo: InfoHeader
    var fileHeader: FileHeader
    /** What GetObject reports for the bitmap handle. */
    const bitmapObject: Result<Bitmap, ErrorCode>
    /** What GetDIBits does with the device context and bitmap: the scan lines it writes, or its error. */
    const scan: Result<seq<byte>, ErrorCode>

    /** Both headers describe the captured bitmap and GetDIBits fits in its pixel area. */
    ghost predicate Valid()
      reads this
    {
      && bitmapObject.Success?
      && Fits(bitmapObject.value)
      && DescribesBitmap(bitmapInfo, bitmapObject.value)
      && fileHeader.bfType == BM
      && fileHeader.bfReserved1 == 0 && fileHeader.bfReserved2 == 0
      && fileHeader.bfOffBits == FILE_HEADER_SIZE + INFO_HEADER_SIZE
      && fileHeader.bfSize == fileHeader.bfOffBits + bitmapInfo.biSizeImage
      && (scan.Success? ==> |scan.value| <= bitmapInfo.biSizeImage)
    }

    /** The members before the constructor body runs; their contents are indeterminate. */
    constructor Uninitialized(
      bitmapObject: Result<Bitmap, ErrorCode>, scan: Result<seq<byte>, ErrorCode>,
      info: InfoHeader, file: FileHeader)
      ensures this.bitmapObject == bitmapObject && this.scan == scan
      ensures bitmapInfo == info && fileHeader == file
    {
      this.bitmapObject, this.scan := bitmapObject, scan;
      bitmapInfo, fileHeader := info, file;
    }

    /**
     * The constructor: fill both headers, or throw the Win32Error of a failed
     * GetObject, in which case no object results.
     */
    static method Create(
      bitmapObject: Result<Bitmap, ErrorCode>, scan: Result<seq<byte>, ErrorCode>,
      info: InfoHeader, file: FileHeader)
      returns (r: Result<ScreenCapture, ErrorCode>)
      requires bitmapObject.Success? ==> Fits(bitmapObject.value)
      requires bitmapObject.Success? && scan.Success? ==> |scan.value| <= ImageSize(bitmapObject.value)
      ensures r.Failure? <==> bitmapObject.Failure?
      ensures r.Failure? ==> r.error == bitmapObject.error
      ensures r.Success? ==> fresh(r.value) && r.value.Valid()
      ensures r.Success? ==> r.value.bitmapObject == bitmapObject && r.value.scan == scan
    {
      var sc := new ScreenCapture.Uninitialized(bitmapObject, scan, info, file);
      var err := sc.FillBitmapHeaders();
      if err.Some? {
        return Failure(err.value);
      }
      return Success(sc);
    }

    /** `fill_bitmap_headers`: the info header, then the file header from it. */
    method FillBitmapHeaders() returns (err: Option<ErrorCode>)
      requires bitmapObject.Success? ==> Fits(bitmapObject.value)
      requires bitmapObject.Success? && scan.Success? ==> |scan.value| <= ImageSize(bitmapObject.value)
      modifies this
      ensures err.Some? <==> bitmapObject.Failure?
      ensures err.Some? ==> err.value == bitmapObject.error
      ensures err.Some? ==> bitmapInfo == old(bitmapInfo) && fileHeader == old(fileHeader)
      ensures err.None? ==> Valid()
    {
      err := FillBitmapInfo();
      if err.None? {
        FillBitmapFileHeader(bitmapInfo);
      }
    }

    /**
     * `fill_bitmap_info`: copy the bitmap's geometry, 32 bits per pixel with no
     * row padding. Fields it never assigns keep their indeterminate contents.
     */
    method FillBitmapInfo() returns (err: Option<ErrorCode>)
      requires bitmapObject.Success? ==> Fits(bitmapObject.value)
      modifies this`bitmapInfo
      ensures err.Some? <==> bitmapObject.Failure?
      ensures err.Some? ==> err.value == bitmapObject.error && bitmapInfo == old(bitmapInfo)
      ensures err.None? ==> DescribesBitmap(bitmapInfo, bitmapObject.value)
      ensures bitmapInfo.biXPelsPerMeter == old(bitmapInfo.biXPelsPerMeter)
      ensures bitmapInfo.biYPelsPerMeter == old(bitmapInfo.biYPelsPerMeter)
      ensures bitmapInfo.biClrUsed == old(bitmapInfo.biClrUsed)
    {
      match bitmapObject
      case Failure(e) =>
        return Some(e);
      case Success(bmp) =>
        bitmapInfo := bitmapInfo.(
          biSize := INFO_HEADER_SIZE,
          biWidth := bmp.width,
          biHeight := bmp.height,
          biPlanes := bmp.planes,
          biBitCount := bmp.bitsPixel,
          biCompression := BI_RGB,
          biSizeImage := bmp.width * bmp.height * 4,
          biClrImportant := 0);
        return None;
    }

    /**
     * `fill_bitmap_file_header`: "BM", the total size counting both headers,
     * zero reserved words, and the pixels right after the info header.
     */
    method FillBitmapFileHeader(info: InfoHeader)
      requires FILE_HEADER_SIZE + INFO_HEADER_SIZE + info.biSizeImage < U32_LIMIT
      requires FILE_HEADER_SIZE + info.biSize < U32_LIMIT
      modifies this`fileHeader
      ensures fileHeader.bfType == BM
      ensures fileHeader.bfReserved1 == 0 && fileHeader.bfReserved2 == 0
      ensures fileHeader.bfSize == FILE_HEADER_SIZE + INFO_HEADER_SIZE + info.biSizeImage
      ensures fileHeader.bfOffBits == FILE_HEADER_SIZE + info.biSize
      ensures info.biSize == INFO_HEADER_SIZE ==>
        fileHeader.bfOffBits + info.biSizeImage == fileHeader.bfSize
    {
      fileHeader := FileHeader(
        BM,
        FILE_HEADER_SIZE + INFO_HEADER_SIZE + info.biSizeImage,
        0,
        0,
        FILE_HEADER_SIZE + info.biSize);
    }

    /**
     * `to_bmp`: the file header, the info header, then the pixel area GetDIBits
     * fills from `bfOffBits`; exactly `bfSize` bytes, or GetDIBits' error.
     */
    method ToBmp() returns (r: Result<seq<byte>, ErrorCode>)
      requires Valid()
      ensures r.Failure? <==> scan.Failure?
      ensures r.Failure? ==> r.error == scan.error
      ensures r.Success? ==>
        && |r.value| == fileHeader.bfSize
        && r.value[..FILE_HEADER_SIZE] == FileHeaderBytes(fileHeader)
        && r.value[FILE_HEADER_SIZE..fileHeader.bfOffBits] == InfoHeaderBytes(bitmapInfo)
        && r.value[fileHeader.bfOffBits..] == PixelArea(bitmapInfo.biSizeImage, scan.value)
    {
      match scan
      case Failure(e) =>
        return Failure(e);
      case Success(lines) =>
        var bmp := AssembleFile(fileHeader, bitmapInfo, lines);
        BmpFileLayout(fileHeader, bitmapInfo, PixelArea(bitmapInfo.biSizeImage, lines));
        return Success(bmp);
    }

    /**
     * `get_bitmap_rows`: offsets into the pixel buffer of each row, top row
     * first. The buffer holds the rows bottom-up, `width * 4` bytes apiece, so
     * entry k is the start of stored row `height - 1 - k`. A negative height
     * becomes a size_t above `max_size()` in `rows.reserve(height)`, which
     * throws `std::length_error`: no rows result.
     */
    method GetBitmapRows(height: i32, width: i32) returns (r: Option<seq<int>>)
      ensures r.None? <==> height < 0
      ensures r.Some? ==> |r.value| == height
      ensures r.Some? ==> forall k :: 0 <= k < |r.value| ==> r.value[k] == RowOffset(height, width, k)
    {
      if height < 0 {
        return None;
      }
      var rowPtr := 0;
      var rows := [];
      var i := 0;
      while i < height
        invariant 0 <= i <= height
        invariant |rows| == i
        invariant rowPtr == i * (width * 4)
        invariant forall k :: 0 <= k < i ==> rows[k] == (i - 1 - k) * (width * 4)
      {
        rows := [rowPtr] + rows;
        rowPtr := rowPtr + width * 4;
        i := i + 1;
      }
      forall k | 0 <= k < |rows|
        ensures rows[k] == RowOffset(height, width, k)
      {
        RowOffsetClosedForm(height, width, k);
      }
      return Some(rows);
    }
  }

  /** Where the k-th row from the top starts in a bottom-up buffer of `width * 4`-byte rows. */
  function RowOffset(height: int, width: int, k: int): int
  {
    (height - 1 - k) * width * 4
  }

  lemma RowOffsetClosedForm(height: int, width: int, k: int)
    ensures RowOffset(height, width, k) == (height - 1 - k) * (width * 4)
  {
  }

  /** Every row listed lies inside the `width * height * 4` bytes of pixels. */
  lemma {:induction false} RowsWithinImage(height: nat, width: nat, k: nat)
    requires k < height
    ensures 0 <= RowOffset(height, width, k)
    ensures RowOffset(height, width, k) + width * 4 <= width * height * 4
  {
    var j := height - 1 - k;
    assert RowOffset(height, width, k) == j * width * 4;
    assert j * width * 4 + width * 4 == (j + 1) * width * 4;
    assert (j + 1) * width <= height * width by {
      MulMonotone(j + 1, height, width);
    }
  }

  /** Distinct entries name distinct rows: each stored row is listed once, in reverse order. */
  lemma RowsReversed(height: nat, width: nat, k: nat)
    requires width > 0 && k + 1 < height
    ensures RowOffset(height, width, k + 1) + width * 4 == RowOffset(height, width, k)
  {
    var j := height - 1 - k;
    assert RowOffset(height, width, k) == j * width * 4;
    assert RowOffset(height, width, k + 1) == (j - 1) * width * 4;
  }
}
