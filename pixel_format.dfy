/** poppler's raster image as the C++ wrapper sees it, and the table that turns its
    pixel format into a PIL mode tag and a tightly packed byte length
    (the `switch` in `PDFDocument::render_page`). */
module PixelFormat {
  import opened Base

  /** `poppler::image::format_enum`. The enum is closed, so the table below is total:
      there is no value for which the source's switch would leave its locals unset. */
  datatype ImageFormat =
    | FormatInvalid
    | FormatMono
    | FormatRgb24
    | FormatArgb32
    | FormatGray8
    | FormatBgr24

  /** A valid image returned by poppler's page renderer. `data` starts at `image.data()`;
      poppler may pad each row to `bytesPerRow` bytes. */
  datatype RasterImage = RasterImage(
    width: nat,
    height: nat,
    format: ImageFormat,
    bytesPerRow: nat,
    data: seq<byte>)

  /** The PIL mode string and the number of bytes handed to PIL. */
  datatype PixelLayout = PixelLayout(mode: string, length: nat)

  /** The format switch: mode tag and buffer size for each format, none for an invalid one. */
  function FormatTable(format: ImageFormat, width: nat, height: nat): (r: Option<PixelLayout>)
    ensures r.None? <==> format == FormatInvalid
  {
    match format
    case FormatInvalid => None
    case FormatMono => Some(PixelLayout("1", ((width + 7) / 8) * height))
    case FormatGray8 => Some(PixelLayout("L", width * height))
    case FormatRgb24 => Some(PixelLayout("RGB", width * height * 3))
    case FormatBgr24 => Some(PixelLayout("BGR", width * height * 3))
    case FormatArgb32 => Some(PixelLayout("RGBA", width * height * 4))
  }

  /** The number of bits one pixel occupies in each encoding, as poppler documents them. */
  function BitsPerPixel(format: ImageFormat): nat
    requires format != FormatInvalid
  {
    match format
    case FormatMono => 1
    case FormatGray8 => 8
    case FormatRgb24 => 24
    case FormatBgr24 => 24
    case FormatArgb32 => 32
  }

  /** The table's length is tight packing: `height` rows, each of the fewest whole bytes
      that hold `width` pixels at the format's bit depth (for mono, `ceil(width/8)`). */
  lemma TableIsTightPacking(format: ImageFormat, width: nat, height: nat, rowBytes: nat)
    requires format != FormatInvalid
    requires width * BitsPerPixel(format) <= 8 * rowBytes < width * BitsPerPixel(format) + 8
    ensures FormatTable(format, width, height).value.length == rowBytes * height
  {
    match format
    case FormatMono =>
      assert rowBytes == (width + 7) / 8;
    case FormatGray8 =>
      assert rowBytes == width;
    case FormatRgb24 =>
      assert rowBytes == 3 * width;
      assert width * height * 3 == (3 * width) * height;
    case FormatBgr24 =>
      assert rowBytes == 3 * width;
      assert width * height * 3 == (3 * width) * height;
    case FormatArgb32 =>
      assert rowBytes == 4 * width;
      assert width * height * 4 == (4 * width) * height;
  }

  /** Different supported formats carry different mode tags, so the tag handed to PIL
      identifies the layout of the bytes. */
  lemma ModeIdentifiesFormat(f: ImageFormat, g: ImageFormat, width: nat, height: nat)
    requires f != FormatInvalid && g != FormatInvalid
    requires FormatTable(f, width, height).value.mode == FormatTable(g, width, height).value.mode
    ensures f == g
  {
  }

  /** The contiguous copy of `render_page` reads no more than the image holds. */
  predicate CopyFits(img: RasterImage) {
    img.format != FormatInvalid ==>
      FormatTable(img.format, img.width, img.height).value.length <= |img.data|
  }

  /** What poppler promises of a valid image: every row holds at least `width` pixels and
      the data holds `height` rows of `bytesPerRow` bytes. */
  ghost predicate StrideCovers(img: RasterImage) {
    img.format != FormatInvalid &&
    img.width * BitsPerPixel(img.format) <= 8 * img.bytesPerRow &&
    |img.data| == img.bytesPerRow * img.height
  }

  lemma MulMonotone(a: nat, b: nat, c: nat)
    requires a <= b
    ensures a * c <= b * c
  {
  }

  /** A well-formed image always holds the bytes the contiguous copy reads. */
  lemma {:induction false} StrideCoversImpliesCopyFits(img: RasterImage)
    requires StrideCovers(img)
    ensures CopyFits(img)
  {
    var tight := (img.width * BitsPerPixel(img.format) + 7) / 8;
    TableIsTightPacking(img.format, img.width, img.height, tight);
    MulMonotone(tight, img.bytesPerRow, img.height);
  }

  /** The pixel rows of a padded image, each stripped to its first `rowBytes` bytes:
      what a per-row copy would hand over. */
  function RowWise(data: seq<byte>, stride: nat, rowBytes: nat, rows: nat): (r: seq<byte>)
    requires rowBytes <= stride
    requires stride * rows <= |data|
    ensures |r| == rowBytes * rows
    decreases rows
  {
    if rows == 0 then []
    else
      assert stride * rows == stride * (rows - 1) + stride;
      data[..rowBytes] + RowWise(data[stride..], stride, rowBytes, rows - 1)
  }

  /** Without row padding, the contiguous prefix copied by `render_page` is exactly the
      sequence of pixel rows. */
  lemma {:induction false} UnpaddedPrefixIsRowWise(data: seq<byte>, stride: nat, rows: nat)
    requires stride * rows <= |data|
    ensures RowWise(data, stride, stride, rows) == data[..stride * rows]
    decreases rows
  {
    if rows > 0 {
      assert stride * rows == stride * (rows - 1) + stride;
      UnpaddedPrefixIsRowWise(data[stride..], stride, rows - 1);
      assert data[..stride * rows] == data[..stride] + data[stride..][..stride * (rows - 1)];
    }
  }

  /** With row padding the prefix is not the pixel rows: a 1x2 gray image whose rows are
      padded to 4 bytes hands PIL its first row and a padding byte. */
  lemma PaddedPrefixIsNotRowWise()
    ensures var img := RasterImage(1, 2, FormatGray8, 4, [7, 0, 0, 0, 9, 0, 0, 0]);
            StrideCovers(img) &&
            img.data[..FormatTable(img.format, img.width, img.height).value.length]
              != RowWise(img.data, img.bytesPerRow, 1, img.height)
  {
    var data: seq<byte> := [7, 0, 0, 0, 9, 0, 0, 0];
    assert RowWise(data[4..], 4, 1, 1) == [9];
    assert RowWise(data, 4, 1, 2) == [7, 9];
    assert FormatTable(FormatGray8, 1, 2).value.length == 2;
    assert data[..2][1] == 0;
  }
}
