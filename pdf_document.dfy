/** The pybind11 `PDFDocument` class: a handle that owns an optional copy of the file
    bytes, an optional poppler document and a page count, and renders pages through
    poppler into PIL images. */
module PdfDocument {
  import opened Base
  import opened PixelFormat

  /** An opened poppler document: an opaque identity, `pages()` and `is_locked()`. */
  datatype Document = Document(key: nat, pages: nat, locked: bool)

  /** poppler's `create_page` followed by `page_renderer::render_page(page, xres, yres)`:
      the image for (document, page index, horizontal dpi, vertical dpi), or `None` when
      the page cannot be created or the image is not valid. */
  type Rasterizer = (Document, int, int, int) -> Option<RasterImage>

  /** The C++ exceptions the class throws: `std::runtime_error`, `std::invalid_argument`. */
  datatype Error = RuntimeError(message: string) | InvalidArgument(message: string)

  const InvalidPdfFile := "invalid pdf file"
  const InvalidPdfDocument := "Invalid pdf document."
  const PageIndexOutOfRange := "page index out of range"

  /** The arguments of `PIL.Image.frombytes(mode, size, buffer, "raw", "BGRA")` together
      with the `info["dpi"]` entry set on the result. */
  datatype PilImage = PilImage(
    mode: string,
    size: (int, int),
    data: seq<byte>,
    decoder: string,
    rawMode: string,
    dpi: (int, int))

  /** What `render_page` returns: `None` or a PIL image. */
  datatype RenderValue = NoImage | Image(image: PilImage)

  /** Loading fails when poppler returns no document or a password-locked one. */
  predicate Rejected(loaded: Option<Document>) {
    loaded.None? || loaded.value.locked
  }

  /** The renderer's answer can be copied from without reading past its data. */
  predicate RasterFits(raster: Option<RasterImage>) {
    raster.Some? ==> CopyFits(raster.value)
  }

  /** The marshalling half of `render_page`: an invalid image or format gives `None`;
      otherwise PIL gets the table's mode, the image size, the first `length` bytes of the
      image data, and the dpi on both axes. */
  function ToImage(raster: Option<RasterImage>, dpi: int): (r: RenderValue)
    requires RasterFits(raster)
    ensures r.NoImage? <==> raster.None? || raster.value.format == FormatInvalid
    ensures r.Image? ==>
      var img := raster.value;
      var layout := FormatTable(img.format, img.width, img.height).value;
      && r.image.mode == layout.mode
      && r.image.size == (img.width, img.height)
      && |r.image.data| == layout.length
      && r.image.data <= img.data
      && r.image.decoder == "raw" && r.image.rawMode == "BGRA"
      && r.image.dpi == (dpi, dpi)
  {
    if raster.None? then NoImage
    else
      var img := raster.value;
      match FormatTable(img.format, img.width, img.height)
      case None => NoImage
      case Some(layout) =>
        Image(PilImage(layout.mode, (img.width, img.height), img.data[..layout.length],
                       "raw", "BGRA", (dpi, dpi)))
  }

  /** The classification of `render_page`'s outcomes on a handle holding `doc` and
      `numPages`. */
  function RenderSpec(doc: Option<Document>, numPages: int, pageIndex: int, dpi: int,
                      rasterize: Rasterizer): (r: Result<RenderValue, Error>)
    requires doc.Some? && 0 <= pageIndex < numPages ==>
               RasterFits(rasterize(doc.value, pageIndex, dpi, dpi))
    ensures r == Failure(RuntimeError(InvalidPdfDocument)) <==> doc.None?
    ensures r == Failure(InvalidArgument(PageIndexOutOfRange)) <==>
              doc.Some? && (pageIndex < 0 || pageIndex >= numPages)
    ensures r.Success? <==> doc.Some? && 0 <= pageIndex < numPages
    ensures r.Success? ==> r.value == ToImage(rasterize(doc.value, pageIndex, dpi, dpi), dpi)
  {
    if doc.None? then Failure(RuntimeError(InvalidPdfDocument))
    else if pageIndex < 0 || pageIndex >= numPages then Failure(InvalidArgument(PageIndexOutOfRange))
    else Success(ToImage(rasterize(doc.value, pageIndex, dpi, dpi), dpi))
  }

  /** The checks run before any rendering: when one of them throws, the outcome is the
      same whatever the renderer would have produced. */
  lemma ChecksPrecedeRendering(doc: Option<Document>, numPages: int, pageIndex: int, dpi: int,
                               f: Rasterizer, g: Rasterizer)
    requires doc.None? || pageIndex < 0 || pageIndex >= numPages
    ensures RenderSpec(doc, numPages, pageIndex, dpi, f) == RenderSpec(doc, numPages, pageIndex, dpi, g)
    ensures RenderSpec(doc, numPages, pageIndex, dpi, f).Failure?
  {
  }

  /** On an open handle the index check does not depend on the dpi. */
  lemma IndexErrorIgnoresDpi(doc: Document, numPages: int, pageIndex: int, dpi1: int, dpi2: int,
                             rasterize: Rasterizer)
    requires pageIndex < 0 || pageIndex >= numPages
    ensures RenderSpec(Some(doc), numPages, pageIndex, dpi1, rasterize)
         == RenderSpec(Some(doc), numPages, pageIndex, dpi2, rasterize)
         == Failure(InvalidArgument(PageIndexOutOfRange))
  {
  }

  /** A well-formed image of a page in range always yields a PIL image whose buffer has
      the tight-packed length of its format, with `ceil(width/8)` bytes per mono row. */
  lemma {:induction false} RenderedBufferIsTight(doc: Document, numPages: int, pageIndex: int,
                                                 dpi: int, rasterize: Rasterizer, rowBytes: nat)
    requires 0 <= pageIndex < numPages
    requires rasterize(doc, pageIndex, dpi, dpi).Some?
    requires StrideCovers(rasterize(doc, pageIndex, dpi, dpi).value)
    requires var img := rasterize(doc, pageIndex, dpi, dpi).value;
             img.width * BitsPerPixel(img.format) <= 8 * rowBytes < img.width * BitsPerPixel(img.format) + 8
    ensures RasterFits(rasterize(doc, pageIndex, dpi, dpi))
    ensures var r := RenderSpec(Some(doc), numPages, pageIndex, dpi, rasterize);
            && r.Success? && r.value.Image?
            && |r.value.image.data| == rowBytes * rasterize(doc, pageIndex, dpi, dpi).value.height
  {
    var img := rasterize(doc, pageIndex, dpi, dpi).value;
    StrideCoversImpliesCopyFits(img);
    TableIsTightPacking(img.format, img.width, img.height, rowBytes);
  }

  /** The modes a render can hand to PIL: the four the binding's docstring lists, and
      "BGR", which the `format_bgr24` arm produces and the docstring leaves out. */
  lemma RenderedModes(doc: Option<Document>, numPages: int, pageIndex: int, dpi: int,
                      rasterize: Rasterizer)
    requires doc.Some? && 0 <= pageIndex < numPages ==>
               RasterFits(rasterize(doc.value, pageIndex, dpi, dpi))
    ensures var r := RenderSpec(doc, numPages, pageIndex, dpi, rasterize);
            r.Success? && r.value.Image? ==>
              && r.value.image.mode in {"1", "L", "RGB", "BGR", "RGBA"}
              && (r.value.image.mode == "BGR" <==>
                    rasterize(doc.value, pageIndex, dpi, dpi).value.format == FormatBgr24)
  {
  }

  class PDFDocument {
    /** `unique_ptr<poppler::document> doc`: `None` once closed or moved from. */
    var doc: Option<Document>
    /** `int num_pages` */
    var numPages: int
    /** `unique_ptr<const char[]> file_bytes`: the copy made by `frombytes`, else null. */
    var fileBytes: array?<byte>
    /** The bytes an open document was loaded from and still reads, if any. */
    ghost var Backing: Option<seq<byte>>

    /** The handle invariant: a closed handle has no pages and no bytes; an open one
        counts its document's pages; a document loaded from memory keeps its bytes. */
    ghost predicate Valid()
      reads this, fileBytes
    {
      && (doc.None? ==> numPages == 0 && fileBytes == null && Backing.None?)
      && (doc.Some? ==> numPages == doc.value.pages)
      && (Backing.Some? <==> fileBytes != null)
      && (fileBytes != null ==> fileBytes[..] == Backing.value)
    }

    /** The private constructor `PDFDocument(document, file_bytes)`. */
    constructor Wrap(document: Document, bytes: array?<byte>)
      ensures Valid()
      ensures doc == Some(document) && numPages == document.pages && fileBytes == bytes
      ensures Backing == if bytes == null then None else Some(bytes[..])
    {
      doc := Some(document);
      numPages := document.pages;
      fileBytes := bytes;
      Backing := if bytes == null then None else Some(bytes[..]);
    }

    /** The move constructor: the new handle takes over the document, the page count and
        the bytes; the source is left closed with no pages. */
    constructor Move(other: PDFDocument)
      requires other.Valid()
      modifies other
      ensures Valid() && other.Valid()
      ensures doc == old(other.doc) && numPages == old(other.numPages)
      ensures fileBytes == old(other.fileBytes) && Backing == old(other.Backing)
      ensures other.doc.None? && other.numPages == 0 && other.fileBytes == null
    {
      doc := other.doc;
      other.doc := None;
      numPages := other.numPages;
      fileBytes := other.fileBytes;
      other.fileBytes := null;
      Backing := other.Backing;
      other.Backing := None;
      new;
      other.numPages := 0;
    }

    /** `frombytes`: copies the bytes, loads them, and throws "invalid pdf file" when the
        loader gives no document or a locked one. */
    static method FromBytes(bytes: seq<byte>, load: seq<byte> -> Option<Document>)
      returns (r: Result<PDFDocument, Error>)
      ensures r.Failure? <==> Rejected(load(bytes))
      ensures r.Failure? ==> r.error == InvalidArgument(InvalidPdfFile)
      ensures r.Success? ==>
        && fresh(r.value) && r.value.Valid()
        && r.value.doc == load(bytes)
        && r.value.numPages == load(bytes).value.pages
        && r.value.fileBytes != null && fresh(r.value.fileBytes)
        && r.value.fileBytes[..] == bytes
        && r.value.Backing == Some(bytes)
    {
      var fileBytes := CopyToNewArray(bytes);
      var document := load(fileBytes[..]);
      if Rejected(document) {
        return Failure(InvalidArgument(InvalidPdfFile));
      }
      var handle := new PDFDocument.Wrap(document.value, fileBytes);
      return Success(handle);
    }

    /** `open`: loads a file by name, with the same check; no bytes are kept. */
    static method Open(filename: string, load: string -> Option<Document>)
      returns (r: Result<PDFDocument, Error>)
      ensures r.Failure? <==> Rejected(load(filename))
      ensures r.Failure? ==> r.error == InvalidArgument(InvalidPdfFile)
      ensures r.Success? ==>
        && fresh(r.value) && r.value.Valid()
        && r.value.doc == load(filename)
        && r.value.numPages == load(filename).value.pages
        && r.value.fileBytes == null && r.value.Backing.None?
    {
      var document := load(filename);
      if Rejected(document) {
        return Failure(InvalidArgument(InvalidPdfFile));
      }
      var handle := new PDFDocument.Wrap(document.value, null);
      return Success(handle);
    }

    /** `close`: drops the bytes, then the document, and zeroes the page count. On a
        handle that is already closed nothing changes. */
    method Close()
      requires Valid()
      modifies this
      ensures Valid()
      ensures doc.None? && numPages == 0 && fileBytes == null && Backing.None?
      ensures old(doc.None?) ==> unchanged(this)
    {
      fileBytes := null;
      Backing := None;
      doc := None;
      numPages := 0;
    }

    /** The read-only `closed` property. */
    function Closed(): (b: bool)
      reads this, fileBytes
      requires Valid()
      ensures b ==> numPages == 0 && fileBytes == null
      ensures !b ==> doc.Some? && numPages == doc.value.pages
    {
      doc.None?
    }

    /** `size()`, bound as `__len__`. */
    function Size(): (n: nat)
      reads this, fileBytes
      requires Valid()
      ensures Closed() ==> n == 0
      ensures !Closed() ==> n == doc.value.pages
    {
      numPages
    }

    /** `__enter__` returns the handle itself. */
    method Enter() returns (self: PDFDocument)
      ensures self == this
    {
      return this;
    }

    /** `__exit__` has exactly the effect of `close`. */
    method Exit()
      requires Valid()
      modifies this
      ensures Valid()
      ensures doc.None? && numPages == 0 && fileBytes == null && Backing.None?
      ensures old(doc.None?) ==> unchanged(this)
    {
      Close();
    }

    /** `render_page(page_index, dpi)`: throws on a closed handle, then on an index out of
        range, and otherwise asks the renderer for the page at (dpi, dpi) and marshals the
        image through the format switch. */
    method RenderPage(pageIndex: int, dpi: int, rasterize: Rasterizer)
      returns (r: Result<RenderValue, Error>)
      requires Valid()
      requires doc.Some? && 0 <= pageIndex < numPages ==>
                 RasterFits(rasterize(doc.value, pageIndex, dpi, dpi))
      ensures r == RenderSpec(doc, numPages, pageIndex, dpi, rasterize)
    {
      if doc.None? {
        return Failure(RuntimeError(InvalidPdfDocument));
      }
      if pageIndex < 0 || pageIndex >= numPages {
        return Failure(InvalidArgument(PageIndexOutOfRange));
      }
      var image := rasterize(doc.value, pageIndex, dpi, dpi);
      if image.None? {
        return Success(NoImage);
      }
      var img := image.value;
      var mode: string;
      var bufferSize: nat;
      match img.format {
        case FormatInvalid =>
          return Success(NoImage);
        case FormatMono =>
          mode := "1";
          bufferSize := ((img.width + 7) / 8) * img.height;
        case FormatGray8 =>
          mode := "L";
          bufferSize := img.width * img.height;
        case FormatRgb24 =>
          bufferSize := img.width * img.height * 3;
          mode := "RGB";
        case FormatBgr24 =>
          bufferSize := img.width * img.height * 3;
          mode := "BGR";
        case FormatArgb32 =>
          bufferSize := img.width * img.height * 4;
          mode := "RGBA";
      }
      var size := (img.width, img.height);
      var buffer := CopyPrefix(img.data, bufferSize);
      var pilImage := PilImage(mode, size, buffer, "raw", "BGRA", (dpi, dpi));
      return Success(Image(pilImage));
    }
  }

  /** tests/__init__.py, test_open_from_bytes: a one-page file opened from memory has one
      page and is open. */
  method OpenOnePageFromBytes(bytes: seq<byte>, load: seq<byte> -> Option<Document>)
    returns (pages: nat, closed: bool)
    requires load(bytes).Some? && !load(bytes).value.locked && load(bytes).value.pages == 1
    ensures pages == 1 && !closed
  {
    var r := PDFDocument.FromBytes(bytes, load);
    pages := r.value.Size();
    closed := r.value.Closed();
  }

  /** tests/__init__.py, test_open_from_corrupted_bytes and
      test_open_password_protected_file_fails: garbage bytes and a locked file are refused. */
  method OpenRefused(garbage: seq<byte>, lockedFile: string,
                     loadBytes: seq<byte> -> Option<Document>, loadFile: string -> Option<Document>)
    returns (fromGarbage: Result<PDFDocument, Error>, fromLocked: Result<PDFDocument, Error>)
    requires loadBytes(garbage).None?
    requires loadFile(lockedFile).Some? && loadFile(lockedFile).value.locked
    ensures fromGarbage == Failure(InvalidArgument(InvalidPdfFile))
    ensures fromLocked == Failure(InvalidArgument(InvalidPdfFile))
  {
    fromGarbage := PDFDocument.FromBytes(garbage, loadBytes);
    fromLocked := PDFDocument.Open(lockedFile, loadFile);
  }

  /** tests/__init__.py, test_render_page_invalid_index: indices -1 and 5 of a four-page
      document are out of range. */
  method RenderInvalidIndex(filename: string, load: string -> Option<Document>, rasterize: Rasterizer)
    returns (below: Result<RenderValue, Error>, above: Result<RenderValue, Error>)
    requires load(filename).Some? && !load(filename).value.locked && load(filename).value.pages == 4
    ensures below == Failure(InvalidArgument(PageIndexOutOfRange))
    ensures above == Failure(InvalidArgument(PageIndexOutOfRange))
  {
    var r := PDFDocument.Open(filename, load);
    var handle := r.value;
    below := handle.RenderPage(-1, 72, rasterize);
    above := handle.RenderPage(5, 72, rasterize);
  }

  /** A `with` block: entering yields the handle, leaving closes it, leaving again changes
      nothing, and a later render throws the runtime error. */
  method ScopedUse(filename: string, load: string -> Option<Document>, rasterize: Rasterizer)
    returns (after: Result<RenderValue, Error>, closed: bool, pages: nat)
    requires !Rejected(load(filename))
    ensures after == Failure(RuntimeError(InvalidPdfDocument))
    ensures closed && pages == 0
  {
    var r := PDFDocument.Open(filename, load);
    var handle := r.value;
    var scoped := handle.Enter();
    scoped.Exit();
    scoped.Exit();
    closed := handle.Closed();
    pages := handle.Size();
    after := handle.RenderPage(0, 72, rasterize);
  }

  /** Moving a handle: the target renders what the source would have, the source is closed. */
  method MoveThenRender(filename: string, load: string -> Option<Document>, rasterize: Rasterizer,
                        pageIndex: int, dpi: int)
    returns (fromSource: Result<RenderValue, Error>, fromTarget: Result<RenderValue, Error>,
             sourcePages: nat, targetPages: nat)
    requires !Rejected(load(filename))
    requires RasterFits(rasterize(load(filename).value, pageIndex, dpi, dpi))
    ensures fromSource == Failure(RuntimeError(InvalidPdfDocument)) && sourcePages == 0
    ensures targetPages == load(filename).value.pages
    ensures fromTarget == RenderSpec(load(filename), load(filename).value.pages, pageIndex, dpi, rasterize)
  {
    var r := PDFDocument.Open(filename, load);
    var source := r.value;
    var target := new PDFDocument.Move(source);
    fromSource := source.RenderPage(pageIndex, dpi, rasterize);
    fromTarget := target.RenderPage(pageIndex, dpi, rasterize);
    sourcePages := source.Size();
    targetPages := target.Size();
  }
}
