/** The older cffi binding's `PDFDocument`: a Python object whose attributes are set
    after construction, which renders through a C library that writes the image height,
    width and format into three integer cells the object owns. */
module CffiDocument {
  import opened Base
  import PixelFormat

  /** A document returned by the library; `pages` is what `lib.num_pages` reports. */
  datatype LibDocument = LibDocument(key: nat, pages: int)

  /** One call of `lib.render_page`: the returned pointer (`None` for NULL) and the values
      it leaves in the height, width and format cells. */
  datatype LibImage = LibImage(data: Option<seq<byte>>, height: int, width: int, format: int)

  /** `lib.render_page(document, page_index, dpi, ...)`. */
  type LibRenderer = (LibDocument, int, int) -> LibImage

  /** The Python exceptions the class raises. */
  datatype PyError =
    | ValueError(message: string)
    | IndexError(message: string)
    | AttributeError(name: string)
    | UnboundLocalError(name: string)

  const InvalidPdfData := "invalid pdf data"
  const ListIndexOutOfRange := "list index out of range"

  /** An instance attribute: never assigned (or deleted), or bound to a value. */
  datatype Slot<T> = Unset | Set(value: T)

  /** The arguments of `Image.frombytes(mode, (width, height), buffer, 'raw', 'BGRA')`
      and the scalar `info['dpi']` set on the result. */
  datatype PyImage = PyImage(
    mode: string,
    size: (int, int),
    data: seq<byte>,
    decoder: string,
    rawMode: string,
    dpi: int)

  /** What `render_page` returns: `None` or a PIL image. */
  datatype PyValue = NoneValue | Image(image: PyImage)

  /** The if-chain on the format cell: 0 gives `None`, 1 to 3 a mode and a size, and any
      other value leaves both locals unassigned. */
  datatype FormatCase = FormatZero | Mapped(mode: string, length: int) | Unmatched

  function FormatChain(format: int, width: int, height: int): (r: FormatCase)
    ensures r.FormatZero? <==> format == 0
    ensures r.Unmatched? <==> format < 0 || format > 3
    ensures r.Mapped? && width >= 0 && height >= 0 ==> r.length >= 0
  {
    if format == 0 then FormatZero
    else if format == 1 then Mapped("L", width * height)
    else if format == 2 then Mapped("RGB", width * height * 3)
    else if format == 3 then Mapped("RGBA", width * height * 4)
    else Unmatched
  }

  /** The three codes of this binding agree, in mode and size, with the gray8, rgb24 and
      argb32 rows of the pybind11 binding's table. The pairing is by mode name: the C code
      that fills the format cell is not in the repository, so what the numbers 1 to 3 stand
      for cannot be read from the source (in poppler's own enum 1 is mono and 4 is gray8). */
  lemma FormatChainAgreesWithPoppler(width: nat, height: nat)
    ensures FormatChain(1, width, height) ==
      Mapped(PixelFormat.FormatTable(PixelFormat.FormatGray8, width, height).value.mode,
             PixelFormat.FormatTable(PixelFormat.FormatGray8, width, height).value.length)
    ensures FormatChain(2, width, height) ==
      Mapped(PixelFormat.FormatTable(PixelFormat.FormatRgb24, width, height).value.mode,
             PixelFormat.FormatTable(PixelFormat.FormatRgb24, width, height).value.length)
    ensures FormatChain(3, width, height) ==
      Mapped(PixelFormat.FormatTable(PixelFormat.FormatArgb32, width, height).value.mode,
             PixelFormat.FormatTable(PixelFormat.FormatArgb32, width, height).value.length)
  {
  }

  /** The library's answer can be wrapped in a buffer of the chain's size. */
  predicate LibImageFits(out: LibImage) {
    out.data.Some? && 1 <= out.format <= 3 ==>
      out.width >= 0 && out.height >= 0 &&
      FormatChain(out.format, out.width, out.height).length <= |out.data.value|
  }

  /** `render_page` calls the library only for an index in range on an object that still
      has its document. `page_index < 0` is decided before `num_pages` is read. */
  predicate CallsLibrary(numPages: Slot<int>, documentObject: Slot<LibDocument>, pageIndex: int) {
    pageIndex >= 0 && numPages.Set? && pageIndex < numPages.value && documentObject.Set?
  }

  /** What `render_page` returns or raises for an object with these attributes. */
  function RenderSpec(numPages: Slot<int>, documentObject: Slot<LibDocument>, pageIndex: int,
                      dpi: int, render: LibRenderer): (r: Result<PyValue, PyError>)
    requires CallsLibrary(numPages, documentObject, pageIndex) ==>
               LibImageFits(render(documentObject.value, pageIndex, dpi))
    ensures r == Failure(IndexError(ListIndexOutOfRange)) <==>
              pageIndex < 0 || (numPages.Set? && pageIndex >= numPages.value)
    ensures r == Failure(AttributeError("num_pages")) <==> pageIndex >= 0 && numPages.Unset?
    ensures r == Failure(AttributeError("document_object")) <==>
              pageIndex >= 0 && numPages.Set? && pageIndex < numPages.value && documentObject.Unset?
    ensures !CallsLibrary(numPages, documentObject, pageIndex) ==> r.Failure?
    ensures CallsLibrary(numPages, documentObject, pageIndex) ==>
      var out := render(documentObject.value, pageIndex, dpi);
      && (r == Success(NoneValue) <==> out.data.None? || out.format == 0)
      && (r.Failure? <==> out.data.Some? && (out.format < 0 || out.format > 3))
      && (r.Failure? ==> r.error == UnboundLocalError("image_data_size"))
      && (r.Success? && r.value.Image? ==>
            var c := FormatChain(out.format, out.width, out.height);
            && r.value.image.mode == c.mode
            && r.value.image.size == (out.width, out.height)
            && |r.value.image.data| == c.length
            && r.value.image.data <= out.data.value
            && r.value.image.decoder == "raw" && r.value.image.rawMode == "BGRA"
            && r.value.image.dpi == dpi)
  {
    if pageIndex < 0 then Failure(IndexError(ListIndexOutOfRange))
    else if numPages.Unset? then Failure(AttributeError("num_pages"))
    else if pageIndex >= numPages.value then Failure(IndexError(ListIndexOutOfRange))
    else if documentObject.Unset? then Failure(AttributeError("document_object"))
    else
      var out := render(documentObject.value, pageIndex, dpi);
      if out.data.None? then Success(NoneValue)
      else
        match FormatChain(out.format, out.width, out.height)
        case FormatZero => Success(NoneValue)
        case Unmatched => Failure(UnboundLocalError("image_data_size"))
        case Mapped(mode, length) =>
          Success(Image(PyImage(mode, (out.width, out.height), out.data.value[..length],
                                "raw", "BGRA", dpi)))
  }

  class PDFDocument {
    /** `ffi.new('int*')` cells filled by the library: height, width, format. */
    var heightCell: int
    var widthCell: int
    var formatCell: int
    /** `self.document_object` */
    var documentObject: Slot<LibDocument>
    /** `self._bytes_data`: the `bytearray` copy kept by `from_bytes`, `None` after exit. */
    var bytesData: Slot<Option<seq<byte>>>
    /** `self.num_pages` */
    var numPages: Slot<int>

    /** While the document is held, `num_pages` is its page count. */
    ghost predicate Valid()
      reads this
    {
      documentObject.Set? ==> numPages == Set(documentObject.value.pages)
    }

    /** `__init__`: three zeroed cells and no other attribute. */
    constructor ()
      ensures Valid()
      ensures heightCell == 0 && widthCell == 0 && formatCell == 0
      ensures documentObject.Unset? && bytesData.Unset? && numPages.Unset?
    {
      heightCell, widthCell, formatCell := 0, 0, 0;
      documentObject, bytesData, numPages := Unset, Unset, Unset;
    }

    /** `from_bytes`: keeps a copy of the bytes; raises "invalid pdf data" when the library
        returns NULL. No lock check is made. */
    static method FromBytes(data: seq<byte>, load: seq<byte> -> Option<LibDocument>)
      returns (r: Result<PDFDocument, PyError>)
      ensures r.Failure? <==> load(data).None?
      ensures r.Failure? ==> r.error == ValueError(InvalidPdfData)
      ensures r.Success? ==>
        && fresh(r.value) && r.value.Valid()
        && r.value.documentObject == Set(load(data).value)
        && r.value.bytesData == Set(Some(data))
        && r.value.numPages == Set(load(data).value.pages)
        && r.value.heightCell == 0 && r.value.widthCell == 0 && r.value.formatCell == 0
    {
      var copy := data;
      var documentObject := load(copy);
      if documentObject.None? {
        return Failure(ValueError(InvalidPdfData));
      }
      var pdfDocument := new PDFDocument();
      pdfDocument.documentObject := Set(documentObject.value);
      pdfDocument.bytesData := Set(Some(copy));
      pdfDocument.numPages := Set(documentObject.value.pages);
      return Success(pdfDocument);
    }

    /** `from_file`: the same, loading by name and keeping no bytes. */
    static method FromFile(filename: string, load: string -> Option<LibDocument>)
      returns (r: Result<PDFDocument, PyError>)
      ensures r.Failure? <==> load(filename).None?
      ensures r.Failure? ==> r.error == ValueError(InvalidPdfData)
      ensures r.Success? ==>
        && fresh(r.value) && r.value.Valid()
        && r.value.documentObject == Set(load(filename).value)
        && r.value.bytesData.Unset?
        && r.value.numPages == Set(load(filename).value.pages)
        && r.value.heightCell == 0 && r.value.widthCell == 0 && r.value.formatCell == 0
    {
      var documentObject := load(filename);
      if documentObject.None? {
        return Failure(ValueError(InvalidPdfData));
      }
      var pdfDocument := new PDFDocument();
      pdfDocument.documentObject := Set(documentObject.value);
      pdfDocument.numPages := Set(documentObject.value.pages);
      return Success(pdfDocument);
    }

    /** `__len__` returns `num_pages`, the document's page count while it is held. */
    function Len(): (r: Result<int, PyError>)
      reads this
      requires Valid()
      ensures documentObject.Set? ==> r == Success(documentObject.value.pages)
      ensures r.Failure? <==> numPages.Unset?
      ensures r.Failure? ==> r.error == AttributeError("num_pages")
    {
      if numPages.Unset? then Failure(AttributeError("num_pages")) else Success(numPages.value)
    }

    /** `__enter__` returns the object itself. */
    method Enter() returns (self: PDFDocument)
      ensures self == this
    {
      return this;
    }

    /** `__exit__`: deletes `document_object` and sets `_bytes_data` to `None`; `num_pages`
        is kept. Without a document the `del` raises and nothing changes. */
    method Exit() returns (e: Option<PyError>)
      requires Valid()
      modifies this
      ensures Valid()
      ensures e == if old(documentObject).Unset? then Some(AttributeError("document_object")) else None
      ensures e.Some? ==> unchanged(this)
      ensures e.None? ==>
        && documentObject.Unset? && bytesData == Set(None)
        && numPages == old(numPages)
        && heightCell == old(heightCell) && widthCell == old(widthCell) && formatCell == old(formatCell)
    {
      if documentObject.Unset? {
        return Some(AttributeError("document_object"));
      }
      documentObject := Unset;
      bytesData := Set(None);
      return None;
    }

    /** `render_page(page_index, dpi=72)`: the index check, then the library call, which
        leaves its results in the cells, then the NULL and format checks and the table.
        The library comes first so that `dpi` can keep its default of 72. */
    method RenderPage(render: LibRenderer, pageIndex: int, dpi: int := 72)
      returns (r: Result<PyValue, PyError>)
      requires Valid()
      requires CallsLibrary(numPages, documentObject, pageIndex) ==>
                 LibImageFits(render(documentObject.value, pageIndex, dpi))
      modifies this`heightCell, this`widthCell, this`formatCell
      ensures Valid()
      ensures r == RenderSpec(numPages, documentObject, pageIndex, dpi, render)
      ensures if CallsLibrary(numPages, documentObject, pageIndex) then
                var out := render(documentObject.value, pageIndex, dpi);
                heightCell == out.height && widthCell == out.width && formatCell == out.format
              else
                heightCell == old(heightCell) && widthCell == old(widthCell) && formatCell == old(formatCell)
    {
      if pageIndex < 0 {
        return Failure(IndexError(ListIndexOutOfRange));
      }
      if numPages.Unset? {
        return Failure(AttributeError("num_pages"));
      }
      if pageIndex >= numPages.value {
        return Failure(IndexError(ListIndexOutOfRange));
      }
      if documentObject.Unset? {
        return Failure(AttributeError("document_object"));
      }
      var out := render(documentObject.value, pageIndex, dpi);
      heightCell, widthCell, formatCell := out.height, out.width, out.format;
      if out.data.None? {
        return Success(NoneValue);
      }
      var height := heightCell;
      var width := widthCell;
      var format := formatCell;
      var mode: string;
      var imageDataSize: int;
      if format == 0 {
        return Success(NoneValue);
      } else if format == 1 {
        mode := "L";
        imageDataSize := width * height;
      } else if format == 2 {
        mode := "RGB";
        imageDataSize := width * height * 3;
      } else if format == 3 {
        mode := "RGBA";
        imageDataSize := width * height * 4;
      } else {
        return Failure(UnboundLocalError("image_data_size"));
      }
      var imageDataBuffer := CopyPrefix(out.data.value, imageDataSize);
      var image := PyImage(mode, (width, height), imageDataBuffer, "raw", "BGRA", dpi);
      return Success(Image(image));
    }
  }

  /** A `with` block on this binding: leaving keeps `num_pages`, so a later render of a
      page in range fails on the missing document rather than on the index, and leaving
      a second time raises. */
  method ScopedUse(filename: string, load: string -> Option<LibDocument>, render: LibRenderer)
    returns (firstExit: Option<PyError>, secondExit: Option<PyError>,
             length: Result<int, PyError>, after: Result<PyValue, PyError>)
    requires load(filename).Some? && load(filename).value.pages >= 1
    ensures firstExit.None?
    ensures secondExit == Some(AttributeError("document_object"))
    ensures length == Success(load(filename).value.pages)
    ensures after == Failure(AttributeError("document_object"))
  {
    var r := PDFDocument.FromFile(filename, load);
    var handle := r.value;
    var scoped := handle.Enter();
    firstExit := scoped.Exit();
    secondExit := scoped.Exit();
    length := handle.Len();
    after := handle.RenderPage(render, 0);
  }

  /** tests/__init__.py, test_render_page: page 0 rendered without a dpi argument is
      rendered, and tagged, at the default of 72. */
  method RenderAtDefaultDpi(filename: string, load: string -> Option<LibDocument>,
                            render: LibRenderer)
    returns (page: Result<PyValue, PyError>)
    requires load(filename).Some? && load(filename).value.pages >= 1
    requires LibImageFits(render(load(filename).value, 0, 72))
    ensures page == RenderSpec(Set(load(filename).value.pages), Set(load(filename).value), 0, 72, render)
    ensures page.Success? && page.value.Image? ==> page.value.image.dpi == 72
  {
    var r := PDFDocument.FromFile(filename, load);
    var handle := r.value;
    page := handle.RenderPage(render, 0);
  }
}
