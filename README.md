# pdfrender in Dafny

A model of pdfrender's `PDFDocument`, a thin wrapper over poppler that opens a PDF
document and renders single pages into PIL images. It models both bindings in the
repository:

- the pybind11 class in `src/pdfrender.cpp`. It is a handle that owns an optional copy
  of the file bytes, an optional poppler document and a page count. It throws
  `invalid_argument("invalid pdf file")` when the document fails to load or is
  password-locked. `close`, `__exit__` and the move constructor leave it closed, so no
  document, no bytes and zero pages. `render_page` checks "closed" first and then the
  page index. After that it asks poppler for the page at `(dpi, dpi)` and turns the
  pixel format into a PIL mode and a tightly packed byte count.
- the older cffi class in `pdfrender/__init__.py`. Its attributes are assigned after
  construction, and it renders through a C library that writes height, width and
  format into three integer cells.

The model's modules:

- `Base` (base.dfy): bytes, `Option`, `Result`, and the two byte copies. One is
  `new char[]` + `std::copy_n`, into an array. The other is the copy of the first `n`
  bytes at a pointer into an immutable sequence. In the pybind11 binding, `py::bytes(ptr, n)`
  makes that copy (src/pdfrender.cpp:110). In the cffi binding, `ffi.buffer` is only a
  view over the library's memory, and the copy is made by `Image.frombytes` before
  `lib.delete_image_data` runs (pdfrender/__init__.py:83-87). Either way, the
  observable result is a copy of the prefix.
- `PixelFormat` (pixel_format.dfy): poppler's format enum, the raster image, and the
  format table. Lemmas prove that the table is tight packing, and that a well-formed
  image always holds the bytes that are copied. Two more lemmas compare the contiguous
  copy with a row-by-row copy: the two agree when rows are unpadded and differ when
  they are padded.
- `PdfDocument` (pdf_document.dfy): the pybind11 class with its invariant `Valid()`, the
  pure specification `RenderSpec` of `render_page`, and client methods that follow the
  repository's tests.
- `CffiDocument` (cffi_document.dfy): the cffi class, its if-chain on the format code,
  and the specification of its `render_page`.

Collaborators become parameters:

- poppler's loaders become functions `seq<byte> -> Option<Document>` and
  `string -> Option<Document>`, with `None` standing for a null document;
- poppler's page creation and renderer together become a pure `Rasterizer`. It maps
  (document, page index, x dpi, y dpi) to an optional raster image;
- the cffi library's `render_page` becomes a `LibRenderer`. It returns the image
  pointer and the three values left in the cells;
- `PIL.Image.frombytes` becomes a record of its arguments plus the `info["dpi"]` entry.

Some behaviours of the code a reader might not expect, all modelled as written:

- A render on a closed handle throws `std::runtime_error("Invalid pdf document.")`
  (src/pdfrender.cpp:68-69). A failed open throws a different error,
  `std::invalid_argument("invalid pdf file")` (src/pdfrender.cpp:19-20, 28-29).
- The `format_argb32` arm has no `break`, but it is the last arm of the switch, so
  nothing falls through (src/pdfrender.cpp:104-107). The switch has no `default`, and
  poppler's format enum is closed, so the datatype `ImageFormat` covers every value.
- The `render_page` docstring says the image can have mode '1', 'L', 'RGB' or 'RGBA'
  (src/pdfrender.cpp:177). The `format_bgr24` arm returns a fifth mode, "BGR"
  (src/pdfrender.cpp:100-103). `RenderedModes` proves that these five are the only
  modes, with "BGR" exactly for `format_bgr24`.
- Nothing in `render_page` rules out a raster of width or height zero, so the model
  allows both (src/pdfrender.cpp:90-109).
- The repository's tests call `PDFDocument.fromfile` (tests/__init__.py:8), but the
  pybind11 binding exposes that operation as `open` (src/pdfrender.cpp:182). The
  client methods here use `Open`.
- The cffi binding rejects only a NULL document and makes no lock check
  (pdfrender/__init__.py:18-19, 33-34).
- The cffi `__exit__` deletes `document_object` and clears `_bytes_data`, but leaves
  `num_pages` alone. A second `__exit__` raises `AttributeError`, because the
  attribute is already gone (pdfrender/__init__.py:47-49).

## Model

| member | source | states |
|---|---|---|
| `Base.CopyPrefix` | src/pdfrender.cpp:110 | the immutable buffer holds exactly the first `n` bytes of the image data |
| `Base.CopyToNewArray` | src/pdfrender.cpp:16-17 | the fresh array holds exactly the input bytes, in content and length |
| `PixelFormat.FormatTable` | src/pdfrender.cpp:84-107 | no layout exactly for `format_invalid`; a mode and a length for every other format |
| `PixelFormat.TableIsTightPacking` | src/pdfrender.cpp:88-106 | each length is `height` rows of the fewest whole bytes holding `width` pixels at the format's bit depth (mono: `ceil(W/8)*H`, gray8 `W*H`, rgb24/bgr24 `3WH`, argb32 `4WH`) |
| `PixelFormat.ModeIdentifiesFormat` | src/pdfrender.cpp:84-107 | distinct supported formats have distinct mode tags ("1", "L", "RGB", "BGR", "RGBA") |
| `PixelFormat.StrideCoversImpliesCopyFits` | src/pdfrender.cpp:109-110 | when every row holds `width` pixels and the data holds `height` rows, the contiguous copy of `buffer_size` bytes stays inside the data |
| `PixelFormat.RowWise` | src/pdfrender.cpp:110 | a per-row copy of `rows` rows of `rowBytes` bytes has `rowBytes * rows` bytes |
| `PixelFormat.UnpaddedPrefixIsRowWise` | src/pdfrender.cpp:110 | without row padding the contiguous prefix equals the per-row copy |
| `PixelFormat.PaddedPrefixIsNotRowWise` | src/pdfrender.cpp:110 | with row padding (a 1x2 gray8 image, 4-byte rows) the contiguous prefix differs from the per-row copy |
| `PdfDocument.ToImage` | src/pdfrender.cpp:78-115 | `None` exactly for an invalid image or `format_invalid`; otherwise PIL gets the table's mode, `(W, H)`, a prefix of the image data of the table's length, `"raw"`/`"BGRA"`, and `info["dpi"] == (dpi, dpi)` |
| `PdfDocument.RenderSpec` | src/pdfrender.cpp:66-116 | runtime error exactly when closed; "page index out of range" exactly when open and `page_index < 0 or >= num_pages`; otherwise success with the image marshalled from the renderer's answer at `(dpi, dpi)` |
| `PdfDocument.ChecksPrecedeRendering` | src/pdfrender.cpp:68-77 | when the closed or index check throws, the outcome does not depend on the renderer |
| `PdfDocument.IndexErrorIgnoresDpi` | src/pdfrender.cpp:71-72 | an index out of range throws the same error whatever the dpi |
| `PdfDocument.RenderedBufferIsTight` | src/pdfrender.cpp:84-110 | rendering a well-formed image of a page in range yields a PIL image whose buffer is `H` tight rows long |
| `PdfDocument.RenderedModes` | src/pdfrender.cpp:84-107 | a rendered image has one of the modes "1", "L", "RGB", "BGR", "RGBA", and "BGR" exactly when poppler returned `format_bgr24`; the docstring at line 177 lists only the other four |
| `PdfDocument.PDFDocument.Wrap` | src/pdfrender.cpp:125-129 | the new handle holds the document, its page count and the given bytes, and satisfies the invariant |
| `PdfDocument.PDFDocument.Move` | src/pdfrender.cpp:36-42 | the target takes over the document, page count and bytes; the source is left closed with 0 pages and no bytes; both satisfy the invariant |
| `PdfDocument.PDFDocument.FromBytes` | src/pdfrender.cpp:13-23 | throws "invalid pdf file" exactly when the loader gives no document or a locked one; otherwise a fresh open handle with the document's page count, owning a freshly allocated copy equal to the input bytes |
| `PdfDocument.PDFDocument.Open` | src/pdfrender.cpp:25-32 | the same contract for a file name; the handle owns no bytes |
| `PdfDocument.PDFDocument.Close` | src/pdfrender.cpp:44-49 | drops bytes and document and sets the page count to 0; on a closed handle nothing changes |
| `PdfDocument.PDFDocument.Closed` | src/pdfrender.cpp:51-54 | a closed handle has 0 pages and no bytes; an open one has its document's page count |
| `PdfDocument.PDFDocument.Size` | src/pdfrender.cpp:119-122 | 0 when closed, the document's page count when open |
| `PdfDocument.PDFDocument.Enter` | src/pdfrender.cpp:56-59 | returns the handle itself |
| `PdfDocument.PDFDocument.Exit` | src/pdfrender.cpp:61-64 | exactly the effect of `Close` |
| `PdfDocument.PDFDocument.RenderPage` | src/pdfrender.cpp:66-117 | the checks, the renderer call at `(dpi, dpi)`, the format switch and the copy together return exactly `RenderSpec` |
| `PdfDocument.OpenOnePageFromBytes` | tests/__init__.py:20-25 | a one-page document opened from memory has one page and is open |
| `PdfDocument.OpenRefused` | tests/__init__.py:27-33 | garbage bytes and a password-locked file both give `invalid_argument("invalid pdf file")` |
| `PdfDocument.RenderInvalidIndex` | tests/__init__.py:50-55 | on a four-page document, pages -1 and 5 give "page index out of range" |
| `PdfDocument.ScopedUse` | src/pdfrender.cpp:56-69 | enter, exit, exit again: the handle is closed with 0 pages, and a render then throws the runtime error |
| `PdfDocument.MoveThenRender` | src/pdfrender.cpp:36-42 | after a move the source throws the runtime error and has 0 pages; the target renders as the original handle would |
| `CffiDocument.FormatChain` | pdfrender/__init__.py:71-81 | code 0 gives `None`, codes 1-3 a mode and a size (non-negative for non-negative dimensions), any other code leaves the locals unassigned |
| `CffiDocument.FormatChainAgreesWithPoppler` | pdfrender/__init__.py:73-81 | codes 1, 2, 3 give the same mode and size as the gray8, rgb24 and argb32 rows of the pybind11 table. The pairing is by mode name: the C code that fills the format cell is not in the repository, so the numeric meaning of the codes cannot be read from the source |
| `CffiDocument.RenderSpec` | pdfrender/__init__.py:51-88 | `IndexError` exactly for `page_index < 0 or >= num_pages`; no library call then; `None` for a NULL image or format 0; `UnboundLocalError` for another unknown code; otherwise a prefix of the chain's size, `(W, H)`, `'raw'`/`'BGRA'` and the scalar `info['dpi']` |
| `CffiDocument.PDFDocument.constructor` | pdfrender/__init__.py:6-9 | three zeroed cells and no other attribute |
| `CffiDocument.PDFDocument.FromBytes` | pdfrender/__init__.py:11-27 | raises "invalid pdf data" exactly on a NULL document; otherwise keeps the document, a copy of the bytes and the library's page count |
| `CffiDocument.PDFDocument.FromFile` | pdfrender/__init__.py:29-39 | the same for a file name, with no `_bytes_data` attribute |
| `CffiDocument.PDFDocument.Len` | pdfrender/__init__.py:41-42 | `num_pages`, which is the document's page count while it is held |
| `CffiDocument.PDFDocument.Enter` | pdfrender/__init__.py:44-45 | returns the object itself |
| `CffiDocument.PDFDocument.Exit` | pdfrender/__init__.py:47-49 | deletes the document and sets `_bytes_data` to `None`, keeping `num_pages`; without a document it raises `AttributeError` and changes nothing |
| `CffiDocument.PDFDocument.RenderPage` | pdfrender/__init__.py:51-88 | `dpi` defaults to 72; keeps `Valid()` and returns exactly `RenderSpec`; the cells hold the library's values after a call and are unchanged when no call is made |
| `CffiDocument.RenderAtDefaultDpi` | tests/__init__.py:35-43 | page 0 rendered without a dpi argument is rendered by the library at 72 and, when it is an image, carries `info['dpi'] == 72`. The test expects `(72, 72)`, the pybind11 binding's tuple; this binding stores the scalar |
| `CffiDocument.ScopedUse` | pdfrender/__init__.py:44-53 | after exit `len` still reports the pages, a render of page 0 raises `AttributeError`, and a second exit raises |

## Left out

- poppler itself is not modelled: parsing, `create_page`, the rasterisation and the render hints `0x7` (src/pdfrender.cpp:74-77) are opaque. Pixel values and the concrete image sizes in the tests depend on the engine.
- PIL is not modelled: `Image.frombytes` and the `"raw"`/`"BGRA"` decoder become a record of the call's arguments. Whether PIL accepts that raw mode for modes other than RGBA, or accepts a "BGR" mode at all, is PIL's business.
- Bindings plumbing is left out: the pybind11 registration with its keyword names and the default `"dpi"_a = 72`, and the mapping of C++ exceptions to Python classes (src/pdfrender.cpp:136-193). The C++ member `render_page` has no default of its own, so `PdfDocument.PDFDocument.RenderPage` takes `dpi` explicitly and its client methods pass 72. The cffi `render_page` declares its default itself (pdfrender/__init__.py:51), and `CffiDocument.PDFDocument.RenderPage` keeps it.
- `__exit__`'s three exception arguments are left out in both bindings; both ignore them.
- Memory release is not modelled, because Dafny has no deallocation. That covers `unique_ptr` destruction, `ffi.gc` and `lib.delete_image_data`. The source leaks in several places:
  - `frombytes` does not free its byte copy when it throws (src/pdfrender.cpp:16-20);
  - a locked document is not deleted before the throw;
  - `from_file` registers no destructor for its document;
  - the format-0 and unmatched-code paths of the cffi `render_page` skip `delete_image_data`. None of these leaks is visible in the model.
- Machine integers are not modelled. The model uses mathematical integers with non-negative width and height, so it does not show overflow of the `int` products for the buffer size, the `ffi.cast('int', …)` truncation of the page index and dpi, or the `int` to `size_t` conversion in `size()`.
- Row stride handling: the model copies a contiguous prefix, as the source does. `UnpaddedPrefixIsRowWise` and `PaddedPrefixIsNotRowWise` show when that agrees with a per-row copy. The model has no corrected per-row copy.
- Whether the cffi library writes the three cells when it returns NULL cannot be told from the Python source. The model assumes that every call leaves the `LibImage` values in them.
- `CffiDocument.PDFDocument.Len`: models `__len__` only. The `ValueError` that Python's `len()` adds for a negative count is not modelled.
- Concurrency of render against close is not modelled: the source does no locking.
- Packaging and build scripts (setup.py, pdfrender_build.py) contain no logic.
