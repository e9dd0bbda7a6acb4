/** Values shared by both bindings: bytes, optional values, outcomes that may be an
    exception, and the two byte copies the bindings perform. */
module Base {

  /** One byte of a PDF file or of a pixel buffer. */
  newtype byte = x: int | 0 <= x < 256

  datatype Option<+T> = None | Some(value: T)

  /** The outcome of a call that either returns a value or raises an exception. */
  datatype Result<+T, +E> = Success(value: T) | Failure(error: E)

  /** The copy made when an immutable byte string is built from the first `n` bytes
      at a pointer (`py::bytes(ptr, n)`). */
  method CopyPrefix(src: seq<byte>, n: nat) returns (dst: seq<byte>)
    requires n <= |src|
    ensures dst == src[..n]
  {
    dst := [];
    var i := 0;
    while i < n
      invariant i <= n
      invariant dst == src[..i]
    {
      dst := dst + [src[i]];
      i := i + 1;
    }
  }

  /** `new char[size]` followed by `std::copy_n(ptr, size, buffer)`. */
  method CopyToNewArray(src: seq<byte>) returns (a: array<byte>)
    ensures fresh(a)
    ensures a[..] == src
  {
    a := new byte[|src|];
    var i := 0;
    while i < |src|
      invariant i <= |src|
      invariant a[..i] == src[..i]
    {
      a[i] := src[i];
      i := i + 1;
    }
  }
}
