/** The parts of Go's `io` package the adapter relies on: bytes, errors and `io.CopyN`. */
module Io {
  import opened Wrappers

  /** An octet, the element type of Go's `[]byte`. */
  newtype byte = x: int | 0 <= x < 256

  /** The errors that travel through the adapter. Only `EOF` means something to the
      adapter itself; every other error (a passed deadline, a closed connection, a
      refused handshake, ...) is passed along untouched and is told apart only by
      its code. */
  datatype Error =
    | EOF               // io.EOF: a payload reader has no more bytes
    | Other(code: int)  // any other error the connection or the network reports

  function Min(a: int, b: int): int
  {
    if a <= b then a else b
  }

  /** The bytes `io.CopyN` moved, and the error it returned. */
  datatype Copied = Copied(written: seq<byte>, err: Option<Error>)

  /** `io.CopyN(dst, src, n)` where `src` yields `payload` and then reports `end`.
      Go documents that the copy stops after `n` bytes, and that exactly `n` bytes
      were written if and only if the error is nil; when the source runs dry first,
      its terminal error is returned, and a clean end (`EOF` from the source) is
      reported as `EOF`. */
  function CopyN(payload: seq<byte>, end: Error, n: nat): (r: Copied)
    ensures |r.written| <= n && |r.written| <= |payload|
    ensures r.written == payload[..|r.written|]
    ensures r.err.None? <==> |r.written| == n
    ensures r.err.Some? ==> r.written == payload && r.err.value == end
  {
    if n <= |payload| then Copied(payload[..n], None) else Copied(payload, Some(end))
  }
}
