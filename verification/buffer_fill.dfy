/** Where the bytes copied by `Read` end up in the caller's buffer `b`.

    `Read` wraps `b` in a `bytes.Buffer`, empties it, and lets `io.CopyN` append
    into that buffer. The evident intent is that the copied bytes land in `b`'s
    own prefix (`Fill`). `io.CopyN` goes through `Buffer.ReadFrom`, which first makes
    room for `MinRead` (512) bytes; when `b` has less capacity than that, the
    buffer moves to a freshly allocated array and `b` is never written
    (`FillAsWritten`). */
module BufferFill {
  import opened Io

  /** `bytes.MinRead`: the room `Buffer.ReadFrom` reserves before each read. */
  const MinRead: nat := 512

  /** `b` with its first `|data|` bytes replaced by `data`. */
  function Fill(b: seq<byte>, data: seq<byte>): (r: seq<byte>)
    requires |data| <= |b|
    ensures |r| == |b|
    ensures r[..|data|] == data
    ensures r[|data|..] == b[|data|..]
  {
    data + b[|data|..]
  }

  /** What `b` holds after the copy as the code is written, for a `b` whose capacity
      equals its length, in the best case where the payload reader hands over all
      of `data` in one call: with at least `MinRead` bytes of room the copy lands in
      `b`, with less it lands in a new array. */
  function FillAsWritten(b: seq<byte>, data: seq<byte>): (r: seq<byte>)
    requires |data| <= |b|
    ensures |r| == |b| && r[|data|..] == b[|data|..]
    ensures |b| >= MinRead ==> r[..|data|] == data
    ensures |b| < MinRead ==> r[..|data|] == b[..|data|]
    ensures r[..|data|] == data <==> |b| >= MinRead || b[..|data|] == data
  {
    if |b| >= MinRead then Fill(b, data) else b
  }

  /** With a buffer shorter than `MinRead`, the bytes `Read` reports as copied are
      not in `b` unless `b` already held them. */
  lemma ShortBufferNotFilled(b: seq<byte>, data: seq<byte>)
    requires |data| <= |b| < MinRead
    requires data != b[..|data|]
    ensures FillAsWritten(b, data)[..|data|] != data
    ensures Fill(b, data)[..|data|] == data
  {
  }

  /** A concrete instance: a 4-byte buffer reading a "HELLO" payload is told 4 bytes
      were copied, yet still holds zeros. */
  lemma FourByteBufferStaysZero()
    ensures var b: seq<byte> := [0, 0, 0, 0];
            var data: seq<byte> := [72, 69, 76, 76];
            FillAsWritten(b, data) == b && Fill(b, data) == data
  {
  }
}
