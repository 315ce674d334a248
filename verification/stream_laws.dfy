/** Laws of the adapter as a byte stream: one message per `Write`, and what a peer's
    `Read` recovers from the messages it receives. */
module StreamLaws {
  import opened Wrappers
  import opened Io
  import opened MessageConn
  import opened Websocket
  import opened ReadLaws

  /** The collaborator's answers when every step of a `Write` succeeds. */
  const Accepting := WriterReplies(None, Accepted, None)

  /** The binary messages carrying `chunks`, one each. */
  function Binaries(chunks: seq<seq<byte>>): (ms: seq<Message>)
    ensures |ms| == |chunks|
    ensures forall i :: 0 <= i < |chunks| ==> ms[i] == Message(OpBinary, chunks[i])
  {
    seq(|chunks|, i requires 0 <= i < |chunks| => Message(OpBinary, chunks[i]))
  }

  /** The events a peer meets when messages `ms` arrive intact. */
  function Delivered(ms: seq<Message>): (q: seq<Event>)
    ensures |q| == |ms|
    ensures forall i :: 0 <= i < |ms| ==> q[i] == Arrival(Incoming(ms[i].op, ms[i].payload, EOF))
  {
    seq(|ms|, i requires 0 <= i < |ms| => Arrival(Incoming(ms[i].op, ms[i].payload, EOF)))
  }

  /** `conn` with `q` as the events waiting to be read. */
  function Arriving(conn: BinaryConn, q: seq<Event>): BinaryConn
  {
    BinaryConn(conn.ws.(inbound := q))
  }

  /** `Write` each chunk in turn, every step succeeding. */
  function WriteAll(conn: BinaryConn, chunks: seq<seq<byte>>): BinaryConn
    decreases |chunks|
  {
    if |chunks| == 0 then conn
    else WriteAll(Write(conn, chunks[0], Accepting).conn, chunks[1..])
  }

  /** Successive writes are neither merged nor split: the peer receives one binary
      message per call, carrying that call's bytes, in call order. */
  lemma {:induction false} WriteAllSendsEach(conn: BinaryConn, chunks: seq<seq<byte>>)
    ensures WriteAll(conn, chunks).ws.sent == conn.ws.sent + Binaries(chunks)
    decreases |chunks|
  {
    if |chunks| > 0 {
      var next := Write(conn, chunks[0], Accepting).conn;
      WriteAllSendsEach(next, chunks[1..]);
      assert [Message(OpBinary, chunks[0])] + Binaries(chunks[1..]) == Binaries(chunks);
    }
  }

  /** A binary message that arrives intact behind control messages is read by one
      `Read` with a longer buffer as exactly its payload, with `EOF` for that
      message, and nothing after it is consumed. */
  lemma ReadsArrivedMessage(peer: BinaryConn, p: seq<byte>, junk: seq<Event>, rest: seq<Event>, b: seq<byte>)
    requires |p| < |b|
    requires forall j :: 0 <= j < |junk| ==> !StopsRead(junk[j])
    requires peer.ws.inbound == junk + [Arrival(Incoming(OpBinary, p, EOF))] + rest
    ensures var r := Read(peer, b);
            r.Done? && r.n == |p| && r.err == Some(EOF) && r.buf[..r.n] == p && r.conn.ws.inbound == rest
  {
    var q := peer.ws.inbound;
    assert q[|junk|] == Arrival(Incoming(OpBinary, p, EOF));
    forall j | 0 <= j < |junk|
      ensures !StopsRead(q[j])
    {
      assert q[j] == junk[j];
    }
    ReadReachesBinary(peer, b, |junk|);
    assert q[|junk| + 1..] == rest;
  }

  /** Round trip: a successful `Write(p)` whose message reaches the peer, possibly
      after control messages, is read back by one `Read` with a longer buffer as
      exactly `p`, with `EOF` for that message, and nothing after it consumed. */
  lemma RoundTrip(conn: BinaryConn, p: seq<byte>, peer: BinaryConn, junk: seq<Event>, rest: seq<Event>, b: seq<byte>)
    requires |p| < |b|
    requires forall j :: 0 <= j < |junk| ==> !StopsRead(junk[j])
    ensures var w := Write(conn, p, Accepting);
            var r := Read(Arriving(peer, junk + Delivered(w.conn.ws.sent[|conn.ws.sent|..]) + rest), b);
            w.n == |p| && w.err.None? &&
            r.Done? && r.n == |p| && r.err == Some(EOF) && r.buf[..r.n] == p && r.conn.ws.inbound == rest
  {
    var w := Write(conn, p, Accepting);
    var sent := w.conn.ws.sent[|conn.ws.sent|..];
    assert sent == [Message(OpBinary, p)];
    assert Delivered(sent) == [Arrival(Incoming(OpBinary, p, EOF))];
    ReadsArrivedMessage(Arriving(peer, junk + Delivered(sent) + rest), p, junk, rest, b);
  }

  /** The client's "HELLO" through a peer that has also seen a pong, read with the
      512-byte buffer that `ioutil.ReadAll` first hands to `Read`. */
  lemma HelloRoundTrip(conn: BinaryConn, peer: BinaryConn)
    ensures var hello: seq<byte> := [72, 69, 76, 76, 79];
            var pong := Arrival(Incoming(OpPong, [], EOF));
            var w := Write(conn, hello, Accepting);
            var r := Read(Arriving(peer, [pong] + Delivered(w.conn.ws.sent[|conn.ws.sent|..])), seq(512, _ => 0));
            r.Done? && r.n == 5 && r.err == Some(EOF) && r.buf[..5] == hello
  {
    var hello: seq<byte> := [72, 69, 76, 76, 79];
    var pong := Arrival(Incoming(OpPong, [], EOF));
    var w := Write(conn, hello, Accepting);
    var q := [pong] + Delivered(w.conn.ws.sent[|conn.ws.sent|..]);
    RoundTrip(conn, hello, peer, [pong], [], seq(512, _ => 0));
    assert q + [] == q;
  }

  /** The data of `k` successive reads into a buffer like `b`, stopping early at an
      error other than `EOF` or when a read would block. */
  function Collect(conn: BinaryConn, b: seq<byte>, k: nat): seq<seq<byte>>
    decreases k
  {
    if k == 0 then []
    else
      var r := Read(conn, b);
      if r.Done? && (r.err.None? || r.err == Some(EOF)) then [r.buf[..r.n]] + Collect(r.conn, b, k - 1)
      else []
  }

  /** Messages that each fit in the buffer (a message exactly as long as the buffer
      included) are read back one per call, in order. */
  lemma {:induction false} ReadsBackInOrder(conn: BinaryConn, chunks: seq<seq<byte>>, rest: seq<Event>, b: seq<byte>)
    requires forall i :: 0 <= i < |chunks| ==> |chunks[i]| <= |b|
    requires conn.ws.inbound == Delivered(Binaries(chunks)) + rest
    ensures Collect(conn, b, |chunks|) == chunks
    decreases |chunks|
  {
    if |chunks| > 0 {
      var q := conn.ws.inbound;
      assert q[0] == Arrival(Incoming(OpBinary, chunks[0], EOF));
      ReadReachesBinary(conn, b, 0);
      var next := Skip(conn, 1);
      var r := Read(conn, b);
      assert r.Done? && r.n == |chunks[0]| && r.conn == next;
      assert r.err.None? || r.err == Some(EOF);
      assert r.buf[..r.n] == chunks[0];
      assert next.ws.inbound == Delivered(Binaries(chunks[1..])) + rest by {
        assert q[1..] == Delivered(Binaries(chunks[1..])) + rest;
      }
      ReadsBackInOrder(next, chunks[1..], rest, b);
      assert [chunks[0]] + chunks[1..] == chunks;
    }
  }

  /** Writes on one side, reads on the other: as long as no chunk is longer than the
      reader's buffer, the reader recovers the chunks exactly, in order. */
  lemma StreamRoundTrip(conn: BinaryConn, chunks: seq<seq<byte>>, peer: BinaryConn, rest: seq<Event>, b: seq<byte>)
    requires forall i :: 0 <= i < |chunks| ==> |chunks[i]| <= |b|
    ensures var after := WriteAll(conn, chunks).ws.sent;
            |conn.ws.sent| <= |after| &&
            Collect(Arriving(peer, Delivered(after[|conn.ws.sent|..]) + rest), b, |chunks|) == chunks
  {
    WriteAllSendsEach(conn, chunks);
    var sent := WriteAll(conn, chunks).ws.sent[|conn.ws.sent|..];
    assert sent == Binaries(chunks);
    ReadsBackInOrder(Arriving(peer, Delivered(sent) + rest), chunks, rest, b);
  }

  /** With a buffer smaller than the messages, the rest of each message is lost:
      "HELLO" then "WORLD" read two bytes at a time yield "HE" and "WO". */
  lemma SmallBufferDropsRemainder(conn: BinaryConn)
    requires conn.ws.inbound == Delivered(Binaries([[72, 69, 76, 76, 79], [87, 79, 82, 76, 68]]))
    ensures Collect(conn, [0, 0], 2) == [[72, 69], [87, 79]]
  {
    var b: seq<byte> := [0, 0];
    var hello: seq<byte> := [72, 69, 76, 76, 79];
    var world: seq<byte> := [87, 79, 82, 76, 68];
    var q := conn.ws.inbound;
    assert q[0] == Arrival(Incoming(OpBinary, hello, EOF));
    ReadReachesBinary(conn, b, 0);
    var r1 := Read(conn, b);
    assert r1.buf == [72, 69] && r1.n == 2 && r1.err.None?;
    var next := Skip(conn, 1);
    assert next.ws.inbound == [q[1]];
    assert q[1] == Arrival(Incoming(OpBinary, world, EOF));
    ReadReachesBinary(next, b, 0);
    var r2 := Read(next, b);
    assert r2.buf == [87, 79] && r2.n == 2 && r2.err.None?;
    assert r1.conn == next;
    assert r1.buf[..r1.n] == [72, 69] && r2.buf[..r2.n] == [87, 79];
    assert Collect(next, b, 1) == [[87, 79]];
    assert Collect(conn, b, 2) == [[72, 69]] + [[87, 79]];
  }
}
