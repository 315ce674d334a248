/** `BinaryConn`: a `net.Conn`-style byte stream over a message connection. Each
    `Write` becomes one binary message; each `Read` drains (part of) the next binary
    message, passing over every other kind of message. */
module Websocket {
  import opened Wrappers
  import opened Io
  import opened BufferFill
  import opened MessageConn

  /** The adapter holds the one message connection it owns, and nothing else. */
  datatype BinaryConn = BinaryConn(ws: Conn)

  // ---------------------------------------------------------------------------
  // Construction

  datatype Url = Url(scheme: string, host: string, path: string)

  type Header = map<string, seq<string>>

  datatype Response = Response(status: int, header: Header)

  /** `url.Parse`'s answer. */
  datatype Parsed = Parsed(url: Url) | Unparsable(err: Error)

  /** The answer of the handshake collaborator (`NewClient` or `Upgrade`). */
  datatype Handshake = Upgraded(ws: Conn, resp: Option<Response>) | Rejected(resp: Option<Response>, err: Error)

  /** The calls construction makes outside the adapter. */
  datatype SetupCall =
    | Dial(network: string, address: string)
    | NewClient(url: Url, header: Header, readBufSize: int, writeBufSize: int)
    | CloseTransport
    | Upgrade(requestHeader: Header, responseHeader: Header, readBufSize: int, writeBufSize: int)

  datatype Connected = Connected(conn: Option<BinaryConn>, resp: Option<Response>, err: Option<Error>, calls: seq<SetupCall>)

  /** `Connect`: parse the URL, dial its host over TCP, run the client handshake with
      the URL itself as `Origin`; a refused handshake closes the dialled transport. */
  function Connect(urlstr: string, readBufSize: int, writeBufSize: int,
                   parsed: Parsed, dialed: Option<Error>, handshake: Handshake): (r: Connected)
    ensures r.err.None? <==> parsed.Parsed? && dialed.None? && handshake.Upgraded?
    ensures r.conn.Some? <==> r.err.None?
    ensures r.err.None? ==> r.conn.value.ws == handshake.ws && r.resp == handshake.resp
    ensures parsed.Unparsable? ==> r.err == Some(parsed.err) && r.calls == []
    ensures parsed.Parsed? ==> |r.calls| > 0 && r.calls[0] == Dial("tcp", parsed.url.host)
    ensures parsed.Parsed? && dialed.Some? ==> r.err == dialed && r.calls == [Dial("tcp", parsed.url.host)]
    ensures parsed.Parsed? && dialed.None? ==>
              r.calls == [Dial("tcp", parsed.url.host), NewClient(parsed.url, map["Origin" := [urlstr]], readBufSize, writeBufSize)]
                         + (if handshake.Rejected? then [CloseTransport] else [])
    ensures !(parsed.Parsed? && dialed.None?) ==> r.resp.None?
    ensures CloseTransport in r.calls <==> parsed.Parsed? && dialed.None? && handshake.Rejected?
    ensures handshake.Rejected? && parsed.Parsed? && dialed.None? ==> r.err == Some(handshake.err) && r.resp == handshake.resp
  {
    match parsed
    case Unparsable(e) => Connected(None, None, Some(e), [])
    case Parsed(u) =>
      var dial := Dial("tcp", u.host);
      if dialed.Some? then Connected(None, None, dialed, [dial])
      else
        var hello := NewClient(u, map["Origin" := [urlstr]], readBufSize, writeBufSize);
        match handshake
        case Upgraded(ws, resp) => Connected(Some(BinaryConn(ws)), resp, None, [dial, hello])
        case Rejected(resp, e) => Connected(None, resp, Some(e), [dial, hello, CloseTransport])
  }

  datatype Admission = Admission(conn: Option<BinaryConn>, err: Option<Error>, calls: seq<SetupCall>)

  /** `NewBianryConn` as written: the server upgrade always asks for 1024-byte buffers,
      whatever sizes the caller passed. */
  function NewBianryConn(requestHeader: Header, responseHeader: Header, readBufSize: int, writeBufSize: int,
                         handshake: Handshake): (r: Admission)
    ensures r.calls == [Upgrade(requestHeader, responseHeader, 1024, 1024)]
    ensures r.err.None? <==> handshake.Upgraded?
    ensures handshake.Upgraded? ==> r.conn == Some(BinaryConn(handshake.ws))
    ensures handshake.Rejected? ==> r.conn.None? && r.err == Some(handshake.err)
  {
    Accept(requestHeader, responseHeader, 1024, 1024, handshake)
  }

  /** The caller's buffer sizes have no effect on `NewBianryConn`: a caller asking for
      4096-byte buffers gets the upgrade of one asking for 1024. */
  lemma NewBianryConnIgnoresSizes(requestHeader: Header, responseHeader: Header, readBufSize: int, writeBufSize: int,
                                  handshake: Handshake)
    ensures NewBianryConn(requestHeader, responseHeader, readBufSize, writeBufSize, handshake)
         == NewBianryConn(requestHeader, responseHeader, 1024, 1024, handshake)
    ensures readBufSize != 1024 ==>
              NewBianryConn(requestHeader, responseHeader, readBufSize, writeBufSize, handshake).calls[0].readBufSize != readBufSize
  {
  }

  /** The server upgrade as evidently intended: the caller's sizes reach `Upgrade`,
      as they reach `NewClient` in `Connect`. */
  function Accept(requestHeader: Header, responseHeader: Header, readBufSize: int, writeBufSize: int,
                  handshake: Handshake): (r: Admission)
    ensures r.calls == [Upgrade(requestHeader, responseHeader, readBufSize, writeBufSize)]
    ensures r.err.None? <==> handshake.Upgraded?
    ensures handshake.Upgraded? ==> r.conn == Some(BinaryConn(handshake.ws))
    ensures handshake.Rejected? ==> r.conn.None? && r.err == Some(handshake.err)
  {
    var calls := [Upgrade(requestHeader, responseHeader, readBufSize, writeBufSize)];
    match handshake
    case Upgraded(ws, _) => Admission(Some(BinaryConn(ws)), None, calls)
    case Rejected(_, e) => Admission(None, Some(e), calls)
  }

  // ---------------------------------------------------------------------------
  // Read

  /** The `Read` loop stops at a binary message or at an error from `NextReader`;
      it passes over everything else: pong, text, close, ping, unknown opcodes. */
  predicate StopsRead(e: Event)
  {
    e.Fault? || e.msg.op == OpBinary
  }

  function NextReaderCalls(k: nat): (s: seq<Call>)
    ensures |s| == k
    ensures forall i :: 0 <= i < k ==> s[i] == NextReaderCall
  {
    seq(k, _ => NextReaderCall)
  }

  lemma NextReaderCallsStep(k: nat)
    ensures [NextReaderCall] + NextReaderCalls(k) == NextReaderCalls(k + 1)
  {
  }

  /** `conn` after `k` `NextReader` calls that each took one event. */
  function Skip(conn: BinaryConn, k: nat): BinaryConn
    requires k <= |conn.ws.inbound|
  {
    BinaryConn(conn.ws.(inbound := conn.ws.inbound[k..], log := conn.ws.log + NextReaderCalls(k)))
  }

  /** Skipping one event and then `k` more is skipping `k + 1`. */
  lemma SkipStep(conn: BinaryConn, k: nat)
    requires k < |conn.ws.inbound|
    ensures Skip(Skip(conn, 1), k) == Skip(conn, k + 1)
  {
  }

  datatype ReadResult =
    | Done(n: nat, err: Option<Error>, buf: seq<byte>, conn: BinaryConn)
    | Blocked(conn: BinaryConn)

  /** The binary-message case of `Read`: copy at most `|b|` bytes of the payload into
      `b`'s prefix. A payload shorter than `b` is reported with `EOF` (for this
      message only), or with the payload reader's own error and `n = 0` if it
      failed; the part of a longer payload that does not fit is dropped. */
  function Drain(m: Incoming, b: seq<byte>, conn: BinaryConn): (r: ReadResult)
    ensures r.Done? && r.conn == conn && |r.buf| == |b| && r.n <= |b|
    ensures var k := Min(|m.payload|, |b|);
            r.buf[..k] == m.payload[..k] && r.buf[k..] == b[k..]
    ensures |m.payload| >= |b| ==> r.n == |b| && r.err.None?
    ensures |m.payload| < |b| && m.end == EOF ==> r.n == |m.payload| && r.err == Some(EOF)
    ensures |m.payload| < |b| && m.end != EOF ==> r.n == 0 && r.err == Some(m.end)
  {
    var copied := CopyN(m.payload, m.end, |b|);
    var buf := Fill(b, copied.written);
    match copied.err
    case None => Done(|copied.written|, None, buf, conn)
    case Some(e) =>
      if e == EOF then Done(|copied.written|, Some(EOF), buf, conn)
      else Done(0, Some(e), buf, conn)
  }

  /** `Read(b)`: call `NextReader` until it yields a binary message or fails. An error
      is returned at once with `n = 0` and `b` untouched; a binary message goes to
      `Drain`; any other opcode is passed over. */
  function Read(conn: BinaryConn, b: seq<byte>): (r: ReadResult)
    ensures r.Done? ==> |r.buf| == |b| && r.n <= |b|
    ensures r.Blocked? ==>
              r.conn.ws.inbound == [] && conn.ws.terminal.None? &&
              forall e :: e in conn.ws.inbound ==> !StopsRead(e)
    decreases |conn.ws.inbound|
  {
    match NextReader(conn.ws)
    case Failed(e, ws) =>
      Done(0, Some(e), b, BinaryConn(ws))
    case Pending(ws) =>
      Blocked(BinaryConn(ws))
    case Ready(m, ws) =>
      if m.op == OpBinary then Drain(m, b, BinaryConn(ws))
      else
        // OpPong by the explicit `continue`, any other opcode by falling out of the
        // `switch`: either way the loop goes back to `NextReader`.
        Read(BinaryConn(ws), b)
  }

  /** What a `Read` leaves of the connection: only the inbound queue and the call log
      change; the queue left is a suffix of the old one, and the log grows by
      `NextReader` calls alone, at least one. */
  lemma {:induction false} ReadFrame(conn: BinaryConn, b: seq<byte>)
    ensures var r := Read(conn, b);
            && r.conn.ws == conn.ws.(inbound := r.conn.ws.inbound, log := r.conn.ws.log)
            && |r.conn.ws.inbound| <= |conn.ws.inbound|
            && r.conn.ws.inbound == conn.ws.inbound[|conn.ws.inbound| - |r.conn.ws.inbound|..]
            && |conn.ws.log| < |r.conn.ws.log|
            && r.conn.ws.log == conn.ws.log + NextReaderCalls(|r.conn.ws.log| - |conn.ws.log|)
    decreases |conn.ws.inbound|
  {
    match NextReader(conn.ws)
    case Failed(_, _) =>
    case Pending(_) =>
    case Ready(m, ws) =>
      if m.op != OpBinary {
        var r := Read(BinaryConn(ws), b);
        ReadFrame(BinaryConn(ws), b);
        NextReaderCallsStep(|r.conn.ws.log| - |ws.log|);
        assert conn.ws.inbound[1..][|ws.inbound| - |r.conn.ws.inbound|..]
            == conn.ws.inbound[|conn.ws.inbound| - |r.conn.ws.inbound|..];
      }
  }

  // ---------------------------------------------------------------------------
  // Write

  /** The collaborator's answers to the three calls `Write` makes. */
  datatype WriterReplies = WriterReplies(open: Option<Error>, write: WriteReply, close: Option<Error>)

  datatype WriteResult = WriteResult(n: nat, err: Option<Error>, conn: BinaryConn)

  /** `Write(b)`: open one binary message, write all of `b` into it, close it. A failed
      open returns at once with `n = 0`; a failed write returns what the writer
      reported without closing the message; a failed close is returned with the
      count the write reported. Only the inbound side is left alone. */
  function Write(conn: BinaryConn, b: seq<byte>, replies: WriterReplies): (r: WriteResult)
    ensures r.conn.ws == conn.ws.(sent := r.conn.ws.sent, log := r.conn.ws.log)
    ensures r.err.None? <==> replies.open.None? && replies.write.Accepted? && replies.close.None?
    ensures r.err.None? ==> r.n == |b| && r.conn.ws.sent == conn.ws.sent + [Message(OpBinary, b)]
    ensures r.err.Some? ==> r.conn.ws.sent == conn.ws.sent
    ensures replies.open.Some? ==>
              r.n == 0 && r.err == replies.open && r.conn.ws.log == conn.ws.log + [NextWriterCall(OpBinary)]
    ensures replies.open.None? && replies.write.Refused? ==>
              r.n == replies.write.n && r.err == Some(replies.write.err) &&
              r.conn.ws.log == conn.ws.log + [NextWriterCall(OpBinary), WriteCall(b)]
    ensures replies.open.None? && replies.write.Accepted? ==>
              r.n == |b| && r.err == replies.close &&
              r.conn.ws.log == conn.ws.log + [NextWriterCall(OpBinary), WriteCall(b), CloseWriterCall]
  {
    match NextWriter(conn.ws, OpBinary, replies.open)
    case OpenFailed(e, ws) =>
      WriteResult(0, Some(e), BinaryConn(ws))
    case Opened(w, ws) =>
      var wrote := WriterWrite(ws, w, b, replies.write);
      if wrote.err.Some? then WriteResult(wrote.n, wrote.err, BinaryConn(wrote.conn))
      else
        assert wrote.w.data == w.data + b == b;
        var closed := WriterClose(wrote.conn, wrote.w, replies.close);
        WriteResult(wrote.n, closed.err, BinaryConn(closed.conn))
  }

  // ---------------------------------------------------------------------------
  // Deadlines, close, addresses

  datatype SetResult = SetResult(err: Option<Error>, conn: BinaryConn)

  /** `SetReadDeadline(t)`: forwarded unchanged (a zero `t` included). */
  function SetReadDeadline(conn: BinaryConn, t: Time, reply: Option<Error>): (r: SetResult)
    ensures r.err == reply
    ensures r.conn.ws.log == conn.ws.log + [ReadDeadlineCall(t)]
    ensures r.conn.ws.readDeadline == (if reply.None? then t else conn.ws.readDeadline)
    ensures r.conn.ws == conn.ws.(readDeadline := r.conn.ws.readDeadline, log := r.conn.ws.log)
  {
    var s := MessageConn.SetReadDeadline(conn.ws, t, reply);
    SetResult(s.err, BinaryConn(s.conn))
  }

  /** `SetWriteDeadline(t)`: forwarded unchanged (a zero `t` included). */
  function SetWriteDeadline(conn: BinaryConn, t: Time, reply: Option<Error>): (r: SetResult)
    ensures r.err == reply
    ensures r.conn.ws.log == conn.ws.log + [WriteDeadlineCall(t)]
    ensures r.conn.ws.writeDeadline == (if reply.None? then t else conn.ws.writeDeadline)
    ensures r.conn.ws == conn.ws.(writeDeadline := r.conn.ws.writeDeadline, log := r.conn.ws.log)
  {
    var s := MessageConn.SetWriteDeadline(conn.ws, t, reply);
    SetResult(s.err, BinaryConn(s.conn))
  }

  /** `SetDeadline(t)`: the read deadline first; if that fails, its error is returned
      and the write deadline is not touched; otherwise the write deadline's result
      is the result. */
  function SetDeadline(conn: BinaryConn, t: Time, readReply: Option<Error>, writeReply: Option<Error>): (r: SetResult)
    ensures r.conn.ws == conn.ws.(readDeadline := r.conn.ws.readDeadline,
                                  writeDeadline := r.conn.ws.writeDeadline,
                                  log := r.conn.ws.log)
    ensures r.err.None? <==> readReply.None? && writeReply.None?
    ensures r.err.None? ==> r.conn.ws.readDeadline == t && r.conn.ws.writeDeadline == t
    ensures readReply.Some? ==>
              r.err == readReply && r.conn.ws.readDeadline == conn.ws.readDeadline &&
              r.conn.ws.writeDeadline == conn.ws.writeDeadline &&
              r.conn.ws.log == conn.ws.log + [ReadDeadlineCall(t)]
    ensures readReply.None? ==>
              r.err == writeReply && r.conn.ws.readDeadline == t &&
              r.conn.ws.log == conn.ws.log + [ReadDeadlineCall(t), WriteDeadlineCall(t)]
    ensures readReply.None? && writeReply.Some? ==> r.conn.ws.writeDeadline == conn.ws.writeDeadline
  {
    var read := SetReadDeadline(conn, t, readReply);
    if read.err.Some? then read
    else SetWriteDeadline(read.conn, t, writeReply)
  }

  /** `Close`: forwarded; the connection's error is returned as it is. */
  function Close(conn: BinaryConn, reply: Option<Error>): (r: SetResult)
    ensures r.err == reply
    ensures r.conn.ws == conn.ws.(log := conn.ws.log + [CloseCall])
  {
    var s := MessageConn.Close(conn.ws, reply);
    SetResult(s.err, BinaryConn(s.conn))
  }

  function LocalAddr(conn: BinaryConn): Addr
  {
    conn.ws.local
  }

  function RemoteAddr(conn: BinaryConn): Addr
  {
    conn.ws.remote
  }
}
