/** The message connection that `BinaryConn` wraps (the package's `*Conn`, which is not
    part of this model), reduced to an immutable state: the events still to be read,
    the messages the peer has received, the two deadlines, the endpoint addresses,
    and a log of the calls the adapter made into it. Its operations take the
    collaborator's reply as a parameter wherever the outcome depends on the network. */
module MessageConn {
  import opened Wrappers
  import opened Io

  // Opcodes of section 5.2 of RFC 6455.
  const OpBinary: int := 2
  const OpClose: int := 8
  const OpPong: int := 10

  /** A deadline as an instant; the zero value means "no deadline" and is passed
      along like any other value. */
  type Time = int

  datatype Addr = Addr(network: string, address: string)

  /** A complete message: its opcode and payload. */
  datatype Message = Message(op: int, payload: seq<byte>)

  /** A message as `NextReader` hands it over: its opcode, the bytes its payload
      reader yields, and the error that reader reports after them (`EOF` for a
      message that ends cleanly). */
  datatype Incoming = Incoming(op: int, payload: seq<byte>, end: Error)

  /** What one `NextReader` call meets: a message, or an error (a timeout, say,
      after which the connection may go on delivering). */
  datatype Event = Arrival(msg: Incoming) | Fault(err: Error)

  datatype Call =
    | NextReaderCall
    | NextWriterCall(op: int)
    | WriteCall(data: seq<byte>)
    | CloseWriterCall
    | ReadDeadlineCall(t: Time)
    | WriteDeadlineCall(t: Time)
    | CloseCall

  /** `inbound` is what `NextReader` will meet, in order; once it is used up,
      `NextReader` fails with `terminal`, or blocks when `terminal` is `None`.
      `sent` is what the peer has received, in order. */
  datatype Conn = Conn(
    inbound: seq<Event>,
    terminal: Option<Error>,
    sent: seq<Message>,
    readDeadline: Time,
    writeDeadline: Time,
    local: Addr,
    remote: Addr,
    log: seq<Call>)

  function Logged(c: Conn, call: Call): Conn
  {
    c.(log := c.log + [call])
  }

  datatype Next = Ready(msg: Incoming, conn: Conn) | Failed(err: Error, conn: Conn) | Pending(conn: Conn)

  function NextReader(c: Conn): Next
  {
    var polled := Logged(c, NextReaderCall);
    if |c.inbound| == 0 then
      if c.terminal.Some? then Failed(c.terminal.value, polled) else Pending(polled)
    else
      match c.inbound[0]
      case Arrival(m) => Ready(m, polled.(inbound := c.inbound[1..]))
      case Fault(e) => Failed(e, polled.(inbound := c.inbound[1..]))
  }

  /** An outbound message under construction: its opcode and the bytes written so far. */
  datatype Writer = Writer(op: int, data: seq<byte>)

  datatype Opened = Opened(w: Writer, conn: Conn) | OpenFailed(err: Error, conn: Conn)

  function NextWriter(c: Conn, op: int, reply: Option<Error>): Opened
  {
    var c' := Logged(c, NextWriterCall(op));
    match reply
    case None => Opened(Writer(op, []), c')
    case Some(e) => OpenFailed(e, c')
  }

  /** The writer's answer to one `Write`: it took everything, or it failed after
      taking `n` bytes. */
  datatype WriteReply = Accepted | Refused(n: nat, err: Error)

  datatype Wrote = Wrote(n: nat, err: Option<Error>, w: Writer, conn: Conn)

  function WriterWrite(c: Conn, w: Writer, b: seq<byte>, reply: WriteReply): Wrote
  {
    var c' := Logged(c, WriteCall(b));
    match reply
    case Accepted => Wrote(|b|, None, w.(data := w.data + b), c')
    case Refused(n, e) => Wrote(n, Some(e), w, c')
  }

  datatype Status = Status(err: Option<Error>, conn: Conn)

  /** Closing the writer delimits the message; only a message whose close succeeded
      counts as received by the peer. */
  function WriterClose(c: Conn, w: Writer, reply: Option<Error>): Status
  {
    var c' := Logged(c, CloseWriterCall);
    match reply
    case None => Status(None, c'.(sent := c'.sent + [Message(w.op, w.data)]))
    case Some(e) => Status(Some(e), c')
  }

  function SetReadDeadline(c: Conn, t: Time, reply: Option<Error>): Status
  {
    var c' := Logged(c, ReadDeadlineCall(t));
    if reply.None? then Status(None, c'.(readDeadline := t)) else Status(reply, c')
  }

  function SetWriteDeadline(c: Conn, t: Time, reply: Option<Error>): Status
  {
    var c' := Logged(c, WriteDeadlineCall(t));
    if reply.None? then Status(None, c'.(writeDeadline := t)) else Status(reply, c')
  }

  function Close(c: Conn, reply: Option<Error>): Status
  {
    Status(reply, Logged(c, CloseCall))
  }
}
