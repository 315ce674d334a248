/** What `Read` does, stated against a reference: the first event at which the loop
    stops decides the outcome, everything before it is consumed and forgotten,
    and everything after it is left for the next call. */
module ReadLaws {
  import opened Wrappers
  import opened Io
  import opened MessageConn
  import opened Websocket

  /** The index of the first binary message or error in `q` (`|q|` if there is none). */
  function FirstStop(q: seq<Event>): (i: nat)
    ensures i <= |q|
    ensures i < |q| ==> StopsRead(q[i])
    ensures forall j :: 0 <= j < i ==> !StopsRead(q[j])
  {
    if |q| == 0 then 0
    else if StopsRead(q[0]) then 0
    else 1 + FirstStop(q[1..])
  }

  /** The properties of `FirstStop` pin it down. */
  lemma FirstStopIs(q: seq<Event>, i: nat)
    requires i <= |q|
    requires i < |q| ==> StopsRead(q[i])
    requires forall j :: 0 <= j < i ==> !StopsRead(q[j])
    ensures FirstStop(q) == i
  {
  }

  /** The reference outcome of `Read(b)`: a binary message at the first stop is
      drained, an error there is returned with `n = 0`; with no stop at all, the
      terminal error is returned, or the call blocks. */
  ghost function ReadSpec(conn: BinaryConn, b: seq<byte>): ReadResult
  {
    var q := conn.ws.inbound;
    var i := FirstStop(q);
    if i < |q| then
      match q[i]
      case Arrival(m) => Drain(m, b, Skip(conn, i + 1))
      case Fault(e) => Done(0, Some(e), b, Skip(conn, i + 1))
    else
      var polled := BinaryConn(Logged(Skip(conn, i).ws, NextReaderCall));
      match conn.ws.terminal
      case Some(e) => Done(0, Some(e), b, polled)
      case None => Blocked(polled)
  }

  /** The reference agrees with itself after one event the loop passes over. */
  lemma SpecPassesOne(conn: BinaryConn, b: seq<byte>)
    requires 0 < |conn.ws.inbound| && !StopsRead(conn.ws.inbound[0])
    ensures ReadSpec(conn, b) == ReadSpec(Skip(conn, 1), b)
  {
    var q := conn.ws.inbound;
    var next := Skip(conn, 1);
    assert next.ws.inbound == q[1..];
    var i := FirstStop(q[1..]);
    FirstStopIs(q, i + 1);
    SkipStep(conn, i);
    if i < |q[1..]| {
      assert q[1..][i] == q[i + 1];
    }
  }

  /** `Read` passes over one event the loop does not stop at. */
  lemma ReadPassesOne(conn: BinaryConn, b: seq<byte>)
    requires 0 < |conn.ws.inbound| && !StopsRead(conn.ws.inbound[0])
    ensures Read(conn, b) == Read(Skip(conn, 1), b)
  {
    assert Skip(conn, 1).ws == Logged(conn.ws, NextReaderCall).(inbound := conn.ws.inbound[1..]) by {
      assert NextReaderCalls(1) == [NextReaderCall];
    }
  }

  /** `Read` and the reference agree when the first event stops the loop. */
  lemma ReadMeetsSpecAtStop(conn: BinaryConn, b: seq<byte>)
    requires 0 < |conn.ws.inbound| && StopsRead(conn.ws.inbound[0])
    ensures Read(conn, b) == ReadSpec(conn, b)
  {
    assert Skip(conn, 1).ws == Logged(conn.ws, NextReaderCall).(inbound := conn.ws.inbound[1..]) by {
      assert NextReaderCalls(1) == [NextReaderCall];
    }
  }

  /** `Read` is the reference, in every case. */
  lemma {:induction false} ReadMeetsSpec(conn: BinaryConn, b: seq<byte>)
    ensures Read(conn, b) == ReadSpec(conn, b)
    decreases |conn.ws.inbound|
  {
    var q := conn.ws.inbound;
    if |q| == 0 {
      assert Skip(conn, 0) == conn by {
        assert q[0..] == q;
        assert conn.ws.log + NextReaderCalls(0) == conn.ws.log;
      }
    } else if StopsRead(q[0]) {
      ReadMeetsSpecAtStop(conn, b);
    } else {
      ReadPassesOne(conn, b);
      SpecPassesOne(conn, b);
      ReadMeetsSpec(Skip(conn, 1), b);
    }
  }

  /** An error from `NextReader` ends the call at once: `n = 0`, `b` untouched, and
      exactly the events up to and including that error are consumed. */
  lemma ReadReturnsFault(conn: BinaryConn, b: seq<byte>, i: nat)
    requires i < |conn.ws.inbound| && conn.ws.inbound[i].Fault?
    requires forall j :: 0 <= j < i ==> !StopsRead(conn.ws.inbound[j])
    ensures Read(conn, b) == Done(0, Some(conn.ws.inbound[i].err), b, Skip(conn, i + 1))
  {
    ReadMeetsSpec(conn, b);
    FirstStopIs(conn.ws.inbound, i);
  }

  /** The first binary message decides the call, and `Read` consumes exactly the
      events up to and including it. */
  lemma ReadReachesBinary(conn: BinaryConn, b: seq<byte>, i: nat)
    requires i < |conn.ws.inbound|
    requires conn.ws.inbound[i].Arrival? && conn.ws.inbound[i].msg.op == OpBinary
    requires forall j :: 0 <= j < i ==> !StopsRead(conn.ws.inbound[j])
    ensures Read(conn, b) == Drain(conn.ws.inbound[i].msg, b, Skip(conn, i + 1))
  {
    ReadMeetsSpec(conn, b);
    FirstStopIs(conn.ws.inbound, i);
  }

  /** Never surfacing control messages: when none of the first `k` events is a binary
      message or an error, `Read` behaves as if they had never been queued (their
      opcodes and payloads play no part), apart from the `NextReader` calls that
      consumed them. This covers pong, and also text, ping and close. */
  lemma {:induction false} ReadPassesOver(conn: BinaryConn, b: seq<byte>, k: nat)
    requires k <= |conn.ws.inbound|
    requires forall j :: 0 <= j < k ==> !StopsRead(conn.ws.inbound[j])
    ensures Read(conn, b) == Read(Skip(conn, k), b)
    decreases k
  {
    if k == 0 {
      assert Skip(conn, 0) == conn by {
        assert conn.ws.inbound[0..] == conn.ws.inbound;
        assert conn.ws.log + NextReaderCalls(0) == conn.ws.log;
      }
    } else {
      var next := Skip(conn, 1);
      ReadPassesOne(conn, b);
      forall j | 0 <= j < k - 1
        ensures !StopsRead(next.ws.inbound[j])
      {
        assert next.ws.inbound[j] == conn.ws.inbound[j + 1];
      }
      ReadPassesOver(next, b, k - 1);
      SkipStep(conn, k - 1);
    }
  }

  /** A close message is passed over like any other non-binary message: it does not
      end the stream, and the binary message behind it is read. */
  lemma ReadLoopsPastClose(conn: BinaryConn, reason: seq<byte>, p: seq<byte>, b: seq<byte>)
    requires |p| < |b|
    requires conn.ws.inbound == [Arrival(Incoming(OpClose, reason, EOF)), Arrival(Incoming(OpBinary, p, EOF))]
    ensures var r := Read(conn, b);
            r.Done? && r.n == |p| && r.err == Some(EOF) && r.buf[..|p|] == p && r.conn.ws.inbound == []
  {
  }

  /** `Drain` looks at no more than the first `|b|` bytes of a payload that long. */
  lemma DrainSeesPrefix(m1: Incoming, m2: Incoming, b: seq<byte>, conn: BinaryConn)
    requires |b| <= |m1.payload| && |b| <= |m2.payload|
    requires m1.payload[..|b|] == m2.payload[..|b|]
    ensures Drain(m1, b, conn) == Drain(m2, b, conn)
  {
    var r1 := Drain(m1, b, conn);
    var r2 := Drain(m2, b, conn);
    assert r1.buf == r1.buf[..|b|] && r2.buf == r2.buf[..|b|];
  }

  /** The part of a binary message that does not fit in `b` is dropped: the call
      returns `|b|` bytes with no error, the next call starts at the event after
      that message, and what followed the first `|b|` bytes (and how the payload
      reader ended) makes no difference at all. */
  lemma ReadDropsRemainder(conn1: BinaryConn, conn2: BinaryConn, b: seq<byte>, i: nat)
    requires conn2.ws == conn1.ws.(inbound := conn2.ws.inbound)
    requires |conn1.ws.inbound| == |conn2.ws.inbound| && i < |conn1.ws.inbound|
    requires forall j :: 0 <= j < |conn1.ws.inbound| && j != i ==> conn1.ws.inbound[j] == conn2.ws.inbound[j]
    requires forall j :: 0 <= j < i ==> !StopsRead(conn1.ws.inbound[j])
    requires conn1.ws.inbound[i].Arrival? && conn1.ws.inbound[i].msg.op == OpBinary
    requires conn2.ws.inbound[i].Arrival? && conn2.ws.inbound[i].msg.op == OpBinary
    requires |b| <= |conn1.ws.inbound[i].msg.payload| && |b| <= |conn2.ws.inbound[i].msg.payload|
    requires conn1.ws.inbound[i].msg.payload[..|b|] == conn2.ws.inbound[i].msg.payload[..|b|]
    ensures Read(conn1, b) == Read(conn2, b)
    ensures var r := Read(conn1, b);
            r.Done? && r.n == |b| && r.err.None? && r.buf == conn1.ws.inbound[i].msg.payload[..|b|] &&
            r.conn.ws.inbound == conn1.ws.inbound[i + 1..]
  {
    var q1, q2 := conn1.ws.inbound, conn2.ws.inbound;
    assert q1[i + 1..] == q2[i + 1..];
    assert Skip(conn1, i + 1) == Skip(conn2, i + 1);
    forall j | 0 <= j < i
      ensures !StopsRead(q2[j])
    {
      assert q2[j] == q1[j];
    }
    ReadReachesBinary(conn1, b, i);
    ReadReachesBinary(conn2, b, i);
    DrainSeesPrefix(q1[i].msg, q2[i].msg, b, Skip(conn1, i + 1));
    var r := Drain(q1[i].msg, b, Skip(conn1, i + 1));
    assert r.buf == r.buf[..|b|];
  }
}
