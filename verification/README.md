# BinaryConn: a byte stream over WebSocket messages

This project models `BinaryConn` from the go-websocket package. `BinaryConn` makes a
message-oriented WebSocket connection look like a `net.Conn` byte stream:

- each `Write(b)` becomes exactly one binary message (opcode 0x2, section 5.2 of RFC 6455);
- each `Read(b)` calls `NextReader` until it meets a binary message, and copies at most
  `len(b)` bytes of that message into `b`. Pong (opcode 0xA, section 5.5.3 of RFC 6455)
  goes through an explicit `continue`. Text, ping, close and unknown opcodes fall out of
  the `switch` and are passed over the same way. An error from `NextReader` is returned
  at once;
- `SetDeadline` sets the read deadline, then the write deadline, and stops at the first
  failure.

The message connection it wraps (`*Conn`) is not part of this model. It is represented
by an immutable state, `MessageConn.Conn`, which holds:

- the events `NextReader` will meet, each a message (opcode, the bytes its payload
  reader yields, and the error that reader reports after them) or an error such as a
  timeout;
- the error `NextReader` returns once those events are used up, or none if it would
  block;
- the messages the peer has received;
- the two deadlines and the endpoint addresses;
- a log of every call the adapter made into the connection.

Whatever depends on the network is a parameter: the replies of `NextWriter`, of the
writer's `Write` and `Close`, and of the deadline setters and `Close`; likewise the
outcomes of `url.Parse`, `net.Dial` and the handshake in `Connect`. Every operation is
a pure function that returns its result together with the new state.

Files:

- `wrappers.dfy`: `Option`.
- `io.dfy`: bytes, errors and `io.CopyN`.
- `buffer_fill.dfy`: where copied bytes land in the caller's buffer.
- `message_conn.dfy`: the abstract message connection.
- `websocket.dfy`: `BinaryConn` and its operations.
- `read_laws.dfy`: `Read` against a reference definition.
- `stream_laws.dfy`: write/read round trips and stream-level laws.

Some of what one might expect of a byte stream is not true of this code, and the model
follows the code:

- a close message does not end the stream: `Read` loops past it (`ReadLoopsPastClose`);
- the part of a binary message that does not fit in `b` is lost. So a written chunk is
  recovered intact only when it is no longer than the reader's buffer
  (`StreamRoundTrip`, `SmallBufferDropsRemainder`).

## Model

| member | source | states |
|---|---|---|
| `Io.CopyN` | websocket/binaryconn.go:94 | at most `n` bytes are copied, and they are a prefix of the payload; the error is nil exactly when `n` bytes were copied; otherwise the whole payload was copied and the reader's terminal error is returned |
| `BufferFill.Fill` | websocket/binaryconn.go:91-94 | the intended effect of the copy on `b`: its first `k` bytes become the copied bytes and the rest of `b` is unchanged |
| `BufferFill.FillAsWritten` | websocket/binaryconn.go:91-94 | the copy as written (payload handed over in one call, capacity equal to length): `b` keeps its length and everything past the copied bytes; the copied bytes land in `b` when it has at least 512 bytes, and otherwise `b`'s prefix is left as it was, so it matches the copied bytes only if it already held them |
| `BufferFill.ShortBufferNotFilled` | websocket/binaryconn.go:91-94 | as written, with a buffer shorter than 512 bytes, the bytes reported as copied are not in `b`, although `Fill` would have put them there |
| `BufferFill.FourByteBufferStaysZero` | websocket/binaryconn.go:91-97 | a 4-byte zeroed buffer reading "HELLO" still holds zeros after the copy as written, while `Fill` gives "HELL" |
| `Websocket.Connect` | websocket/binaryconn.go:41-60 | success exactly when parse, dial and handshake all succeed, and then the adapter wraps the handshake's connection; a failed parse makes no call; after a parse, exactly one dial of the host over "tcp", then (if it succeeds) exactly one handshake with `Origin` set to the URL string and the caller's buffer sizes, then a transport close only when the handshake is refused, which returns the handshake's error and response; no response when the parse or the dial fails |
| `Websocket.NewBianryConn` | websocket/binaryconn.go:63-73 | `Upgrade` is always called with 1024/1024, whatever sizes the caller passed; on success the adapter wraps the upgraded connection with no error; a refused upgrade gives no adapter and the upgrade's own error |
| `Websocket.NewBianryConnIgnoresSizes` | websocket/binaryconn.go:63-66 | the result does not depend on the buffer-size arguments, and a size other than 1024 never reaches `Upgrade` |
| `Websocket.Accept` | websocket/binaryconn.go:63-73 | the corrected server path: the caller's sizes reach `Upgrade`; there is an adapter exactly when the upgrade succeeds, and otherwise its error |
| `Websocket.Drain` | websocket/binaryconn.go:90-103 | a binary message's payload fills `b`'s prefix up to `min(len(payload), len(b))` and the rest of `b` is unchanged. A payload at least as long as `b` gives `n = len(b)` with nil error. A shorter one with a clean end gives `n = len(payload)` with EOF. A shorter one whose reader failed gives `n = 0` with that error. Nothing else is consumed |
| `Websocket.Read` | websocket/binaryconn.go:78-107 | `n <= len(b)` and `b` keeps its length; a read blocks only when no binary message or error was queued and there is no terminal error |
| `Websocket.ReadFrame` | websocket/binaryconn.go:78-107 | only the inbound queue and the call log change; the queue left is a suffix of the old one; the only calls made are `NextReader` calls, at least one |
| `Websocket.Write` | websocket/binaryconn.go:112-122 | success exactly when open, write and close all succeed. Success appends exactly one binary message carrying `b` and reports `n = len(b)`; a failure appends nothing. A failed `NextWriter` gives `n = 0` and no further call. A failed write gives the writer's count and error, and the message is never closed. A failed close gives its error with `n = len(b)` |
| `Websocket.SetReadDeadline` | websocket/binaryconn.go:162-164 | one forwarded call with `t` unchanged; its error is returned; the read deadline becomes `t` only on success |
| `Websocket.SetWriteDeadline` | websocket/binaryconn.go:170-172 | one forwarded call with `t` unchanged; its error is returned; the write deadline becomes `t` only on success |
| `Websocket.SetDeadline` | websocket/binaryconn.go:153-158 | success exactly when both setters succeed, and then both deadlines are `t`. If the read setter fails, its error is returned, no write-deadline call is made and neither deadline changes. Otherwise the result is the write setter's |
| `Websocket.Close` | websocket/binaryconn.go:126-128 | one forwarded `Close`; its error is returned as is; nothing else changes |
| `ReadLaws.FirstStop` | websocket/binaryconn.go:82-105 | the index of the first binary message or error in the queue: every event before it is neither, and the event at it is one |
| `ReadLaws.ReadMeetsSpec` | websocket/binaryconn.go:82-107 | `Read` equals the reference outcome in every case. A binary message at the first stop is drained. An error there is returned with `n = 0` and `b` untouched. With no stop, the terminal error is returned, or the read blocks. In each case exactly the events up to the stop are consumed |
| `ReadLaws.ReadReturnsFault` | websocket/binaryconn.go:84-86 | an error from `NextReader` is returned at once with `n = 0` and `b` untouched; the events after it stay queued for the next call |
| `ReadLaws.ReadReachesBinary` | websocket/binaryconn.go:87-103 | the first binary message decides the call, and `Read` consumes exactly the events up to and including it |
| `ReadLaws.ReadPassesOver` | websocket/binaryconn.go:87-105 | non-binary messages (pong, text, ping, close, unknown) before the first stop make no difference except for the `NextReader` calls that consumed them: their payloads never reach the caller |
| `ReadLaws.ReadLoopsPastClose` | websocket/binaryconn.go:87-105 | a close message followed by a binary message yields that binary message's payload with EOF, not end of stream |
| `ReadLaws.DrainSeesPrefix` | websocket/binaryconn.go:94-103 | for payloads at least as long as `b`, draining depends only on their first `len(b)` bytes |
| `ReadLaws.ReadDropsRemainder` | websocket/binaryconn.go:94-103 | a binary message at least as long as `b` gives `n = len(b)`, no error, and its first `len(b)` bytes. The next read starts at the event after that message. Changing the payload beyond `len(b)`, or how its reader ends, changes nothing |
| `StreamLaws.WriteAllSendsEach` | websocket/binaryconn.go:112-122 | successful writes are neither merged nor split: the peer receives one binary message per call, with that call's bytes, in call order |
| `StreamLaws.ReadsArrivedMessage` | websocket/binaryconn.go:84-99 | a binary message that arrives intact behind control messages is read by one `Read` with a longer buffer as exactly its payload, with EOF, consuming nothing after it |
| `StreamLaws.RoundTrip` | websocket/binaryconn.go:84-121 | a successful `Write(p)` reports `len(p)`; once its message has reached the peer, a `Read` there with a buffer longer than `p` returns exactly `p` with EOF |
| `StreamLaws.HelloRoundTrip` | websocket/binaryconn_test.go:85-97 | "HELLO" written by the client is read back by the peer as exactly those 5 bytes with the 512-byte buffer `ioutil.ReadAll` hands to `Read`, even behind a pong (the server echo between the two is not modelled: the written message is taken as delivered) |
| `StreamLaws.ReadsBackInOrder` | websocket/binaryconn.go:84-103 | binary messages no longer than the buffer are returned one per `Read`, intact and in order |
| `StreamLaws.StreamRoundTrip` | websocket/binaryconn.go:78-122 | chunks written one `Write` each, none longer than the reader's buffer, are recovered by successive reads exactly and in order |
| `StreamLaws.SmallBufferDropsRemainder` | websocket/binaryconn.go:94-103 | with a 2-byte buffer, "HELLO" then "WORLD" read back as "HE" and "WO": the rest of each message is lost |

## Left out

- `LocalAddr`, `RemoteAddr`: plain accessors of the wrapped connection's addresses, with no contract, as the source only forwards them.
- The message connection itself (framing, masking, fragmentation, control-frame handling, the handshake, `url.Parse`, `net.Dial`): not part of this model; their outcomes are parameters.
- Deadline timing: deadlines are values passed along, and expiry shows up only as an error the connection reports. Blocking appears as `Blocked`, a read that would wait for more events.
- Concurrency, such as `Close` unblocking a pending `Read` or `Write` in another goroutine: out of scope for a sequential model.
- Behaviour of the connection after `Close` (later calls failing): belongs to the connection, which is not modelled.
- `Websocket.Write`: a message whose writer `Close` fails is counted as not received by the peer. Whether part of it reached the wire depends on the connection, which is not modelled.
- `Websocket.Write`: the count a failing writer reports is returned as given. The `io.Writer` rule that it is below `len(b)` is not imposed.
- `Websocket.Read`: the main model uses the intended copy into `b` (`Fill`). As written, the copy goes through `bytes.Buffer.ReadFrom`. For buffers of 512 bytes or more, it can still land in a new array when the payload reader hands the bytes over in several calls; that chunking is not modelled (see Findings for shorter buffers).
- Go's `[]byte` capacity beyond its length: buffers are sequences, so capacity equals length.
- Integer widths: `n` is unbounded; the `int64` conversion of `len(b)` and back cannot overflow for any real slice.
- The rest of the package test (`httptest` server, `time.Sleep`, cookie parsing, `ioutil.ReadAll`): only its "HELLO" round trip is stated.

## Findings

| source | as written | input that shows it | evidently intended | confidence | as-written member | corrected member |
|---|---|---|---|---|---|---|
| websocket/binaryconn.go:91-94 | the copy goes into a `bytes.Buffer` wrapped around `b`; `Buffer.ReadFrom` first makes room for 512 bytes and moves to a new array when `b` is shorter, so `b` is never written | `Read` with a 4-byte `b` on a binary message "HELLO" reports `n = 4` but `b` still holds its old bytes | the first `n` bytes of `b` hold the payload's first `n` bytes | medium: depends on Go's `bytes.Buffer`, which is outside this model; not executed | `BufferFill.FillAsWritten` (shown by `BufferFill.ShortBufferNotFilled`) | `BufferFill.Fill` |
| websocket/binaryconn.go:63-66 | `NewBianryConn` passes 1024, 1024 to `Upgrade` and ignores its `readBufSize`, `writeBufSize` parameters | `NewBianryConn(w, r, h, 4096, 4096)` upgrades with 1024-byte buffers | the caller's sizes are forwarded, as `Connect` forwards them | medium: the parameters exist only to be ignored; not executed | `Websocket.NewBianryConnIgnoresSizes` | `Websocket.Accept` |
