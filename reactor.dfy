/** What one readable or writable event does to a connection, shared by the
    single reactor (`Server`) and the worker reactors (`WorkerReactor`),
    whose `read`/`handleRead` and `write`/`handleWrite` follow the same
    rules: read the header, fall through to the body when the header
    completes in the same event, dispatch when the body is full, then drain
    the response and either reset for the next request (keep-alive) or
    close. */
module Reactor {
  import opened JavaBytes
  import opened Wrappers
  import opened Nio
  import opened ServerConstants
  import opened PayloadUtils
  import opened ServerContext

  /** A `MessageHandler`: the response bytes for the bytes of a request body. */
  type Handler = seq<Byte> -> seq<Byte>

  /** The handler `Server.processMessage` picks: `handlers.get(type)`, and
      the error handler when that gives `null`. */
  function ServerRoute(handlers: map<int, Handler>, errorHandler: Handler, tlvType: int): Handler {
    var found := if tlvType in handlers then Some(handlers[tlvType]) else None;
    if found.None? then errorHandler else found.value
  }

  /** The handler `WorkerReactor.processMessage` picks:
      `handlers.getOrDefault(type, errorHandler)`, the same choice. */
  function WorkerRoute(handlers: map<int, Handler>, errorHandler: Handler, tlvType: int): (h: Handler)
    ensures h == ServerRoute(handlers, errorHandler, tlvType)
    ensures tlvType !in handlers ==> h == errorHandler
  {
    if tlvType in handlers then handlers[tlvType] else errorHandler
  }

  /** A handler's response as a buffer: its bytes, position 0, limit at the end. */
  function Wrapped(bytes: seq<Byte>): Buf {
    Buf(bytes, 0, |bytes|)
  }

  /** `processMessage`: the handler's buffer becomes the response as it is. */
  function Dispatch(c: Conn, h: Handler): Conn
    requires c.body.Some?
  {
    SetResponseSpec(c, Wrapped(h(c.body.value.data)))
  }

  /** How a read event ends: nothing more to do yet, the peer's end of
      stream (the channel is closed), a negative body length
      (`IllegalArgumentException` out of `flipToReadingBody`), or a request
      dispatched (interest becomes `OP_WRITE`). */
  datatype ReadOutcome = Waiting | PeerClosed | BadLength | Dispatched

  /** The result of a read event: how it ended, the context afterwards and
      the bytes still waiting in the socket. */
  datatype ReadStep = ReadStep(outcome: ReadOutcome, conn: Conn, rest: seq<Byte>)

  /** The body branch: read into the body buffer; -1 closes, 0 returns, and
      a read that fills the body dispatches it. */
  function ReadBody(c: Conn, inbox: seq<Byte>, eof: bool, handlers: map<int, Handler>, errorHandler: Handler): ReadStep
    requires c.status == READING_BODY && c.body.Some? && c.body.value.Valid()
  {
    var t := ReadInto(c.body.value, inbox, eof);
    if t.count < 0 then ReadStep(PeerClosed, c, inbox)
    else if t.count == 0 then ReadStep(Waiting, c, inbox)
    else
      var c1 := c.(body := Some(t.buf));
      if t.buf.Remaining() == 0 then
        ReadStep(Dispatched, Dispatch(c1, ServerRoute(handlers, errorHandler, c1.tlvType)), t.rest)
      else ReadStep(Waiting, c1, t.rest)
  }

  /** What `read` does once the header branch is behind it: the body
      branch when the status is `READING_BODY`, and nothing otherwise. */
  function BodyBranch(c: Conn, inbox: seq<Byte>, eof: bool, handlers: map<int, Handler>, errorHandler: Handler): ReadStep
    requires c.status == READING_BODY ==> c.body.Some? && c.body.value.Valid()
  {
    if c.status == READING_BODY then ReadBody(c, inbox, eof, handlers, errorHandler)
    else ReadStep(Waiting, c, inbox)
  }

  /** A readable event on a connection: the header branch, then, if the
      status is (or has just become) `READING_BODY`, the body branch. */
  function ReadEvent(c: Conn, inbox: seq<Byte>, eof: bool, handlers: map<int, Handler>, errorHandler: Handler): ReadStep
    requires Inv(c)
  {
    if c.status == READING_HEADER then
      var r := ReadHeaderSpec(c, inbox, eof);
      if r.read < 0 then ReadStep(PeerClosed, r.conn, r.rest)
      else if r.read == 0 then ReadStep(Waiting, r.conn, r.rest)
      else if r.threw then ReadStep(BadLength, r.conn, r.rest)
      else BodyBranch(r.conn, r.rest, eof, handlers, errorHandler)
    else BodyBranch(c, inbox, eof, handlers, errorHandler)
  }

  /** How a write event ends: the write threw `IOException` on a reset
      connection (the selector callback closes the channel), part of the
      response is still to go, or the response is drained (a keep-alive
      connection is reset for the next request, any other is closed). */
  datatype WriteOutcome = WriteFailed | Partial | Drained

  /** The result of a write event: how it ended, the context afterwards
      and the bytes handed to the channel. */
  datatype WriteStep = WriteStep(outcome: WriteOutcome, conn: Conn, written: seq<Byte>)

  /** A writable event: write what the window takes of the response. */
  function WriteEvent(c: Conn, window: nat, broken: bool): WriteStep
    requires Inv(c) && c.status == WRITING_RESPONSE
  {
    var r := c.response.value;
    if broken then WriteStep(WriteFailed, c, [])
    else
      var n := Min(window, r.Remaining());
      var r1 := r.(position := r.position + n);
      var c1 := c.(response := Some(r1));
      if r1.Remaining() == 0 then
        WriteStep(Drained, if c.keepAlive then ResetSpec(c1) else c1, r.data[r.position..r1.position])
      else WriteStep(Partial, c1, r.data[r.position..r1.position])
  }

  /** The objects a context and its buffers occupy. */
  ghost function Footprint(ctx: ServerClientContext): set<object>
    reads ctx
  {
    {ctx, ctx.headerBuffer, ctx.headerBuffer.data}
    + (if ctx.bodyBuffer == null then {} else {ctx.bodyBuffer, ctx.bodyBuffer.data})
    + (if ctx.responseBuffer == null then {} else {ctx.responseBuffer, ctx.responseBuffer.data})
  }

  /** A registered client between events: its context is valid and keeps
      `Inv`, and the key asks for writes exactly while a response is being
      written (and for reads otherwise). */
  ghost predicate Attached(key: SelectionKey<ServerClientContext>)
    reads key, key.attachment, Footprint(key.attachment)
  {
    && key.attachment.Valid() && Inv(key.attachment.View())
    && key.interest != OP_CONNECT
    && (key.interest == OP_WRITE <==> key.attachment.View().status == WRITING_RESPONSE)
  }

  /** Every event keeps the shape `Inv` describes. */
  lemma ReadEventKeepsInv(c: Conn, inbox: seq<Byte>, eof: bool, handlers: map<int, Handler>, errorHandler: Handler)
    requires Inv(c)
    ensures Inv(ReadEvent(c, inbox, eof, handlers, errorHandler).conn)
  {
    if c.status == READING_HEADER {
      HeaderReadKeepsInv(c, inbox, eof);
      var r := ReadHeaderSpec(c, inbox, eof);
      if r.read > 0 && !r.threw && r.conn.status == READING_BODY {
        ReadBodyKeepsInv(r.conn, r.rest, eof, handlers, errorHandler);
      }
    } else if c.status == READING_BODY {
      ReadBodyKeepsInv(c, inbox, eof, handlers, errorHandler);
    }
  }

  /** A read event leaves the connection writing a response exactly when
      it dispatched a request. */
  lemma ReadEventPhase(c: Conn, inbox: seq<Byte>, eof: bool, handlers: map<int, Handler>, errorHandler: Handler)
    requires Inv(c) && c.status != WRITING_RESPONSE
    ensures var s := ReadEvent(c, inbox, eof, handlers, errorHandler);
      (s.outcome == Dispatched) == (s.conn.status == WRITING_RESPONSE)
  {
    if c.status == READING_HEADER {
      HeaderReadKeepsInv(c, inbox, eof);
      var r := ReadHeaderSpec(c, inbox, eof);
      HeaderReadNeverWrites(c, inbox, eof);
      if r.read > 0 && !r.threw {
        BodyBranchPhase(r.conn, r.rest, eof, handlers, errorHandler);
      }
    } else {
      BodyBranchPhase(c, inbox, eof, handlers, errorHandler);
    }
  }

  /** `readHeader` never starts writing a response. */
  lemma HeaderReadNeverWrites(c: Conn, inbox: seq<Byte>, eof: bool)
    requires Inv(c) && c.status == READING_HEADER
    ensures ReadHeaderSpec(c, inbox, eof).conn.status != WRITING_RESPONSE
  {
  }

  /** The body branch dispatches exactly when it leaves the connection
      writing a response. */
  lemma BodyBranchPhase(c: Conn, inbox: seq<Byte>, eof: bool, handlers: map<int, Handler>, errorHandler: Handler)
    requires c.status != WRITING_RESPONSE
    requires c.status == READING_BODY ==> c.body.Some? && c.body.value.Valid()
    ensures var s := BodyBranch(c, inbox, eof, handlers, errorHandler);
      (s.outcome == Dispatched) == (s.conn.status == WRITING_RESPONSE)
  {
  }

  /** A write event keeps the connection writing until the response is
      drained; a drained keep-alive connection waits for the next header. */
  lemma WriteEventPhase(c: Conn, window: nat, broken: bool)
    requires Inv(c) && c.status == WRITING_RESPONSE
    ensures var s := WriteEvent(c, window, broken);
      && (s.outcome != Drained ==> s.conn.status == WRITING_RESPONSE)
      && (s.outcome == Drained && c.keepAlive ==> s.conn.status == READING_HEADER)
  {
  }

  /** How a read event in the header phase ends, in terms of `readHeader`:
      the body branch runs on what the header read leaves exactly when the
      header completed with a non-negative length. */
  lemma HeaderEventCases(c: Conn, inbox: seq<Byte>, eof: bool, handlers: map<int, Handler>, errorHandler: Handler)
    requires Inv(c) && c.status == READING_HEADER
    ensures var r := ReadHeaderSpec(c, inbox, eof);
      var s := ReadEvent(c, inbox, eof, handlers, errorHandler);
      && Inv(r.conn)
      && (r.read < 0 ==> s == ReadStep(PeerClosed, c, inbox))
      && (r.read == 0 ==> s == ReadStep(Waiting, c, inbox))
      && (r.read > 0 && r.threw ==> s == ReadStep(BadLength, r.conn, r.rest) && r.conn.status == READING_HEADER)
      && (r.read > 0 && !r.threw && r.conn.status == READING_BODY ==> s == ReadBody(r.conn, r.rest, eof, handlers, errorHandler))
      && (r.read > 0 && !r.threw && r.conn.status != READING_BODY ==> s == ReadStep(Waiting, r.conn, r.rest))
  {
    HeaderReadKeepsInv(c, inbox, eof);
  }

  lemma ReadBodyKeepsInv(c: Conn, inbox: seq<Byte>, eof: bool, handlers: map<int, Handler>, errorHandler: Handler)
    requires Inv(c) && c.status == READING_BODY
    ensures Inv(ReadBody(c, inbox, eof, handlers, errorHandler).conn)
  {
  }

  lemma WriteEventKeepsInv(c: Conn, window: nat, broken: bool)
    requires Inv(c) && c.status == WRITING_RESPONSE
    ensures Inv(WriteEvent(c, window, broken).conn)
  {
  }

  /** A read that moves no bytes changes nothing and dispatches nothing;
      end of stream closes without changing the context. */
  lemma NoBytesNoChange(c: Conn, inbox: seq<Byte>, eof: bool, handlers: map<int, Handler>, errorHandler: Handler)
    requires Inv(c) && c.status != WRITING_RESPONSE
    requires inbox == []
    ensures var s := ReadEvent(c, inbox, eof, handlers, errorHandler);
      s.conn == c && s.rest == [] && s.outcome != Dispatched
      && (s.outcome == PeerClosed ==> eof)
  {
  }

  /** The connection after `m` bytes of the frame for `(msgType, body,
      keepAlive)` have arrived, each read having taken all that had arrived:
      in the header phase with the first `m` bytes in the header buffer and
      every other field as reset, or in the body phase with the header
      decoded and the first `m - 5` body bytes in the body buffer. */
  ghost predicate Receiving(c: Conn, msgType: Byte, body: seq<Byte>, keepAlive: bool, m: nat)
    requires |body| <= INT_MAX
  {
    var frame := EncodeFrame(msgType, body, keepAlive);
    && Inv(c) && m < |frame|
    && if m < HEADER_SIZE then
         && c == Cleared(c.header)
         && c.header.position == m && c.header.data[..m] == frame[..m]
       else
         && c.status == READING_BODY
         && c.header.data == frame[..HEADER_SIZE]
         && c.body.value.position == m - HEADER_SIZE
         && c.body.value.data[..m - HEADER_SIZE] == body[..m - HEADER_SIZE]
  }

  /** The connection once the frame's request has been dispatched: the
      header fields are those the frame carries, the body buffer holds the
      body, and the response is the handler's answer to it. */
  ghost predicate Served(c: Conn, msgType: Byte, body: seq<Byte>, keepAlive: bool, h: Handler) {
    && Inv(c) && c.status == WRITING_RESPONSE
    && c.tlvType == SplitTypeByte(msgType).0 && c.keepAlive == keepAlive
    && c.requestLength == |body|
    && c.body == Some(Buf(body, |body|, |body|))
    && c.response == Some(Wrapped(h(body)))
  }

  /** The header phase of `Receiving` ignores what the buffer holds past
      the bytes received. */
  lemma FreshReceiving(c: Conn, msgType: Byte, body: seq<Byte>, keepAlive: bool)
    requires |body| <= INT_MAX
    requires c == Cleared(Buf(c.header.data, 0, HEADER_SIZE)) && |c.header.data| == HEADER_SIZE
    ensures Receiving(c, msgType, body, keepAlive, 0)
  {
  }

  /** A chunk that stays inside the header is stored after the bytes
      already received. */
  lemma {:induction false} HeaderChunk(c: Conn, msgType: Byte, body: seq<Byte>, keepAlive: bool, m: nat,
                                       chunk: seq<Byte>, eof: bool)
    requires |body| <= INT_MAX && Receiving(c, msgType, body, keepAlive, m) && m < HEADER_SIZE
    requires chunk != [] && m + |chunk| < HEADER_SIZE
    requires chunk == EncodeFrame(msgType, body, keepAlive)[m..m + |chunk|]
    ensures var r := ReadHeaderSpec(c, chunk, eof);
      r.read == |chunk| && r.rest == [] && !r.threw
      && Receiving(r.conn, msgType, body, keepAlive, m + |chunk|)
  {
    var frame := EncodeFrame(msgType, body, keepAlive);
    var t := ReadInto(c.header, chunk, eof);
    var d := t.buf.data;
    assert d[..m + |chunk|] == d[..m] + d[m..m + |chunk|];
    assert frame[..m + |chunk|] == frame[..m] + frame[m..m + |chunk|];
  }

  /** A chunk that completes the header leaves the rest of the chunk for the
      body, with the header decoded to the frame's type, flag and length. */
  lemma {:induction false} HeaderCompletes(c: Conn, msgType: Byte, body: seq<Byte>, keepAlive: bool, m: nat,
                                           chunk: seq<Byte>, eof: bool)
    requires |body| <= INT_MAX && Receiving(c, msgType, body, keepAlive, m) && m < HEADER_SIZE
    requires m + |chunk| >= HEADER_SIZE && m + |chunk| <= |EncodeFrame(msgType, body, keepAlive)|
    requires chunk == EncodeFrame(msgType, body, keepAlive)[m..m + |chunk|]
    ensures var r := ReadHeaderSpec(c, chunk, eof);
      && r.read == HEADER_SIZE - m && !r.threw
      && r.rest == chunk[HEADER_SIZE - m..]
      && r.conn.status == READING_BODY
      && r.conn.header.data == EncodeFrame(msgType, body, keepAlive)[..HEADER_SIZE]
      && r.conn.tlvType == SplitTypeByte(msgType).0 && r.conn.keepAlive == keepAlive
      && r.conn.requestLength == |body|
      && r.conn.body == Some(Allocated(|body|))
      && r.conn.response.None?
  {
    var frame := EncodeFrame(msgType, body, keepAlive);
    var t := ReadInto(c.header, chunk, eof);
    var d := t.buf.data;
    assert t.count == HEADER_SIZE - m;
    assert d == d[..m] + d[m..HEADER_SIZE];
    assert chunk[..HEADER_SIZE - m] == frame[m..HEADER_SIZE];
    assert frame[..HEADER_SIZE] == frame[..m] + frame[m..HEADER_SIZE];
    assert d == frame[..HEADER_SIZE];
    DecodeEncodedHeader(msgType, body, keepAlive);
  }

  /** A chunk inside the body is stored after the body bytes already
      received; the one that fills the body dispatches the request. */
  lemma {:induction false} BodyChunk(c: Conn, msgType: Byte, body: seq<Byte>, keepAlive: bool, m: nat,
                                     chunk: seq<Byte>, eof: bool, handlers: map<int, Handler>, errorHandler: Handler)
    requires |body| <= INT_MAX && HEADER_SIZE <= m
    requires Inv(c) && c.status == READING_BODY
    requires c.header.data == EncodeFrame(msgType, body, keepAlive)[..HEADER_SIZE]
    requires c.body.value.position == m - HEADER_SIZE
    requires c.body.value.data[..m - HEADER_SIZE] == body[..m - HEADER_SIZE]
    requires chunk != [] && m + |chunk| <= |EncodeFrame(msgType, body, keepAlive)|
    requires chunk == EncodeFrame(msgType, body, keepAlive)[m..m + |chunk|]
    ensures var s := ReadBody(c, chunk, eof, handlers, errorHandler);
      && s.rest == []
      && (m + |chunk| < HEADER_SIZE + |body| ==>
            s.outcome == Waiting && Receiving(s.conn, msgType, body, keepAlive, m + |chunk|))
      && (m + |chunk| == HEADER_SIZE + |body| ==>
            s.outcome == Dispatched
            && Served(s.conn, msgType, body, keepAlive,
                      ServerRoute(handlers, errorHandler, SplitTypeByte(msgType).0)))
  {
    var frame := EncodeFrame(msgType, body, keepAlive);
    DecodeEncodedHeader(msgType, body, keepAlive);
    var b := c.body.value;
    var t := ReadInto(b, chunk, eof);
    var k := m - HEADER_SIZE;
    assert frame[HEADER_SIZE..] == body;
    assert chunk == body[k..k + |chunk|];
    assert t.count == |chunk| && t.rest == [];
    var d := t.buf.data;
    assert d[..k + |chunk|] == d[..k] + d[k..k + |chunk|];
    assert body[..k + |chunk|] == body[..k] + body[k..k + |chunk|];
    assert d[..k + |chunk|] == body[..k + |chunk|];
    if k + |chunk| == |body| {
      assert d == body;
    }
  }

  /** A chunk that completes the header is read on into the body in the
      same event. */
  lemma {:induction false} CrossingChunk(c: Conn, msgType: Byte, body: seq<Byte>, keepAlive: bool, m: nat,
                                         chunk: seq<Byte>, eof: bool, handlers: map<int, Handler>, errorHandler: Handler)
    requires 1 <= |body| <= INT_MAX && Receiving(c, msgType, body, keepAlive, m) && m < HEADER_SIZE
    requires HEADER_SIZE <= m + |chunk| <= |EncodeFrame(msgType, body, keepAlive)|
    requires chunk == EncodeFrame(msgType, body, keepAlive)[m..m + |chunk|]
    requires eof ==> m + |chunk| == |EncodeFrame(msgType, body, keepAlive)|
    ensures var s := ReadEvent(c, chunk, eof, handlers, errorHandler);
      && s.rest == []
      && (m + |chunk| < HEADER_SIZE + |body| ==>
            s.outcome == Waiting && Receiving(s.conn, msgType, body, keepAlive, m + |chunk|))
      && (m + |chunk| == HEADER_SIZE + |body| ==>
            s.outcome == Dispatched
            && Served(s.conn, msgType, body, keepAlive,
                      ServerRoute(handlers, errorHandler, SplitTypeByte(msgType).0)))
  {
    var frame := EncodeFrame(msgType, body, keepAlive);
    HeaderCompletes(c, msgType, body, keepAlive, m, chunk, eof);
    var r := ReadHeaderSpec(c, chunk, eof);
    var rest := chunk[HEADER_SIZE - m..];
    assert r.conn.body.value.data[..0] == body[..0];
    if rest == [] {
      assert Receiving(r.conn, msgType, body, keepAlive, HEADER_SIZE);
    } else {
      assert rest == frame[HEADER_SIZE..m + |chunk|];
      BodyChunk(r.conn, msgType, body, keepAlive, HEADER_SIZE, rest, eof, handlers, errorHandler);
    }
  }

  /** One chunk of the frame, however it falls across the header and the
      body, is consumed completely: before the last byte the connection is
      still receiving, with the last byte the request is dispatched to the
      handler its masked type selects. */
  lemma {:induction false} ReceiveChunk(c: Conn, msgType: Byte, body: seq<Byte>, keepAlive: bool, m: nat,
                                        chunk: seq<Byte>, eof: bool, handlers: map<int, Handler>, errorHandler: Handler)
    requires 1 <= |body| <= INT_MAX && Receiving(c, msgType, body, keepAlive, m)
    requires chunk != [] && m + |chunk| <= |EncodeFrame(msgType, body, keepAlive)|
    requires chunk == EncodeFrame(msgType, body, keepAlive)[m..m + |chunk|]
    requires eof ==> m + |chunk| == |EncodeFrame(msgType, body, keepAlive)|
    ensures var s := ReadEvent(c, chunk, eof, handlers, errorHandler);
      && s.rest == []
      && (m + |chunk| < HEADER_SIZE + |body| ==>
            s.outcome == Waiting && Receiving(s.conn, msgType, body, keepAlive, m + |chunk|))
      && (m + |chunk| == HEADER_SIZE + |body| ==>
            s.outcome == Dispatched
            && Served(s.conn, msgType, body, keepAlive,
                      ServerRoute(handlers, errorHandler, SplitTypeByte(msgType).0)))
  {
    if m >= HEADER_SIZE {
      BodyChunk(c, msgType, body, keepAlive, m, chunk, eof, handlers, errorHandler);
    } else if m + |chunk| < HEADER_SIZE {
      HeaderChunk(c, msgType, body, keepAlive, m, chunk, eof);
    } else {
      CrossingChunk(c, msgType, body, keepAlive, m, chunk, eof, handlers, errorHandler);
    }
  }

  /** One read event: as written, or with the body branch corrected
      (`ReadEventCorrected`). */
  function Event(c: Conn, inbox: seq<Byte>, eof: bool, handlers: map<int, Handler>, errorHandler: Handler,
                 corrected: bool): ReadStep
    requires Inv(c)
  {
    if corrected then ReadEventCorrected(c, inbox, eof, handlers, errorHandler)
    else ReadEvent(c, inbox, eof, handlers, errorHandler)
  }

  /** The outcomes of a sequence of read events, each finding one chunk
      waiting, and the context after the last; `eof` says whether the peer
      shuts down its side after the last chunk, and `corrected` whether the
      events are the corrected ones. */
  function Feed(c: Conn, chunks: seq<seq<Byte>>, eof: bool, handlers: map<int, Handler>, errorHandler: Handler,
                corrected: bool): (r: (seq<ReadOutcome>, Conn))
    requires Inv(c)
    ensures |r.0| == |chunks|
    decreases |chunks|
  {
    if chunks == [] then ([], c)
    else
      var last := eof && |chunks| == 1;
      var s := Event(c, chunks[0], last, handlers, errorHandler, corrected);
      EventKeepsInv(c, chunks[0], last, handlers, errorHandler, corrected);
      var rest := Feed(s.conn, chunks[1..], eof, handlers, errorHandler, corrected);
      ([s.outcome] + rest.0, rest.1)
  }

  /** The bytes of a sequence of chunks, in order. */
  function Concat(chunks: seq<seq<Byte>>): seq<Byte> {
    if chunks == [] then [] else chunks[0] + Concat(chunks[1..])
  }

  /** Every non-empty chunk, of any size. */
  ghost predicate NonEmptyChunks(chunks: seq<seq<Byte>>) {
    forall i :: 0 <= i < |chunks| ==> chunks[i] != []
  }

  lemma FeedCons(c: Conn, chunks: seq<seq<Byte>>, eof: bool, handlers: map<int, Handler>, errorHandler: Handler,
                 corrected: bool)
    requires Inv(c) && chunks != []
    ensures var s := Event(c, chunks[0], eof && |chunks| == 1, handlers, errorHandler, corrected);
      && Inv(s.conn)
      && var rest := Feed(s.conn, chunks[1..], eof, handlers, errorHandler, corrected);
         Feed(c, chunks, eof, handlers, errorHandler, corrected) == ([s.outcome] + rest.0, rest.1)
  {
    EventKeepsInv(c, chunks[0], eof && |chunks| == 1, handlers, errorHandler, corrected);
  }

  /** The first chunk is a prefix of what the chunks carry, and the
      others carry the rest. */
  lemma ConcatSplit(chunks: seq<seq<Byte>>, x: seq<Byte>)
    requires chunks != [] && Concat(chunks) == x
    ensures |chunks[0]| <= |x| && chunks[0] == x[..|chunks[0]|]
    ensures Concat(chunks[1..]) == x[|chunks[0]|..]
  {
    assert Concat(chunks) == chunks[0] + Concat(chunks[1..]);
  }

  /** After the first chunk, the remaining chunks are still non-empty. */
  lemma NonEmptyTail(chunks: seq<seq<Byte>>)
    requires chunks != [] && NonEmptyChunks(chunks)
    ensures NonEmptyChunks(chunks[1..])
    ensures |chunks| > 1 ==> Concat(chunks[1..]) != []
  {
    forall i | 0 <= i < |chunks| - 1 ensures chunks[1..][i] != [] {
      assert chunks[1..][i] == chunks[i + 1];
    }
    if |chunks| > 1 {
      assert Concat(chunks[1..]) == chunks[1] + Concat(chunks[2..]);
    }
  }

  /** The outcomes of `k` read events and the context after them, when the
      request of the frame for `(msgType, body, keepAlive)` was dispatched to
      `h` by the last event and every earlier event only waited. */
  ghost predicate Delivered(r: (seq<ReadOutcome>, Conn), k: nat, msgType: Byte, body: seq<Byte>, keepAlive: bool, h: Handler) {
    && |r.0| == k && k > 0
    && (forall i :: 0 <= i < k - 1 ==> r.0[i] == Waiting)
    && r.0[k - 1] == Dispatched
    && Served(r.1, msgType, body, keepAlive, h)
  }

  /** A waiting event in front of a delivery is still a delivery. */
  lemma WaitThenDelivered(r: (seq<ReadOutcome>, Conn), k: nat, msgType: Byte, body: seq<Byte>, keepAlive: bool, h: Handler)
    requires Delivered(r, k, msgType, body, keepAlive, h)
    ensures Delivered(([Waiting] + r.0, r.1), k + 1, msgType, body, keepAlive, h)
  {
    var w := [Waiting] + r.0;
    forall i | 0 <= i < k ensures w[i] == Waiting {
      if i > 0 {
        assert w[i] == r.0[i - 1];
      }
    }
  }

  /** A chunk that is not the last one leaves the connection waiting,
      still receiving the frame, and the later events start from there. */
  lemma {:induction false} EarlyChunk(c: Conn, msgType: Byte, body: seq<Byte>, keepAlive: bool, m: nat,
                                      chunks: seq<seq<Byte>>, eof: bool, handlers: map<int, Handler>, errorHandler: Handler,
                                      corrected: bool)
    returns (next: Conn)
    requires (if corrected then 0 else 1) <= |body| <= INT_MAX && Receiving(c, msgType, body, keepAlive, m)
    requires |chunks| > 1 && NonEmptyChunks(chunks)
    requires Concat(chunks) == EncodeFrame(msgType, body, keepAlive)[m..]
    ensures Receiving(next, msgType, body, keepAlive, m + |chunks[0]|)
    ensures NonEmptyChunks(chunks[1..])
    ensures Concat(chunks[1..]) == EncodeFrame(msgType, body, keepAlive)[m + |chunks[0]|..]
    ensures var h := ServerRoute(handlers, errorHandler, SplitTypeByte(msgType).0);
      Delivered(Feed(next, chunks[1..], eof, handlers, errorHandler, corrected), |chunks| - 1, msgType, body, keepAlive, h) ==>
      Delivered(Feed(c, chunks, eof, handlers, errorHandler, corrected), |chunks|, msgType, body, keepAlive, h)
  {
    var frame := EncodeFrame(msgType, body, keepAlive);
    var chunk := chunks[0];
    var n := m + |chunk|;
    ConcatSplit(chunks, frame[m..]);
    NonEmptyTail(chunks);
    assert frame[m..][..|chunk|] == frame[m..n];
    assert frame[m..][|chunk|..] == frame[n..];
    assert n < |frame|;
    if corrected {
      ReceiveChunkCorrected(c, msgType, body, keepAlive, m, chunk, false, handlers, errorHandler);
    } else {
      ReceiveChunk(c, msgType, body, keepAlive, m, chunk, false, handlers, errorHandler);
    }
    FeedCons(c, chunks, eof, handlers, errorHandler, corrected);
    next := Event(c, chunk, false, handlers, errorHandler, corrected).conn;
    var h := ServerRoute(handlers, errorHandler, SplitTypeByte(msgType).0);
    var rest := Feed(next, chunks[1..], eof, handlers, errorHandler, corrected);
    if Delivered(rest, |chunks| - 1, msgType, body, keepAlive, h) {
      WaitThenDelivered(rest, |chunks| - 1, msgType, body, keepAlive, h);
    }
  }

  /** The last chunk dispatches the request. */
  lemma {:induction false} LastChunk(c: Conn, msgType: Byte, body: seq<Byte>, keepAlive: bool, m: nat,
                                     chunks: seq<seq<Byte>>, eof: bool, handlers: map<int, Handler>, errorHandler: Handler,
                                     corrected: bool)
    requires (if corrected then 0 else 1) <= |body| <= INT_MAX && Receiving(c, msgType, body, keepAlive, m)
    requires |chunks| == 1 && NonEmptyChunks(chunks)
    requires Concat(chunks) == EncodeFrame(msgType, body, keepAlive)[m..]
    ensures Delivered(Feed(c, chunks, eof, handlers, errorHandler, corrected), 1, msgType, body, keepAlive,
                      ServerRoute(handlers, errorHandler, SplitTypeByte(msgType).0))
  {
    var frame := EncodeFrame(msgType, body, keepAlive);
    var chunk := chunks[0];
    ConcatSplit(chunks, frame[m..]);
    assert Concat(chunks[1..]) == [];
    assert chunk == frame[m..];
    if corrected {
      ReceiveChunkCorrected(c, msgType, body, keepAlive, m, chunk, eof, handlers, errorHandler);
    } else {
      ReceiveChunk(c, msgType, body, keepAlive, m, chunk, eof, handlers, errorHandler);
    }
    FeedCons(c, chunks, eof, handlers, errorHandler, corrected);
  }

  /** Partial delivery: a frame that arrives in any number of non-empty
      chunks, starting from `m` bytes received, is dispatched exactly once,
      on the event that brings its last byte, and every earlier event only
      waits. The events as written need a non-empty body; the corrected
      ones do not. */
  lemma {:induction false} DeliverRest(c: Conn, msgType: Byte, body: seq<Byte>, keepAlive: bool, m: nat,
                                       chunks: seq<seq<Byte>>, eof: bool, handlers: map<int, Handler>, errorHandler: Handler,
                                       corrected: bool)
    requires (if corrected then 0 else 1) <= |body| <= INT_MAX && Receiving(c, msgType, body, keepAlive, m)
    requires chunks != [] && NonEmptyChunks(chunks)
    requires Concat(chunks) == EncodeFrame(msgType, body, keepAlive)[m..]
    ensures Delivered(Feed(c, chunks, eof, handlers, errorHandler, corrected), |chunks|, msgType, body, keepAlive,
                      ServerRoute(handlers, errorHandler, SplitTypeByte(msgType).0))
    decreases |chunks|
  {
    if |chunks| == 1 {
      LastChunk(c, msgType, body, keepAlive, m, chunks, eof, handlers, errorHandler, corrected);
    } else {
      var next := EarlyChunk(c, msgType, body, keepAlive, m, chunks, eof, handlers, errorHandler, corrected);
      DeliverRest(next, msgType, body, keepAlive, m + |chunks[0]|, chunks[1..], eof, handlers, errorHandler, corrected);
    }
  }

  /** Partial delivery from a new or reset connection: the whole frame, in
      any non-empty chunks, is dispatched exactly once, at its last chunk. */
  lemma {:induction false} DeliverFrame(c: Conn, msgType: Byte, body: seq<Byte>, keepAlive: bool,
                       chunks: seq<seq<Byte>>, eof: bool, handlers: map<int, Handler>, errorHandler: Handler)
    requires 1 <= |body| <= INT_MAX
    requires c == Cleared(Buf(c.header.data, 0, HEADER_SIZE)) && |c.header.data| == HEADER_SIZE
    requires NonEmptyChunks(chunks) && Concat(chunks) == EncodeFrame(msgType, body, keepAlive)
    ensures var r := Feed(c, chunks, eof, handlers, errorHandler, false);
      && (forall i :: 0 <= i < |chunks| - 1 ==> r.0[i] == Waiting)
      && r.0[|chunks| - 1] == Dispatched
      && Served(r.1, msgType, body, keepAlive, ServerRoute(handlers, errorHandler, SplitTypeByte(msgType).0))
  {
    FreshReceiving(c, msgType, body, keepAlive);
    assert chunks != [];
    DeliverRest(c, msgType, body, keepAlive, 0, chunks, eof, handlers, errorHandler, false);
  }

  /** A body of length 0 is never dispatched: its buffer has nothing
      remaining, so every read of it returns 0 and the event returns before
      the completeness check, whatever has arrived and even at end of
      stream. */
  lemma EmptyBodyStalls(c: Conn, inbox: seq<Byte>, eof: bool, handlers: map<int, Handler>, errorHandler: Handler)
    requires Inv(c) && c.status == READING_BODY && c.requestLength == 0
    ensures ReadEvent(c, inbox, eof, handlers, errorHandler) == ReadStep(Waiting, c, inbox)
  {
  }

  /** Hence any sequence of read events on such a connection only waits and
      leaves it as it is. */
  lemma {:induction false} EmptyBodyStallsForever(c: Conn, chunks: seq<seq<Byte>>, eof: bool,
                                                  handlers: map<int, Handler>, errorHandler: Handler)
    requires Inv(c) && c.status == READING_BODY && c.requestLength == 0
    ensures var r := Feed(c, chunks, eof, handlers, errorHandler, false);
      (forall i :: 0 <= i < |chunks| ==> r.0[i] == Waiting) && r.1 == c
    decreases |chunks|
  {
    if chunks != [] {
      var last := eof && |chunks| == 1;
      EmptyBodyStalls(c, chunks[0], last, handlers, errorHandler);
      FeedCons(c, chunks, eof, handlers, errorHandler, false);
      EmptyBodyStallsForever(c, chunks[1..], eof, handlers, errorHandler);
      var rest := Feed(c, chunks[1..], eof, handlers, errorHandler, false);
      var r := Feed(c, chunks, eof, handlers, errorHandler, false);
      forall i | 0 <= i < |chunks| ensures r.0[i] == Waiting {
        if i > 0 {
          assert r.0[i] == rest.0[i - 1];
        }
      }
    }
  }

  /** A frame with an empty body, arriving whole on a new or reset
      connection, completes the header and leaves the connection in the body
      phase with nothing to read, where it stays. */
  lemma {:induction false} EmptyFrameIsNotDispatched(c: Conn, msgType: Byte, keepAlive: bool, eof: bool,
                                                     handlers: map<int, Handler>, errorHandler: Handler)
    requires c == Cleared(Buf(c.header.data, 0, HEADER_SIZE)) && |c.header.data| == HEADER_SIZE
    ensures var s := ReadEvent(c, EncodeFrame(msgType, [], keepAlive), eof, handlers, errorHandler);
      && s.outcome == Waiting && s.rest == []
      && s.conn.status == READING_BODY && s.conn.requestLength == 0
      && Inv(s.conn)
  {
    var frame := EncodeFrame(msgType, [], keepAlive);
    FreshReceiving(c, msgType, [], keepAlive);
    HeaderCompletes(c, msgType, [], keepAlive, 0, frame, eof);
    assert frame[0..|frame|] == frame;
    var r := ReadHeaderSpec(c, frame, eof);
    HeaderReadKeepsInv(c, frame, eof);
    EmptyBodyStalls(r.conn, r.rest, eof, handlers, errorHandler);
  }

  /** The body branch with the completeness test ahead of the return on an
      empty read, as the test evidently intends: -1 closes, and a read that
      leaves nothing remaining dispatches, including the read of 0 bytes
      into the buffer of an empty body. */
  function ReadBodyCorrected(c: Conn, inbox: seq<Byte>, eof: bool, handlers: map<int, Handler>, errorHandler: Handler): ReadStep
    requires c.status == READING_BODY && c.body.Some? && c.body.value.Valid()
  {
    var t := ReadInto(c.body.value, inbox, eof);
    if t.count < 0 then ReadStep(PeerClosed, c, inbox)
    else
      var c1 := c.(body := Some(t.buf));
      if t.buf.Remaining() == 0 then
        ReadStep(Dispatched, Dispatch(c1, ServerRoute(handlers, errorHandler, c1.tlvType)), t.rest)
      else ReadStep(Waiting, c1, t.rest)
  }

  /** `BodyBranch` with the corrected body branch. */
  function BodyBranchCorrected(c: Conn, inbox: seq<Byte>, eof: bool, handlers: map<int, Handler>, errorHandler: Handler): ReadStep
    requires c.status == READING_BODY ==> c.body.Some? && c.body.value.Valid()
  {
    if c.status == READING_BODY then ReadBodyCorrected(c, inbox, eof, handlers, errorHandler)
    else ReadStep(Waiting, c, inbox)
  }

  /** `ReadEvent` with the corrected body branch; the header branch is as
      written. */
  function ReadEventCorrected(c: Conn, inbox: seq<Byte>, eof: bool, handlers: map<int, Handler>, errorHandler: Handler): ReadStep
    requires Inv(c)
  {
    if c.status == READING_HEADER then
      var r := ReadHeaderSpec(c, inbox, eof);
      if r.read < 0 then ReadStep(PeerClosed, r.conn, r.rest)
      else if r.read == 0 then ReadStep(Waiting, r.conn, r.rest)
      else if r.threw then ReadStep(BadLength, r.conn, r.rest)
      else BodyBranchCorrected(r.conn, r.rest, eof, handlers, errorHandler)
    else BodyBranchCorrected(c, inbox, eof, handlers, errorHandler)
  }

  /** A connection in the body phase whose body buffer has nothing left to
      fill. */
  ghost predicate Stalled(c: Conn) {
    c.status == READING_BODY && c.body.Some? && c.body.value.Valid() && c.body.value.Remaining() == 0
  }

  /** `CorrectionDispatchesStalled` for the body branch alone. */
  lemma BodyCorrectionDispatchesStalled(c: Conn, inbox: seq<Byte>, eof: bool, handlers: map<int, Handler>, errorHandler: Handler)
    requires c.status == READING_BODY ==> c.body.Some? && c.body.value.Valid()
    ensures var s := BodyBranch(c, inbox, eof, handlers, errorHandler);
      var f := BodyBranchCorrected(c, inbox, eof, handlers, errorHandler);
      && (s.outcome == Waiting && Stalled(s.conn) ==>
            f == ReadStep(Dispatched, Dispatch(s.conn, ServerRoute(handlers, errorHandler, s.conn.tlvType)), s.rest))
      && (!(s.outcome == Waiting && Stalled(s.conn)) ==> f == s)
  {
  }

  /** The correction changes one case only: where an event as written ends
      waiting on a stalled connection, the corrected event dispatches its
      body; on every other input the two agree. */
  lemma CorrectionDispatchesStalled(c: Conn, inbox: seq<Byte>, eof: bool, handlers: map<int, Handler>, errorHandler: Handler)
    requires Inv(c)
    ensures var s := ReadEvent(c, inbox, eof, handlers, errorHandler);
      var f := ReadEventCorrected(c, inbox, eof, handlers, errorHandler);
      && (s.outcome == Waiting && Stalled(s.conn) ==>
            f == ReadStep(Dispatched, Dispatch(s.conn, ServerRoute(handlers, errorHandler, s.conn.tlvType)), s.rest))
      && (!(s.outcome == Waiting && Stalled(s.conn)) ==> f == s)
  {
    if c.status == READING_HEADER {
      HeaderReadKeepsInv(c, inbox, eof);
      var r := ReadHeaderSpec(c, inbox, eof);
      if r.read > 0 && !r.threw {
        BodyCorrectionDispatchesStalled(r.conn, r.rest, eof, handlers, errorHandler);
      }
    } else {
      BodyCorrectionDispatchesStalled(c, inbox, eof, handlers, errorHandler);
    }
  }

  lemma EventKeepsInv(c: Conn, inbox: seq<Byte>, eof: bool, handlers: map<int, Handler>, errorHandler: Handler, corrected: bool)
    requires Inv(c)
    ensures Inv(Event(c, inbox, eof, handlers, errorHandler, corrected).conn)
  {
    ReadEventKeepsInv(c, inbox, eof, handlers, errorHandler);
    if corrected {
      CorrectionDispatchesStalled(c, inbox, eof, handlers, errorHandler);
    }
  }

  /** A connection receiving a frame is never stalled: in the body phase
      some of the body is still to come. */
  lemma ReceivingIsNotStalled(c: Conn, msgType: Byte, body: seq<Byte>, keepAlive: bool, m: nat)
    requires |body| <= INT_MAX && Receiving(c, msgType, body, keepAlive, m)
    ensures !Stalled(c)
  {
    DecodeEncodedHeader(msgType, body, keepAlive);
  }

  /** `ReceiveChunk` for the corrected events, for every body, the empty
      one included. */
  lemma {:induction false} ReceiveChunkCorrected(c: Conn, msgType: Byte, body: seq<Byte>, keepAlive: bool, m: nat,
                                                 chunk: seq<Byte>, eof: bool, handlers: map<int, Handler>, errorHandler: Handler)
    requires |body| <= INT_MAX && Receiving(c, msgType, body, keepAlive, m)
    requires chunk != [] && m + |chunk| <= |EncodeFrame(msgType, body, keepAlive)|
    requires chunk == EncodeFrame(msgType, body, keepAlive)[m..m + |chunk|]
    requires eof ==> m + |chunk| == |EncodeFrame(msgType, body, keepAlive)|
    ensures var s := ReadEventCorrected(c, chunk, eof, handlers, errorHandler);
      && s.rest == []
      && (m + |chunk| < HEADER_SIZE + |body| ==>
            s.outcome == Waiting && Receiving(s.conn, msgType, body, keepAlive, m + |chunk|))
      && (m + |chunk| == HEADER_SIZE + |body| ==>
            s.outcome == Dispatched
            && Served(s.conn, msgType, body, keepAlive,
                      ServerRoute(handlers, errorHandler, SplitTypeByte(msgType).0)))
  {
    CorrectionDispatchesStalled(c, chunk, eof, handlers, errorHandler);
    var s := ReadEvent(c, chunk, eof, handlers, errorHandler);
    if |body| >= 1 {
      ReceiveChunk(c, msgType, body, keepAlive, m, chunk, eof, handlers, errorHandler);
      if m + |chunk| < HEADER_SIZE + |body| {
        ReceivingIsNotStalled(s.conn, msgType, body, keepAlive, m + |chunk|);
      }
    } else if m + |chunk| < HEADER_SIZE {
      HeaderChunk(c, msgType, body, keepAlive, m, chunk, eof);
      HeaderEventCases(c, chunk, eof, handlers, errorHandler);
    } else {
      EmptyBodyDispatched(c, msgType, keepAlive, m, chunk, eof, handlers, errorHandler);
    }
  }

  /** The chunk that completes the header of a frame with an empty body
      dispatches it at once under the corrected events. */
  lemma {:induction false} EmptyBodyDispatched(c: Conn, msgType: Byte, keepAlive: bool, m: nat,
                                               chunk: seq<Byte>, eof: bool, handlers: map<int, Handler>, errorHandler: Handler)
    requires Receiving(c, msgType, [], keepAlive, m) && m + |chunk| == HEADER_SIZE
    requires chunk == EncodeFrame(msgType, [], keepAlive)[m..m + |chunk|]
    ensures var s := ReadEventCorrected(c, chunk, eof, handlers, errorHandler);
      && s.rest == [] && s.outcome == Dispatched
      && Served(s.conn, msgType, [], keepAlive, ServerRoute(handlers, errorHandler, SplitTypeByte(msgType).0))
  {
    HeaderCompletes(c, msgType, [], keepAlive, m, chunk, eof);
    var r := ReadHeaderSpec(c, chunk, eof);
    HeaderReadKeepsInv(c, chunk, eof);
    CorrectedHeaderThenBody(c, chunk, eof, handlers, errorHandler);
    EmptyBodyBufferDispatches(r.conn, eof, handlers, errorHandler);
    assert r.rest == [];
    var h := ServerRoute(handlers, errorHandler, SplitTypeByte(msgType).0);
    var d := Dispatch(r.conn, h);
    assert ReadEventCorrected(c, chunk, eof, handlers, errorHandler) == ReadStep(Dispatched, d, []);
    assert r.conn.body == Some(Buf([], 0, 0));
    DispatchServes(r.conn, msgType, [], keepAlive, h);
  }

  /** Dispatching a body received whole serves the frame it came in. */
  lemma DispatchServes(c: Conn, msgType: Byte, body: seq<Byte>, keepAlive: bool, h: Handler)
    requires Inv(c) && c.status == READING_BODY
    requires c.tlvType == SplitTypeByte(msgType).0 && c.keepAlive == keepAlive && c.requestLength == |body|
    requires c.body == Some(Buf(body, |body|, |body|))
    ensures Served(Dispatch(c, h), msgType, body, keepAlive, h)
  {
  }

  /** A header read that completes the header with a non-negative length
      goes on to the corrected body branch in the same event. */
  lemma CorrectedHeaderThenBody(c: Conn, inbox: seq<Byte>, eof: bool, handlers: map<int, Handler>, errorHandler: Handler)
    requires Inv(c) && c.status == READING_HEADER
    requires var r := ReadHeaderSpec(c, inbox, eof); r.read > 0 && !r.threw && r.conn.status == READING_BODY
    ensures var r := ReadHeaderSpec(c, inbox, eof);
      Inv(r.conn) && ReadEventCorrected(c, inbox, eof, handlers, errorHandler) == ReadBodyCorrected(r.conn, r.rest, eof, handlers, errorHandler)
  {
    HeaderReadKeepsInv(c, inbox, eof);
  }

  /** The corrected body branch dispatches an empty body without reading. */
  lemma EmptyBodyBufferDispatches(c: Conn, eof: bool, handlers: map<int, Handler>, errorHandler: Handler)
    requires Inv(c) && c.status == READING_BODY && c.requestLength == 0
    ensures var s := ReadBodyCorrected(c, [], eof, handlers, errorHandler);
      && s.rest == [] && s.outcome == Dispatched
      && s.conn == Dispatch(c, ServerRoute(handlers, errorHandler, c.tlvType))
      && c.body.value.data == []
  {
  }

  /** Partial delivery under the corrected events: the whole frame, in any
      non-empty chunks, is dispatched exactly once, at its last chunk, for
      every body including the empty one. */
  lemma {:induction false} DeliverFrameCorrected(c: Conn, msgType: Byte, body: seq<Byte>, keepAlive: bool,
                                                 chunks: seq<seq<Byte>>, eof: bool, handlers: map<int, Handler>, errorHandler: Handler)
    requires |body| <= INT_MAX
    requires c == Cleared(Buf(c.header.data, 0, HEADER_SIZE)) && |c.header.data| == HEADER_SIZE
    requires NonEmptyChunks(chunks) && Concat(chunks) == EncodeFrame(msgType, body, keepAlive)
    ensures var r := Feed(c, chunks, eof, handlers, errorHandler, true);
      && (forall i :: 0 <= i < |chunks| - 1 ==> r.0[i] == Waiting)
      && r.0[|chunks| - 1] == Dispatched
      && Served(r.1, msgType, body, keepAlive, ServerRoute(handlers, errorHandler, SplitTypeByte(msgType).0))
  {
    FreshReceiving(c, msgType, body, keepAlive);
    assert chunks != [];
    DeliverRest(c, msgType, body, keepAlive, 0, chunks, eof, handlers, errorHandler, true);
  }

  /** A write event hands the channel the next bytes of the response, as
      many as the window takes, and drains the response exactly when the
      window covers what remains; a partial write leaves the rest pending. */
  lemma WriteProgress(c: Conn, window: nat)
    requires Inv(c) && c.status == WRITING_RESPONSE
    ensures var s := WriteEvent(c, window, false);
      var r := c.response.value;
      && s.written == r.Pending()[..Min(window, r.Remaining())]
      && (s.outcome == Drained <==> window >= r.Remaining())
      && s.outcome != WriteFailed
      && (s.outcome == Partial ==>
            s.conn.status == WRITING_RESPONSE && s.conn.response.value.Pending() == r.Pending()[|s.written|..])
  {
  }

  /** A broken connection takes nothing and changes nothing. */
  lemma WriteOnBrokenChannel(c: Conn, window: nat)
    requires Inv(c) && c.status == WRITING_RESPONSE
    ensures WriteEvent(c, window, true) == WriteStep(WriteFailed, c, [])
  {
  }

  /** Keep-alive: once the response is drained the connection is reset in
      place, and the next frame, in any non-empty chunks, is served on it
      exactly as on a new connection. */
  lemma {:induction false} KeepAliveServesNext(c: Conn, window: nat, msgType: Byte, body: seq<Byte>, keepAlive: bool,
                                               chunks: seq<seq<Byte>>, eof: bool, handlers: map<int, Handler>, errorHandler: Handler)
    requires Inv(c) && c.status == WRITING_RESPONSE && c.keepAlive
    requires window >= c.response.value.Remaining()
    requires 1 <= |body| <= INT_MAX
    requires NonEmptyChunks(chunks) && Concat(chunks) == EncodeFrame(msgType, body, keepAlive)
    ensures var s := WriteEvent(c, window, false);
      && s.outcome == Drained
      && s.conn == NewConn().(header := Buf(c.header.data, 0, HEADER_SIZE))
      && var r := Feed(s.conn, chunks, eof, handlers, errorHandler, false);
         && (forall i :: 0 <= i < |chunks| - 1 ==> r.0[i] == Waiting)
         && r.0[|chunks| - 1] == Dispatched
         && Served(r.1, msgType, body, keepAlive, ServerRoute(handlers, errorHandler, SplitTypeByte(msgType).0))
  {
    var s := WriteEvent(c, window, false);
    assert s.conn == Cleared(Buf(c.header.data, 0, HEADER_SIZE));
    DeliverFrame(s.conn, msgType, body, keepAlive, chunks, eof, handlers, errorHandler);
  }

  /** Without keep-alive a drained response leaves the context as it is, for
      the caller to close the channel. */
  lemma DrainWithoutKeepAlive(c: Conn, window: nat)
    requires Inv(c) && c.status == WRITING_RESPONSE && !c.keepAlive
    requires window >= c.response.value.Remaining()
    ensures var s := WriteEvent(c, window, false);
      s.outcome == Drained && s.conn.status == WRITING_RESPONSE && s.conn.response.value.Remaining() == 0
  {
  }
}
