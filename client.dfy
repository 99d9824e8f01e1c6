/** The asynchronous RPC client, `NioClient`: callers queue requests with
    `sendRPC`; the client's selector thread registers each queued request on
    a new channel, or on the shared keep-alive channel when it can, then
    connects, writes the request and reads the response, completing the
    request's future. The value-level event functions below say what one
    connectable, writable or readable event does to a request's context;
    the class's handlers are proved to follow them and to keep the
    `ClientState` counters. */
module Client {
  import opened JavaBytes
  import opened Wrappers
  import opened Nio
  import opened JavaInts
  import opened PayloadUtils
  import opened ClientContext

  type ClientKey = SelectionKey<NioClientContext>

  /** The capacity of the request queue, an `ArrayBlockingQueue`. */
  const QUEUE_CAPACITY: nat := 1024

  /** The `ClientState` counters; the client id and the durations are not
      modelled. */
  datatype ClientState = ClientState(
    channelsOpened: nat,
    channelsReused: nat,
    channelsClosed: nat,
    requestsRegistered: nat,
    requestCompleted: nat,
    channelConnected: nat,
    channelConnectionErrors: nat)

  /** How a readable event on a request ends: nothing more to do yet, the
      request failed and its channel is closed, a negative length
      (`IllegalArgumentException`), or the response body is complete. */
  datatype ResponseOutcome = Waiting | Closed | BadLength | Completed

  /** The result of a readable event: how it ended, the context afterwards
      and the bytes still waiting in the socket. */
  datatype ResponseStep = ResponseStep(outcome: ResponseOutcome, conn: ClientConn, rest: seq<Byte>)

  /** The body branch of `handleRead`: read into the body buffer; -1 fails
      the request, 0 returns, and a read that fills the body completes it. */
  function ResponseBody(c: ClientConn, inbox: seq<Byte>, eof: bool): ResponseStep
    requires c.status == READING_BODY && c.body.Some? && c.body.value.Valid()
  {
    var t := ReadInto(c.body.value, inbox, eof);
    if t.count < 0 then ResponseStep(Closed, c.(completion := Settle(c.completion, Failed)), inbox)
    else if t.count == 0 then ResponseStep(Waiting, c, inbox)
    else
      var c1 := c.(body := Some(t.buf));
      if t.buf.Remaining() == 0 then ResponseStep(Completed, c1.(completion := Settle(c1.completion, Succeeded)), t.rest)
      else ResponseStep(Waiting, c1, t.rest)
  }

  /** What `handleRead` does once the header branch is behind it. */
  function ResponseBodyBranch(c: ClientConn, inbox: seq<Byte>, eof: bool): ResponseStep
    requires c.status == READING_BODY ==> c.body.Some? && c.body.value.Valid()
  {
    if c.status == READING_BODY then ResponseBody(c, inbox, eof) else ResponseStep(Waiting, c, inbox)
  }

  /** A readable event on a request: the header branch, failing the request
      at end of stream, then the body branch when the status is (or has just
      become) `READING_BODY`. */
  function ResponseEvent(c: ClientConn, inbox: seq<Byte>, eof: bool): ResponseStep
    requires ClientInv(c)
  {
    if c.status == READING_HEADER then
      var r := ClientReadHeaderSpec(c, inbox, eof);
      if r.read < 0 then ResponseStep(Closed, r.conn.(completion := Settle(r.conn.completion, Failed)), r.rest)
      else if r.read == 0 then ResponseStep(Waiting, r.conn, r.rest)
      else if r.threw then ResponseStep(BadLength, r.conn, r.rest)
      else ResponseBodyBranch(r.conn, r.rest, eof)
    else ResponseBodyBranch(c, inbox, eof)
  }

  /** How a writable event on a request ends: the write threw `IOException`
      on a reset connection (the selector callback fails the request and
      closes the channel), part of the request is still to go, or all of it
      is sent. */
  datatype RequestOutcome = WriteFailed | Partial | Sent

  /** The result of a writable event: how it ended, the context afterwards
      and the bytes handed to the channel. */
  datatype RequestStep = RequestStep(outcome: RequestOutcome, conn: ClientConn, written: seq<Byte>)

  /** A writable event: `handleWrite` writes what the window takes of the
      request, and once none of it remains the request waits for the
      response header; on a reset connection the write throws, and the
      callback's `IOException` handler fails the request. */
  function RequestEvent(c: ClientConn, window: nat, broken: bool): RequestStep
    requires c.request.Valid()
  {
    var q := c.request;
    if broken then RequestStep(WriteFailed, c.(completion := Settle(c.completion, Failed)), [])
    else
      var n := Min(window, q.Remaining());
      var q1 := q.(position := q.position + n);
      var c1 := c.(request := q1);
      if q1.Remaining() == 0 then RequestStep(Sent, c1.(status := READING_HEADER), q.data[q.position..q1.position])
      else RequestStep(Partial, c1, q.data[q.position..q1.position])
  }

  /** `handleConnect`: nothing while the handshake is under way; a refusal
      fails the request; an established connection moves on to writing. */
  function ConnectEvent(c: ClientConn, result: ConnectResult): ClientConn {
    match result
    case InProgress => c
    case Refused => c.(completion := Settle(c.completion, Failed))
    case Established => c.(status := WRITING)
  }

  /** A readable event keeps `ClientInv`, leaves the request reading, and
      completes the future exactly when it ends `Completed` (for a request
      still pending) and fails it exactly when it ends `Closed`. */
  lemma ResponseEventKeepsInv(c: ClientConn, inbox: seq<Byte>, eof: bool)
    requires ClientInv(c) && (c.status == READING_HEADER || c.status == READING_BODY)
    ensures var s := ResponseEvent(c, inbox, eof);
      && ClientInv(s.conn)
      && (s.conn.status == READING_HEADER || s.conn.status == READING_BODY)
      && s.conn.request == c.request
      && (s.outcome == Completed ==> s.conn.completion == Settle(c.completion, Succeeded))
      && (s.outcome == Closed ==> s.conn.completion == Settle(c.completion, Failed))
      && (s.outcome != Completed && s.outcome != Closed ==> s.conn.completion == c.completion)
  {
    if c.status == READING_HEADER {
      ClientHeaderReadKeepsInv(c, inbox, eof);
      var r := ClientReadHeaderSpec(c, inbox, eof);
      if r.read > 0 && !r.threw && r.conn.status == READING_BODY {
        ResponseBodyKeepsInv(r.conn, r.rest, eof);
      }
    } else {
      ResponseBodyKeepsInv(c, inbox, eof);
    }
  }

  /** The body branch keeps `ClientInv` and the body phase, and settles the
      future as a readable event does. */
  lemma ResponseBodyKeepsInv(c: ClientConn, inbox: seq<Byte>, eof: bool)
    requires ClientInv(c) && c.status == READING_BODY
    ensures var s := ResponseBody(c, inbox, eof);
      && ClientInv(s.conn) && s.conn.status == READING_BODY && s.conn.request == c.request
      && s.outcome != BadLength
      && (s.outcome == Completed ==> s.conn.completion == Settle(c.completion, Succeeded))
      && (s.outcome == Closed ==> s.conn.completion == Settle(c.completion, Failed))
      && (s.outcome == Waiting ==> s.conn.completion == c.completion)
  {
  }

  /** A writable event sends the request bytes in order from where the last
      one stopped, ends `Sent` exactly when none remain, and then waits for
      the response header. */
  lemma RequestEventSends(c: ClientConn, window: nat)
    requires ClientInv(c) && (c.status == CONNECTING || c.status == WRITING)
    ensures var s := RequestEvent(c, window, false);
      && ClientInv(s.conn)
      && s.written == c.request.data[c.request.position..s.conn.request.position]
      && |s.written| == Min(window, c.request.Remaining())
      && (s.outcome == Sent <==> s.conn.request.Remaining() == 0)
      && (s.outcome == Sent ==> s.conn.status == READING_HEADER)
      && (s.outcome == Partial ==> s.conn.status == c.status && |s.written| == window)
      && s.conn.completion == c.completion
  {
  }

  /** On a reset connection the write throws before sending anything, and
      the request fails. */
  lemma RequestEventOnBrokenChannel(c: ClientConn, window: nat)
    requires ClientInv(c)
    ensures var s := RequestEvent(c, window, true);
      s.outcome == WriteFailed && s.written == [] && s.conn.completion == Settle(c.completion, Failed)
  {
  }

  /** A connect event keeps `ClientInv`; only an established connection
      changes the status, to `WRITING`. */
  lemma ConnectEventPhase(c: ClientConn, result: ConnectResult)
    requires ClientInv(c) && c.status == CONNECTING
    ensures ClientInv(ConnectEvent(c, result))
    ensures ConnectEvent(c, result).status == (if result == Established then WRITING else CONNECTING)
    ensures result == Refused ==> ConnectEvent(c, result).completion == Settle(c.completion, Failed)
    ensures result != Refused ==> ConnectEvent(c, result).completion == c.completion
  {
  }

  /** Reading a response frame into an empty header buffer takes its five
      header bytes, decodes the length of its body, allocates a body buffer
      of that length and leaves the body and what follows in the socket. */
  lemma {:induction false} FrameHeaderRead(c: ClientConn, msgType: Byte, body: seq<Byte>, keepAlive: bool,
                                           rest: seq<Byte>, eof: bool)
    requires ClientInv(c) && c.status == READING_HEADER && c.header.position == 0
    requires |body| <= INT_MAX
    ensures var r := ClientReadHeaderSpec(c, EncodeFrame(msgType, body, keepAlive) + rest, eof);
      && r.read == HEADER_SIZE && !r.threw && r.rest == body + rest
      && r.conn.status == READING_BODY && r.conn.body == Some(Allocated(|body|))
      && r.conn.completion == c.completion && r.conn.responseLength == |body|
      && r.conn.tlvType == Signed(TypeByte(msgType, keepAlive))
  {
    var frame := EncodeFrame(msgType, body, keepAlive);
    var inbox := frame + rest;
    var t := ReadInto(c.header, inbox, eof);
    assert t.count == HEADER_SIZE;
    StoreWrites(c.header, inbox[..HEADER_SIZE]);
    assert t.buf.data == frame[..HEADER_SIZE];
    ClientDecodesEncodedHeader(msgType, body, keepAlive);
    assert t.rest == body + rest;
  }

  /** A response frame with a body that arrives whole in one readable event
      completes a request waiting for its header: the body buffer holds the
      body, the type is the raw type byte, and the bytes after the frame
      stay in the socket. */
  lemma {:induction false} WholeResponseCompletes(c: ClientConn, msgType: Byte, body: seq<Byte>, keepAlive: bool,
                                                  rest: seq<Byte>, eof: bool)
    requires ClientInv(c) && c.status == READING_HEADER && c.header.position == 0 && c.completion == Pending
    requires 0 < |body| <= INT_MAX
    ensures var s := ResponseEvent(c, EncodeFrame(msgType, body, keepAlive) + rest, eof);
      && s.outcome == Completed && s.rest == rest && s.conn.completion == Succeeded
      && s.conn.body.Some? && s.conn.body.value.data == body
      && s.conn.tlvType == Signed(TypeByte(msgType, keepAlive)) && s.conn.responseLength == |body|
  {
    FrameHeaderRead(c, msgType, body, keepAlive, rest, eof);
    var u := ReadInto(Allocated(|body|), body + rest, eof);
    StoreWrites(Allocated(|body|), body);
    assert (body + rest)[..|body|] == body && (body + rest)[|body|..] == rest;
    assert u.buf.data == body;
  }

  /** A response frame with an empty body does not complete its request:
      the event that reads its header leaves the request reading a body
      with nothing remaining and its future pending. */
  lemma {:induction false} EmptyResponseStalls(c: ClientConn, msgType: Byte, keepAlive: bool, rest: seq<Byte>, eof: bool)
    requires ClientInv(c) && c.status == READING_HEADER && c.header.position == 0
    ensures var s := ResponseEvent(c, EncodeFrame(msgType, [], keepAlive) + rest, eof);
      && s.outcome == Waiting && s.rest == rest && s.conn.completion == c.completion
      && s.conn.status == READING_BODY && s.conn.body == Some(Allocated(0))
      && s.conn.tlvType == Signed(TypeByte(msgType, keepAlive)) && s.conn.responseLength == 0
  {
    FrameHeaderRead(c, msgType, [], keepAlive, rest, eof);
    assert [] + rest == rest;
  }

  /** From there nothing completes the request: every later readable event,
      whatever has arrived and even at end of stream, reads 0 and changes
      nothing, so the future is never completed and the channel never
      closed. */
  lemma EmptyBodyWaitsForever(c: ClientConn, inbox: seq<Byte>, eof: bool)
    requires ClientInv(c) && c.status == READING_BODY && c.body == Some(Allocated(0))
    ensures ResponseEvent(c, inbox, eof) == ResponseStep(Waiting, c, inbox)
  {
  }

  /** The body branch of `handleRead` with the completeness test ahead of
      the return on an empty read, as the test evidently intends: -1 fails
      the request, and a read that leaves nothing remaining completes it,
      including the read of 0 bytes into the buffer of an empty body. */
  function ResponseBodyCorrected(c: ClientConn, inbox: seq<Byte>, eof: bool): ResponseStep
    requires c.status == READING_BODY && c.body.Some? && c.body.value.Valid()
  {
    var t := ReadInto(c.body.value, inbox, eof);
    if t.count < 0 then ResponseStep(Closed, c.(completion := Settle(c.completion, Failed)), inbox)
    else
      var c1 := c.(body := Some(t.buf));
      if t.buf.Remaining() == 0 then ResponseStep(Completed, c1.(completion := Settle(c1.completion, Succeeded)), t.rest)
      else ResponseStep(Waiting, c1, t.rest)
  }

  /** `ResponseBodyBranch` with the corrected body branch. */
  function ResponseBodyBranchCorrected(c: ClientConn, inbox: seq<Byte>, eof: bool): ResponseStep
    requires c.status == READING_BODY ==> c.body.Some? && c.body.value.Valid()
  {
    if c.status == READING_BODY then ResponseBodyCorrected(c, inbox, eof) else ResponseStep(Waiting, c, inbox)
  }

  /** `ResponseEvent` with the corrected body branch; the header branch is
      as written. */
  function ResponseEventCorrected(c: ClientConn, inbox: seq<Byte>, eof: bool): ResponseStep
    requires ClientInv(c)
  {
    if c.status == READING_HEADER then
      var r := ClientReadHeaderSpec(c, inbox, eof);
      if r.read < 0 then ResponseStep(Closed, r.conn.(completion := Settle(r.conn.completion, Failed)), r.rest)
      else if r.read == 0 then ResponseStep(Waiting, r.conn, r.rest)
      else if r.threw then ResponseStep(BadLength, r.conn, r.rest)
      else ResponseBodyBranchCorrected(r.conn, r.rest, eof)
    else ResponseBodyBranchCorrected(c, inbox, eof)
  }

  /** A request reading a body whose buffer has nothing left to fill. */
  ghost predicate ResponseStalled(c: ClientConn) {
    c.status == READING_BODY && c.body.Some? && c.body.value.Valid() && c.body.value.Remaining() == 0
  }

  /** The correction changes one case only: where a readable event as
      written ends waiting on a stalled request, the corrected event
      completes it; on every other input the two agree. */
  lemma ResponseCorrectionCompletesStalled(c: ClientConn, inbox: seq<Byte>, eof: bool)
    requires ClientInv(c)
    ensures var s := ResponseEvent(c, inbox, eof);
      var f := ResponseEventCorrected(c, inbox, eof);
      && (s.outcome == Waiting && ResponseStalled(s.conn) ==>
            f == ResponseStep(Completed, s.conn.(completion := Settle(s.conn.completion, Succeeded)), s.rest))
      && (!(s.outcome == Waiting && ResponseStalled(s.conn)) ==> f == s)
  {
    if c.status == READING_HEADER {
      ClientHeaderReadKeepsInv(c, inbox, eof);
    }
  }

  /** Under the corrected readable event a whole response frame completes a
      request waiting for its header for every body, the empty one (such as
      the server's error frame) included. */
  lemma {:induction false} WholeResponseCompletesCorrected(c: ClientConn, msgType: Byte, body: seq<Byte>, keepAlive: bool,
                                                           rest: seq<Byte>, eof: bool)
    requires ClientInv(c) && c.status == READING_HEADER && c.header.position == 0 && c.completion == Pending
    requires |body| <= INT_MAX
    ensures var s := ResponseEventCorrected(c, EncodeFrame(msgType, body, keepAlive) + rest, eof);
      && s.outcome == Completed && s.rest == rest && s.conn.completion == Succeeded
      && s.conn.body.Some? && s.conn.body.value.data == body
      && s.conn.tlvType == Signed(TypeByte(msgType, keepAlive)) && s.conn.responseLength == |body|
  {
    ResponseCorrectionCompletesStalled(c, EncodeFrame(msgType, body, keepAlive) + rest, eof);
    if |body| == 0 {
      EmptyResponseStalls(c, msgType, keepAlive, rest, eof);
      assert Allocated(0).data == [];
    } else {
      WholeResponseCompletes(c, msgType, body, keepAlive, rest, eof);
    }
  }

  /** The selector registration of a request: the key is valid, its
      context keeps `ClientInv`, and the interest set matches the phase —
      connect while connecting, write while connecting (a connection made
      at once) or writing, and read while reading. */
  ghost predicate Attached(key: ClientKey)
    reads key, key.attachment, key.attachment.request, key.attachment.request.data
    reads key.attachment.headerBuffer, key.attachment.headerBuffer.data, key.attachment.bodyBuffer
    reads if key.attachment.bodyBuffer == null then {} else {key.attachment.bodyBuffer.data}
  {
    var ctx := key.attachment;
    && ctx.Valid() && ClientInv(ctx.View())
    && match key.interest
       case OP_CONNECT => ctx.status == CONNECTING
       case OP_WRITE => ctx.status == CONNECTING || ctx.status == WRITING
       case OP_READ => ctx.status == READING_HEADER || ctx.status == READING_BODY
  }

  /** A request as `sendRPC` queues it: valid buffers, `ClientInv`, and
      still connecting. */
  ghost predicate Ready(ctx: NioClientContext)
    reads ctx, ctx.request, ctx.request.data, ctx.headerBuffer, ctx.headerBuffer.data, ctx.bodyBuffer
    reads if ctx.bodyBuffer == null then {} else {ctx.bodyBuffer.data}
  {
    ctx.Valid() && ClientInv(ctx.View()) && ctx.status == CONNECTING
  }

  /** The objects a readable event may change in a request's context. */
  ghost function ResponseFootprint(ctx: NioClientContext): set<object>
    reads ctx
  {
    {ctx, ctx.headerBuffer, ctx.headerBuffer.data}
    + (if ctx.bodyBuffer == null then {} else {ctx.bodyBuffer, ctx.bodyBuffer.data})
  }

  /** Whether a readable event ends with `closeChannel`: when the request
      failed, and when it completed without keep-alive. */
  predicate ClosesAfterRead(outcome: ResponseOutcome, keepAlive: bool) {
    outcome == Closed || (outcome == Completed && !keepAlive)
  }

  /** The counters after a readable event. */
  function ReadCounters(s: ClientState, outcome: ResponseOutcome, keepAlive: bool): ClientState {
    s.(requestCompleted := s.requestCompleted + (if outcome == Completed then 1 else 0),
       channelsClosed := s.channelsClosed + (if ClosesAfterRead(outcome, keepAlive) then 1 else 0))
  }

  /** The counters after a selected key's connect event. A refused
      connection closes the channel, and then `isWritable()` on the
      cancelled key throws `CancelledKeyException`, whose handler closes it
      again: the close is counted twice. */
  function ConnectCounters(s: ClientState, result: ConnectResult): ClientState {
    match result
    case InProgress => s
    case Established => s.(channelConnected := s.channelConnected + 1)
    case Refused => s.(channelConnectionErrors := s.channelConnectionErrors + 1, channelsClosed := s.channelsClosed + 2)
  }

  /** The counters after a selected key's write event: the `IOException`
      of a failed write skips `isReadable()`, and its handler closes the
      channel once. */
  function WriteCounters(s: ClientState, outcome: RequestOutcome): ClientState {
    if outcome == WriteFailed then s.(channelsClosed := s.channelsClosed + 1) else s
  }

  /** How `sendRPC` ends: the request is queued, or the request buffer has no
      byte 0 (`IndexOutOfBoundsException`), or the queue is full
      (`IllegalStateException` from `add`). */
  datatype Submission = Queued(ctx: NioClientContext) | NoTypeByte | QueueFull

  /** How many of `requests` ask for keep-alive. */
  function KeepAliveCount(requests: seq<NioClientContext>): (n: nat)
    ensures n <= |requests|
  {
    if requests == [] then 0
    else KeepAliveCount(requests[..|requests| - 1]) + (if requests[|requests| - 1].keepAlive then 1 else 0)
  }

  /** The index of the last keep-alive request among the first `n`, or -1
      when there is none. */
  function LastKeepAlive(requests: seq<NioClientContext>, n: nat): (j: int)
    requires n <= |requests|
    ensures -1 <= j < n
    ensures j >= 0 ==> requests[j].keepAlive
  {
    if n == 0 then -1
    else if requests[n - 1].keepAlive then n - 1
    else LastKeepAlive(requests, n - 1)
  }

  /** No request after the last keep-alive one asks for keep-alive. */
  lemma {:induction false} NothingKeptAliveAfterLast(requests: seq<NioClientContext>, n: nat, k: nat)
    requires n <= |requests| && LastKeepAlive(requests, n) < k < n
    ensures !requests[k].keepAlive
  {
    if !requests[n - 1].keepAlive && k < n - 1 {
      NothingKeptAliveAfterLast(requests, n - 1, k);
    }
  }

  /** Whether the shared slot holds a connected channel with a valid key
      once the first `n` of `requests` are registered in order, starting
      from a slot that is `live` or not: a keep-alive request that finds it
      dead opens a new channel into it, live exactly when that channel
      connected at once (`immediate`); every other request leaves it as it
      was. */
  function SlotLiveAfter(requests: seq<NioClientContext>, immediate: seq<bool>, live: bool, n: nat): bool
    requires |immediate| == |requests| && n <= |requests|
  {
    if n == 0 then live
    else
      var before := SlotLiveAfter(requests, immediate, live, n - 1);
      if requests[n - 1].keepAlive && !before then immediate[n - 1] else before
  }

  /** Whether the i-th of `requests` reuses the shared channel: it asks for
      keep-alive and the slot is live after the requests before it. */
  function ReusesAt(requests: seq<NioClientContext>, immediate: seq<bool>, live: bool, i: nat): bool
    requires |immediate| == |requests| && i < |requests|
  {
    requests[i].keepAlive && SlotLiveAfter(requests, immediate, live, i)
  }

  /** How many of the first `n` of `requests` reuse the shared channel. */
  function ReuseCount(requests: seq<NioClientContext>, immediate: seq<bool>, live: bool, n: nat): (r: nat)
    requires |immediate| == |requests| && n <= |requests|
    ensures r <= n
  {
    if n == 0 then 0
    else ReuseCount(requests, immediate, live, n - 1) + (if ReusesAt(requests, immediate, live, n - 1) then 1 else 0)
  }

  /** Only keep-alive requests reuse the channel, so the reuses never
      outnumber them; and there is a last keep-alive request exactly when
      some request asks for keep-alive. */
  lemma {:induction false} ReusesAreKeepAlive(requests: seq<NioClientContext>, immediate: seq<bool>, live: bool, n: nat)
    requires |immediate| == |requests| && n <= |requests|
    ensures ReuseCount(requests, immediate, live, n) <= KeepAliveCount(requests[..n])
    ensures LastKeepAlive(requests, n) < 0 <==> KeepAliveCount(requests[..n]) == 0
  {
    if n > 0 {
      ReusesAreKeepAlive(requests, immediate, live, n - 1);
      assert requests[..n][..n - 1] == requests[..n - 1];
    }
  }

  /** A live shared slot stays live, and every keep-alive request of the
      batch reuses its channel. */
  lemma {:induction false} LiveSlotServesEveryKeepAlive(requests: seq<NioClientContext>, immediate: seq<bool>, n: nat)
    requires |immediate| == |requests| && n <= |requests|
    ensures SlotLiveAfter(requests, immediate, true, n)
    ensures ReuseCount(requests, immediate, true, n) == KeepAliveCount(requests[..n])
  {
    if n > 0 {
      LiveSlotServesEveryKeepAlive(requests, immediate, n - 1);
      assert requests[..n][..n - 1] == requests[..n - 1];
    }
  }

  /** A channel whose `connect` is still under way is not connected, so
      when no connection of the batch is made at once and the slot starts
      dead, no request reuses a channel and each opens its own. */
  lemma {:induction false} PendingConnectsAreNotReused(requests: seq<NioClientContext>, immediate: seq<bool>, n: nat)
    requires |immediate| == |requests| && n <= |requests|
    requires forall i | 0 <= i < |immediate| :: !immediate[i]
    ensures !SlotLiveAfter(requests, immediate, false, n)
    ensures ReuseCount(requests, immediate, false, n) == 0
  {
    if n > 0 {
      PendingConnectsAreNotReused(requests, immediate, n - 1);
    }
  }

  /** Whether `c` is the right channel for the request of `requests` that
      follows the ones registered on `prefix`, from a slot that is `live` or
      not and holds `slot`, with a selector that had the channels of
      `selector`: when the request reuses, the slot's channel, which is the
      last keep-alive request's channel in `prefix`, or `slot` when there is
      none; otherwise a channel of its own, new to the selector and to
      `prefix`. */
  ghost predicate PlacedAt(requests: seq<NioClientContext>, immediate: seq<bool>, live: bool, slot: SocketChannel?,
                           selector: map<SocketChannel, SelectionKey<NioClientContext>>,
                           prefix: seq<SocketChannel>, c: SocketChannel)
    requires |immediate| == |requests| && |prefix| < |requests|
  {
    if ReusesAt(requests, immediate, live, |prefix|) then
      var j := LastKeepAlive(requests, |prefix|);
      c == if j < 0 then slot else prefix[j]
    else c !in selector && c !in prefix
  }

  /** What the selector holds for a registered channel: its key's interest
      set, attachment and validity. */
  datatype KeyState = KeyState(interest: Interest, attachment: NioClientContext, valid: bool)

  /** The key state the i-th of `requests` is registered with: interested
      in writes when it reuses the shared channel or its new channel
      connected at once, in the connection otherwise. */
  function RegistrationAt(requests: seq<NioClientContext>, immediate: seq<bool>, live: bool, i: nat): (r: KeyState)
    requires |immediate| == |requests| && i < |requests|
  {
    KeyState(if ReusesAt(requests, immediate, live, i) || immediate[i] then OP_WRITE else OP_CONNECT, requests[i], true)
  }

  /** The selector's key states after the first |chans| of `requests` are
      registered in order, the i-th on channel `chans[i]`, starting from
      `m`. */
  function Replay(m: map<SocketChannel, KeyState>, chans: seq<SocketChannel>,
                  requests: seq<NioClientContext>, immediate: seq<bool>, live: bool): map<SocketChannel, KeyState>
    requires |immediate| == |requests| && |chans| <= |requests|
  {
    if chans == [] then m
    else
      var n := |chans| - 1;
      Replay(m, chans[..n], requests, immediate, live)[chans[n] := RegistrationAt(requests, immediate, live, n)]
  }

  /** Registration adds exactly the channels registered on. */
  lemma {:induction false} ReplayChannels(m: map<SocketChannel, KeyState>, chans: seq<SocketChannel>,
                                          requests: seq<NioClientContext>, immediate: seq<bool>, live: bool)
    requires |immediate| == |requests| && |chans| <= |requests|
    ensures Replay(m, chans, requests, immediate, live).Keys == m.Keys + set c | c in chans
  {
    if chans != [] {
      var n := |chans| - 1;
      ReplayChannels(m, chans[..n], requests, immediate, live);
      assert chans == chans[..n] + [chans[n]];
    }
  }

  /** A channel registered on by a later request than any other ends with
      that request's key state. */
  lemma {:induction false} LastRegistrationWins(m: map<SocketChannel, KeyState>, chans: seq<SocketChannel>,
                                                requests: seq<NioClientContext>, immediate: seq<bool>, live: bool, i: nat)
    requires |immediate| == |requests| && |chans| <= |requests|
    requires i < |chans| && chans[i] !in chans[i + 1..]
    ensures chans[i] in Replay(m, chans, requests, immediate, live)
    ensures Replay(m, chans, requests, immediate, live)[chans[i]] == RegistrationAt(requests, immediate, live, i)
  {
    var n := |chans| - 1;
    if i < n {
      assert chans[..n][i + 1..] == chans[i + 1..n];
      assert chans[n] in chans[i + 1..];
      LastRegistrationWins(m, chans[..n], requests, immediate, live, i);
    }
  }

  /** A channel no request was registered on keeps the key state it had. */
  lemma {:induction false} UnusedChannelKeepsState(m: map<SocketChannel, KeyState>, chans: seq<SocketChannel>,
                                                   requests: seq<NioClientContext>, immediate: seq<bool>, live: bool,
                                                   ch: SocketChannel)
    requires |immediate| == |requests| && |chans| <= |requests|
    requires ch in m && ch !in chans
    ensures ch in Replay(m, chans, requests, immediate, live)
    ensures Replay(m, chans, requests, immediate, live)[ch] == m[ch]
  {
    if chans != [] {
      var n := |chans| - 1;
      UnusedChannelKeepsState(m, chans[..n], requests, immediate, live, ch);
    }
  }

  /** What `registerRPCRequests` finds on entry: the queued requests, how
      the connection of a new channel for each goes, whether the shared slot
      is live, and the client's counters, slot and selector. */
  datatype Batch = Batch(requests: seq<NioClientContext>, immediate: seq<bool>, live: bool,
                         counters: ClientState, slot: SocketChannel?, slotKey: SelectionKey?<NioClientContext>,
                         selector: map<SocketChannel, ClientKey>, view: map<SocketChannel, KeyState>)

  /** The part of a client's state that registering a request changes: its
      counters, whether the shared slot is live, the slot's channel and key,
      the selector's keys and their key states. */
  datatype Snap = Snap(state: ClientState, live: bool, slot: SocketChannel?, slotKey: SelectionKey?<NioClientContext>,
                       keys: map<SocketChannel, ClientKey>, view: map<SocketChannel, KeyState>)

  /** How registering `request` on channel `c` with `key` takes the state
      `s` to `s'`: it reuses the slot's channel exactly when the request asks
      for keep-alive and the slot is live, counts the request as reused or
      opened, registers `key` for writes when it reuses or connected at once
      and for the connection otherwise, and a keep-alive request that opens
      a channel puts it in the slot. */
  predicate Registers(s: Snap, s': Snap, request: NioClientContext, immediate: bool,
                      c: SocketChannel, key: ClientKey, reused: bool)
  {
    && reused == (request.keepAlive && s.live)
    && s'.state == s.state.(
      requestsRegistered := s.state.requestsRegistered + 1,
      channelsReused := s.state.channelsReused + (if reused then 1 else 0),
      channelsOpened := s.state.channelsOpened + (if reused then 0 else 1))
    && s'.live == (if request.keepAlive && !s.live then immediate else s.live)
    && s'.keys == s.keys[c := key]
    && s'.view == s.view[c := KeyState(if reused || immediate then OP_WRITE else OP_CONNECT, request, true)]
    && (reused ==> c == s.slot && s'.slot == s.slot && s'.slotKey == key && s'.keys == s.keys)
    && (!reused ==> c !in s.keys)
    && (!reused && request.keepAlive ==> s'.slot == c && s'.slotKey == key)
    && (!request.keepAlive ==> s'.slot == s.slot && s'.slotKey == s.slotKey)
  }

  class NioClient {
    var sharedChannel: SocketChannel?
    var sharedKey: SelectionKey?<NioClientContext>
    var queue: seq<NioClientContext>
    /** The `AtomicInteger` that numbers requests, a Java `int`. */
    var count: int
    var state: ClientState
    /** The selector's registrations: the key of each channel registered
        with it. Cancelled keys are not removed. */
    var selectorKeys: map<SocketChannel, ClientKey>

    /** Every registered request was either given a new channel or reused
        the shared one; each key belongs to its channel; and the shared
        channel is registered and, while connected, its key is not
        cancelled, because every path that cancels a key also closes its
        channel. */
    ghost predicate Valid()
      reads this, selectorKeys.Keys`connected, selectorKeys.Values`valid
    {
      && IsInt32(count)
      && state.channelsOpened + state.channelsReused == state.requestsRegistered
      && |queue| <= QUEUE_CAPACITY
      && (forall ch | ch in selectorKeys :: selectorKeys[ch].channel == ch)
      && (sharedChannel != null ==>
            sharedChannel in selectorKeys && (sharedChannel.connected ==> selectorKeys[sharedChannel].valid))
    }

    /** The shared slot holds a connected channel and a valid key: what a
        keep-alive request needs to reuse it. */
    ghost predicate SlotLive()
      reads this`sharedChannel, this`sharedKey, sharedChannel, sharedKey
    {
      sharedChannel != null && sharedKey != null && sharedChannel.connected && sharedKey.valid
    }

    /** The selector's key state for each registered channel. */
    ghost function SelectorView(): map<SocketChannel, KeyState>
      reads this`selectorKeys, selectorKeys.Values
    {
      map ch | ch in selectorKeys :: KeyState(selectorKeys[ch].interest, selectorKeys[ch].attachment, selectorKeys[ch].valid)
    }

    /** The part of the state that registering a request changes. */
    ghost function Snapshot(): Snap
      reads this`state, this`sharedChannel, this`sharedKey, this`selectorKeys, sharedChannel, sharedKey, selectorKeys.Values
    {
      Snap(state, SlotLive(), sharedChannel, sharedKey, selectorKeys, SelectorView())
    }

    /** The selector's key for `key.channel` is `key`. */
    ghost predicate Registered(key: ClientKey)
      reads this
    {
      key.channel in selectorKeys && selectorKeys[key.channel] == key
    }

    /** The shared slot after `closeChannel` closed `ch`, given the slot
        before: emptied when it held `ch`, otherwise as it was. */
    ghost predicate SlotAfterClose(ch: SocketChannel, before: SocketChannel?, beforeKey: SelectionKey?<NioClientContext>)
      reads this
    {
      if ch == before then sharedChannel == null && sharedKey == null
      else sharedChannel == before && sharedKey == beforeKey
    }

    /** `new NioClient(address)`: no shared channel, an empty queue, the
        counters at 0. Starting the selector thread is not modelled. */
    constructor ()
      ensures Valid() && sharedChannel == null && sharedKey == null && queue == [] && count == 0
      ensures state == ClientState(0, 0, 0, 0, 0, 0, 0) && selectorKeys == map[]
    {
      sharedChannel, sharedKey := null, null;
      queue, count := [], 0;
      state := ClientState(0, 0, 0, 0, 0, 0, 0);
      selectorKeys := map[];
    }

    /** `sendRPC(request)`: the keep-alive flag is bit 7 of byte 0; the
        counter is incremented (wrapping) to number the request, and the
        new context joins the back of the queue. */
    method SendRPC(request: ByteBuffer) returns (submitted: Submission)
      requires Valid() && request.Valid()
      modifies this`queue, this`count
      ensures Valid()
      ensures request.limit == 0 ==> submitted == NoTypeByte && count == old(count) && queue == old(queue)
      ensures request.limit > 0 ==> count == WrapInt(old(count) + 1)
      ensures request.limit > 0 && old(count) < INT_MAX ==> count == old(count) + 1
      ensures request.limit > 0 && |old(queue)| == QUEUE_CAPACITY ==> submitted == QueueFull && queue == old(queue)
      ensures request.limit > 0 && |old(queue)| < QUEUE_CAPACITY ==>
        && submitted.Queued? && fresh(submitted.ctx) && queue == old(queue) + [submitted.ctx]
        && submitted.ctx.id == count && submitted.ctx.request == request
        && submitted.ctx.keepAlive == IsKeepAlive(request.contents[0])
        && Ready(submitted.ctx)
        && submitted.ctx.View() == ClientConn(CONNECTING, request.View(), Allocated(HEADER_SIZE), None, 0, 0, Pending)
    {
      var first := request.GetAt(0);
      if first.None? {
        return NoTypeByte;
      }
      var keepAlive := IsKeepAlive(first.value);
      count := WrapInt(count + 1);
      var ctx := new NioClientContext(request, keepAlive, count);
      if |queue| == QUEUE_CAPACITY {
        return QueueFull;
      }
      queue := queue + [ctx];
      submitted := Queued(ctx);
    }

    /** `closeChannel(key)`: cancel the key, close the channel, empty the
        shared slot when it held this channel, and count the close. Every
        caller passes the selected key, so the guard against `null` is
        never taken. */
    method CloseChannel(key: ClientKey)
      requires Valid()
      modifies key`valid, key.channel`open, key.channel`connected, this`sharedChannel, this`sharedKey, this`state
      ensures Valid()
      ensures !key.valid && !key.channel.open && !key.channel.connected
      ensures state == old(state).(channelsClosed := old(state.channelsClosed) + 1)
      ensures SlotAfterClose(key.channel, old(sharedChannel), old(sharedKey))
      ensures key.interest == old(key.interest) && key.channel.eof == old(key.channel.eof)
    {
      var channel := key.channel;
      key.Cancel();
      channel.Close();
      if channel == sharedChannel {
        sharedChannel := null;
        sharedKey := null;
      }
      state := state.(channelsClosed := state.channelsClosed + 1);
    }

    /** One request of `registerRPCRequests`: it reuses the shared channel
        when it asks for keep-alive and the shared channel and key are set,
        connected and valid, re-registering the channel for writes with the
        request attached; otherwise it opens a new channel, connects it
        (`immediate` says whether the connection is made at once) and
        registers it for writes or for the connection, and a keep-alive
        request takes the shared slot for it. */
    method RegisterRequest(request: NioClientContext, immediate: bool) returns (reused: bool, key: ClientKey)
      requires Valid()
      modifies this`state, this`sharedChannel, this`sharedKey, this`selectorKeys
      modifies selectorKeys.Values`interest, selectorKeys.Values`attachment
      ensures Valid()
      ensures Registers(old(Snapshot()), Snapshot(), request, immediate, key.channel, key, reused)
      ensures key.interest == (if reused || immediate then OP_WRITE else OP_CONNECT)
      ensures key.valid && key.attachment == request && Registered(key)
      ensures !reused ==> fresh(key) && fresh(key.channel) && key.channel.open && key.channel.connected == immediate
      ensures forall k :: k in selectorKeys.Values ==> k in old(selectorKeys.Values) || fresh(k)
      ensures forall k :: k in old(selectorKeys.Values) && k != key ==>
        k.interest == old(k.interest) && k.attachment == old(k.attachment)
    {
      reused := request.keepAlive && sharedChannel != null && sharedKey != null
        && sharedChannel.connected && sharedKey.valid;
      if reused {
        key := ReuseChannel(request, immediate);
      } else {
        key := OpenChannel(request, immediate);
      }
    }

    /** The branch of `registerRPCRequests` that reuses the shared channel:
        count the request, register the channel again, for writes with the
        request attached, and count the reuse. */
    method ReuseChannel(request: NioClientContext, ghost immediate: bool) returns (key: ClientKey)
      requires Valid() && request.keepAlive && SlotLive()
      modifies this`state, this`sharedKey, selectorKeys.Values`interest, selectorKeys.Values`attachment
      ensures Valid()
      ensures Registers(old(Snapshot()), Snapshot(), request, immediate, key.channel, key, true)
      ensures key.channel == sharedChannel && key.interest == OP_WRITE
      ensures key.valid && key.attachment == request && Registered(key)
      ensures Ready(request) ==> Attached(key)
      ensures forall k :: k in old(selectorKeys.Values) && k != key ==>
        k.interest == old(k.interest) && k.attachment == old(k.attachment)
    {
      ghost var before := Snapshot();
      state := state.(requestsRegistered := state.requestsRegistered + 1);
      key := selectorKeys[sharedChannel];
      key.Reregister(OP_WRITE, request);
      sharedKey := key;
      state := state.(channelsReused := state.channelsReused + 1);
      assert SelectorView() == before.view[key.channel := KeyState(OP_WRITE, request, true)];
    }

    /** The branch of `registerRPCRequests` that opens a new channel: count
        the request and the channel, open it, connect it, register it for
        writes when the connection was made at once and for the connection
        otherwise, and give a keep-alive request the shared slot. */
    method OpenChannel(request: NioClientContext, immediate: bool) returns (key: ClientKey)
      requires Valid() && !(request.keepAlive && SlotLive())
      modifies this`state, this`sharedChannel, this`sharedKey, this`selectorKeys
      ensures Valid()
      ensures Registers(old(Snapshot()), Snapshot(), request, immediate, key.channel, key, false)
      ensures fresh(key) && fresh(key.channel) && key.valid && key.attachment == request
      ensures key.channel.open && key.channel.connected == immediate
      ensures key.interest == (if immediate then OP_WRITE else OP_CONNECT)
      ensures key.channel !in old(selectorKeys) && selectorKeys == old(selectorKeys)[key.channel := key]
      ensures request.keepAlive ==> sharedChannel == key.channel && sharedKey == key
      ensures !request.keepAlive ==> sharedChannel == old(sharedChannel) && sharedKey == old(sharedKey)
    {
      ghost var before := Snapshot();
      state := state.(requestsRegistered := state.requestsRegistered + 1, channelsOpened := state.channelsOpened + 1);
      key := NewChannel(request, immediate);
      assert SelectorView() == before.view;
      AddKey(key);
      if request.keepAlive {
        sharedChannel := key.channel;
        sharedKey := key;
      }
    }

    /** The selector's side of registering a new channel: its key joins the
        selector's keys. */
    method AddKey(key: ClientKey)
      requires key.channel !in selectorKeys
      modifies this`selectorKeys
      ensures selectorKeys == old(selectorKeys)[key.channel := key]
      ensures SelectorView() == old(SelectorView())[key.channel := KeyState(key.interest, key.attachment, key.valid)]
    {
      selectorKeys := selectorKeys[key.channel := key];
    }

    /** `SocketChannel.open()`, `connect(address)` and `register`: a new
        channel, connected exactly when the connection is made at once, and
        its new key, interested in writes when connected and in the
        connection otherwise. */
    static method NewChannel(request: NioClientContext, immediate: bool) returns (key: ClientKey)
      ensures fresh(key) && fresh(key.channel) && key.valid && key.attachment == request
      ensures key.channel.open && key.channel.connected == immediate
      ensures key.interest == (if immediate then OP_WRITE else OP_CONNECT)
    {
      var channel := new SocketChannel.Open();
      var connected := channel.Connect(immediate);
      key := new SelectionKey.Register(channel, if connected then OP_WRITE else OP_CONNECT, request);
    }

    /** Whether a batch and the channels its first requests were registered
        on fit together. */
    static predicate Fits(b: Batch, chans: seq<SocketChannel>) {
      |b.immediate| == |b.requests| && |chans| <= |b.requests|
    }

    /** The counters `state` count the requests of `b` registered so far,
        and whether the slot is `live` is `SlotLiveAfter` them. */
    static ghost predicate Counted(b: Batch, n: nat, state: ClientState, live: bool) {
      && |b.immediate| == |b.requests| && n <= |b.requests|
      && (var reuses := ReuseCount(b.requests, b.immediate, b.live, n);
          state == b.counters.(
            requestsRegistered := b.counters.requestsRegistered + n,
            channelsReused := b.counters.channelsReused + reuses,
            channelsOpened := b.counters.channelsOpened + n - reuses))
      && live == SlotLiveAfter(b.requests, b.immediate, b.live, n)
    }

    /** The slot holds the channel and key of the last keep-alive request so
        far, or what it held on entry when there is none. */
    static ghost predicate SlotHeld(b: Batch, chans: seq<SocketChannel>, slot: SocketChannel?,
                              slotKey: SelectionKey?<NioClientContext>, keys: map<SocketChannel, ClientKey>)
    {
      && Fits(b, chans)
      && var j := LastKeepAlive(b.requests, |chans|);
         if j < 0 then slot == b.slot && slotKey == b.slotKey
         else slot == chans[j] && chans[j] in keys && slotKey == keys[chans[j]]
    }

    /** The selector's key states `view` are those of `Replay`, the keys it
        had on entry are still among its `keys`, and so is every channel
        registered on. */
    static ghost predicate Replayed(b: Batch, chans: seq<SocketChannel>, view: map<SocketChannel, KeyState>,
                              keys: map<SocketChannel, ClientKey>)
    {
      && Fits(b, chans)
      && view == Replay(b.view, chans, b.requests, b.immediate, b.live)
      && (forall ch | ch in b.selector :: ch in keys && keys[ch] == b.selector[ch])
      && (forall i | 0 <= i < |chans| :: chans[i] in keys)
    }

        /** Every request of `b` registered so far, on `chans`, is on the
        channel `PlacedAt` says. */
    static ghost predicate Placed(b: Batch, chans: seq<SocketChannel>)
      decreases |chans|
    {
      && Fits(b, chans)
      && (chans != [] ==>
            var n := |chans| - 1;
            && Placed(b, chans[..n])
            && PlacedAt(b.requests, b.immediate, b.live, b.slot, b.selector, chans[..n], chans[n]))
    }

    /** Registering the next request of `b` on the channel `PlacedAt` says
        keeps the requests placed. */
    static lemma PlacedStep(b: Batch, chans: seq<SocketChannel>, c: SocketChannel)
      requires Placed(b, chans) && |chans| < |b.requests|
      requires PlacedAt(b.requests, b.immediate, b.live, b.slot, b.selector, chans, c)
      ensures Placed(b, chans + [c])
    {
      assert (chans + [c])[..|chans|] == chans;
    }

    /** The i-th request of a placed batch is on the channel `PlacedAt`
        says, given the channels of the requests before it. */
    static lemma {:induction false} PlacedEach(b: Batch, chans: seq<SocketChannel>, i: nat)
      requires Placed(b, chans) && i < |chans|
      ensures PlacedAt(b.requests, b.immediate, b.live, b.slot, b.selector, chans[..i], chans[i])
    {
      var n := |chans| - 1;
      if i < n {
        PlacedEach(b, chans[..n], i);
        assert chans[..n][..i] == chans[..i];
      }
    }

    /** Registering the next request of `b` counts it, as a reuse exactly
        when `ReusesAt` says so, and updates whether the slot is live. */
    static lemma CountedStep(b: Batch, n: nat, state: ClientState, live: bool,
                             state': ClientState, live': bool, reused: bool)
      requires Counted(b, n, state, live) && n < |b.requests|
      requires reused == (b.requests[n].keepAlive && live)
      requires state' == state.(
        requestsRegistered := state.requestsRegistered + 1,
        channelsReused := state.channelsReused + (if reused then 1 else 0),
        channelsOpened := state.channelsOpened + (if reused then 0 else 1))
      requires live' == if b.requests[n].keepAlive && !live then b.immediate[n] else live
      ensures reused == ReusesAt(b.requests, b.immediate, b.live, n)
      ensures Counted(b, n + 1, state', live')
    {
    }

    /** Registering the next request of `b` on `c` with `key` leaves the
        slot with the last keep-alive request's channel and key. */
    static lemma SlotHeldStep(b: Batch, chans: seq<SocketChannel>, slot: SocketChannel?,
                              slotKey: SelectionKey?<NioClientContext>, keys: map<SocketChannel, ClientKey>,
                              c: SocketChannel, key: ClientKey, slot': SocketChannel?,
                              slotKey': SelectionKey?<NioClientContext>, keys': map<SocketChannel, ClientKey>,
                              reused: bool)
      requires SlotHeld(b, chans, slot, slotKey, keys) && |chans| < |b.requests|
      requires keys' == keys[c := key]
      requires reused ==> b.requests[|chans|].keepAlive && c == slot && slot' == slot && slotKey' == key && keys' == keys
      requires !reused ==> c !in keys
      requires !reused && b.requests[|chans|].keepAlive ==> slot' == c && slotKey' == key
      requires !b.requests[|chans|].keepAlive ==> slot' == slot && slotKey' == slotKey
      ensures SlotHeld(b, chans + [c], slot', slotKey', keys')
    {
      assert (chans + [c])[..|chans|] == chans;
    }

    /** Registering the next request of `b` on `c` adds its key state to
        the replay, and keeps the keys the selector had on entry. */
    static lemma ReplayedStep(b: Batch, chans: seq<SocketChannel>, view: map<SocketChannel, KeyState>,
                              keys: map<SocketChannel, ClientKey>, c: SocketChannel, key: ClientKey,
                              view': map<SocketChannel, KeyState>, keys': map<SocketChannel, ClientKey>,
                              reused: bool)
      requires Replayed(b, chans, view, keys) && |chans| < |b.requests|
      requires view' == view[c := RegistrationAt(b.requests, b.immediate, b.live, |chans|)]
      requires keys' == keys[c := key]
      requires reused ==> keys' == keys
      requires !reused ==> c !in keys
      ensures Replayed(b, chans + [c], view', keys')
    {
      assert (chans + [c])[..|chans|] == chans;
    }

    /** Where `registerRPCRequests` stands in the batch `b` once the
        requests before `|chans|` are registered, as far as the state `s`
        shows: counted, the slot held, the key states replayed. */
    static ghost predicate Progress(b: Batch, chans: seq<SocketChannel>, s: Snap) {
      && Counted(b, |chans|, s.state, s.live)
      && SlotHeld(b, chans, s.slot, s.slotKey, s.keys)
      && Replayed(b, chans, s.view, s.keys)
    }

    /** Registering the next request of `b` keeps the progress, and reuses
        the channel exactly when `ReusesAt` says so: the slot's channel,
        the one the last keep-alive request so far left there. */
    static lemma Advance(b: Batch, chans: seq<SocketChannel>, s: Snap, s': Snap, request: NioClientContext,
                         immediate: bool, c: SocketChannel, key: ClientKey, reused: bool)
      requires Progress(b, chans, s) && |chans| < |b.requests|
      requires request == b.requests[|chans|] && immediate == b.immediate[|chans|]
      requires Registers(s, s', request, immediate, c, key, reused)
      ensures Progress(b, chans + [c], s')
      ensures PlacedAt(b.requests, b.immediate, b.live, b.slot, b.selector, chans, c)
    {
      CountedStep(b, |chans|, s.state, s.live, s'.state, s'.live, reused);
      SlotHeldStep(b, chans, s.slot, s.slotKey, s.keys, c, key, s'.slot, s'.slotKey, s'.keys, reused);
      ReplayedStep(b, chans, s.view, s.keys, c, key, s'.view, s'.keys, reused);
      if reused {
        var j := LastKeepAlive(b.requests, |chans|);
        assert c == s.slot == if j < 0 then b.slot else chans[j];
      } else {
        assert c !in s.keys;
        assert c !in b.selector && c !in chans;
      }
    }

    /** `Advance` together with the placement of the new channel. */
    static lemma AdvancePlaced(b: Batch, chans: seq<SocketChannel>, chans': seq<SocketChannel>, s: Snap, s': Snap,
                               request: NioClientContext, immediate: bool, c: SocketChannel, key: ClientKey, reused: bool)
      requires Progress(b, chans, s) && Placed(b, chans) && |chans| < |b.requests|
      requires request == b.requests[|chans|] && immediate == b.immediate[|chans|]
      requires Registers(s, s', request, immediate, c, key, reused) && chans' == chans + [c]
      ensures Progress(b, chans', s') && Placed(b, chans')
    {
      Advance(b, chans, s, s', request, immediate, c, key, reused);
      PlacedStep(b, chans, c);
    }

    /** `queue.poll()` on a queue that is not empty: the request at its
        head, removed from it; nothing else changes. */
    method Poll() returns (request: NioClientContext)
      requires Valid() && queue != []
      modifies this`queue
      ensures Valid() && request == old(queue[0]) && queue == old(queue[1..])
      ensures Snapshot() == old(Snapshot()) && selectorKeys == old(selectorKeys)
    {
      request := queue[0];
      queue := queue[1..];
    }

    /** One turn of the loop of `registerRPCRequests`: poll the next request
        and register it, on the channel it appends to `chans`. */
    method RegisterNext(immediate: bool, ghost b: Batch, ghost chans: seq<SocketChannel>)
      returns (ghost chans': seq<SocketChannel>)
      requires Valid() && |chans| < |b.requests|
      requires Progress(b, chans, Snapshot()) && Placed(b, chans)
      requires queue == b.requests[|chans|..]
      requires immediate == b.immediate[|chans|]
      modifies this`state, this`sharedChannel, this`sharedKey, this`selectorKeys, this`queue
      modifies selectorKeys.Values`interest, selectorKeys.Values`attachment
      ensures Valid() && Progress(b, chans', Snapshot()) && Placed(b, chans')
      ensures queue == b.requests[|chans'|..]
      ensures |chans'| == |chans| + 1
      ensures forall k :: k in selectorKeys.Values ==> k in old(selectorKeys.Values) || fresh(k)
    {
      var request := Poll();
      assert b.requests[|chans|..][1..] == b.requests[|chans| + 1..];
      ghost var before := Snapshot();
      assert request == b.requests[|chans|];
      var reused, key := RegisterRequest(request, immediate);
      chans' := chans + [key.channel];
      AdvancePlaced(b, chans, chans', before, Snapshot(), request, immediate, key.channel, key, reused);
    }

    /** `registerRPCRequests`: poll the queue until it is empty, registering
        each request in queue order; `immediate[i]` says whether a new
        channel for the i-th request connects at once, and `chans[i]` is the
        channel the i-th request was registered on. Whether a request
        reuses the shared channel is `ReusesAt` of the queue and of whether
        the slot was live; a reused channel is the one the last keep-alive
        request before it left in the slot (or the slot's channel on entry),
        and every other request gets a new channel of its own. The
        selector's key states are those of `Replay`, and its keys for the
        channels it had are the same objects. The slot ends with the last
        keep-alive request's channel and key. */
    method RegisterRPCRequests(immediate: seq<bool>) returns (ghost chans: seq<SocketChannel>)
      requires Valid() && |immediate| == |queue|
      modifies this`state, this`sharedChannel, this`sharedKey, this`selectorKeys, this`queue
      modifies selectorKeys.Values`interest, selectorKeys.Values`attachment
      ensures Valid() && queue == [] && |chans| == |old(queue)|
      ensures var reuses := ReuseCount(old(queue), immediate, old(SlotLive()), |chans|);
        state == old(state).(
          requestsRegistered := old(state.requestsRegistered) + |chans|,
          channelsReused := old(state.channelsReused) + reuses,
          channelsOpened := old(state.channelsOpened) + |chans| - reuses)
      ensures SlotLive() == SlotLiveAfter(old(queue), immediate, old(SlotLive()), |chans|)
      ensures var j := LastKeepAlive(old(queue), |chans|);
        if j < 0 then sharedChannel == old(sharedChannel) && sharedKey == old(sharedKey)
        else sharedChannel == chans[j] && chans[j] in selectorKeys && sharedKey == selectorKeys[chans[j]]
      ensures SelectorView() == Replay(old(SelectorView()), chans, old(queue), immediate, old(SlotLive()))
      ensures forall ch | ch in old(selectorKeys) :: ch in selectorKeys && selectorKeys[ch] == old(selectorKeys[ch])
      ensures forall i | 0 <= i < |chans| ::
        PlacedAt(old(queue), immediate, old(SlotLive()), old(sharedChannel), old(selectorKeys), chans[..i], chans[i])
    {
      ghost var b := Batch(queue, immediate, SlotLive(), state, sharedChannel, sharedKey, selectorKeys, SelectorView());
      chans := RegisterQueued(immediate, b);
      forall i | 0 <= i < |chans|
        ensures PlacedAt(b.requests, b.immediate, b.live, b.slot, b.selector, chans[..i], chans[i])
      {
        PlacedEach(b, chans, i);
      }
    }

    /** The loop of `registerRPCRequests` over the batch `b`, which starts
        with the queue: the requests end registered in order, on `chans`. */
    method RegisterQueued(immediate: seq<bool>, ghost b: Batch) returns (ghost chans: seq<SocketChannel>)
      requires Valid() && Progress(b, [], Snapshot()) && queue == b.requests && immediate == b.immediate
      modifies this`state, this`sharedChannel, this`sharedKey, this`selectorKeys, this`queue
      modifies selectorKeys.Values`interest, selectorKeys.Values`attachment
      ensures Valid() && queue == [] && |chans| == |b.requests|
      ensures Progress(b, chans, Snapshot()) && Placed(b, chans)
    {
      chans := [];
      var done: nat := 0;
      while queue != []
        invariant Valid() && done == |chans|
        invariant Progress(b, chans, Snapshot()) && Placed(b, chans)
        invariant queue == b.requests[done..]
        invariant forall k :: k in selectorKeys.Values ==> k in old(selectorKeys.Values) || fresh(k)
        decreases |queue|
      {
        chans := RegisterNext(immediate[done], b, chans);
        done := done + 1;
      }
      assert |b.requests[done..]| == 0;
    }

    /** `handleConnect`: `finishConnect()` still under way returns; a
        refused connection counts a connection error, fails the request and
        closes the channel; an established one is counted and switches the
        key to writes with the request `WRITING`. */
    method HandleConnect(key: ClientKey, result: ConnectResult)
      requires Valid() && Registered(key) && key.valid && Attached(key) && key.interest == OP_CONNECT
      modifies this`state, this`sharedChannel, this`sharedKey, key`valid, key`interest
      modifies key.channel`open, key.channel`connected, key.attachment`status, key.attachment`completion
      ensures Valid() && key.attachment.View() == ConnectEvent(old(key.attachment.View()), result)
      ensures key.valid ==> Attached(key)
      ensures result == InProgress ==>
        && state == old(state) && key.valid && key.interest == OP_CONNECT
        && sharedChannel == old(sharedChannel) && sharedKey == old(sharedKey)
      ensures result == Established ==>
        && state == old(state).(channelConnected := old(state.channelConnected) + 1)
        && key.valid && key.interest == OP_WRITE && key.channel.connected
        && sharedChannel == old(sharedChannel) && sharedKey == old(sharedKey)
      ensures result == Refused ==>
        && state == old(state).(channelConnectionErrors := old(state.channelConnectionErrors) + 1,
                                channelsClosed := old(state.channelsClosed) + 1)
        && !key.valid && !key.channel.open && SlotAfterClose(key.channel, old(sharedChannel), old(sharedKey))
    {
      ConnectEventPhase(key.attachment.View(), result);
      var ctx := key.attachment;
      var r := key.channel.FinishConnect(result);
      if r == InProgress {
        return;
      }
      if r == Refused {
        ConnectionRefused(key);
        return;
      }
      state := state.(channelConnected := state.channelConnected + 1);
      key.InterestOps(OP_WRITE);
      ctx.status := WRITING;
    }

    /** `onError(...)` then `closeChannel(key)`: fail the request and close
        its channel. */
    method FailRequest(key: ClientKey)
      requires Valid()
      modifies this`state, this`sharedChannel, this`sharedKey, key`valid
      modifies key.channel`open, key.channel`connected, key.attachment`completion
      ensures Valid() && !key.valid && !key.channel.open
      ensures key.attachment.completion == Settle(old(key.attachment.completion), Failed)
      ensures state == old(state).(channelsClosed := old(state.channelsClosed) + 1)
      ensures SlotAfterClose(key.channel, old(sharedChannel), old(sharedKey))
      ensures key.interest == old(key.interest) && key.channel.eof == old(key.channel.eof)
    {
      key.attachment.OnError();
      CloseChannel(key);
    }

    /** The `SocketException` branch of `handleConnect`: count a connection
        error, fail the request and close the channel. */
    method ConnectionRefused(key: ClientKey)
      requires Valid()
      modifies this`state, this`sharedChannel, this`sharedKey, key`valid
      modifies key.channel`open, key.channel`connected, key.attachment`completion
      ensures Valid() && !key.valid && !key.channel.open
      ensures key.attachment.completion == Settle(old(key.attachment.completion), Failed)
      ensures state == old(state).(channelConnectionErrors := old(state.channelConnectionErrors) + 1,
                                   channelsClosed := old(state.channelsClosed) + 1)
      ensures SlotAfterClose(key.channel, old(sharedChannel), old(sharedKey))
    {
      state := state.(channelConnectionErrors := state.channelConnectionErrors + 1);
      FailRequest(key);
    }

    /** `handleWrite`: write the request; once the whole request is sent
        the key switches to reads and the request waits for the response
        header. On a reset connection `channel.write` throws `IOException`,
        which leaves the method with nothing changed (`WriteFailed`); its
        `wrote < 0` branch is never taken, since `write` does not return a
        negative count. */
    method HandleWrite(key: ClientKey) returns (outcome: RequestOutcome)
      requires Valid() && Registered(key) && key.valid && Attached(key) && key.interest == OP_WRITE
      modifies key`interest, key.channel`sent, key.channel`window
      modifies key.attachment`status, key.attachment.request`position
      ensures Valid() && Attached(key)
      ensures var s := RequestEvent(old(key.attachment.View()), old(key.channel.window), key.channel.broken);
        && outcome == s.outcome && key.channel.sent == old(key.channel.sent) + s.written
        && key.attachment.View() == (if outcome == WriteFailed then old(key.attachment.View()) else s.conn)
      ensures key.interest == (if outcome == Sent then OP_READ else OP_WRITE)
    {
      var ctx := key.attachment;
      ghost var c := ctx.View();
      ghost var s := RequestEvent(c, key.channel.window, key.channel.broken);
      RequestEventSends(c, key.channel.window);
      var wrote := SendRequest(key);
      if wrote.None? {
        return WriteFailed;
      }
      if ctx.request.limit - ctx.request.position == 0 {
        key.InterestOps(OP_READ);
        ctx.status := READING_HEADER;
        assert ctx.View() == s.conn;
        return Sent;
      }
      return Partial;
    }

    /** `channel.write(clientContext.request)` within `handleWrite`: the
        request's position moves past what the channel took; `None` is the
        `IOException` of a reset connection. */
    method SendRequest(key: ClientKey) returns (wrote: Option<nat>)
      requires key.attachment.Valid() && ClientInv(key.attachment.View())
      modifies key.channel`sent, key.channel`window, key.attachment.request`position
      ensures key.attachment.Valid() && key.channel.broken == old(key.channel.broken)
      ensures var s := RequestEvent(old(key.attachment.View()), old(key.channel.window), key.channel.broken);
        && (wrote.None? <==> s.outcome == WriteFailed)
        && (wrote.None? ==> key.attachment.View() == old(key.attachment.View()))
        && (wrote.Some? ==> key.attachment.View() == old(key.attachment.View()).(request := s.conn.request))
        && key.channel.sent == old(key.channel.sent) + s.written
    {
      wrote := key.channel.Write(key.attachment.request);
    }

    /** `handleRead`: the header branch while the response header is still
        being read, then the body branch; a request that fails or completes
        without keep-alive has its channel closed, and a completed
        keep-alive request leaves its key, registered for reads, as the
        shared key. */
    method HandleRead(key: ClientKey) returns (outcome: ResponseOutcome)
      requires Valid() && Registered(key) && key.valid && Attached(key) && key.interest == OP_READ
      modifies this`state, this`sharedChannel, this`sharedKey, key`valid, key`interest
      modifies key.channel`inbox, key.channel`open, key.channel`connected, ResponseFootprint(key.attachment)
      ensures Valid() && key.channel.eof == old(key.channel.eof)
      ensures var s := ResponseEvent(old(key.attachment.View()), old(key.channel.inbox), key.channel.eof);
        outcome == s.outcome && key.attachment.View() == s.conn && key.channel.inbox == s.rest
      ensures key.valid ==> Attached(key)
      ensures state == ReadCounters(old(state), outcome, key.attachment.keepAlive)
      ensures ClosesAfterRead(outcome, key.attachment.keepAlive) ==>
        !key.valid && !key.channel.open && SlotAfterClose(key.channel, old(sharedChannel), old(sharedKey))
      ensures !ClosesAfterRead(outcome, key.attachment.keepAlive) ==>
        && key.valid && key.interest == OP_READ && sharedChannel == old(sharedChannel)
        && sharedKey == (if outcome == Completed then key else old(sharedKey))
    {
      ResponseEventKeepsInv(key.attachment.View(), key.channel.inbox, key.channel.eof);
      if key.attachment.status == READING_HEADER {
        outcome := ReadFromHeader(key);
      } else {
        outcome := ReadBodyBranch(key);
      }
    }

    /** `handleRead` on a request still reading its response header. */
    method ReadFromHeader(key: ClientKey) returns (outcome: ResponseOutcome)
      requires Valid() && Registered(key) && key.valid && key.interest == OP_READ
      requires key.attachment.Valid() && ClientInv(key.attachment.View()) && key.attachment.status == READING_HEADER
      modifies this`state, this`sharedChannel, this`sharedKey, key`valid, key`interest
      modifies key.channel`inbox, key.channel`open, key.channel`connected, ResponseFootprint(key.attachment)
      ensures Valid() && key.attachment.Valid() && key.channel.eof == old(key.channel.eof)
      ensures var s := ResponseEvent(old(key.attachment.View()), old(key.channel.inbox), key.channel.eof);
        outcome == s.outcome && key.attachment.View() == s.conn && key.channel.inbox == s.rest
      ensures state == ReadCounters(old(state), outcome, key.attachment.keepAlive)
      ensures ClosesAfterRead(outcome, key.attachment.keepAlive) ==>
        !key.valid && !key.channel.open && SlotAfterClose(key.channel, old(sharedChannel), old(sharedKey))
      ensures !ClosesAfterRead(outcome, key.attachment.keepAlive) ==>
        && key.valid && key.interest == OP_READ && sharedChannel == old(sharedChannel)
        && sharedKey == (if outcome == Completed then key else old(sharedKey))
    {
      var done;
      done, outcome := ReadHeaderBranch(key);
      if !done {
        outcome := ReadBodyBranch(key);
      }
    }

    /** The header branch of `handleRead`: `readHeader`, then -1 fails the
        request and closes the channel and 0 returns; a negative length
        throws out of `readHeader` and the method, which `done` with
        `BadLength` stands for. */
    method ReadHeaderBranch(key: ClientKey) returns (done: bool, outcome: ResponseOutcome)
      requires Valid() && Registered(key) && key.valid
      requires key.attachment.Valid() && ClientInv(key.attachment.View()) && key.attachment.status == READING_HEADER
      modifies this`state, this`sharedChannel, this`sharedKey, key`valid
      modifies key.channel`inbox, key.channel`open, key.channel`connected
      modifies key.attachment, key.attachment.headerBuffer, key.attachment.headerBuffer.data
      ensures Valid() && key.attachment.Valid() && key.channel.eof == old(key.channel.eof)
      ensures key.attachment.bodyBuffer != null ==> fresh(key.attachment.bodyBuffer) && fresh(key.attachment.bodyBuffer.data)
      ensures !done && key.attachment.status == READING_BODY ==> key.attachment.bodyBuffer != null
      ensures var s := ResponseEvent(old(key.attachment.View()), old(key.channel.inbox), key.channel.eof);
        && (done ==> outcome == s.outcome && key.attachment.View() == s.conn && key.channel.inbox == s.rest)
        && (!done ==> outcome == Waiting && s == ResponseBodyBranch(key.attachment.View(), key.channel.inbox, key.channel.eof))
        && outcome != Completed
      ensures outcome == Closed ==>
        && state == old(state).(channelsClosed := old(state.channelsClosed) + 1)
        && !key.valid && !key.channel.open && SlotAfterClose(key.channel, old(sharedChannel), old(sharedKey))
      ensures outcome != Closed ==>
        state == old(state) && key.valid && sharedChannel == old(sharedChannel) && sharedKey == old(sharedKey)
    {
      var read, threw := ReadResponseHeader(key);
      if read < 0 {
        FailRequest(key);
        return true, Closed;
      }
      if read == 0 {
        return true, Waiting;
      }
      if threw {
        return true, BadLength;
      }
      return false, Waiting;
    }

    /** `context.readHeader(channel, key)` for a valid key, within the
        client: at end of stream it closes the channel and cancels the key,
        which keeps `Valid()`. */
    method ReadResponseHeader(key: ClientKey) returns (read: int, threw: bool)
      requires Valid() && Registered(key) && key.valid
      requires key.attachment.Valid() && ClientInv(key.attachment.View()) && key.attachment.status == READING_HEADER
      modifies key`valid, key.channel`inbox, key.channel`open, key.channel`connected
      modifies key.attachment, key.attachment.headerBuffer, key.attachment.headerBuffer.data
      ensures Valid() && key.attachment.Valid()
      ensures key.channel.eof == old(key.channel.eof)
      ensures key.attachment.bodyBuffer != null ==> fresh(key.attachment.bodyBuffer) && fresh(key.attachment.bodyBuffer.data)
      ensures key.attachment.status == READING_BODY ==> key.attachment.bodyBuffer != null
      ensures var r := ClientReadHeaderSpec(old(key.attachment.View()), old(key.channel.inbox), key.channel.eof);
        read == r.read && threw == r.threw && key.attachment.View() == r.conn && key.channel.inbox == r.rest
      ensures read < 0 ==> !key.valid && !key.channel.open
      ensures read >= 0 ==> key.valid && key.channel.open == old(key.channel.open)
    {
      ClientHeaderReadKeepsInv(key.attachment.View(), key.channel.inbox, key.channel.eof);
      assert sharedChannel != null && sharedChannel != key.channel ==> selectorKeys[sharedChannel] != key;
      read, threw := key.attachment.ReadHeader(key.channel, key);
    }

    /** The body branch of `handleRead`, taken when the status is
        `READING_BODY`: -1 fails the request and closes the channel, 0
        returns, and a read that fills the body buffer completes the request
        and counts it; the channel is then kept, as the shared key, for a
        keep-alive request and closed otherwise. */
    method ReadBodyBranch(key: ClientKey) returns (outcome: ResponseOutcome)
      requires Valid() && Registered(key) && key.valid && key.interest == OP_READ
      requires key.attachment.Valid() && (key.attachment.status == READING_BODY ==> key.attachment.bodyBuffer != null)
      modifies this`state, this`sharedChannel, this`sharedKey, key`valid, key`interest
      modifies key.channel`inbox, key.channel`open, key.channel`connected, ResponseFootprint(key.attachment)
      ensures Valid() && key.attachment.Valid() && key.channel.eof == old(key.channel.eof)
      ensures var s := ResponseBodyBranch(old(key.attachment.View()), old(key.channel.inbox), key.channel.eof);
        outcome == s.outcome && key.attachment.View() == s.conn && key.channel.inbox == s.rest
      ensures state == ReadCounters(old(state), outcome, key.attachment.keepAlive)
      ensures ClosesAfterRead(outcome, key.attachment.keepAlive) ==>
        !key.valid && !key.channel.open && SlotAfterClose(key.channel, old(sharedChannel), old(sharedKey))
      ensures !ClosesAfterRead(outcome, key.attachment.keepAlive) ==>
        && key.valid && key.interest == OP_READ && sharedChannel == old(sharedChannel)
        && sharedKey == (if outcome == Completed then key else old(sharedKey))
    {
      if key.attachment.status != READING_BODY {
        return Waiting;
      }
      outcome := ReadBody(key);
    }

    /** The body branch of `handleRead` on a request reading its body. */
    method ReadBody(key: ClientKey) returns (outcome: ResponseOutcome)
      requires Valid() && Registered(key) && key.valid && key.interest == OP_READ
      requires key.attachment.Valid() && key.attachment.status == READING_BODY && key.attachment.bodyBuffer != null
      modifies this`state, this`sharedChannel, this`sharedKey, key`valid, key`interest
      modifies key.channel`inbox, key.channel`open, key.channel`connected
      modifies key.attachment`completion, key.attachment.bodyBuffer, key.attachment.bodyBuffer.data
      ensures Valid() && key.attachment.Valid() && key.channel.eof == old(key.channel.eof)
      ensures var s := ResponseBody(old(key.attachment.View()), old(key.channel.inbox), key.channel.eof);
        outcome == s.outcome && key.attachment.View() == s.conn && key.channel.inbox == s.rest
      ensures state == ReadCounters(old(state), outcome, key.attachment.keepAlive)
      ensures ClosesAfterRead(outcome, key.attachment.keepAlive) ==>
        !key.valid && !key.channel.open && SlotAfterClose(key.channel, old(sharedChannel), old(sharedKey))
      ensures !ClosesAfterRead(outcome, key.attachment.keepAlive) ==>
        && key.valid && key.interest == OP_READ && sharedChannel == old(sharedChannel)
        && sharedKey == (if outcome == Completed then key else old(sharedKey))
    {
      var ctx := key.attachment;
      var read := ReceiveBody(key);
      if read < 0 {
        FailRequest(key);
        return Closed;
      }
      if read == 0 {
        return Waiting;
      }
      if ctx.bodyBuffer.limit - ctx.bodyBuffer.position == 0 {
        ResponseCompleted(key);
        return Completed;
      }
      return Waiting;
    }

    /** `channel.read(context.bodyBuffer)` within `handleRead`. */
    method ReceiveBody(key: ClientKey) returns (read: int)
      requires key.attachment.Valid() && key.attachment.bodyBuffer != null
      modifies key.channel`inbox, key.attachment.bodyBuffer, key.attachment.bodyBuffer.data
      ensures key.attachment.Valid()
      ensures var t := ReadInto(old(key.attachment.bodyBuffer.View()), old(key.channel.inbox), key.channel.eof);
        && read == t.count && key.channel.inbox == t.rest
        && key.attachment.View() == old(key.attachment.View()).(body := Some(t.buf))
    {
      read := key.channel.Read(key.attachment.bodyBuffer);
    }

    /** A response body is complete: complete the future, count the
        request, and keep the channel for a keep-alive request or close it. */
    method ResponseCompleted(key: ClientKey)
      requires Valid() && Registered(key) && key.valid && key.interest == OP_READ
      modifies this`state, this`sharedChannel, this`sharedKey, key`valid, key`interest
      modifies key.channel`open, key.channel`connected, key.attachment`completion
      ensures Valid() && key.channel.eof == old(key.channel.eof)
      ensures key.attachment.completion == Settle(old(key.attachment.completion), Succeeded)
      ensures state == ReadCounters(old(state), Completed, key.attachment.keepAlive)
      ensures !key.attachment.keepAlive ==>
        !key.valid && !key.channel.open && SlotAfterClose(key.channel, old(sharedChannel), old(sharedKey))
      ensures key.attachment.keepAlive ==>
        key.valid && key.interest == OP_READ && sharedChannel == old(sharedChannel) && sharedKey == key
    {
      var ctx := key.attachment;
      ctx.OnSuccess();
      state := state.(requestCompleted := state.requestCompleted + 1);
      if ctx.keepAlive {
        sharedKey := key;
        key.InterestOps(OP_READ);
      } else {
        CloseChannel(key);
      }
    }

    /** The selector loop's action for one selected key, whose ready
        operation is its interest set: an invalid key is closed; a
        connectable, writable or readable key goes to its handler. After a
        refused connection has closed the channel, the next readiness test
        on the cancelled key throws `CancelledKeyException`, whose handler
        fails the request again (to no effect) and closes the channel again;
        the `IOException` of a failed write is handled by failing the
        request and closing the channel once. The `IllegalArgumentException`
        of a negative response length is not caught and ends the loop. */
    method OnSelected(key: ClientKey, result: ConnectResult) returns (r: Selected)
      requires Valid() && Registered(key) && (key.valid ==> Attached(key))
      modifies this`state, this`sharedChannel, this`sharedKey, key`valid, key`interest
      modifies key.channel`inbox, key.channel`sent, key.channel`window, key.channel`open, key.channel`connected
      modifies ResponseFootprint(key.attachment), key.attachment.request`position
      ensures Valid() && (key.valid ==> Attached(key))
      ensures !old(key.valid) ==>
        r == Handled && state == old(state).(channelsClosed := old(state.channelsClosed) + 1) && !key.channel.open
      ensures old(key.valid) && old(key.interest) == OP_CONNECT ==>
        && r == Handled && state == ConnectCounters(old(state), result)
        && key.attachment.View() == ConnectEvent(old(key.attachment.View()), result)
      ensures old(key.valid) && old(key.interest) == OP_WRITE ==>
        var s := RequestEvent(old(key.attachment.View()), old(key.channel.window), key.channel.broken);
        && r == Handled && state == WriteCounters(old(state), s.outcome)
        && key.attachment.View() == s.conn && key.channel.sent == old(key.channel.sent) + s.written
      ensures old(key.valid) && old(key.interest) == OP_READ ==>
        var s := ResponseEvent(old(key.attachment.View()), old(key.channel.inbox), key.channel.eof);
        && (r == Escaped <==> s.outcome == BadLength)
        && state == ReadCounters(old(state), s.outcome, key.attachment.keepAlive)
        && key.attachment.View() == s.conn && key.channel.inbox == s.rest
    {
      if !key.valid {
        CloseChannel(key);
        return Handled;
      }
      match key.interest
      case OP_CONNECT =>
        OnConnectable(key, result);
        return Handled;
      case OP_WRITE =>
        OnWritable(key);
        return Handled;
      case OP_READ =>
        var outcome := HandleRead(key);
        return if outcome == BadLength then Escaped else Handled;
    }

    /** A selected connectable key: `handleConnect`, then, when it closed
        the channel, the `CancelledKeyException` of `isWritable()`. */
    method OnConnectable(key: ClientKey, result: ConnectResult)
      requires Valid() && Registered(key) && key.valid && Attached(key) && key.interest == OP_CONNECT
      modifies this`state, this`sharedChannel, this`sharedKey, key`valid, key`interest
      modifies key.channel`open, key.channel`connected, key.attachment`status, key.attachment`completion
      ensures Valid() && (key.valid ==> Attached(key))
      ensures state == ConnectCounters(old(state), result)
      ensures key.attachment.View() == ConnectEvent(old(key.attachment.View()), result)
    {
      HandleConnect(key, result);
      if result == Refused {
        FailRequest(key);
      }
    }

    /** A selected writable key: `handleWrite`; when its write throws
        `IOException`, the callback's handler fails the request and closes
        the channel, and `isReadable()` is not reached. */
    method OnWritable(key: ClientKey)
      requires Valid() && Registered(key) && key.valid && Attached(key) && key.interest == OP_WRITE
      modifies this`state, this`sharedChannel, this`sharedKey, key`valid, key`interest
      modifies key.channel`sent, key.channel`window, key.channel`open, key.channel`connected
      modifies key.attachment`status, key.attachment`completion, key.attachment.request`position
      ensures Valid() && (key.valid ==> Attached(key)) && key.channel.broken == old(key.channel.broken)
      ensures var s := RequestEvent(old(key.attachment.View()), old(key.channel.window), key.channel.broken);
        && state == WriteCounters(old(state), s.outcome)
        && key.attachment.View() == s.conn && key.channel.sent == old(key.channel.sent) + s.written
    {
      var outcome := HandleWrite(key);
      if outcome == WriteFailed {
        FailRequest(key);
      }
    }
  }
}
