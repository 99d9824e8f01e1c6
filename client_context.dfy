/** The client's per-request state, `NioClientContext`: the request frame to
    write, a five-byte header buffer for the response, the raw type byte and
    the length decoded from it, the body buffer sized by that length, and the
    future the caller waits on. `ClientConn` is its value, and each method of
    the class is specified by a function on `ClientConn`. */
module ClientContext {
  import opened JavaBytes
  import opened Wrappers
  import opened Nio
  import opened ServerConstants
  import opened PayloadUtils
  import ServerContext

  /** The response header: one type byte and a four-byte length. */
  const HEADER_SIZE: nat := ServerContext.HEADER_SIZE

  /** `NioClientContext.Status`, the phase of a request. */
  datatype Status = CONNECTING | WRITING | READING_HEADER | READING_BODY

  /** The `CompletableFuture<Long>` of a request: not yet completed, or
      completed normally or exceptionally. The elapsed time it completes
      with is not modelled. */
  datatype Completion = Pending | Succeeded | Failed

  /** `complete` / `completeExceptionally`: a pending future takes the
      outcome, a completed one keeps its own. */
  function Settle(f: Completion, outcome: Completion): (r: Completion)
    requires outcome != Pending
    ensures r != Pending
    ensures r == f || f == Pending
  {
    if f == Pending then outcome else f
  }

  /** The first settlement wins: once completed, a future ignores every
      later `onSuccess` or `onError`. */
  lemma SettleOnce(f: Completion, first: Completion, later: Completion)
    requires first != Pending && later != Pending
    ensures Settle(Settle(f, first), later) == Settle(f, first)
    ensures f == Pending ==> Settle(Settle(f, first), later) == first
  {
  }

  /** The fields `flipToReadingBody` takes from a response header. */
  datatype ResponseHeader = ResponseHeader(tlvType: int, responseLength: int)

  /** The client's header decode: the type is byte 0 as a signed Java `byte`,
      not masked, and the length is bytes 1-4 as a big-endian `int`. */
  function DecodeResponseHeader(h: seq<Byte>): (hd: ResponseHeader)
    requires |h| == HEADER_SIZE
    ensures -128 <= hd.tlvType <= 127 && IsInt32(hd.responseLength)
    ensures hd.tlvType < 0 <==> h[0] >= 0x80
  {
    ResponseHeader(Signed(h[0]), GetInt(h[1..5]))
  }

  /** On the same five bytes the two decoders agree on the length, and the
      client's type is the server's type with the keep-alive flag left in
      as the sign. */
  lemma ClientAndServerDecoders(h: seq<Byte>)
    requires |h| == HEADER_SIZE
    ensures var c, s := DecodeResponseHeader(h), ServerContext.DecodeHeader(h);
      && c.responseLength == s.requestLength
      && c.tlvType % 0x80 == s.tlvType
      && (c.tlvType < 0 <==> s.keepAlive)
  {
  }

  /** The header of every frame the encoder builds decodes, on the client,
      to the length of the body and a type whose sign is the keep-alive
      flag and whose low seven bits are the requested type's. */
  lemma ClientDecodesEncodedHeader(msgType: Byte, body: seq<Byte>, keepAlive: bool)
    requires |body| <= INT_MAX
    ensures var hd := DecodeResponseHeader(EncodeFrame(msgType, body, keepAlive)[..HEADER_SIZE]);
      && hd.responseLength == |body|
      && (hd.tlvType < 0 <==> keepAlive)
      && hd.tlvType % 0x80 == SplitTypeByte(msgType).0
  {
    var h := EncodeFrame(msgType, body, keepAlive)[..HEADER_SIZE];
    ClientAndServerDecoders(h);
    ServerContext.DecodeEncodedHeader(msgType, body, keepAlive);
  }

  /** The value of a `NioClientContext`; an absent body buffer is `null`.
      The request length, keep-alive flag and id never change and are read
      from the object. */
  datatype ClientConn = ClientConn(
    status: Status,
    request: Buf,
    header: Buf,
    body: Option<Buf>,
    tlvType: int,
    responseLength: int,
    completion: Completion)

  /** The shape every context keeps between events: a valid request, a
      header buffer of five bytes, and a body buffer sized by the decoded
      length exactly while the body is read. */
  ghost predicate ClientInv(c: ClientConn) {
    && c.request.Valid()
    && c.header.Valid() && c.header.limit == |c.header.data| == HEADER_SIZE
    && (c.status == READING_BODY <==> c.body.Some?)
    && (c.status == READING_BODY ==>
          && c.header.position == HEADER_SIZE
          && DecodeResponseHeader(c.header.data) == ResponseHeader(c.tlvType, c.responseLength)
          && c.body.value.Valid() && c.body.value.limit == |c.body.value.data| == c.responseLength)
  }

  /** `flipToReadingBody` on a full header buffer: take the raw type byte and
      the length, and allocate a body buffer of that length; the second
      component is false when the allocation throws
      `IllegalArgumentException` on a negative length, after the type and
      length are set and before the status changes. */
  function ClientFlipSpec(c: ClientConn): (r: (ClientConn, bool))
    requires c.header.Valid() && c.header.position == c.header.limit == |c.header.data| == HEADER_SIZE
  {
    var hd := DecodeResponseHeader(c.header.data);
    var c1 := c.(tlvType := hd.tlvType, responseLength := hd.responseLength);
    if hd.responseLength < 0 then (c1, false)
    else (c1.(body := Some(Allocated(hd.responseLength)), status := READING_BODY), true)
  }

  /** The outcome of `readHeader`: the count it returns, the context after
      it, the bytes left in the socket, and whether it threw. */
  datatype ResponseHeaderRead = ResponseHeaderRead(read: int, conn: ClientConn, rest: seq<Byte>, threw: bool)

  /** `readHeader`: read into the header buffer; -1 and 0 leave the context
      as it was; a read that fills the header decodes it. */
  function ClientReadHeaderSpec(c: ClientConn, inbox: seq<Byte>, eof: bool): (r: ResponseHeaderRead)
    requires c.header.Valid() && c.header.limit == |c.header.data| == HEADER_SIZE
  {
    var t := ReadInto(c.header, inbox, eof);
    if t.count <= 0 then ResponseHeaderRead(t.count, c, inbox, false)
    else
      var c1 := c.(header := t.buf);
      if t.buf.Remaining() == 0 then
        var f := ClientFlipSpec(c1);
        ResponseHeaderRead(t.count, f.0, t.rest, !f.1)
      else ResponseHeaderRead(t.count, c1, t.rest, false)
  }

  /** Reading into the header keeps `ClientInv`, and the status moves from
      `READING_HEADER` to `READING_BODY` exactly when the header is complete
      and its length is not negative. */
  lemma ClientHeaderReadKeepsInv(c: ClientConn, inbox: seq<Byte>, eof: bool)
    requires ClientInv(c) && c.status == READING_HEADER
    ensures var r := ClientReadHeaderSpec(c, inbox, eof);
      && ClientInv(r.conn)
      && (r.conn.status == READING_BODY <==> r.read > 0 && !r.threw && r.conn.header.position == HEADER_SIZE)
      && (r.conn.status != READING_BODY ==> r.conn.status == READING_HEADER)
      && r.conn.completion == c.completion && r.conn.request == c.request
  {
  }

  class NioClientContext {
    var status: Status
    /** The state of the `response` future. */
    var completion: Completion
    const request: ByteBuffer
    const headerBuffer: ByteBuffer
    var bodyBuffer: ByteBuffer?
    var requestLength: int
    const keepAlive: bool
    const id: int
    var tlvType: int
    var responseLength: int

    /** The buffers are valid and share no storage. */
    ghost predicate Valid()
      reads this, request, request.data, headerBuffer, headerBuffer.data, bodyBuffer
      reads if bodyBuffer == null then {} else {bodyBuffer.data}
    {
      && request.Valid() && headerBuffer.Valid()
      && request != headerBuffer && request.data != headerBuffer.data
      && (bodyBuffer != null ==>
            && bodyBuffer.Valid()
            && bodyBuffer != headerBuffer && bodyBuffer.data != headerBuffer.data
            && bodyBuffer != request && bodyBuffer.data != request.data)
    }

    ghost function View(): ClientConn
      reads this, request, headerBuffer, bodyBuffer
    {
      ClientConn(status, request.View(), headerBuffer.View(),
        if bodyBuffer == null then None else Some(bodyBuffer.View()),
        tlvType, responseLength, completion)
    }

    /** `new NioClientContext(request, response, keepAlive, id)`: connecting,
        a pending future, an empty five-byte header buffer, and the request
        length what remains of the request. The start time is not modelled. */
    constructor (request: ByteBuffer, keepAlive: bool, id: int)
      requires request.Valid()
      ensures Valid() && fresh(headerBuffer) && fresh(headerBuffer.data)
      ensures this.request == request && this.keepAlive == keepAlive && this.id == id
      ensures requestLength == request.Remaining()
      ensures View() == ClientConn(CONNECTING, request.View(), Allocated(HEADER_SIZE), None, 0, 0, Pending)
    {
      this.request := request;
      requestLength := request.limit - request.position;
      this.keepAlive := keepAlive;
      this.id := id;
      headerBuffer := new ByteBuffer.Allocate(HEADER_SIZE);
      completion := Pending;
      status := CONNECTING;
      bodyBuffer := null;
      tlvType, responseLength := 0, 0;
    }

    /** `onSuccess()`: complete the future normally. */
    method OnSuccess()
      modifies this`completion
      ensures completion == Settle(old(completion), Succeeded)
    {
      if completion == Pending {
        completion := Succeeded;
      }
    }

    /** `onError(reason)`: complete the future exceptionally; the reason
        text is not modelled. */
    method OnError()
      modifies this`completion
      ensures completion == Settle(old(completion), Failed)
    {
      if completion == Pending {
        completion := Failed;
      }
    }

    /** `readHeader(channel, key)`; `threw` stands for the
        `IllegalArgumentException` of a negative length. End of stream
        closes the channel and cancels the key. */
    method ReadHeader(channel: SocketChannel, key: SelectionKey<NioClientContext>) returns (read: int, threw: bool)
      requires Valid() && headerBuffer.limit == headerBuffer.data.Length == HEADER_SIZE && bodyBuffer == null
      modifies this, headerBuffer, headerBuffer.data, channel`inbox, channel`open, channel`connected, key`valid
      ensures Valid() && channel.eof == old(channel.eof)
      ensures bodyBuffer != null ==> fresh(bodyBuffer) && fresh(bodyBuffer.data)
      ensures var r := ClientReadHeaderSpec(old(View()), old(channel.inbox), channel.eof);
        read == r.read && threw == r.threw && View() == r.conn && channel.inbox == r.rest
      ensures read < 0 ==> !channel.open && !channel.connected && !key.valid
      ensures read >= 0 ==>
        channel.open == old(channel.open) && channel.connected == old(channel.connected) && key.valid == old(key.valid)
    {
      read := channel.Read(headerBuffer);
      threw := false;
      if read == -1 {
        channel.Close();
        key.Cancel();
        return -1, false;
      }
      if read == 0 {
        return 0, false;
      }
      if headerBuffer.limit - headerBuffer.position == 0 {
        var ok := FlipToReadingBody();
        threw := !ok;
      }
    }

    /** `flipToReadingBody()`; `ok` is false when allocating the body
        throws `IllegalArgumentException` on a negative length. */
    method FlipToReadingBody() returns (ok: bool)
      requires Valid() && bodyBuffer == null
      requires headerBuffer.position == headerBuffer.limit == headerBuffer.data.Length == HEADER_SIZE
      modifies this, headerBuffer
      ensures Valid()
      ensures bodyBuffer != null ==> fresh(bodyBuffer) && fresh(bodyBuffer.data)
      ensures (View(), ok) == ClientFlipSpec(old(View()))
    {
      ghost var c := View();
      ghost var hd := DecodeResponseHeader(c.header.data);
      headerBuffer.Flip();
      var typeByte := headerBuffer.Get();
      tlvType := Signed(typeByte);
      responseLength := headerBuffer.GetInt();
      assert headerBuffer.View() == c.header;
      assert tlvType == hd.tlvType && responseLength == hd.responseLength;
      ghost var c1 := c.(tlvType := hd.tlvType, responseLength := hd.responseLength);
      if responseLength < 0 {
        assert View() == c1;
        return false;
      }
      bodyBuffer := new ByteBuffer.Allocate(responseLength);
      status := READING_BODY;
      ok := true;
      assert View() == c1.(body := Some(Allocated(hd.responseLength)), status := READING_BODY);
    }
  }
}
