/** The server's per-connection state, `ServerClientContext`: a five-byte
    header buffer that fills across reads, the type, keep-alive flag and body
    length decoded from it, the body buffer sized by that length, and the
    response buffer that is drained by writes. `Conn` is its value; each
    method of the class is specified by a function on `Conn`, and the
    reactors' event steps are built from those functions. */
module ServerContext {
  import opened JavaBytes
  import opened Wrappers
  import opened Nio
  import opened ServerConstants
  import opened PayloadUtils

  /** `ClientStatus`, the phase of a connection. */
  datatype ClientStatus = READING_HEADER | READING_BODY | WRITING_RESPONSE

  /** The header the decoder reads: one type byte and a four-byte length. */
  const HEADER_SIZE: nat := 5

  /** The fields `flipToReadingBody` takes from a complete header. */
  datatype Header = Header(tlvType: int, keepAlive: bool, requestLength: int)

  /** The server's header decode: the type is byte 0 under `TLV_TYPE_MASK`,
      the flag is bit 7 of byte 0 and the length is bytes 1-4 read as a
      big-endian `int`, which is negative when byte 1 has its top bit set. */
  function DecodeHeader(h: seq<Byte>): (hd: Header)
    requires |h| == HEADER_SIZE
    ensures 0 <= hd.tlvType <= ERROR_TYPE
    ensures IsInt32(hd.requestLength)
    ensures hd.requestLength < 0 <==> h[1] >= 0x80
  {
    Header(SplitTypeByte(h[0]).0, IsKeepAlive(h[0]), GetInt(h[1..5]))
  }

  /** The decoded type and flag are byte 0 under `TLV_TYPE_MASK` and
      `KEEP_ALIVE_BIT`. */
  lemma DecodeHeaderMasks(h: seq<Byte>)
    requires |h| == HEADER_SIZE
    ensures DecodeHeader(h).tlvType == ((h[0] as bv8) & TLV_TYPE_MASK) as int
    ensures DecodeHeader(h).keepAlive == ((h[0] as bv8) & KEEP_ALIVE_BIT != 0)
  {
    SplitIsMasking(h[0]);
    IsKeepAliveTestsFlagBit(h[0]);
  }

  /** The header of every frame the encoder builds decodes to the masked
      type, the requested flag and the body length. */
  lemma DecodeEncodedHeader(msgType: Byte, body: seq<Byte>, keepAlive: bool)
    requires |body| <= INT_MAX
    ensures DecodeHeader(EncodeFrame(msgType, body, keepAlive)[..HEADER_SIZE])
         == Header(SplitTypeByte(msgType).0, keepAlive, |body|)
  {
    var frame := EncodeFrame(msgType, body, keepAlive);
    assert frame[..HEADER_SIZE][1..5] == frame[1..5];
  }

  /** Conversely, every header with a non-negative length is the header the
      encoder builds for its decoded type, flag and a body of that length. */
  lemma EncodeDecodedHeader(h: seq<Byte>, body: seq<Byte>)
    requires |h| == HEADER_SIZE && |body| == DecodeHeader(h).requestLength
    ensures var hd := DecodeHeader(h);
      EncodeFrame(hd.tlvType, body, hd.keepAlive)[..HEADER_SIZE] == h
  {
    var hd := DecodeHeader(h);
    IntBytesOfGetInt(h[1..5]);
    var frame := EncodeFrame(hd.tlvType, body, hd.keepAlive);
    assert frame[..HEADER_SIZE] == [frame[0]] + IntBytes(|body|);
    assert h == [h[0]] + h[1..5];
  }

  /** `ERROR_TYPE_BASE` is the frame the encoder builds for type
      `ERROR_TYPE`, no keep-alive and an empty body: its first byte is
      `ERROR_TYPE` and it decodes to that type, no keep-alive, length 0. */
  lemma ErrorFrameDecodes()
    ensures ERROR_TYPE_BASE == EncodeFrame(ERROR_TYPE, [], false)
    ensures ERROR_TYPE_BASE[0] == ERROR_TYPE
    ensures DecodeHeader(ERROR_TYPE_BASE) == Header(ERROR_TYPE, false, 0)
  {
    assert IntBytes(0) == [0, 0, 0, 0];
    DecodeEncodedHeader(ERROR_TYPE, [], false);
    assert EncodeFrame(ERROR_TYPE, [], false)[..HEADER_SIZE] == ERROR_TYPE_BASE;
  }

  /** The value of a `ServerClientContext`; an absent buffer is `null`. */
  datatype Conn = Conn(
    status: ClientStatus,
    header: Buf,
    tlvType: int,
    requestLength: int,
    body: Option<Buf>,
    response: Option<Buf>,
    responseLength: int,
    keepAlive: bool)

  /** The values the fields are reset to, around a header buffer. */
  function Cleared(header: Buf): Conn {
    Conn(READING_HEADER, header, -1, -1, None, None, 0, false)
  }

  /** A new context: waiting for a header, with an empty header buffer. */
  function NewConn(): (c: Conn)
    ensures c.status == READING_HEADER && c.header.position == 0
    ensures c.header.limit == |c.header.data| == HEADER_SIZE
  {
    Cleared(Allocated(HEADER_SIZE))
  }

  /** The shape every context keeps between events: a header buffer of the
      header size, and in each phase the buffers that phase works on. */
  ghost predicate Inv(c: Conn) {
    && c.header.Valid() && |c.header.data| == HEADER_SIZE
    && match c.status
       case READING_HEADER =>
         c.header.limit == HEADER_SIZE && c.body.None? && c.response.None?
       case READING_BODY =>
         && c.header.position == c.header.limit == HEADER_SIZE
         && DecodeHeader(c.header.data) == Header(c.tlvType, c.keepAlive, c.requestLength)
         && c.body.Some? && c.body.value.Valid()
         && c.body.value.limit == |c.body.value.data| == c.requestLength
         && c.response.None?
       case WRITING_RESPONSE =>
         && c.body.Some?
         && c.response.Some? && c.response.value.Valid()
         && c.response.value.limit == |c.response.value.data| == c.responseLength
  }

  /** `flipToReadingBody` on a full header buffer: flip it, take the type
      byte and the length, and allocate a body buffer of that length. The
      second component is false when the allocation throws
      `IllegalArgumentException` on a negative length, after the header
      fields have been set and before the status changes. */
  function FlipSpec(c: Conn): (r: (Conn, bool))
    requires c.header.Valid() && c.header.position == c.header.limit == |c.header.data| == HEADER_SIZE
  {
    var hd := DecodeHeader(c.header.data);
    var c1 := c.(tlvType := hd.tlvType, keepAlive := hd.keepAlive, requestLength := hd.requestLength);
    if hd.requestLength < 0 then (c1, false)
    else (c1.(body := Some(Allocated(hd.requestLength)), status := READING_BODY), true)
  }

  /** The outcome of `readHeader`: the count it returns, the context after
      it, the bytes left in the socket, and whether it threw. */
  datatype HeaderRead = HeaderRead(read: int, conn: Conn, rest: seq<Byte>, threw: bool)

  /** `readHeader`: read into the header buffer; end of stream gives -1 and
      no read gives 0, both leaving the context as it was; a read that
      fills the header decodes it. */
  function ReadHeaderSpec(c: Conn, inbox: seq<Byte>, eof: bool): (r: HeaderRead)
    requires c.header.Valid() && c.header.limit == |c.header.data| == HEADER_SIZE
  {
    var t := ReadInto(c.header, inbox, eof);
    if t.count <= 0 then HeaderRead(t.count, c, inbox, false)
    else
      var c1 := c.(header := t.buf);
      if t.buf.Remaining() == 0 then
        var f := FlipSpec(c1);
        HeaderRead(t.count, f.0, t.rest, !f.1)
      else HeaderRead(t.count, c1, t.rest, false)
  }

  /** `setResponse(response)`: the response is stored, the status becomes
      `WRITING_RESPONSE` and the response length is what remains of it. */
  function SetResponseSpec(c: Conn, response: Buf): (r: Conn)
    requires response.Valid()
    ensures r.status == WRITING_RESPONSE && r.response == Some(response)
    ensures r.responseLength == response.Remaining()
    ensures r.(status := c.status, response := c.response, responseLength := c.responseLength) == c
  {
    c.(response := Some(response), status := WRITING_RESPONSE, responseLength := response.Remaining())
  }

  /** `resetCtx()`: the header buffer is cleared for the next header and
      every other field is put back as a new context has it. */
  function ResetSpec(c: Conn): (r: Conn)
    requires c.header.Valid()
    ensures r.header == Buf(c.header.data, 0, |c.header.data|)
    ensures r.status == READING_HEADER && r.body.None? && r.response.None?
    ensures |c.header.data| == HEADER_SIZE ==> r == NewConn().(header := r.header)
  {
    Cleared(Buf(c.header.data, 0, |c.header.data|))
  }

  /** Each specification step keeps the shape `Inv` describes. */
  lemma FlipKeepsInv(c: Conn)
    requires Inv(c) && c.status == READING_HEADER && c.header.position == HEADER_SIZE
    ensures Inv(FlipSpec(c).0)
  {
  }

  /** Reading into the header, and decoding it once full, keeps `Inv`. */
  lemma HeaderReadKeepsInv(c: Conn, inbox: seq<Byte>, eof: bool)
    requires Inv(c) && c.status == READING_HEADER
    ensures Inv(ReadHeaderSpec(c, inbox, eof).conn)
  {
    var t := ReadInto(c.header, inbox, eof);
    if t.count > 0 && t.buf.Remaining() == 0 {
      FlipKeepsInv(c.(header := t.buf));
    }
  }

  class ServerClientContext {
    var status: ClientStatus
    const headerBuffer: ByteBuffer
    var tlvType: int
    var requestLength: int
    var bodyBuffer: ByteBuffer?
    var responseBuffer: ByteBuffer?
    var responseLength: int
    var keepAlive: bool

    /** The buffers are valid and share no storage. */
    ghost predicate Valid()
      reads this, headerBuffer, headerBuffer.data, bodyBuffer, responseBuffer
      reads if bodyBuffer == null then {} else {bodyBuffer.data}
      reads if responseBuffer == null then {} else {responseBuffer.data}
    {
      && headerBuffer.Valid()
      && (bodyBuffer != null ==>
            && bodyBuffer.Valid()
            && bodyBuffer != headerBuffer && bodyBuffer.data != headerBuffer.data)
      && (responseBuffer != null ==>
            && responseBuffer.Valid()
            && responseBuffer != headerBuffer && responseBuffer.data != headerBuffer.data
            && responseBuffer != bodyBuffer
            && (bodyBuffer != null ==> responseBuffer.data != bodyBuffer.data))
    }

    ghost function View(): Conn
      reads this, headerBuffer, bodyBuffer, responseBuffer
    {
      Conn(status, headerBuffer.View(), tlvType, requestLength,
        if bodyBuffer == null then None else Some(bodyBuffer.View()),
        if responseBuffer == null then None else Some(responseBuffer.View()),
        responseLength, keepAlive)
    }

    /** `new ServerClientContext(headerSize)`; the decoder reads exactly
        five header bytes, so the header size is five. */
    constructor (headerSize: nat)
      requires headerSize == HEADER_SIZE
      ensures Valid() && fresh(headerBuffer) && fresh(headerBuffer.data) && View() == NewConn()
    {
      headerBuffer := new ByteBuffer.Allocate(headerSize);
      status := READING_HEADER;
      tlvType, requestLength := -1, -1;
      bodyBuffer, responseBuffer := null, null;
      responseLength, keepAlive := 0, false;
    }

    /** `setResponse(response)`; the response buffer is one the context
        does not own yet. */
    method SetResponse(response: ByteBuffer)
      requires Valid() && response.Valid()
      requires response != headerBuffer && response != bodyBuffer
      requires response.data != headerBuffer.data && (bodyBuffer != null ==> response.data != bodyBuffer.data)
      modifies this
      ensures Valid()
      ensures View() == SetResponseSpec(old(View()), response.View())
    {
      responseBuffer := response;
      status := WRITING_RESPONSE;
      responseLength := responseBuffer.limit - responseBuffer.position;
    }

    /** `readHeader(channel, key)`; `threw` stands for the
        `IllegalArgumentException` of a negative length. */
    method ReadHeader(channel: SocketChannel, key: SelectionKey<ServerClientContext>) returns (read: int, threw: bool)
      requires Valid() && headerBuffer.limit == headerBuffer.data.Length == HEADER_SIZE
      requires bodyBuffer == null && responseBuffer == null
      modifies this, headerBuffer, headerBuffer.data, channel`inbox, channel`open, channel`connected, key`valid
      ensures Valid() && responseBuffer == null
      ensures bodyBuffer != null ==> fresh(bodyBuffer) && fresh(bodyBuffer.data)
      ensures var r := ReadHeaderSpec(old(View()), old(channel.inbox), channel.eof);
        read == r.read && threw == r.threw && View() == r.conn && channel.inbox == r.rest
      ensures read < 0 ==> !channel.open && !channel.connected && !key.valid
      ensures read >= 0 ==>
        channel.open == old(channel.open) && channel.connected == old(channel.connected) && key.valid == old(key.valid)
    {
      ghost var c := View();
      ghost var t := ReadInto(c.header, channel.inbox, channel.eof);
      read := channel.Read(headerBuffer);
      threw := false;
      if read < 0 {
        channel.Close();
        key.Cancel();
        return -1, false;
      }
      if read == 0 {
        return 0, false;
      }
      if headerBuffer.limit - headerBuffer.position == 0 {
        var ok := FlipToReadingBody();
        threw := !ok;
      }
    }

    /** `flipToReadingBody()`; `ok` is false when allocating the body
        throws `IllegalArgumentException` on a negative length. */
    method FlipToReadingBody() returns (ok: bool)
      requires Valid() && bodyBuffer == null && responseBuffer == null
      requires headerBuffer.position == headerBuffer.limit == headerBuffer.data.Length == HEADER_SIZE
      modifies this, headerBuffer
      ensures Valid() && responseBuffer == null
      ensures bodyBuffer != null ==> fresh(bodyBuffer) && fresh(bodyBuffer.data)
      ensures (View(), ok) == FlipSpec(old(View()))
    {
      ghost var c := View();
      ghost var hd := DecodeHeader(c.header.data);
      headerBuffer.Flip();
      var typeByte := headerBuffer.Get();
      SplitIsMasking(typeByte);
      tlvType := ((typeByte as bv8) & TLV_TYPE_MASK) as int;
      keepAlive := IsKeepAlive(typeByte);
      requestLength := headerBuffer.GetInt();
      assert headerBuffer.View() == c.header;
      assert tlvType == hd.tlvType && keepAlive == hd.keepAlive;
      assert requestLength == hd.requestLength;
      ghost var c1 := c.(tlvType := hd.tlvType, keepAlive := hd.keepAlive, requestLength := hd.requestLength);
      if requestLength < 0 {
        assert View() == c1;
        return false;
      }
      bodyBuffer := new ByteBuffer.Allocate(requestLength);
      status := READING_BODY;
      ok := true;
      assert View() == c1.(body := Some(Allocated(hd.requestLength)), status := READING_BODY);
    }

    /** `resetCtx()`; the body and response buffers are dropped. */
    method ResetCtx()
      requires Valid()
      modifies this, headerBuffer
      ensures Valid()
      ensures View() == ResetSpec(old(View()))
    {
      headerBuffer.Clear();
      tlvType := -1;
      requestLength := -1;
      bodyBuffer := null;
      responseBuffer := null;
      responseLength := 0;
      status := READING_HEADER;
      keepAlive := false;
    }
  }
}
