/** The frame encoder of `PayloadUtils`: byte 0 carries the message type in
    bits 0-6 and the keep-alive flag in bit 7, bytes 1-4 the body length as a
    big-endian `int`, and the body follows. A `String` body enters as the
    bytes of its UTF-8 encoding. */
module PayloadUtils {
  import opened JavaBytes
  import opened Wrappers
  import opened Nio
  import opened ServerConstants

  /** The exceptions `payload` can throw. */
  datatype Thrown = IllegalArgument | BufferOverflow

  /** `isKeepAlive(typeByte)`: bit 7 of byte 0. */
  function IsKeepAlive(typeByte: Byte): bool {
    typeByte >= 0x80
  }

  /** `isKeepAlive` tests bit 7, `typeByte & KEEP_ALIVE_BIT`, and agrees
      with the flag the header decoder splits off. */
  lemma IsKeepAliveTestsFlagBit(typeByte: Byte)
    ensures IsKeepAlive(typeByte) == ((typeByte as bv8) & KEEP_ALIVE_BIT != 0)
    ensures IsKeepAlive(typeByte) == SplitTypeByte(typeByte).1
  {
    FlagBitIsHighHalf(typeByte);
  }

  /** Byte 0 of a frame: the low seven bits of the type and, when
      `keepAlive`, bit 7. */
  function TypeByte(msgType: Byte, keepAlive: bool): (b: Byte)
    ensures SplitTypeByte(b) == (SplitTypeByte(msgType).0, keepAlive)
    ensures IsKeepAlive(b) == keepAlive
  {
    if keepAlive then msgType % 0x80 + 0x80 else msgType % 0x80
  }

  /** The frame the wire format defines for a body of any length an `int`
      can count: type byte, four-byte big-endian length, body. */
  function EncodeFrame(msgType: Byte, body: seq<Byte>, keepAlive: bool): (frame: seq<Byte>)
    requires |body| <= INT_MAX
    ensures |frame| == 5 + |body|
    ensures frame[0] == TypeByte(msgType, keepAlive)
    ensures GetInt(frame[1..5]) == |body|
    ensures frame[5..] == body
  {
    GetIntOfIntBytes(|body|);
    [TypeByte(msgType, keepAlive)] + IntBytes(|body|) + body
  }

  /** What `payload(type, body, keepAlive)` produces as written: the body
      length is narrowed to a `byte` before it sizes the buffer and fills the
      length field, so a length of 128 or more either sizes the buffer
      negatively (`IllegalArgumentException`) or too small
      (`BufferOverflowException`); below 128 the frame is the one the wire
      format defines. */
  function PayloadBytes(msgType: Byte, body: seq<Byte>, keepAlive: bool): (r: Result<seq<Byte>, Thrown>)
    ensures r.Success? <==> |body| <= 127
    ensures r.Success? ==> r.value == EncodeFrame(msgType, body, keepAlive)
    ensures r.Failure? ==>
      r.error == (if 0x80 <= |body| % 256 <= 0xFA then IllegalArgument else BufferOverflow)
  {
    var payloadLength := Signed(Low8(|body|));
    if 5 + payloadLength < 0 then Failure(IllegalArgument)
    else if |body| > payloadLength then Failure(BufferOverflow)
    else Success([TypeByte(msgType, keepAlive)] + IntBytes(payloadLength) + body)
  }

  /** Byte 0 as `payload` computes it: the type masked by `0x7F`, then the
      flag bit or-ed in when `keepAlive`. */
  method TypeByteOf(msgType: Byte, keepAlive: bool) returns (typeByte: Byte)
    ensures typeByte == TypeByte(msgType, keepAlive)
  {
    TypeMaskIsLowBits(msgType);
    typeByte := ((msgType as bv8) & TLV_TYPE_MASK) as int;
    if keepAlive {
      SetFlagBitAdds(typeByte);
      typeByte := ((typeByte as bv8) | KEEP_ALIVE_BIT) as int;
    }
  }

  /** `payload(type, body, keepAlive)`: allocate, put the type byte, the four
      length bytes and the body, flip. */
  method Payload(msgType: Byte, body: seq<Byte>, keepAlive: bool) returns (r: Result<ByteBuffer, Thrown>)
    ensures r.Failure? ==> PayloadBytes(msgType, body, keepAlive) == Failure(r.error)
    ensures r.Success? ==>
      && PayloadBytes(msgType, body, keepAlive).Success?
      && fresh(r.value) && fresh(r.value.data) && r.value.Valid()
      && r.value.View() == Buf(PayloadBytes(msgType, body, keepAlive).value, 0, 5 + |body|)
  {
    var payloadLength := Signed(Low8(|body|));
    var typeByte := TypeByteOf(msgType, keepAlive);
    if 5 + payloadLength < 0 {
      return Failure(IllegalArgument);
    }
    var buffer := new ByteBuffer.Allocate(5 + payloadLength);
    // the five single-byte puts of the header, which fail together
    var header := [typeByte] + IntBytes(payloadLength);
    var ok := buffer.PutBytes(header);
    if !ok {
      return Failure(BufferOverflow);
    }
    ok := buffer.PutBytes(body);
    if !ok {
      return Failure(BufferOverflow);
    }
    assert buffer.data[..] == header + body;
    buffer.Flip();
    r := Success(buffer);
  }

  /** `payload(type, body)`: the same frame with keep-alive clear. */
  method PayloadNoKeepAlive(msgType: Byte, body: seq<Byte>) returns (r: Result<ByteBuffer, Thrown>)
    ensures r.Failure? ==> PayloadBytes(msgType, body, false) == Failure(r.error)
    ensures r.Success? ==>
      && PayloadBytes(msgType, body, false).Success?
      && fresh(r.value) && fresh(r.value.data) && r.value.Valid()
      && r.value.View() == Buf(PayloadBytes(msgType, body, false).value, 0, 5 + |body|)
  {
    r := Payload(msgType, body, false);
  }

  /** Every frame `payload` encodes reports its own keep-alive flag, and its
      type bits are those of the requested type. */
  lemma {:induction false} PayloadFlagAndType(msgType: Byte, body: seq<Byte>, keepAlive: bool)
    requires PayloadBytes(msgType, body, keepAlive).Success?
    ensures var frame := PayloadBytes(msgType, body, keepAlive).value;
      IsKeepAlive(frame[0]) == keepAlive && SplitTypeByte(frame[0]).0 == SplitTypeByte(msgType).0
  {
  }

  /** A body of 128 bytes is the shortest that `payload` rejects, although
      its length fits the four-byte length field the wire format defines. */
  lemma {:induction false} PayloadRejects128ByteBody()
    ensures PayloadBytes(0, Zeros(127), false).Success?
    ensures PayloadBytes(0, Zeros(128), false) == Failure(IllegalArgument)
    ensures GetInt(EncodeFrame(0, Zeros(128), false)[1..5]) == 128
  {
  }
}
