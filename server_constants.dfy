/** The protocol constants of the server: the reserved error type, the error
    frame every configured error handler answers with, and the two masks that
    split byte 0 of a frame into the keep-alive flag and the message type. */
module ServerConstants {
  import opened JavaBytes
  import opened ByteBits

  /** `Byte.MAX_VALUE`: the message type of the error frame. */
  const ERROR_TYPE: int := 127

  /** The error response: type `ERROR_TYPE`, keep-alive clear, length 0. */
  const ERROR_TYPE_BASE: seq<Byte> := [127, 0, 0, 0, 0]

  /** Bit 7 of byte 0: keep the connection after the response. */
  const KEEP_ALIVE_BIT: bv8 := 0x80

  /** Bits 0-6 of byte 0: the message type. */
  const TLV_TYPE_MASK: bv8 := 0x7f

  /** Byte 0 of a frame split into the message type (its low seven bits)
      and the keep-alive flag (bit 7); no type exceeds `ERROR_TYPE`.
      `SplitIsMasking` shows that these are the two masks applied. */
  function SplitTypeByte(b: Byte): (parts: (Byte, bool))
    ensures 0 <= parts.0 <= ERROR_TYPE
  {
    (b % 0x80, b >= 0x80)
  }

  /** The split is `b & TLV_TYPE_MASK` and `b & KEEP_ALIVE_BIT` on the
      byte's unsigned value; the masks are disjoint and cover the byte, so the
      type never has the flag bit and the two parts put back together give
      the byte. */
  lemma SplitIsMasking(b: Byte)
    ensures var parts := SplitTypeByte(b);
      && parts.0 == ((b as bv8) & TLV_TYPE_MASK) as int
      && parts.1 == ((b as bv8) & KEEP_ALIVE_BIT != 0)
      && (parts.0 as bv8) & KEEP_ALIVE_BIT == 0
      && b == parts.0 + (if parts.1 then 0x80 else 0)
  {
    TypeMaskIsLowBits(b);
    FlagBitIsHighHalf(b);
    FlagBitClearBelowHalf(b % 0x80);
  }

  /** `b & TLV_TYPE_MASK` on the unsigned value of a byte keeps its remainder
      modulo 128. */
  lemma TypeMaskIsLowBits(b: Byte)
    ensures ((b as bv8) & TLV_TYPE_MASK) as int == b % 0x80
  {
    var x := b as bv8;
    ByteRoundTrip(b);
    HalvesAgree(x);
    if b < 0x80 {
      TypeMaskKeepsLowHalf(x);
    } else {
      TypeMaskClearsHighBit(x);
    }
  }

  /** The type mask leaves a value below 128 as it is. */
  lemma TypeMaskKeepsLowHalf(x: bv8)
    requires x < 0x80
    ensures (x & TLV_TYPE_MASK) as int == x as int
  {
  }

  /** The type mask takes 128 off a value of the upper half. */
  lemma TypeMaskClearsHighBit(x: bv8)
    requires x >= 0x80
    ensures (x & TLV_TYPE_MASK) as int == x as int - 0x80
  {
  }

  /** Comparing with 128 gives the same answer on the bits as on the value. */
  lemma HalvesAgree(x: bv8)
    ensures (x >= 0x80) == (x as int >= 0x80)
  {
  }

  /** `b & KEEP_ALIVE_BIT` is set exactly on the upper half of the bytes. */
  lemma FlagBitIsHighHalf(b: Byte)
    ensures ((b as bv8) & KEEP_ALIVE_BIT != 0) == (b >= 0x80)
  {
    ByteRoundTrip(b);
    HalvesAgree(b as bv8);
    FlagBitOnBits(b as bv8);
  }

  /** On the bits, the flag bit is the test against 128. */
  lemma FlagBitOnBits(x: bv8)
    ensures (x & KEEP_ALIVE_BIT != 0) == (x >= 0x80)
  {
  }

  /** A value below 128 never has the flag bit. */
  lemma FlagBitClearBelowHalf(t: Byte)
    requires t < 0x80
    ensures (t as bv8) & KEEP_ALIVE_BIT == 0
  {
    ByteRoundTrip(t);
    HalvesAgree(t as bv8);
    FlagBitOnBits(t as bv8);
  }

  /** `t | KEEP_ALIVE_BIT` on a value below 128 adds 128. */
  lemma SetFlagBitAdds(t: Byte)
    requires t < 0x80
    ensures ((t as bv8) | KEEP_ALIVE_BIT) as int == t + 0x80
  {
    ByteRoundTrip(t);
    HalvesAgree(t as bv8);
    SetFlagBitOnBits(t as bv8);
  }

  /** On the bits, setting the flag of a value below 128 adds 128. */
  lemma SetFlagBitOnBits(x: bv8)
    requires x < 0x80
    ensures (x | KEEP_ALIVE_BIT) as int == x as int + 0x80
  {
  }

  /** The masks share no bit and together cover all eight. */
  lemma MasksPartitionTheByte()
    ensures KEEP_ALIVE_BIT & TLV_TYPE_MASK == 0
    ensures KEEP_ALIVE_BIT | TLV_TYPE_MASK == 0xff
    ensures ERROR_TYPE == TLV_TYPE_MASK as int
  {
  }
}
