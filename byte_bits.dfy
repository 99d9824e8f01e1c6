/** The unsigned value of a byte and its eight bits. */
module ByteBits {
  /** A value of a byte survives the trip through `bv8`. */
  lemma ByteRoundTrip(t: int)
    requires 0 <= t < 0x100
    ensures (t as bv8) as int == t
  {
  }
}
