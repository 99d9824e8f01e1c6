/** Java's primitive integer conventions used by the wire format. A byte is
    held as its eight bits read unsigned (0..255); `Signed` gives the value a
    Java `byte` denotes, `Low8` is the narrowing cast `(byte) x`, and
    `GetInt`/`IntBytes` are `ByteBuffer.getInt`/`putInt`: a 32-bit
    two's-complement `int`, big-endian. */
module JavaBytes {

  type Byte = b: int | 0 <= b < 256

  const INT_MIN: int := -0x8000_0000
  const INT_MAX: int := 0x7FFF_FFFF

  /** The values a Java `int` can hold. */
  predicate IsInt32(x: int) {
    INT_MIN <= x <= INT_MAX
  }

  /** The value of a Java `byte` (two's complement). */
  function Signed(b: Byte): (v: int)
    ensures -128 <= v <= 127
    ensures v < 0 <==> b >= 0x80
    ensures v % 256 == b
  {
    if b < 0x80 then b else b - 256
  }

  /** The narrowing cast `(byte) x`: the low eight bits of `x`. */
  function Low8(x: int): (b: Byte)
    ensures (x - b) % 256 == 0
  {
    x % 256
  }

  /** Narrowing a byte's signed value gives the byte back, and widening a value
      that fits in a byte gives the value back. */
  lemma SignedLow8(b: Byte, x: int)
    ensures Low8(Signed(b)) == b
    ensures -128 <= x <= 127 ==> Signed(Low8(x)) == x
  {
  }

  /** An all-zero buffer, as `ByteBuffer.allocate` hands it out. */
  function Zeros(n: nat): (z: seq<Byte>)
    ensures |z| == n
    ensures forall i :: 0 <= i < n ==> z[i] == 0
  {
    seq(n, _ => 0)
  }

  /** The four bytes `ByteBuffer.putInt(v)` writes, which are also the bytes
      `(byte) (v >> 24)`, `(byte) (v >> 16)`, `(byte) (v >> 8)`, `(byte) v`
      (Dafny's `/` by a positive constant rounds down, as `>>` does). */
  function IntBytes(v: int): (b: seq<Byte>)
    ensures |b| == 4
  {
    [Low8(v / 0x100_0000), Low8(v / 0x1_0000), Low8(v / 0x100), Low8(v)]
  }

  /** The unsigned value of four big-endian bytes. */
  function Unsigned32(b: seq<Byte>): (u: nat)
    requires |b| == 4
    ensures u < 0x1_0000_0000
  {
    b[0] as int * 0x100_0000 + b[1] as int * 0x1_0000 + b[2] as int * 0x100 + b[3] as int
  }

  /** `ByteBuffer.getInt` on four bytes: big-endian two's complement. */
  function GetInt(b: seq<Byte>): (v: int)
    requires |b| == 4
    ensures IsInt32(v)
    ensures v < 0 <==> b[0] >= 0x80
    ensures (v - Unsigned32(b)) % 0x1_0000_0000 == 0
  {
    var u := Unsigned32(b);
    if u > INT_MAX then u - 0x1_0000_0000 else u
  }

  /** `getInt` reads back exactly the `int` that `putInt` wrote. */
  lemma {:induction false} GetIntOfIntBytes(v: int)
    requires IsInt32(v)
    ensures GetInt(IntBytes(v)) == v
  {
    // the digits, base 256, of the unsigned image `w` of `v`
    var d := if v < 0 then 0x100 else 0;
    var w := v + d * 0x100_0000;
    var c0, r0 := w / 0x100_0000, w % 0x100_0000;
    var c1, r1 := r0 / 0x1_0000, r0 % 0x1_0000;
    var c2, c3 := r1 / 0x100, r1 % 0x100;
    assert 0 <= c0 < 0x100 && 0 <= c1 < 0x100 && 0 <= c2 < 0x100;
    assert v == (c0 - d) * 0x100_0000 + c1 * 0x1_0000 + c2 * 0x100 + c3;
    assert v / 0x100_0000 == c0 - d;
    assert v / 0x1_0000 == (c0 - d) * 0x100 + c1;
    assert v / 0x100 == (c0 - d) * 0x1_0000 + c1 * 0x100 + c2;
    assert IntBytes(v) == [c0, c1, c2, c3];
  }

  /** Every four bytes are the `putInt` image of the `int` `getInt` reads. */
  lemma {:induction false} IntBytesOfGetInt(b: seq<Byte>)
    requires |b| == 4
    ensures IntBytes(GetInt(b)) == b
  {
    var v := GetInt(b);
    var w := b[0] as int * 0x100_0000 + b[1] as int * 0x1_0000 + b[2] as int * 0x100 + b[3] as int;
    // `v` is `w`, or `w - 2^32`; either way each shift below differs from the
    // unsigned one by a multiple of 256
    var d := if w > INT_MAX then 0x100 else 0;
    assert v == w - d * 0x100_0000;
    assert v / 0x100_0000 == b[0] as int - d;
    assert v / 0x1_0000 == (b[0] as int - d) * 0x100 + b[1] as int;
    assert v / 0x100 == (b[0] as int - d) * 0x1_0000 + b[1] as int * 0x100 + b[2] as int;
  }
}
