/** Java `int` arithmetic where it differs from the unbounded integers:
    results wrap around modulo 2^32, and `%` truncates toward zero, so its
    result takes the sign of the dividend. */
module JavaInts {
  import opened JavaBytes

  /** The `int` an addition or increment leaves: `x` reduced modulo 2^32
      into the range of an `int`. */
  function WrapInt(x: int): (v: int)
    ensures IsInt32(v)
    ensures (v - x) % 0x1_0000_0000 == 0
    ensures IsInt32(x) ==> v == x
  {
    (x - INT_MIN) % 0x1_0000_0000 + INT_MIN
  }

  /** Wrapping after each of two steps is wrapping once at the end. */
  lemma WrapIncrement(x: int)
    ensures WrapInt(WrapInt(x) + 1) == WrapInt(x + 1)
  {
    var k := (x - INT_MIN) / 0x1_0000_0000;
    assert WrapInt(x) == x - k * 0x1_0000_0000;
    assert WrapInt(x) + 1 - INT_MIN == (x + 1 - INT_MIN) - k * 0x1_0000_0000;
  }

  /** `(int)` of a value below 2^32 that is not negative: itself up to
      `Integer.MAX_VALUE`, 2^32 less from there on. */
  lemma WrapUnsigned(x: int)
    requires 0 <= x < 0x1_0000_0000
    ensures x <= INT_MAX ==> WrapInt(x) == x
    ensures x > INT_MAX ==> WrapInt(x) == x - 0x1_0000_0000
  {
    if x > INT_MAX {
      assert x - INT_MIN == (x - 0x8000_0000) + 1 * 0x1_0000_0000;
    }
  }

  /** Java's `a % n` for a positive divisor: the remainder of division
      truncated toward zero, which is Dafny's `%` on a dividend that is not
      negative and is never positive on one that is. */
  function JavaRem(a: int, n: int): (r: int)
    requires n > 0
    ensures a >= 0 ==> r == a % n
    ensures a < 0 ==> -n < r <= 0
  {
    if a >= 0 then a % n else -((-a) % n)
  }

  /** `Math.floorMod(a, n)` for a positive divisor, which is Dafny's `%`. */
  function FloorMod(a: int, n: int): (r: int)
    requires n > 0
    ensures 0 <= r < n
    ensures a >= 0 ==> r == JavaRem(a, n)
  {
    a % n
  }
}
