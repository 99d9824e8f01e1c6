/** Decimal text of Java integers: `String.valueOf` of an `int` or a
    `long`, and `Integer.parseUnsignedInt` on ASCII digits. */
module Decimal {
  import opened Wrappers
  import opened JavaBytes
  import opened JavaInts

  const UINT_LIMIT: int := 0x1_0000_0000

  predicate IsDigit(c: char) {
    '0' <= c <= '9'
  }

  function DigitValue(c: char): (d: nat)
    requires IsDigit(c)
    ensures d < 10
  {
    (c as int) - ('0' as int)
  }

  function DigitChar(d: nat): (c: char)
    requires d < 10
    ensures IsDigit(c) && DigitValue(c) == d
  {
    (('0' as int) + d) as char
  }

  predicate AllDigits(s: string) {
    forall i | 0 <= i < |s| :: IsDigit(s[i])
  }

  /** The number a string of decimal digits denotes, most significant
      digit first; leading zeros do not count. */
  function DigitsValue(s: string): nat
    requires AllDigits(s)
  {
    if s == [] then 0 else DigitsValue(s[..|s| - 1]) * 10 + DigitValue(s[|s| - 1])
  }

  /** The digits `String.valueOf` prints for `n`: "0" for zero and no
      leading zero otherwise; they denote `n`. */
  function Digits(n: nat): (s: string)
    ensures s != [] && AllDigits(s)
    ensures DigitsValue(s) == n
    ensures s[0] == '0' ==> s == "0"
  {
    if n < 10 then [DigitChar(n)]
    else
      var init := Digits(n / 10);
      var s := init + [DigitChar(n % 10)];
      assert s[..|s| - 1] == init;
      s
  }

  /** `String.valueOf(x)` for an `int` or a `long`. */
  function DecimalString(x: int): string {
    if x < 0 then "-" + Digits(-x) else Digits(x)
  }

  /** Reads back what `DecimalString` writes: an optional minus sign and
      one or more digits. */
  function ParseDecimal(s: string): Option<int> {
    if s != [] && s[0] == '-' then
      (if |s| > 1 && AllDigits(s[1..]) then Some(-(DigitsValue(s[1..]) as int)) else None)
    else if s != [] && AllDigits(s) then Some(DigitsValue(s))
    else None
  }

  /** Decimal text is a minus sign and digits, nothing else. */
  lemma DecimalStringChars(x: int)
    ensures forall i | 0 <= i < |DecimalString(x)| ::
      DecimalString(x)[i] == '-' || IsDigit(DecimalString(x)[i])
  {
    if x < 0 {
      var d := Digits(-x);
      assert forall i | 1 <= i < |DecimalString(x)| :: DecimalString(x)[i] == d[i - 1];
    }
  }

  /** Every number's decimal text reads back as that number. */
  lemma DecimalRoundTrip(x: int)
    ensures ParseDecimal(DecimalString(x)) == Some(x)
  {
    if x < 0 {
      var s := DecimalString(x);
      assert s[1..] == Digits(-x);
    }
  }

  /** `Integer.parseUnsignedInt(s)` in radix 10: an optional `+` and then
      one or more digits whose value is below 2^32, returned as the `int`
      with those 32 bits, so that values from 2^31 on come back negative;
      `None` where it throws `NumberFormatException`. */
  function ParseUnsignedInt(s: string): (r: Option<int>)
    ensures r.Some? ==> IsInt32(r.value)
  {
    var digits := if s != [] && s[0] == '+' then s[1..] else s;
    if digits == [] || !AllDigits(digits) then None
    else
      var v := DigitsValue(digits);
      if v < UINT_LIMIT then Some(WrapInt(v)) else None
  }

  /** The digits of any value below 2^32, with or without a `+`, parse to
      that value's 32 bits; the digits of anything larger do not parse. */
  lemma ParseUnsignedIntDigits(n: nat)
    ensures n < UINT_LIMIT ==> ParseUnsignedInt(Digits(n)) == Some(WrapInt(n))
    ensures n < UINT_LIMIT ==> ParseUnsignedInt("+" + Digits(n)) == Some(WrapInt(n))
    ensures n >= UINT_LIMIT ==> ParseUnsignedInt(Digits(n)) == None
    ensures n >= UINT_LIMIT ==> ParseUnsignedInt("+" + Digits(n)) == None
  {
    var d := Digits(n);
    assert d[0] != '+';
    assert ("+" + d)[1..] == d;
  }

  /** Text that is empty or a lone `+`, that starts with anything but a
      `+` or a digit (a `-` included), or that has a character other than a
      digit after its first, does not parse. */
  lemma ParseUnsignedIntRejects(s: string)
    requires s == [] || s == "+" || (s[0] != '+' && !IsDigit(s[0])) || exists i | 1 <= i < |s| :: !IsDigit(s[i])
    ensures ParseUnsignedInt(s) == None
  {
    if s != [] && s[0] == '+' && |s| > 1 {
      var i :| 1 <= i < |s| && !IsDigit(s[i]);
      assert !IsDigit(s[1..][i - 1]);
    }
  }

  /** A parsed value below 2^31 is the value of the digits themselves. */
  lemma ParseUnsignedIntValue(s: string)
    requires ParseUnsignedInt(s).Some? && ParseUnsignedInt(s).value >= 0
    ensures var digits := if s[0] == '+' then s[1..] else s;
      AllDigits(digits) && ParseUnsignedInt(s).value == DigitsValue(digits)
  {
    var digits := if s[0] == '+' then s[1..] else s;
    var v := DigitsValue(digits);
    assert v < UINT_LIMIT;
  }
}
