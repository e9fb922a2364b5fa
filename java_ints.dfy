/** Java's fixed-width integer types and the conversions and comparisons on them that the model uses. */
module JavaInts {
  const LONG_MIN: int := -0x8000_0000_0000_0000
  const LONG_MAX: int := 0x7FFF_FFFF_FFFF_FFFF

  /** A Java `long`. */
  type Long = x: int | -0x8000_0000_0000_0000 <= x <= 0x7FFF_FFFF_FFFF_FFFF

  /** A Java `int`. */
  type Int = x: int | -0x8000_0000 <= x <= 0x7FFF_FFFF

  /** A Java `byte`: signed. */
  type JavaByte = x: int | -0x80 <= x <= 0x7F

  /** A Java `short`. */
  type Short = x: int | -0x8000 <= x <= 0x7FFF

  /** The `(short)` cast and `Number.shortValue`: keep the low 16 bits, read as two's complement. */
  function ToShort(x: int): (s: Short)
    ensures -0x8000 <= x <= 0x7FFF ==> s == x
    ensures (x - s) % 0x1_0000 == 0
  {
    (x + 0x8000) % 0x1_0000 - 0x8000
  }

  /** `Number.longValue` on an integral number: its low 64 bits, two's complement. */
  function ToLong(x: int): (r: Long)
    ensures LONG_MIN <= x <= LONG_MAX ==> r == x
    ensures (x - r) % 0x1_0000_0000_0000_0000 == 0
  {
    (x + 0x8000_0000_0000_0000) % 0x1_0000_0000_0000_0000 - 0x8000_0000_0000_0000
  }

  /** The `(int)` cast and `Number.intValue`: the low 32 bits; also the result of `int` arithmetic. */
  function ToInt(x: int): (r: Int)
    ensures -0x8000_0000 <= x <= 0x7FFF_FFFF ==> r == x
    ensures (x - r) % 0x1_0000_0000 == 0
  {
    (x + 0x8000_0000) % 0x1_0000_0000 - 0x8000_0000
  }

  /** The `(byte)` cast and `Number.byteValue`: the low 8 bits. */
  function ToByte(x: int): (r: JavaByte)
    ensures -0x80 <= x <= 0x7F ==> r == x
    ensures (x - r) % 0x100 == 0
  {
    (x + 0x80) % 0x100 - 0x80
  }

  function Abs(x: int): nat
  {
    if x < 0 then -x else x
  }

  /**
   * The quotient rounded toward zero, as Java's `/` computes it (before any wrap-around): the
   * quotient of the magnitudes, negated when exactly one operand is negative.
   */
  function TruncatedQuotient(x: int, y: int): (q: int)
    requires y != 0
    ensures x >= 0 && y > 0 ==> q == x / y
    ensures x < 0 && y > 0 ==> q == -((-x) / y)
    ensures x >= 0 && y < 0 ==> q == -(x / (-y))
    ensures x < 0 && y < 0 ==> q == (-x) / (-y)
  {
    var magnitude := Abs(x) / Abs(y);
    if (x < 0) == (y < 0) then magnitude else -magnitude
  }

  /** `Long.compare` (and `Short.compare`'s sign): -1, 0 or 1 as x is below, equal to or above y. */
  function Compare(x: int, y: int): (r: int)
    ensures r == 0 <==> x == y
    ensures r < 0 <==> x < y
    ensures r > 0 <==> x > y
    ensures -1 <= r <= 1
  {
    if x < y then -1 else if x == y then 0 else 1
  }

  /** The value of a long's 64 bits read as an unsigned number. */
  function Unsigned(x: Long): (u: nat)
    ensures u < 0x1_0000_0000_0000_0000
    ensures x >= 0 ==> u == x
    ensures (u - x) % 0x1_0000_0000_0000_0000 == 0
  {
    if x < 0 then x + 0x1_0000_0000_0000_0000 else x
  }

  /** `Long.compareUnsigned`: the comparison of the unsigned readings. */
  function CompareUnsigned(x: Long, y: Long): (r: int)
    ensures r == 0 <==> x == y
    ensures r < 0 <==> Unsigned(x) < Unsigned(y)
  {
    Compare(Unsigned(x), Unsigned(y))
  }
}
