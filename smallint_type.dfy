/**
 * SmallintType: the 16-bit SMALLINT type.  Values travel as longs; writing checks the range, and
 * the ordering operators cast both operands to short first.
 */
module SmallintTypes {
  import opened Wrappers
  import opened Exceptions
  import opened JavaInts
  import Texts

  const SHORT_MIN: int := -0x8000
  const SHORT_MAX: int := 0x7FFF

  /** getFixedSize: Short.BYTES. */
  function FixedSize(): (n: nat)
    ensures n * 8 == 16
  {
    2
  }

  datatype Range = Range(min: int, max: int)

  /** getRange: the values of a short. */
  function GetRange(): (r: Range)
    ensures r.min == SHORT_MIN && r.max == SHORT_MAX
    ensures forall v: Long :: r.min <= v <= r.max <==> WriteLong(v).Ok?
  {
    Range(SHORT_MIN, SHORT_MAX)
  }

  /** writeLong: the value to be written, or GENERIC_INTERNAL_ERROR when it does not fit in a short. */
  function WriteLong(value: Long): (r: Result<Short, Exception>)
    ensures r.Ok? <==> SHORT_MIN <= value <= SHORT_MAX
    ensures r.Ok? ==> r.value == value
    ensures value > SHORT_MAX ==> r == Err(Trino("GENERIC_INTERNAL_ERROR", "Value " + Texts.IntToString(value) + " exceeds MAX_SHORT"))
    ensures value < SHORT_MIN ==> r == Err(Trino("GENERIC_INTERNAL_ERROR", "Value " + Texts.IntToString(value) + " is less than MIN_SHORT"))
  {
    if value > SHORT_MAX then Err(Trino("GENERIC_INTERNAL_ERROR", "Value " + Texts.IntToString(value) + " exceeds MAX_SHORT"))
    else if value < SHORT_MIN then Err(Trino("GENERIC_INTERNAL_ERROR", "Value " + Texts.IntToString(value) + " is less than MIN_SHORT"))
    else Ok(value)
  }

  /** getLong: the stored short widened back to a long, so a written value reads back unchanged. */
  function GetLong(stored: Short): (r: Long)
    ensures WriteLong(r) == Ok(stored)
  {
    stored
  }

  /** The equal operator compares the longs themselves, without the cast. */
  function EqualOperator(left: Long, right: Long): (r: bool)
    ensures r ==> ToShort(left) == ToShort(right)
    ensures WriteLong(left).Ok? && WriteLong(right).Ok? ==> (r <==> ToShort(left) == ToShort(right))
  {
    left == right
  }

  /** comparisonOperator: Short.compare of the casts, which is their difference. */
  function ComparisonOperator(left: Long, right: Long): (r: int)
    ensures -0xFFFF <= r <= 0xFFFF
  {
    ToShort(left) - ToShort(right)
  }

  /** On the values a SMALLINT holds, the cast changes nothing and this is the order of the longs. */
  function LessThanOperator(left: Long, right: Long): (r: bool)
    ensures WriteLong(left).Ok? && WriteLong(right).Ok? ==> (r <==> left < right)
    ensures r ==> !EqualOperator(left, right)
  {
    ToShort(left) < ToShort(right)
  }

  function LessThanOrEqualOperator(left: Long, right: Long): (r: bool)
    ensures r <==> LessThanOperator(left, right) || ToShort(left) == ToShort(right)
    ensures WriteLong(left).Ok? && WriteLong(right).Ok? ==> (r <==> left <= right)
  {
    ToShort(left) <= ToShort(right)
  }

  /** The two ordering operators agree with the sign of the comparison. */
  lemma OperatorsAgreeWithComparison(left: Long, right: Long)
    ensures LessThanOperator(left, right) <==> ComparisonOperator(left, right) < 0
    ensures LessThanOrEqualOperator(left, right) <==> ComparisonOperator(left, right) <= 0
    ensures ComparisonOperator(left, right) == 0 <==> ToShort(left) == ToShort(right)
  {
  }

  /** Swapping the operands negates the comparison. */
  lemma ComparisonAntisymmetric(left: Long, right: Long)
    ensures ComparisonOperator(left, right) == -ComparisonOperator(right, left)
  {
  }

  /** The operators see only the low 16 bits: values 65536 apart compare equal. */
  lemma ComparisonIgnoresHighBits(left: Long, right: Long)
    requires left + 0x1_0000 <= LONG_MAX
    ensures ComparisonOperator(left + 0x1_0000, right) == ComparisonOperator(left, right)
  {
    assert ToShort(left + 0x1_0000) == ToShort(left);
  }

  /** On the values a SMALLINT holds, equality and a zero comparison coincide. */
  lemma EqualAgreesWithComparisonInRange(left: Long, right: Long)
    requires WriteLong(left).Ok? && WriteLong(right).Ok?
    ensures EqualOperator(left, right) <==> ComparisonOperator(left, right) == 0
  {
  }

  /** Outside the range they do not: 65536 and 0 compare as equal but are not equal. */
  lemma EqualDisagreesOutOfRange()
    ensures !EqualOperator(0x1_0000, 0) && ComparisonOperator(0x1_0000, 0) == 0
  {
  }
}
