/**
 * ShortDecimalType: DECIMAL(p, s) with p at most 18, stored as the unscaled value in one long.
 */
module ShortDecimalTypes {
  import opened Wrappers
  import opened Exceptions
  import opened JavaInts
  import Texts
  import TypeCoercions

  datatype ShortDecimalType = ShortDecimalType(precision: nat, scale: nat)

  /** The constructor's two argument checks, precision first. */
  function Create(precision: Int, scale: Int): (r: Result<ShortDecimalType, Exception>)
    ensures r.Ok? <==> 0 < precision <= TypeCoercions.MaxShortPrecision && 0 <= scale <= precision
    ensures r.Ok? ==> r.value.precision == precision && r.value.scale == scale
    ensures r.Ok? ==> TypeCoercions.IsShortDecimal(r.value.precision)
    ensures !(0 < precision <= TypeCoercions.MaxShortPrecision) ==> r == Err(IllegalArgument("Invalid precision: " + Texts.IntToString(precision)))
    ensures 0 < precision <= TypeCoercions.MaxShortPrecision && !(0 <= scale <= precision) ==>
      r == Err(IllegalArgument("Invalid scale for precision " + Texts.IntToString(precision) + ": " + Texts.IntToString(scale)))
  {
    if !(0 < precision <= TypeCoercions.MaxShortPrecision) then
      Err(IllegalArgument("Invalid precision: " + Texts.IntToString(precision)))
    else if !(0 <= scale <= precision) then
      Err(IllegalArgument("Invalid scale for precision " + Texts.IntToString(precision) + ": " + Texts.IntToString(scale)))
    else
      Ok(ShortDecimalType(precision, scale))
  }

  /** getFixedSize: SIZE_OF_LONG, one long per value. */
  function FixedSize(): (n: nat)
    ensures n * 8 == 64
  {
    8
  }

  /** Equality of the unscaled values, which is Long.compare answering 0. */
  function EqualOperator(left: Long, right: Long): (r: bool)
    ensures r <==> Compare(left, right) == 0
  {
    left == right
  }

  /** comparisonOperator: Long.compare of the unscaled values. */
  function ComparisonOperator(left: Long, right: Long): (r: int)
    ensures -1 <= r <= 1
    ensures r == 0 <==> EqualOperator(left, right)
  {
    Compare(left, right)
  }

  function LessThanOperator(left: Long, right: Long): (r: bool)
    ensures r <==> Compare(left, right) < 0
    ensures r ==> !EqualOperator(left, right)
  {
    left < right
  }

  function LessThanOrEqualOperator(left: Long, right: Long): (r: bool)
    ensures r <==> LessThanOperator(left, right) || EqualOperator(left, right)
  {
    left <= right
  }

  /** The ordering operators agree with the comparison, which is antisymmetric and transitive. */
  lemma OperatorsAgreeWithComparison(a: Long, b: Long, c: Long)
    ensures LessThanOperator(a, b) <==> ComparisonOperator(a, b) < 0
    ensures LessThanOrEqualOperator(a, b) <==> ComparisonOperator(a, b) <= 0
    ensures ComparisonOperator(a, b) == -ComparisonOperator(b, a)
    ensures ComparisonOperator(a, b) < 0 && ComparisonOperator(b, c) < 0 ==> ComparisonOperator(a, c) < 0
  {
  }
}
