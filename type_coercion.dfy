/**
 * TypeCoercion: the implicit-coercion lattice of SQL types.  `Compatibility` computes the
 * common super type of two types and whether the first coerces to the second;
 * `CoerceTypeBase` holds the hand-written base-to-base rules.  The public field
 * `isComparableOperator` of the source object switches some rules, so every function here
 * takes it as the parameter `cmp`.
 */
module TypeCoercions {
  import opened Wrappers

  /** The largest CHAR length (CharType.MAX_LENGTH). */
  const MaxCharLength: int := 65536
  /** DecimalType.DEFAULT_PRECISION, the largest decimal precision. */
  const MaxDecimalPrecision: int := 38
  /** The largest precision of a short decimal (one long of unscaled value). */
  const MaxShortPrecision: int := 18
  /** The precision the type registry gives a time or timestamp type named without parameters. */
  const DefaultTemporalPrecision: int := 3

  datatype Field = Field(name: Option<string>, fieldType: Type)

  /** SQL types by base name; parametric types carry their parameters. A missing varchar bound is unbounded. */
  datatype Type =
    | Unknown | Boolean | Tinyint | Smallint | Integer | Bigint | Real | Double
    | Decimal(precision: int, scale: int)
    | Varchar(bound: Option<int>)
    | Char(length: int)
    | Varbinary | Date | Uuid | Json | IpAddress
    | Time(timePrecision: int) | TimeTz(timeTzPrecision: int)
    | Timestamp(timestampPrecision: int) | TimestampTz(timestampTzPrecision: int)
    | HyperLogLog | P4HyperLogLog | IntervalYearToMonth | IntervalDayToSecond
    | SetDigest | JoniRegexp | Re2JRegexp | JsonPath | Color | CodePoints
    | Row(fields: seq<Field>)
    | Array(element: Type)
    | Map(key: Type, value: Type)

  /**
   * Base names (the strings Type.getBaseName returns), one code per constructor of Type; the
   * rules only ever compare them for equality.
   */
  newtype Base = b: int | 0 <= b < 33

  const UnknownBase: Base := 0
  const BooleanBase: Base := 1
  const TinyintBase: Base := 2
  const SmallintBase: Base := 3
  const IntegerBase: Base := 4
  const BigintBase: Base := 5
  const RealBase: Base := 6
  const DoubleBase: Base := 7
  const DecimalBase: Base := 8
  const VarcharBase: Base := 9
  const CharBase: Base := 10
  const VarbinaryBase: Base := 11
  const DateBase: Base := 12
  const UuidBase: Base := 13
  const JsonBase: Base := 14
  const IpAddressBase: Base := 15
  const TimeBase: Base := 16
  const TimeTzBase: Base := 17
  const TimestampBase: Base := 18
  const TimestampTzBase: Base := 19
  const HyperLogLogBase: Base := 20
  const P4HyperLogLogBase: Base := 21
  const IntervalYearToMonthBase: Base := 22
  const IntervalDayToSecondBase: Base := 23
  const SetDigestBase: Base := 24
  const JoniRegexpBase: Base := 25
  const Re2JRegexpBase: Base := 26
  const JsonPathBase: Base := 27
  const ColorBase: Base := 28
  const CodePointsBase: Base := 29
  const RowBase: Base := 30
  const ArrayBase: Base := 31
  const MapBase: Base := 32

  function BaseOf(t: Type): (b: Base)
    ensures b == RowBase <==> t.Row?
    ensures b == ArrayBase <==> t.Array?
    ensures b == MapBase <==> t.Map?
  {
    match t
    case Unknown => UnknownBase
    case Boolean => BooleanBase
    case Tinyint => TinyintBase
    case Smallint => SmallintBase
    case Integer => IntegerBase
    case Bigint => BigintBase
    case Real => RealBase
    case Double => DoubleBase
    case Decimal(_, _) => DecimalBase
    case Varchar(_) => VarcharBase
    case Char(_) => CharBase
    case Varbinary => VarbinaryBase
    case Date => DateBase
    case Uuid => UuidBase
    case Json => JsonBase
    case IpAddress => IpAddressBase
    case Time(_) => TimeBase
    case TimeTz(_) => TimeTzBase
    case Timestamp(_) => TimestampBase
    case TimestampTz(_) => TimestampTzBase
    case HyperLogLog => HyperLogLogBase
    case P4HyperLogLog => P4HyperLogLogBase
    case IntervalYearToMonth => IntervalYearToMonthBase
    case IntervalDayToSecond => IntervalDayToSecondBase
    case SetDigest => SetDigestBase
    case JoniRegexp => JoniRegexpBase
    case Re2JRegexp => Re2JRegexpBase
    case JsonPath => JsonPathBase
    case Color => ColorBase
    case CodePoints => CodePointsBase
    case Row(_) => RowBase
    case Array(_) => ArrayBase
    case Map(_, _) => MapBase
  }

  /** A type without type parameters. */
  predicate IsScalar(t: Type)
  {
    !t.Row? && !t.Array? && !t.Map?
  }

  /** The parameter ranges the type constructors of the source accept. */
  predicate WellFormed(t: Type)
    decreases t
  {
    match t
    case Decimal(p, s) => 1 <= p <= MaxDecimalPrecision && 0 <= s <= p
    case Varchar(bound) => bound.Some? ==> 0 <= bound.value
    case Char(n) => 0 <= n <= MaxCharLength
    case Time(p) => 0 <= p
    case TimeTz(p) => 0 <= p
    case Timestamp(p) => 0 <= p
    case TimestampTz(p) => 0 <= p
    case Row(fs) => forall i :: 0 <= i < |fs| ==> WellFormed(fs[i].fieldType)
    case Array(e) => WellFormed(e)
    case Map(k, v) => WellFormed(k) && WellFormed(v)
    case _ => true
  }

  // ---------------------------------------------------------------------------
  // A size measure, used to show that compatibility terminates.

  function Size(t: Type): nat
    decreases t, 1, 0
  {
    match t
    case Row(fs) => 1 + FieldsSize(fs, 0)
    case Array(e) => 1 + Size(e)
    case Map(k, v) => 1 + Size(k) + Size(v)
    case _ => 1
  }

  function FieldsSize(fs: seq<Field>, i: nat): nat
    requires i <= |fs|
    decreases Row(fs), 0, |fs| - i
  {
    if i == |fs| then 0 else 1 + Size(fs[i].fieldType) + FieldsSize(fs, i + 1)
  }

  lemma {:induction false} FieldsSizeBound(fs: seq<Field>, j: nat, i: nat)
    requires j <= i < |fs|
    ensures Size(fs[i].fieldType) < FieldsSize(fs, j)
    decreases i - j
  {
    if j < i {
      FieldsSizeBound(fs, j + 1, i);
    }
  }

  /** A field's type is smaller than the row type holding it. */
  lemma FieldSmaller(fs: seq<Field>, i: nat)
    requires i < |fs|
    ensures Size(fs[i].fieldType) < Size(Row(fs))
  {
    FieldsSizeBound(fs, 0, i);
  }

  /** Compatibility's second termination component: a coercion step always gets closer to a common base. */
  function Rank(a: Type, b: Type): nat
  {
    if BaseOf(a) == BaseOf(b) then 0 else if a.Decimal? || b.Decimal? then 1 else 2
  }

  // ---------------------------------------------------------------------------
  // Common super types of one type family.

  /** getCommonSuperTypeForDecimal. */
  function DecimalSuperType(first: Type, second: Type): (r: Type)
    requires first.Decimal? && second.Decimal?
    ensures r.Decimal?
    ensures r.scale == Max(first.scale, second.scale)
    ensures r.precision <= MaxDecimalPrecision
    // enough integral digits for either input plus the common scale, capped at the maximum precision
    ensures Max(first.precision - first.scale, second.precision - second.scale) + r.scale <= MaxDecimalPrecision
         ==> r.precision == Max(first.precision - first.scale, second.precision - second.scale) + r.scale
    ensures Max(first.precision - first.scale, second.precision - second.scale) + r.scale > MaxDecimalPrecision
         ==> r.precision == MaxDecimalPrecision
  {
    var targetScale := Max(first.scale, second.scale);
    var targetPrecision := Max(first.precision - first.scale, second.precision - second.scale) + targetScale;
    Decimal(Min(MaxDecimalPrecision, targetPrecision), targetScale)
  }

  /** getCommonSuperTypeForVarchar. */
  function VarcharSuperType(first: Type, second: Type): (r: Type)
    requires first.Varchar? && second.Varchar?
    ensures r.Varchar?
    ensures r.bound.None? <==> first.bound.None? || second.bound.None?
    ensures r.bound.Some? ==> r.bound.value == Max(first.bound.value, second.bound.value)
  {
    if first.bound.None? || second.bound.None? then Varchar(None)
    else Varchar(Some(Max(first.bound.value, second.bound.value)))
  }

  /** getCommonSuperTypeForChar. */
  function CharSuperType(first: Type, second: Type): (r: Type)
    requires first.Char? && second.Char?
    ensures r.Char? && r.length >= first.length && r.length >= second.length
    ensures r.length == first.length || r.length == second.length
  {
    Char(Max(first.length, second.length))
  }

  function Max(a: int, b: int): int { if a < b then b else a }
  function Min(a: int, b: int): int { if a < b then a else b }

  // ---------------------------------------------------------------------------
  // coerceTypeBase.

  /** The integer and floating-point bases other than decimal. */
  predicate IsNumericNonDecimal(b: Base)
  {
    b == TinyintBase || b == SmallintBase || b == IntegerBase || b == BigintBase || b == RealBase || b == DoubleBase
  }

  /** CHAR(65536) or unbounded VARCHAR: the text target most sources have. */
  function TextTarget(result: Base): (r: Option<Type>)
    ensures r.Some? ==> IsScalar(r.value) && BaseOf(r.value) == result
  {
    if result == CharBase then Some(Char(MaxCharLength))
    else if result == VarcharBase then Some(Varchar(None))
    else None
  }

  /** The text target, available only when comparing. */
  function ComparableTextTarget(cmp: bool, result: Base): (r: Option<Type>)
    ensures r.Some? ==> IsScalar(r.value) && BaseOf(r.value) == result
  {
    if cmp then TextTarget(result) else None
  }

  /** A target available only outside comparisons. */
  function UnlessComparable(cmp: bool, t: Type): Option<Type>
  {
    if cmp then None else Some(t)
  }

  /** The bases UNKNOWN coerces to by name alone: lookupType of the bare base name. */
  function NamedType(result: Base): (r: Option<Type>)
    ensures r.Some? ==> IsScalar(r.value) && BaseOf(r.value) == result
  {
    if result in {BooleanBase, BigintBase, IntegerBase, DoubleBase, RealBase} then NamedNumericType(result)
    else if result in {DateBase, TimeBase, TimeTzBase, TimestampBase, TimestampTzBase,
                       IntervalYearToMonthBase, IntervalDayToSecondBase} then NamedTemporalType(result)
    else NamedOtherType(result)
  }

  function NamedNumericType(result: Base): (r: Option<Type>)
    ensures r.Some? ==> IsScalar(r.value) && BaseOf(r.value) == result
  {
    if result == BooleanBase then Some(Boolean)
    else if result == BigintBase then Some(Bigint)
    else if result == IntegerBase then Some(Integer)
    else if result == DoubleBase then Some(Double)
    else if result == RealBase then Some(Real)
    else None
  }

  /** A temporal type named without parameters has the default precision. */
  function NamedTemporalType(result: Base): (r: Option<Type>)
    ensures r.Some? ==> IsScalar(r.value) && BaseOf(r.value) == result
  {
    if result == DateBase then Some(Date)
    else if result == TimeBase then Some(Time(DefaultTemporalPrecision))
    else if result == TimeTzBase then Some(TimeTz(DefaultTemporalPrecision))
    else if result == TimestampBase then Some(Timestamp(DefaultTemporalPrecision))
    else if result == TimestampTzBase then Some(TimestampTz(DefaultTemporalPrecision))
    else if result == IntervalYearToMonthBase then Some(IntervalYearToMonth)
    else if result == IntervalDayToSecondBase then Some(IntervalDayToSecond)
    else None
  }

  function NamedOtherType(result: Base): (r: Option<Type>)
    ensures r.Some? ==> IsScalar(r.value) && BaseOf(r.value) == result
  {
    if result == VarbinaryBase then Some(Varbinary)
    else if result == HyperLogLogBase then Some(HyperLogLog)
    else if result == SetDigestBase then Some(SetDigest)
    else if result == P4HyperLogLogBase then Some(P4HyperLogLog)
    else if result == JsonBase then Some(Json)
    else if result == JoniRegexpBase then Some(JoniRegexp)
    else if result == JsonPathBase then Some(JsonPath)
    else if result == ColorBase then Some(Color)
    else if result == CodePointsBase then Some(CodePoints)
    else None
  }

  /** UNKNOWN: a type named by the base alone, or the smallest VARCHAR, CHAR or DECIMAL. */
  function FromUnknown(result: Base): (r: Option<Type>)
    ensures r.Some? ==> IsScalar(r.value) && BaseOf(r.value) == result
  {
    if result == VarcharBase then Some(Varchar(Some(0)))
    else if result == CharBase then Some(Char(0))
    else if result == DecimalBase then Some(Decimal(1, 0))
    else NamedType(result)
  }

  function FromVarchar(cmp: bool, source: Type, result: Base): (r: Option<Type>)
    requires source.Varchar?
    ensures r.Some? ==> IsScalar(r.value) && (BaseOf(r.value) == result || (r.value.Decimal? && IsNumericNonDecimal(result)))
  {
    if result == CharBase then if source.bound.None? then Some(Char(MaxCharLength)) else Some(Char(Min(MaxCharLength, source.bound.value)))
    else if result == JoniRegexpBase then Some(JoniRegexp)
    else if result == Re2JRegexpBase then Some(Re2JRegexp)
    else if result == JsonPathBase then Some(JsonPath)
    else if result == CodePointsBase then Some(CodePoints)
    else if result == TinyintBase then UnlessComparable(cmp, Decimal(MaxDecimalPrecision, 0))
    else if result == SmallintBase then UnlessComparable(cmp, Decimal(MaxDecimalPrecision, 0))
    else if result == IntegerBase then UnlessComparable(cmp, Decimal(MaxDecimalPrecision, 0))
    else if result == BigintBase then UnlessComparable(cmp, Decimal(MaxDecimalPrecision, 0))
    else if result == RealBase then UnlessComparable(cmp, Decimal(MaxDecimalPrecision, 4))
    else if result == DoubleBase then UnlessComparable(cmp, Decimal(MaxDecimalPrecision, 4))
    else if result == DecimalBase then UnlessComparable(cmp, Decimal(MaxDecimalPrecision, 4))
    else None
  }

  function FromChar(cmp: bool, result: Base): (r: Option<Type>)
    ensures r.Some? ==> IsScalar(r.value) && BaseOf(r.value) == result
  {
    if result == VarcharBase then None
    else if result == JoniRegexpBase then Some(JoniRegexp)
    else if result == Re2JRegexpBase then Some(Re2JRegexp)
    else if result == JsonPathBase then Some(JsonPath)
    else if result == CodePointsBase then Some(CodePoints)
    else if result == DoubleBase then UnlessComparable(cmp, Double)
    else if result == UuidBase then Some(Uuid)
    else if result == TinyintBase then UnlessComparable(cmp, Tinyint)
    else if result == SmallintBase then UnlessComparable(cmp, Smallint)
    else if result == IntegerBase then UnlessComparable(cmp, Integer)
    else if result == BigintBase then UnlessComparable(cmp, Bigint)
    else if result == RealBase then UnlessComparable(cmp, Real)
    else if result == DecimalBase then UnlessComparable(cmp, Decimal(MaxDecimalPrecision, 4))
    else None
  }

  function FromTinyint(cmp: bool, result: Base): (r: Option<Type>)
    ensures r.Some? ==> IsScalar(r.value) && BaseOf(r.value) == result
  {
    if result == SmallintBase then Some(Smallint)
    else if result == IntegerBase then Some(Integer)
    else if result == BigintBase then Some(Bigint)
    else if result == RealBase then Some(Real)
    else if result == DoubleBase then Some(Double)
    else if result == DecimalBase then Some(Decimal(3, 0))
    else ComparableTextTarget(cmp, result)
  }

  function FromSmallint(cmp: bool, result: Base): (r: Option<Type>)
    ensures r.Some? ==> IsScalar(r.value) && BaseOf(r.value) == result
  {
    if result == IntegerBase then Some(Integer)
    else if result == BigintBase then Some(Bigint)
    else if result == RealBase then Some(Real)
    else if result == DoubleBase then Some(Double)
    else if result == DecimalBase then Some(Decimal(5, 0))
    else ComparableTextTarget(cmp, result)
  }

  function FromInteger(cmp: bool, result: Base): (r: Option<Type>)
    ensures r.Some? ==> IsScalar(r.value) && BaseOf(r.value) == result
  {
    if result == BigintBase then Some(Bigint)
    else if result == RealBase then Some(Real)
    else if result == DoubleBase then Some(Double)
    else if result == DecimalBase then Some(Decimal(10, 0))
    else ComparableTextTarget(cmp, result)
  }

  function FromBigint(cmp: bool, result: Base): (r: Option<Type>)
    ensures r.Some? ==> IsScalar(r.value) && BaseOf(r.value) == result
  {
    if result == RealBase then Some(Real)
    else if result == DoubleBase then Some(Double)
    else if result == DecimalBase then Some(Decimal(19, 0))
    else ComparableTextTarget(cmp, result)
  }

  function FromReal(cmp: bool, result: Base): (r: Option<Type>)
    ensures r.Some? ==> IsScalar(r.value) && BaseOf(r.value) == result
  {
    if result == DoubleBase then Some(Double)
    else if result == DecimalBase then Some(Decimal(10, 0))
    else ComparableTextTarget(cmp, result)
  }

  function FromDouble(cmp: bool, result: Base): (r: Option<Type>)
    ensures r.Some? ==> IsScalar(r.value) && BaseOf(r.value) == result
  {
    if result == DecimalBase then Some(Decimal(MaxDecimalPrecision, 4))
    else ComparableTextTarget(cmp, result)
  }

  function FromDate(result: Base): (r: Option<Type>)
    ensures r.Some? ==> IsScalar(r.value) && BaseOf(r.value) == result
  {
    if result == TimestampBase then Some(Timestamp(0))
    else if result == TimestampTzBase then Some(TimestampTz(3))
    else TextTarget(result)
  }

  function FromTime(result: Base): (r: Option<Type>)
    ensures r.Some? ==> IsScalar(r.value) && BaseOf(r.value) == result
  {
    if result == TimeTzBase then Some(TimeTz(DefaultTemporalPrecision))
    else TextTarget(result)
  }

  /** TIMESTAMP keeps its precision when it gains a time zone. */
  function FromTimestamp(p: int, result: Base): (r: Option<Type>)
    ensures r.Some? ==> IsScalar(r.value) && BaseOf(r.value) == result
  {
    if result == TimestampTzBase then Some(TimestampTz(p))
    else if result == IntegerBase then Some(Integer)
    else TextTarget(result)
  }

  function FromVarbinary(cmp: bool, result: Base): (r: Option<Type>)
    ensures r.Some? ==> IsScalar(r.value) && BaseOf(r.value) == result
  {
    if result == DecimalBase then UnlessComparable(cmp, Decimal(MaxDecimalPrecision, 4))
    else if result == DoubleBase then UnlessComparable(cmp, Double)
    else None
  }

  /**
   * coerceTypeBase: the type `source` becomes when coerced to base `result`, if any rule allows it.
   * Outside the same-base case only scalar types take part, and the result has the requested
   * base except for VARCHAR to a number, which goes through a DECIMAL.
   */
  function CoerceTypeBase(cmp: bool, source: Type, result: Base): (r: Option<Type>)
    ensures BaseOf(source) == result ==> r == Some(source)
    ensures r.Some? && BaseOf(source) != result ==>
      IsScalar(source) && IsScalar(r.value) &&
      (BaseOf(r.value) == result || (source.Varchar? && r.value.Decimal? && IsNumericNonDecimal(result)))
  {
    if BaseOf(source) == result then Some(source)
    else
      match source
      case Unknown => FromUnknown(result)
      case Uuid => TextTarget(result)
      case TimestampTz(_) => TextTarget(result)
      case Tinyint => FromTinyint(cmp, result)
      case Smallint => FromSmallint(cmp, result)
      case Integer => FromInteger(cmp, result)
      case Bigint => FromBigint(cmp, result)
      case Real => FromReal(cmp, result)
      case Double => FromDouble(cmp, result)
      case Decimal(_, _) => ComparableTextTarget(cmp, result)
      case Date => FromDate(result)
      case Time(_) => FromTime(result)
      case Timestamp(p) => FromTimestamp(p, result)
      case Json => TextTarget(result)
      case Varchar(_) => FromVarchar(cmp, source, result)
      case Varbinary => FromVarbinary(cmp, result)
      case Char(_) => FromChar(cmp, result)
      case P4HyperLogLog => if result == HyperLogLogBase then Some(HyperLogLog) else None
      case _ => None
  }

  // ---------------------------------------------------------------------------
  // TypeCompatibility and compatibility.

  /** A common super type, if the types are compatible, and whether the first coerces to the second. */
  datatype TypeCompatibility = TypeCompatibility(commonSuperType: Option<Type>, coercible: bool)
  {
    /** The factory invariant: coercible implies a super type is present. */
    predicate Valid()
    {
      coercible ==> commonSuperType.Some?
    }

    predicate IsCompatible()
    {
      commonSuperType.Some?
    }
  }

  function Compatible(superType: Type, coercible: bool): (r: TypeCompatibility)
    ensures r.Valid() && r.IsCompatible()
  {
    TypeCompatibility(Some(superType), coercible)
  }

  function Incompatible(): (r: TypeCompatibility)
    ensures r.Valid() && !r.IsCompatible() && !r.coercible
  {
    TypeCompatibility(None, false)
  }

  /** compatibility(fromType, toType). */
  function Compatibility(cmp: bool, from: Type, to: Type): (r: TypeCompatibility)
    decreases Size(from) + Size(to), Rank(from, to), 2, 0
    ensures r.Valid()
  {
    if from == to then Compatible(to, true)
    else if from == Unknown then Compatible(to, true)
    else if to == Unknown then Compatible(from, false)
    else if BaseOf(from) == BaseOf(to) then SameBaseCompatibility(cmp, from, to)
    else CoercionCompatibility(cmp, from, to)
  }

  /** Two different types of one base: the family's own super type rule. */
  function SameBaseCompatibility(cmp: bool, from: Type, to: Type): (r: TypeCompatibility)
    requires BaseOf(from) == BaseOf(to)
    decreases Size(from) + Size(to), 0, 1, 0
    ensures r.Valid()
  {
    match from
    case Decimal(_, _) => var s := DecimalSuperType(from, to); Compatible(s, s == to)
    case Varchar(_) => var s := VarcharSuperType(from, to); Compatible(s, s == to)
    case Char(_) => var s := CharSuperType(from, to); Compatible(s, s == to)
    case Row(f1) => RowCompatibility(cmp, f1, to.fields)
    case Timestamp(p) => var s := Timestamp(Max(p, to.timestampPrecision)); Compatible(s, s == to)
    case TimestampTz(p) => var s := TimestampTz(Max(p, to.timestampTzPrecision)); Compatible(s, s == to)
    case Time(p) => var s := Time(Max(p, to.timePrecision)); Compatible(s, s == to)
    case TimeTz(p) => var s := TimeTz(Max(p, to.timeTzPrecision)); Compatible(s, s == to)
    case Array(_) => CovariantCompatibility(cmp, from, to)
    case Map(_, _) => CovariantCompatibility(cmp, from, to)
    case _ => Incompatible()
  }

  /**
   * Two different bases: coerce the first to the second's base and retry; otherwise coerce
   * the second to the first's base, in which case the result is never coercible.
   */
  function CoercionCompatibility(cmp: bool, from: Type, to: Type): (r: TypeCompatibility)
    requires BaseOf(from) != BaseOf(to)
    decreases Size(from) + Size(to), Rank(from, to), 1, 0
    ensures r.Valid()
  {
    var coerced := CoerceTypeBase(cmp, from, BaseOf(to));
    if coerced.Some? then
      Compatibility(cmp, coerced.value, to)
    else
      var reverse := CoerceTypeBase(cmp, to, BaseOf(from));
      if reverse.Some? then
        var c := Compatibility(cmp, from, reverse.value);
        if !c.IsCompatible() then Incompatible() else Compatible(c.commonSuperType.value, false)
      else
        Incompatible()
  }

  /** typeCompatibilityForRow: field-wise compatibility; a field keeps its name only when both names agree. */
  function RowCompatibility(cmp: bool, first: seq<Field>, second: seq<Field>): (r: TypeCompatibility)
    decreases Size(Row(first)) + Size(Row(second)), 0, 0, |first| + 1
    ensures r.Valid()
  {
    if |first| != |second| then Incompatible()
    else
      match RowFields(cmp, first, second, 0)
      case None => Incompatible()
      case Some((fields, coercible)) => Compatible(Row(fields), coercible)
  }

  /** The name a common row field keeps. */
  function CommonName(a: Option<string>, b: Option<string>): (r: Option<string>)
    ensures r.Some? <==> a.Some? && a == b
  {
    if a == b then a else None
  }

  /** The common fields from position i on, with the conjunction of their coercibility; None once a field is incompatible. */
  function RowFields(cmp: bool, first: seq<Field>, second: seq<Field>, i: nat): (r: Option<(seq<Field>, bool)>)
    requires |first| == |second| && i <= |first|
    decreases Size(Row(first)) + Size(Row(second)), 0, 0, |first| - i
    ensures r.Some? ==> |r.value.0| == |first| - i
  {
    if i == |first| then Some(([], true))
    else
      var c := FieldCompatibility(cmp, first, second, i);
      if !c.IsCompatible() then None
      else
        match RowFields(cmp, first, second, i + 1)
        case None => None
        case Some((rest, restCoercible)) =>
          Some(([Field(CommonName(first[i].name, second[i].name), c.commonSuperType.value)] + rest,
                c.coercible && restCoercible))
  }

  /** The compatibility of the types of the i-th fields of two rows. */
  function FieldCompatibility(cmp: bool, first: seq<Field>, second: seq<Field>, i: nat): (r: TypeCompatibility)
    requires |first| == |second| && i < |first|
    decreases Size(Row(first)) + Size(Row(second)), 0, 0, |first| - i - 1
    ensures r.Valid()
  {
    FieldSmaller(first, i);
    FieldSmaller(second, i);
    Compatibility(cmp, first[i].fieldType, second[i].fieldType)
  }

  /** typeCompatibilityForCovariantParametrizedType for ARRAY and MAP: parameter-wise compatibility. */
  function CovariantCompatibility(cmp: bool, from: Type, to: Type): (r: TypeCompatibility)
    requires (from.Array? && to.Array?) || (from.Map? && to.Map?)
    decreases Size(from) + Size(to), 0, 0, 0
    ensures r.Valid()
  {
    match from
    case Array(a) =>
      var c := Compatibility(cmp, a, to.element);
      if !c.IsCompatible() then Incompatible() else Compatible(Array(c.commonSuperType.value), c.coercible)
    case Map(k, v) =>
      var ck := Compatibility(cmp, k, to.key);
      if !ck.IsCompatible() then Incompatible()
      else
        var cv := Compatibility(cmp, v, to.value);
        if !cv.IsCompatible() then Incompatible()
        else Compatible(Map(ck.commonSuperType.value, cv.commonSuperType.value), ck.coercible && cv.coercible)
  }

  /** getCommonSuperType: empty exactly when the types are incompatible. */
  function GetCommonSuperType(cmp: bool, first: Type, second: Type): (r: Option<Type>)
    ensures r.None? <==> !Compatibility(cmp, first, second).IsCompatible()
    ensures r.Some? ==> r == Compatibility(cmp, first, second).commonSuperType
  {
    Compatibility(cmp, first, second).commonSuperType
  }

  /** canCoerce: a type coerces only to a type it has a common super type with. */
  predicate CanCoerce(cmp: bool, from: Type, to: Type)
    ensures CanCoerce(cmp, from, to) ==> GetCommonSuperType(cmp, from, to).Some?
  {
    Compatibility(cmp, from, to).coercible
  }

  predicate IsCompatible(cmp: bool, from: Type, to: Type)
  {
    Compatibility(cmp, from, to).IsCompatible()
  }

  // ---------------------------------------------------------------------------
  // isTypeOnlyCoercion.

  predicate IsShortDecimal(precision: int)
  {
    precision <= MaxShortPrecision
  }

  /** isTypeOnlyCoercion: a coercion that changes only the type, never the stored value. */
  predicate TypeOnlyCoercion(cmp: bool, source: Type, result: Type)
    decreases source, 2, 0
    ensures TypeOnlyCoercion(cmp, source, result) ==> source == result || CanCoerce(cmp, source, result)
  {
    source == result || CoercibleTypeOnly(cmp, source, result)
  }

  /** isTypeOnlyCoercion past its equality check: canCoerce, then the cases by type. */
  predicate CoercibleTypeOnly(cmp: bool, source: Type, result: Type)
    decreases source, 1, 1
  {
    CanCoerce(cmp, source, result) && TypeOnlyShape(cmp, source, result)
  }

  /** The cases of isTypeOnlyCoercion after the equality and canCoerce checks. */
  predicate TypeOnlyShape(cmp: bool, source: Type, result: Type)
    decreases source, 1, 0
  {
    if source.Varchar? && result.Varchar? then true
    else if source.Decimal? && result.Decimal? then
      IsShortDecimal(source.precision) == IsShortDecimal(result.precision)
      && source.scale == result.scale && source.precision <= result.precision
    else if source.Row? && result.Row? then
      |source.fields| == |result.fields| && FieldsTypeOnly(cmp, source.fields, result.fields, 0)
    else CovariantTypeOnly(cmp, source, result)
  }

  /** The last case of isTypeOnlyCoercion: an ARRAY or a MAP of one base, parameter by parameter. */
  predicate CovariantTypeOnly(cmp: bool, source: Type, result: Type)
    decreases source, 0, 1
  {
    BaseOf(source) == BaseOf(result) && IsCovariantParametrizedType(source) && ParametersTypeOnly(cmp, source, result)
  }

  /** isCovariantParametrizedType: ARRAY and MAP, whose parameters coerce covariantly. */
  predicate IsCovariantParametrizedType(t: Type): (r: bool)
    ensures r <==> BaseOf(t) == ArrayBase || BaseOf(t) == MapBase
    ensures r ==> BaseOf(t) != RowBase
  {
    t.Array? || t.Map?
  }

  /** Every type parameter of two arrays, or of two maps, is a type-only coercion. */
  predicate ParametersTypeOnly(cmp: bool, source: Type, result: Type)
    requires (source.Array? && result.Array?) || (source.Map? && result.Map?)
    decreases source, 0, 0
  {
    if source.Array? then TypeOnlyCoercion(cmp, source.element, result.element)
    else TypeOnlyCoercion(cmp, source.key, result.key) && TypeOnlyCoercion(cmp, source.value, result.value)
  }

  /** Every field from position i on is a type-only coercion. */
  predicate FieldsTypeOnly(cmp: bool, first: seq<Field>, second: seq<Field>, i: nat)
    requires |first| == |second| && i <= |first|
    decreases Row(first), 0, |first| - i
  {
    i == |first| || (TypeOnlyCoercion(cmp, first[i].fieldType, second[i].fieldType) && FieldsTypeOnly(cmp, first, second, i + 1))
  }

  // ---------------------------------------------------------------------------
  // Properties.

  /** compatibility(t, t) is compatible and coercible with super type t. */
  lemma CompatibilityReflexive(cmp: bool, t: Type)
    ensures Compatibility(cmp, t, t) == Compatible(t, true)
    ensures CanCoerce(cmp, t, t) && GetCommonSuperType(cmp, t, t) == Some(t)
    ensures TypeOnlyCoercion(cmp, t, t)
  {
  }

  /** UNKNOWN coerces to everything; everything is compatible with UNKNOWN, but only UNKNOWN coerces to it. */
  lemma UnknownCoercion(cmp: bool, t: Type)
    ensures CanCoerce(cmp, Unknown, t) && GetCommonSuperType(cmp, Unknown, t) == Some(t)
    ensures GetCommonSuperType(cmp, t, Unknown) == Some(t)
    ensures CanCoerce(cmp, t, Unknown) <==> t == Unknown
  {
  }

  /** CHAR never coerces to VARCHAR (the two are deliberately not coercible both ways). */
  lemma CharNeverCoercesToVarchar(cmp: bool, n: int, bound: Option<int>)
    ensures CoerceTypeBase(cmp, Char(n), VarcharBase).None?
    ensures !CanCoerce(cmp, Char(n), Varchar(bound))
  {
    ReverseStep(cmp, Char(n), Varchar(bound));
  }

  /** A bounded VARCHAR coerces to CHAR(n) exactly when its bound, capped at the CHAR maximum, fits. */
  lemma VarcharToChar(cmp: bool, m: int, n: int)
    ensures CanCoerce(cmp, Varchar(Some(m)), Char(n)) <==> Min(MaxCharLength, m) <= n
  {
    ForwardStep(cmp, Varchar(Some(m)), Char(n));
    var k := Min(MaxCharLength, m);
    assert CoerceTypeBase(cmp, Varchar(Some(m)), CharBase) == Some(Char(k));
    if k != n {
      SameBaseCase(cmp, Char(k), Char(n));
    }
  }

  /** Within VARCHAR, coercion is widening of the bound; an unbounded VARCHAR takes every VARCHAR. */
  lemma VarcharCoercion(cmp: bool, x: Option<int>, y: Option<int>)
    ensures CanCoerce(cmp, Varchar(x), Varchar(y)) <==> y.None? || (x.Some? && x.value <= y.value)
    ensures TypeOnlyCoercion(cmp, Varchar(x), Varchar(y)) <==> CanCoerce(cmp, Varchar(x), Varchar(y))
  {
    if x != y {
      SameBaseCase(cmp, Varchar(x), Varchar(y));
      assert TypeOnlyShape(cmp, Varchar(x), Varchar(y));
    }
  }

  /** Within CHAR, coercion is widening of the length. */
  lemma CharCoercion(cmp: bool, a: int, b: int)
    ensures CanCoerce(cmp, Char(a), Char(b)) <==> a <= b
    ensures GetCommonSuperType(cmp, Char(a), Char(b)) == Some(Char(Max(a, b)))
  {
    if a != b {
      SameBaseCase(cmp, Char(a), Char(b));
    }
  }

  /** Within TIMESTAMP, coercion is widening of the precision. */
  lemma TimestampCoercion(cmp: bool, p: int, q: int)
    ensures CanCoerce(cmp, Timestamp(p), Timestamp(q)) <==> p <= q
  {
    if p != q {
      SameBaseCase(cmp, Timestamp(p), Timestamp(q));
    }
  }

  /** A decimal's common super type absorbs the decimal again: both arguments coerce to it. */
  lemma DecimalSuperTypeAbsorbs(a: Type, b: Type)
    requires a.Decimal? && b.Decimal?
    ensures DecimalSuperType(a, DecimalSuperType(a, b)) == DecimalSuperType(a, b)
    ensures DecimalSuperType(b, DecimalSuperType(a, b)) == DecimalSuperType(a, b)
  {
  }

  /** Both decimals coerce to their common super type. */
  lemma DecimalsCoerceToSuperType(cmp: bool, a: Type, b: Type)
    requires a.Decimal? && b.Decimal?
    ensures CanCoerce(cmp, a, DecimalSuperType(a, b)) && CanCoerce(cmp, b, DecimalSuperType(a, b))
  {
    DecimalSuperTypeAbsorbs(a, b);
  }

  /** Within well-formed decimals of one scale, growing the precision is a coercion; it is type-only when the storage kind stays. */
  lemma DecimalTypeOnly(cmp: bool, p1: int, p2: int, s: int)
    requires WellFormed(Decimal(p1, s)) && WellFormed(Decimal(p2, s)) && p1 <= p2
    ensures CanCoerce(cmp, Decimal(p1, s), Decimal(p2, s))
    ensures TypeOnlyCoercion(cmp, Decimal(p1, s), Decimal(p2, s)) <==> IsShortDecimal(p1) == IsShortDecimal(p2)
  {
    assert DecimalSuperType(Decimal(p1, s), Decimal(p2, s)) == Decimal(p2, s);
    if p1 != p2 {
      assert TypeOnlyShape(cmp, Decimal(p1, s), Decimal(p2, s)) <==> IsShortDecimal(p1) == IsShortDecimal(p2);
    }
  }

  /** Integer widening: TINYINT to SMALLINT, INTEGER and BIGINT, and so on up. */
  lemma IntegerWidening(cmp: bool)
    ensures CoerceTypeBase(cmp, Tinyint, SmallintBase) == Some(Smallint)
    ensures CoerceTypeBase(cmp, Tinyint, IntegerBase) == Some(Integer)
    ensures CoerceTypeBase(cmp, Tinyint, BigintBase) == Some(Bigint)
    ensures CoerceTypeBase(cmp, Smallint, IntegerBase) == Some(Integer)
    ensures CoerceTypeBase(cmp, Smallint, BigintBase) == Some(Bigint)
    ensures CoerceTypeBase(cmp, Integer, BigintBase) == Some(Bigint)
  {
  }

  /** The decimal each integer type becomes: 3, 5, 10 and 19 digits. */
  lemma IntegerDecimalTargets(cmp: bool)
    ensures CoerceTypeBase(cmp, Tinyint, DecimalBase) == Some(Decimal(3, 0))
    ensures CoerceTypeBase(cmp, Smallint, DecimalBase) == Some(Decimal(5, 0))
    ensures CoerceTypeBase(cmp, Integer, DecimalBase) == Some(Decimal(10, 0))
    ensures CoerceTypeBase(cmp, Bigint, DecimalBase) == Some(Decimal(19, 0))
  {
  }

  /** compatibility of two different types of one base is the family rule. */
  lemma SameBaseCase(cmp: bool, from: Type, to: Type)
    requires from != to && from != Unknown && BaseOf(from) == BaseOf(to)
    ensures Compatibility(cmp, from, to) == SameBaseCompatibility(cmp, from, to)
  {
  }

  /** compatibility of two different bases, neither UNKNOWN, goes through the coercion rules. */
  lemma DifferentBaseCase(cmp: bool, from: Type, to: Type)
    requires from != Unknown && to != Unknown && BaseOf(from) != BaseOf(to)
    ensures Compatibility(cmp, from, to) == CoercionCompatibility(cmp, from, to)
  {
  }

  /** Compatibility of two different bases, when the first has a rule to the second's base. */
  lemma ForwardStep(cmp: bool, from: Type, to: Type)
    requires from != Unknown && to != Unknown && BaseOf(from) != BaseOf(to)
    requires CoerceTypeBase(cmp, from, BaseOf(to)).Some?
    ensures Compatibility(cmp, from, to) == Compatibility(cmp, CoerceTypeBase(cmp, from, BaseOf(to)).value, to)
  {
    DifferentBaseCase(cmp, from, to);
  }

  /** Compatibility of two different bases, when only the second has a rule to the first's base. */
  lemma ReverseStep(cmp: bool, from: Type, to: Type)
    requires from != Unknown && to != Unknown && BaseOf(from) != BaseOf(to)
    requires CoerceTypeBase(cmp, from, BaseOf(to)).None? && CoerceTypeBase(cmp, to, BaseOf(from)).Some?
    ensures var c := Compatibility(cmp, from, CoerceTypeBase(cmp, to, BaseOf(from)).value);
      Compatibility(cmp, from, to) == if c.IsCompatible() then Compatible(c.commonSuperType.value, false) else Incompatible()
  {
    DifferentBaseCase(cmp, from, to);
  }

  /**
   * A base rule that exists in one direction only makes a one-way coercion, and then the
   * target is the common super type in both argument orders.
   */
  lemma OneWayCompatibility(cmp: bool, narrow: Type, wide: Type)
    requires narrow != Unknown && wide != Unknown && BaseOf(narrow) != BaseOf(wide)
    requires CoerceTypeBase(cmp, narrow, BaseOf(wide)) == Some(wide)
    requires CoerceTypeBase(cmp, wide, BaseOf(narrow)).None?
    ensures Compatibility(cmp, narrow, wide) == Compatible(wide, true)
    ensures Compatibility(cmp, wide, narrow) == Compatible(wide, false)
  {
    ForwardStep(cmp, narrow, wide);
    ReverseStep(cmp, wide, narrow);
    assert Compatibility(cmp, wide, wide) == Compatible(wide, true);
  }

  /** The integer types order by width: the narrower coerces to the wider, never back, and the wider is their super type. */
  lemma IntegerWideningOneWay(cmp: bool, narrow: Type, wide: Type)
    requires (narrow, wide) in {(Tinyint, Smallint), (Tinyint, Integer), (Tinyint, Bigint),
                                (Smallint, Integer), (Smallint, Bigint), (Integer, Bigint)}
    ensures CanCoerce(cmp, narrow, wide) && !CanCoerce(cmp, wide, narrow)
    ensures GetCommonSuperType(cmp, narrow, wide) == Some(wide) && GetCommonSuperType(cmp, wide, narrow) == Some(wide)
  {
    OneWayCompatibility(cmp, narrow, wide);
  }

  /** An integer, floating-point or decimal type goes to CHAR/VARCHAR only when comparing. */
  lemma NumericToTextOnlyWhenComparing(cmp: bool, source: Type, result: Base)
    requires source in {Tinyint, Smallint, Integer, Bigint, Real, Double} || source.Decimal?
    requires result == CharBase || result == VarcharBase
    ensures CoerceTypeBase(cmp, source, result).Some? <==> cmp
  {
  }

  /** VARCHAR goes to an integer type (through a DECIMAL(38, 0)) only outside comparisons. */
  lemma VarcharToIntegerOnlyWhenNotComparing(cmp: bool, bound: Option<int>, result: Base)
    requires result in {TinyintBase, SmallintBase, IntegerBase, BigintBase}
    ensures CoerceTypeBase(cmp, Varchar(bound), result).Some? <==> !cmp
    ensures !cmp ==> CoerceTypeBase(cmp, Varchar(bound), result) == Some(Decimal(MaxDecimalPrecision, 0))
  {
  }

  /** UUID and CHAR(65536) coerce to each other, each the super type in its own argument order. */
  lemma UuidAndCharCoerceBothWays(cmp: bool)
    ensures CanCoerce(cmp, Uuid, Char(MaxCharLength)) && CanCoerce(cmp, Char(MaxCharLength), Uuid)
    ensures GetCommonSuperType(cmp, Char(5), Uuid) == Some(Uuid)
    ensures GetCommonSuperType(cmp, Uuid, Char(5)) == Some(Char(MaxCharLength))
  {
    ForwardStep(cmp, Uuid, Char(MaxCharLength));
    ForwardStep(cmp, Char(MaxCharLength), Uuid);
    ForwardStep(cmp, Char(5), Uuid);
    ForwardStep(cmp, Uuid, Char(5));
    CompatibilityReflexive(cmp, Uuid);
    CompatibilityReflexive(cmp, Char(MaxCharLength));
    assert Compatibility(cmp, Char(MaxCharLength), Char(5)) == Compatible(Char(MaxCharLength), false);
  }

  // ---------------------------------------------------------------------------
  // The loops of the source, as methods of the coercion object.

  /** The type parameters of ARRAY and MAP, in order. */
  function Parameters(t: Type): (ps: seq<Type>)
    requires t.Array? || t.Map?
    ensures |ps| == if t.Array? then 1 else 2
  {
    if t.Array? then [t.element] else [t.key, t.value]
  }

  /** The type of base `t` built from the given parameters (lookupType of the common signature). */
  function WithParameters(t: Type, ps: seq<Type>): (r: Type)
    requires (t.Array? || t.Map?) && |ps| == |Parameters(t)|
    ensures BaseOf(r) == BaseOf(t) && Parameters(r) == ps
  {
    if t.Array? then Array(ps[0]) else Map(ps[0], ps[1])
  }

  /** The row fields already built, in front of the result for the remaining fields. */
  function Prefixed(fields: seq<Field>, coercible: bool, rest: Option<(seq<Field>, bool)>): Option<(seq<Field>, bool)>
  {
    match rest
    case None => None
    case Some((fs, c)) => Some((fields + fs, coercible && c))
  }

  /** One field of typeCompatibilityForRow's loop: an incompatible field ends it, a compatible one is appended. */
  lemma RowFieldsStep(cmp: bool, first: seq<Field>, second: seq<Field>, i: nat, fields: seq<Field>, coercible: bool)
    requires |first| == |second| && i < |first|
    ensures var c := FieldCompatibility(cmp, first, second, i);
      Prefixed(fields, coercible, RowFields(cmp, first, second, i))
      == if !c.IsCompatible() then None
         else Prefixed(fields + [Field(CommonName(first[i].name, second[i].name), c.commonSuperType.value)],
                       coercible && c.coercible, RowFields(cmp, first, second, i + 1))
  {
    var c := FieldCompatibility(cmp, first, second, i);
    if c.IsCompatible() {
      PrefixedStep(fields, coercible, Field(CommonName(first[i].name, second[i].name), c.commonSuperType.value),
                   c.coercible, RowFields(cmp, first, second, i + 1));
    }
  }

  lemma PrefixedEmpty(rest: Option<(seq<Field>, bool)>)
    ensures Prefixed([], true, rest) == rest
  {
    if rest.Some? {
      assert [] + rest.value.0 == rest.value.0;
    }
  }

  lemma PrefixedStep(fields: seq<Field>, coercible: bool, f: Field, c: bool, rest: Option<(seq<Field>, bool)>)
    ensures Prefixed(fields, coercible, Prefixed([f], c, rest)) == Prefixed(fields + [f], coercible && c, rest)
  {
    if rest.Some? {
      assert fields + ([f] + rest.value.0) == (fields + [f]) + rest.value.0;
    }
  }

  class TypeCoercion {
    /** Switches between the comparison rules and the assignment rules of coerceTypeBase. */
    var isComparableOperator: bool

    constructor()
      ensures isComparableOperator
    {
      isComparableOperator := true;
    }

    /** typeCompatibilityForRow, as the source's loop with its early return. */
    method TypeCompatibilityForRow(first: seq<Field>, second: seq<Field>) returns (r: TypeCompatibility)
      ensures r == RowCompatibility(isComparableOperator, first, second)
    {
      var cmp := isComparableOperator;
      if |first| != |second| {
        return Incompatible();
      }
      var fields: seq<Field> := [];
      var coercible := true;
      var i := 0;
      PrefixedEmpty(RowFields(cmp, first, second, 0));
      while i < |first|
        invariant 0 <= i <= |first|
        invariant RowFields(cmp, first, second, 0) == Prefixed(fields, coercible, RowFields(cmp, first, second, i))
      {
        var c := FieldCompatibility(cmp, first, second, i);
        RowFieldsStep(cmp, first, second, i, fields, coercible);
        if !c.IsCompatible() {
          return Incompatible();
        }
        var commonName := if first[i].name == second[i].name then first[i].name else None;
        var field := Field(commonName, c.commonSuperType.value);
        coercible := coercible && c.coercible;
        fields := fields + [field];
        i := i + 1;
      }
      assert fields + [] == fields;
      r := Compatible(Row(fields), coercible);
    }

    /** typeCompatibilityForCovariantParametrizedType, as the source's loop over the type parameters. */
    method TypeCompatibilityForCovariantParametrizedType(from: Type, to: Type) returns (r: TypeCompatibility)
      requires (from.Array? && to.Array?) || (from.Map? && to.Map?)
      ensures r == CovariantCompatibility(isComparableOperator, from, to)
    {
      var cmp := isComparableOperator;
      var fromParameters := Parameters(from);
      var toParameters := Parameters(to);
      var common: seq<Type> := [];
      var coercible := true;
      for i := 0 to |fromParameters|
        invariant |common| == i
        invariant forall k :: 0 <= k < i ==> Compatibility(cmp, fromParameters[k], toParameters[k]).IsCompatible()
        invariant forall k :: 0 <= k < i ==> common[k] == Compatibility(cmp, fromParameters[k], toParameters[k]).commonSuperType.value
        invariant coercible <==> forall k :: 0 <= k < i ==> Compatibility(cmp, fromParameters[k], toParameters[k]).coercible
      {
        var c := Compatibility(cmp, fromParameters[i], toParameters[i]);
        if !c.IsCompatible() {
          return Incompatible();
        }
        coercible := coercible && c.coercible;
        common := common + [c.commonSuperType.value];
      }
      r := Compatible(WithParameters(from, common), coercible);
    }

    /** isTypeOnlyCoercion, with the source's loops over row fields and type parameters. */
    method IsTypeOnlyCoercion(source: Type, result: Type) returns (r: bool)
      ensures r == TypeOnlyCoercion(isComparableOperator, source, result)
    {
      if source == result {
        return true;
      }
      r := IsCoercibleTypeOnly(source, result);
    }

    /** The canCoerce check of isTypeOnlyCoercion, then the cases by type. */
    method IsCoercibleTypeOnly(source: Type, result: Type) returns (r: bool)
      ensures r == CoercibleTypeOnly(isComparableOperator, source, result)
    {
      var canCoerce := CanCoerce(isComparableOperator, source, result);
      if !canCoerce {
        return false;
      }
      r := IsTypeOnlyShape(source, result);
    }

    /** The rest of isTypeOnlyCoercion, once the coercion is known to exist. */
    method IsTypeOnlyShape(source: Type, result: Type) returns (r: bool)
      ensures r == TypeOnlyShape(isComparableOperator, source, result)
    {
      var cmp := isComparableOperator;
      if source.Varchar? && result.Varchar? {
        return true;
      }
      if source.Decimal? && result.Decimal? {
        var sameDecimalSubtype := (IsShortDecimal(source.precision) && IsShortDecimal(result.precision))
          || (!IsShortDecimal(source.precision) && !IsShortDecimal(result.precision));
        var sameScale := source.scale == result.scale;
        var sourcePrecisionIsLessOrEqualToResultPrecision := source.precision <= result.precision;
        return sameDecimalSubtype && sameScale && sourcePrecisionIsLessOrEqualToResultPrecision;
      }
      if source.Row? && result.Row? {
        if |source.fields| != |result.fields| {
          return false;
        }
        r := FieldsAreTypeOnly(source.fields, result.fields);
        return;
      }
      r := IsCovariantTypeOnly(source, result);
    }

    /** The ARRAY and MAP case of isTypeOnlyCoercion, and its final false. */
    method IsCovariantTypeOnly(source: Type, result: Type) returns (r: bool)
      ensures r == CovariantTypeOnly(isComparableOperator, source, result)
    {
      if BaseOf(source) == BaseOf(result) && IsCovariantParametrizedType(source) {
        r := ParametersAreTypeOnly(source, result);
        return;
      }
      return false;
    }

    /** The loop of isTypeOnlyCoercion over the fields of two rows of one size. */
    method FieldsAreTypeOnly(sourceFields: seq<Field>, resultFields: seq<Field>) returns (r: bool)
      requires |sourceFields| == |resultFields|
      ensures r == FieldsTypeOnly(isComparableOperator, sourceFields, resultFields, 0)
    {
      var cmp := isComparableOperator;
      for i := 0 to |sourceFields|
        invariant FieldsTypeOnly(cmp, sourceFields, resultFields, 0) == FieldsTypeOnly(cmp, sourceFields, resultFields, i)
      {
        var fieldOnly := TypeOnlyCoercion(cmp, sourceFields[i].fieldType, resultFields[i].fieldType);
        if !fieldOnly {
          return false;
        }
      }
      return true;
    }

    /** The loop of isTypeOnlyCoercion over the type parameters of two arrays or two maps. */
    method ParametersAreTypeOnly(source: Type, result: Type) returns (r: bool)
      requires (source.Array? && result.Array?) || (source.Map? && result.Map?)
      ensures r == ParametersTypeOnly(isComparableOperator, source, result)
    {
      var cmp := isComparableOperator;
      var sourceParameters := Parameters(source);
      var resultParameters := Parameters(result);
      for i := 0 to |sourceParameters|
        invariant forall k :: 0 <= k < i ==> TypeOnlyCoercion(cmp, sourceParameters[k], resultParameters[k])
      {
        var parameterOnly := TypeOnlyCoercion(cmp, sourceParameters[i], resultParameters[i]);
        if !parameterOnly {
          return false;
        }
      }
      if source.Array? {
        assert TypeOnlyCoercion(cmp, source.element, result.element) by {
          assert sourceParameters[0] == source.element && resultParameters[0] == result.element;
        }
      } else {
        assert TypeOnlyCoercion(cmp, source.key, result.key) by {
          assert sourceParameters[0] == source.key && resultParameters[0] == result.key;
        }
        assert TypeOnlyCoercion(cmp, source.value, result.value) by {
          assert sourceParameters[1] == source.value && resultParameters[1] == result.value;
        }
      }
      return true;
    }
  }
}
