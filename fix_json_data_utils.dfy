/**
 * FixJsonDataUtils: the client-side pass that turns the values Jackson decoded from a query
 * result (strings, numbers, booleans, lists and maps) into the Java objects each column's type
 * calls for: longs, ints, shorts and bytes for the integer types, strings for the textual types,
 * lists, maps and rows for the structural types, and decoded bytes for everything else.
 */
module FixJsonDataUtils {
  import opened Wrappers
  import opened Exceptions
  import JavaInts
  import Texts

  // ---------------------------------------------------------------------------
  // Inputs and outputs.

  /** A value as Jackson hands it over; numbers are the integral ones (Integer, Long, BigInteger). */
  datatype JsonValue =
    | JNull
    | JString(text: string)
    | JNumber(number: int)
    | JBoolean(boolValue: bool)
    | JList(elements: seq<JsonValue>)
      /** A JSON object, its keys in document order. */
    | JObject(entries: seq<(string, JsonValue)>)

  /** A client type signature: the raw type name and its parameters. */
  datatype ClientTypeSignature = ClientTypeSignature(rawType: string, arguments: seq<ClientParameter>)

  datatype ClientParameter =
    | TypeArgument(typeSignature: ClientTypeSignature)
    | NamedTypeArgument(name: Option<string>, typeSignature: ClientTypeSignature)
    | LongArgument(long: JavaInts.Long)
    | VariableArgument(variable: string)

  /** A result column: its name and type. */
  datatype Column = Column(name: string, typeSignature: ClientTypeSignature)

  /** A field of a Row: named (addField) or unnamed (addUnnamedField). */
  datatype RowField = RowField(name: Option<string>, value: Fixed)

  /** The object fixValue returns. */
  datatype Fixed =
    | FNull
    | FLong(longValue: JavaInts.Long)
    | FInt(intValue: JavaInts.Int)
    | FShort(shortValue: JavaInts.Short)
    | FByte(byteValue: JavaInts.JavaByte)
    | FBoolean(boolValue: bool)
    | FString(text: string)
    | FBytes(bytes: seq<Texts.Byte>)
      /** The DOUBLE or REAL conversion of the value, which the model does not compute. */
    | FFloating(rawType: string, source: JsonValue)
    | FList(elements: seq<Fixed>)
    | FMap(entries: map<Fixed, Fixed>)
    | FRow(fields: seq<RowField>)
      /** The value itself, returned as it came. */
    | FUnchanged(value: JsonValue)

  /** java.util.Base64's basic decoder, which is not part of this model. */
  type Base64Decoder = string -> Result<seq<Texts.Byte>, Exception>

  // ---------------------------------------------------------------------------
  // Type names (ClientStandardTypes).

  const ARRAY := "array"
  const MAP := "map"
  const ROW := "row"
  const BIGINT := "bigint"
  const INTEGER := "integer"
  const SMALLINT := "smallint"
  const TINYINT := "tinyint"
  const DOUBLE := "double"
  const REAL := "real"
  const BOOLEAN := "boolean"
  const BING_TILE := "BingTile"

  /** The types whose values pass through as strings. */
  predicate IsStringFamily(rawType: string)
  {
    rawType in {"varchar", "json", "time", "time with time zone", "timestamp", "timestamp with time zone",
                "date", "interval year to month", "interval day to second", "ipaddress", "uuid", "decimal",
                "char", "Geometry", "SphericalGeography"}
  }

  /** The types the switch names; any other scalar type is treated as base64 binary. */
  predicate IsNamedScalar(rawType: string)
  {
    rawType in {BIGINT, INTEGER, SMALLINT, TINYINT, DOUBLE, REAL, BOOLEAN, BING_TILE} || IsStringFamily(rawType)
  }

  // ---------------------------------------------------------------------------
  // Narrowing and parsing numbers.

  predicate AllDigits(t: string)
  {
    forall i :: 0 <= i < |t| ==> Texts.IsDigit(t[i])
  }

  /**
   * Long.parseLong, Integer.parseInt, Short.parseShort and Byte.parseByte in radix 10: an optional
   * sign and at least one ASCII digit, and a value in the type's range.
   */
  function ParseJavaInteger(s: string, min: int, max: int): (r: Result<int, Exception>)
    ensures r.Ok? ==> min <= r.value <= max
    ensures r.Err? ==> r.error == NumberFormat(s)
  {
    var parsed :=
      if |s| >= 2 && s[0] == '+' && AllDigits(s[1..]) then (var m: int := Texts.DecimalValue(s[1..]); Some(m))
      else Texts.ParseInt(s);
    if parsed.Some? && min <= parsed.value <= max then Ok(parsed.value) else Err(NumberFormat(s))
  }

  /** The decimal text of an in-range number parses back to it. */
  lemma ParseJavaIntegerOfText(x: int, min: int, max: int)
    requires min <= x <= max
    ensures ParseJavaInteger(Texts.IntToString(x), min, max) == Ok(x)
  {
    var s := Texts.IntToString(x);
    Texts.ParseIntOfIntToString(x);
    assert !(s[0] == '+');
  }

  /** The decimal text of an out-of-range number fails to parse. */
  lemma ParseJavaIntegerOutOfRange(x: int, min: int, max: int)
    requires x < min || max < x
    ensures ParseJavaInteger(Texts.IntToString(x), min, max) == Err(NumberFormat(Texts.IntToString(x)))
  {
    ParseJavaIntegerOfText(x, x, x);
  }

  // ---------------------------------------------------------------------------
  // fixValue: the scalar types.

  /** The switch on the raw type for every type other than ARRAY, MAP and ROW (value not null). */
  function FixScalar(rawType: string, value: JsonValue, decode: Base64Decoder): (r: Result<Fixed, Exception>)
    requires !value.JNull?
    ensures IsStringFamily(rawType) ==> (r.Ok? <==> value.JString?) && (r.Ok? ==> r.value == FString(value.text))
    ensures rawType == BIGINT && value.JNumber? ==> r == Ok(FLong(JavaInts.ToLong(value.number)))
    ensures rawType == BIGINT && value.JString? ==>
      (r.Ok? <==> ParseJavaInteger(value.text, JavaInts.LONG_MIN, JavaInts.LONG_MAX).Ok?)
    ensures rawType == BING_TILE ==> r == Ok(FUnchanged(value))
    ensures rawType == BOOLEAN && value.JString? ==> r == Ok(FBoolean(Texts.EqualsIgnoreCase(value.text, "true")))
    ensures !IsNamedScalar(rawType) && !value.JString? ==> r == Ok(FUnchanged(value))
    ensures !IsNamedScalar(rawType) && value.JString? ==>
      (r.Ok? <==> decode(value.text).Ok?) && (r.Ok? ==> r.value == FBytes(decode(value.text).value))
  {
    if rawType == BIGINT then
      if value.JString? then
        match ParseJavaInteger(value.text, JavaInts.LONG_MIN, JavaInts.LONG_MAX)
        case Ok(n) => Ok(FLong(n))
        case Err(e) => Err(e)
      else if value.JNumber? then Ok(FLong(JavaInts.ToLong(value.number)))
      else Err(ClassCast("java.lang.Number"))
    else if rawType == INTEGER then
      if value.JString? then
        match ParseJavaInteger(value.text, -0x8000_0000, 0x7FFF_FFFF)
        case Ok(n) => Ok(FInt(n))
        case Err(e) => Err(e)
      else if value.JNumber? then Ok(FInt(JavaInts.ToInt(value.number)))
      else Err(ClassCast("java.lang.Number"))
    else if rawType == SMALLINT then
      if value.JString? then
        match ParseJavaInteger(value.text, -0x8000, 0x7FFF)
        case Ok(n) => Ok(FShort(n))
        case Err(e) => Err(e)
      else if value.JNumber? then Ok(FShort(JavaInts.ToShort(value.number)))
      else Err(ClassCast("java.lang.Number"))
    else if rawType == TINYINT then
      if value.JString? then
        match ParseJavaInteger(value.text, -0x80, 0x7F)
        case Ok(n) => Ok(FByte(n))
        case Err(e) => Err(e)
      else if value.JNumber? then Ok(FByte(JavaInts.ToByte(value.number)))
      else Err(ClassCast("java.lang.Number"))
    else if rawType == DOUBLE || rawType == REAL then
      Ok(FFloating(rawType, value))
    else if rawType == BOOLEAN then
      if value.JString? then Ok(FBoolean(Texts.EqualsIgnoreCase(value.text, "true")))
      else if value.JBoolean? then Ok(FBoolean(value.boolValue))
      else Err(ClassCast("java.lang.Boolean"))
    else if IsStringFamily(rawType) then
      if value.JString? then Ok(FString(value.text)) else Err(ClassCast("java.lang.String"))
    else if rawType == BING_TILE then
      Ok(FUnchanged(value))
    else if value.JString? then
      match decode(value.text)
      case Ok(bytes) => Ok(FBytes(bytes))
      case Err(e) => Err(e)
    else Ok(FUnchanged(value))
  }

  /** A BIGINT given as decimal text is its number; an INTEGER, SMALLINT or TINYINT likewise when in range. */
  lemma IntegerTextRoundTrip(x: int, decode: Base64Decoder)
    ensures JavaInts.LONG_MIN <= x <= JavaInts.LONG_MAX ==>
      FixScalar(BIGINT, JString(Texts.IntToString(x)), decode) == Ok(FLong(x))
    ensures -0x8000_0000 <= x <= 0x7FFF_FFFF ==> FixScalar(INTEGER, JString(Texts.IntToString(x)), decode) == Ok(FInt(x))
    ensures -0x8000 <= x <= 0x7FFF ==> FixScalar(SMALLINT, JString(Texts.IntToString(x)), decode) == Ok(FShort(x))
    ensures -0x80 <= x <= 0x7F ==> FixScalar(TINYINT, JString(Texts.IntToString(x)), decode) == Ok(FByte(x))
  {
    if JavaInts.LONG_MIN <= x <= JavaInts.LONG_MAX { ParseJavaIntegerOfText(x, JavaInts.LONG_MIN, JavaInts.LONG_MAX); }
    if -0x8000_0000 <= x <= 0x7FFF_FFFF { ParseJavaIntegerOfText(x, -0x8000_0000, 0x7FFF_FFFF); }
    if -0x8000 <= x <= 0x7FFF { ParseJavaIntegerOfText(x, -0x8000, 0x7FFF); }
    if -0x80 <= x <= 0x7F { ParseJavaIntegerOfText(x, -0x80, 0x7F); }
  }

  /** A text for a narrow integer type that is out of its range is rejected, not wrapped. */
  lemma NarrowTextOutOfRange(x: int, decode: Base64Decoder)
    requires x < -0x80 || 0x7F < x
    ensures FixScalar(TINYINT, JString(Texts.IntToString(x)), decode) == Err(NumberFormat(Texts.IntToString(x)))
  {
    ParseJavaIntegerOutOfRange(x, -0x80, 0x7F);
  }

  // ---------------------------------------------------------------------------
  // fixValue: the structural types.

  /** getArgumentsAsTypeSignatures succeeds: every parameter is a type. */
  predicate AllTypeArguments(sig: ClientTypeSignature)
  {
    forall i :: 0 <= i < |sig.arguments| ==> sig.arguments[i].TypeArgument?
  }

  /** getArgumentsAsTypeSignatures, which is not part of this model, fails on any other parameter. */
  const NotAllTypes: Exception := IllegalArgument("Expected all parameters to be TypeSignatures")

  /** ClientTypeSignatureParameter.toString, which is not part of this model: a stand-in text. */
  function ParameterText(p: ClientParameter): string
  {
    match p
    case TypeArgument(t) => t.rawType
    case NamedTypeArgument(name, t) => (if name.Some? then name.value + " " else "") + t.rawType
    case LongArgument(n) => Texts.IntToString(n)
    case VariableArgument(v) => v
  }

  /** fixValue. */
  function FixValue(sig: ClientTypeSignature, value: JsonValue, decode: Base64Decoder): (r: Result<Fixed, Exception>)
    ensures value.JNull? ==> r == Ok(FNull)
    ensures sig.rawType == ARRAY && r.Ok? && !value.JNull? ==> value.JList? && r.value.FList?
    ensures sig.rawType == ROW && r.Ok? && !value.JNull? ==>
      value.JList? && |value.elements| == |sig.arguments| && r.value.FRow?
    ensures sig.rawType == MAP && r.Ok? && !value.JNull? ==> value.JObject? && r.value.FMap?
    decreases sig, 1, 0
  {
    if value.JNull? then Ok(FNull)
    else if sig.rawType == ARRAY then
      if !value.JList? then Err(ClassCast("java.util.List"))
      else
        match FixElements(sig, value.elements, |value.elements|, decode)
        case Ok(elements) => Ok(FList(elements))
        case Err(e) => Err(e)
    else if sig.rawType == MAP then
      if !AllTypeArguments(sig) then Err(NotAllTypes)
      else if |sig.arguments| < 1 then Err(IndexOutOfBounds(0))
      else if |sig.arguments| < 2 then Err(IndexOutOfBounds(1))
      else if !value.JObject? then Err(ClassCast("java.util.Map"))
      else
        match FixEntries(sig, value.entries, |value.entries|, decode)
        case Ok(entries) => Ok(FMap(entries))
        case Err(e) => Err(e)
    else if sig.rawType == ROW then
      if !value.JList? then Err(ClassCast("java.util.List"))
      else if |value.elements| != |sig.arguments| then Err(IllegalArgument("Mismatched data values and row type"))
      else
        match FixFields(sig, value.elements, |value.elements|, decode)
        case Ok(fields) => Ok(FRow(fields))
        case Err(e) => Err(e)
    else FixScalar(sig.rawType, value, decode)
  }

  /** The fixed first n elements of an array, the element type fetched for each element. */
  function FixElements(sig: ClientTypeSignature, values: seq<JsonValue>, n: nat, decode: Base64Decoder)
    : (r: Result<seq<Fixed>, Exception>)
    requires n <= |values|
    ensures r.Ok? ==> |r.value| == n
    decreases sig, 0, n
  {
    if n == 0 then Ok([])
    else
      match FixElements(sig, values, n - 1, decode)
      case Err(e) => Err(e)
      case Ok(fixed) =>
        if !AllTypeArguments(sig) then Err(NotAllTypes)
        else if |sig.arguments| == 0 then Err(IndexOutOfBounds(0))
        else
          match FixValue(sig.arguments[0].typeSignature, values[n - 1], decode)
          case Err(e) => Err(e)
          case Ok(v) => Ok(fixed + [v])
  }

  /** The map after putting the first n fixed entries, key fixed before value. */
  function FixEntries(sig: ClientTypeSignature, entries: seq<(string, JsonValue)>, n: nat, decode: Base64Decoder)
    : (r: Result<map<Fixed, Fixed>, Exception>)
    requires n <= |entries| && AllTypeArguments(sig) && |sig.arguments| >= 2
    ensures r.Ok? ==> |r.value| <= n
    decreases sig, 0, n
  {
    if n == 0 then Ok(map[])
    else
      match FixEntries(sig, entries, n - 1, decode)
      case Err(e) => Err(e)
      case Ok(m) =>
        match FixValue(sig.arguments[0].typeSignature, JString(entries[n - 1].0), decode)
        case Err(e) => Err(e)
        case Ok(key) =>
          match FixValue(sig.arguments[1].typeSignature, entries[n - 1].1, decode)
          case Err(e) => Err(e)
          case Ok(v) => Ok(m[key := v])
  }

  /** The error for a row parameter that is not a named type. */
  function UnexpectedParameter(p: ClientParameter): Exception
  {
    IllegalArgument("Unexpected parameter [" + ParameterText(p) + "] for row type")
  }

  /** The first n fields of a row, each parameter checked to be a named type before its value is fixed. */
  function FixFields(sig: ClientTypeSignature, values: seq<JsonValue>, n: nat, decode: Base64Decoder)
    : (r: Result<seq<RowField>, Exception>)
    requires n <= |values| == |sig.arguments|
    ensures r.Ok? ==> |r.value| == n
    decreases sig, 0, n
  {
    if n == 0 then Ok([])
    else
      match FixFields(sig, values, n - 1, decode)
      case Err(e) => Err(e)
      case Ok(fields) =>
        var parameter := sig.arguments[n - 1];
        if !parameter.NamedTypeArgument? then Err(UnexpectedParameter(parameter))
        else
          match FixValue(parameter.typeSignature, values[n - 1], decode)
          case Err(e) => Err(e)
          case Ok(v) => Ok(fields + [RowField(parameter.name, v)])
  }

  // ---------------------------------------------------------------------------
  // What the structural cases compute.

  /** Once an element fails, the array fails with that error. */
  lemma {:induction false} FixElementsErrorPersists(sig: ClientTypeSignature, values: seq<JsonValue>, n: nat, m: nat,
                                                    decode: Base64Decoder)
    requires n <= m <= |values| && FixElements(sig, values, n, decode).Err?
    ensures FixElements(sig, values, m, decode) == FixElements(sig, values, n, decode)
    decreases m
  {
    if m > n {
      FixElementsErrorPersists(sig, values, n, m - 1, decode);
    }
  }

  /** A successful array fixed every element with the first type argument, keeping the order. */
  lemma {:induction false} FixElementsValues(sig: ClientTypeSignature, values: seq<JsonValue>, n: nat,
                                             decode: Base64Decoder)
    requires 0 < n <= |values| && FixElements(sig, values, n, decode).Ok?
    ensures AllTypeArguments(sig) && |sig.arguments| >= 1
    ensures forall i :: 0 <= i < n ==>
      FixValue(sig.arguments[0].typeSignature, values[i], decode).Ok?
      && FixElements(sig, values, n, decode).value[i] == FixValue(sig.arguments[0].typeSignature, values[i], decode).value
    decreases n
  {
    if n > 1 {
      FixElementsValues(sig, values, n - 1, decode);
    }
  }

  /** The array fixes when the type argument is there and every element fixes. */
  lemma {:induction false} FixElementsSucceed(sig: ClientTypeSignature, values: seq<JsonValue>, n: nat,
                                              decode: Base64Decoder)
    requires n <= |values| && AllTypeArguments(sig) && |sig.arguments| >= 1
    requires forall i :: 0 <= i < n ==> FixValue(sig.arguments[0].typeSignature, values[i], decode).Ok?
    ensures FixElements(sig, values, n, decode).Ok?
    decreases n
  {
    if n > 0 {
      FixElementsSucceed(sig, values, n - 1, decode);
    }
  }

  /** An ARRAY fixes exactly when every element fixes with the type argument. */
  predicate ElementsFix(sig: ClientTypeSignature, values: seq<JsonValue>, decode: Base64Decoder)
  {
    AllTypeArguments(sig) && |sig.arguments| >= 1
    && forall i :: 0 <= i < |values| ==> FixValue(sig.arguments[0].typeSignature, values[i], decode).Ok?
  }

  /**
   * ARRAY values are fixed elementwise, keeping their length and order; a non-empty array fixes
   * exactly when each element does, and an empty one always does.
   */
  lemma ArrayFixedElementwise(sig: ClientTypeSignature, values: seq<JsonValue>, decode: Base64Decoder)
    requires sig.rawType == ARRAY
    ensures FixValue(sig, JList(values), decode).Ok? <==> values == [] || ElementsFix(sig, values, decode)
    ensures var r := FixValue(sig, JList(values), decode);
      r.Ok? ==>
        |r.value.elements| == |values|
        && forall i :: 0 <= i < |values| ==>
             r.value.elements[i] == FixValue(sig.arguments[0].typeSignature, values[i], decode).value
  {
    if FixValue(sig, JList(values), decode).Ok? && values != [] {
      FixElementsValues(sig, values, |values|, decode);
    }
    if ElementsFix(sig, values, decode) {
      FixElementsSucceed(sig, values, |values|, decode);
    }
  }

  /** Once a row field fails, the row fails with that error. */
  lemma {:induction false} FixFieldsErrorPersists(sig: ClientTypeSignature, values: seq<JsonValue>, n: nat, m: nat,
                                                  decode: Base64Decoder)
    requires n <= m <= |values| == |sig.arguments| && FixFields(sig, values, n, decode).Err?
    ensures FixFields(sig, values, m, decode) == FixFields(sig, values, n, decode)
    decreases m
  {
    if m > n {
      FixFieldsErrorPersists(sig, values, n, m - 1, decode);
    }
  }

  /** The fields of a fixed row: one per parameter, named as the parameter is, holding the fixed value. */
  lemma {:induction false} FixFieldsFieldwise(sig: ClientTypeSignature, values: seq<JsonValue>, n: nat, decode: Base64Decoder)
    requires n <= |values| == |sig.arguments|
    ensures var r := FixFields(sig, values, n, decode);
      r.Ok? ==> forall i :: 0 <= i < n ==>
        sig.arguments[i].NamedTypeArgument?
        && FixValue(sig.arguments[i].typeSignature, values[i], decode).Ok?
        && r.value[i] == RowField(sig.arguments[i].name, FixValue(sig.arguments[i].typeSignature, values[i], decode).value)
    decreases n
  {
    if n > 0 {
      FixFieldsFieldwise(sig, values, n - 1, decode);
    }
  }

  /** Every row field fixes when every parameter is a named type and every value fixes. */
  lemma {:induction false} FixFieldsSucceed(sig: ClientTypeSignature, values: seq<JsonValue>, n: nat, decode: Base64Decoder)
    requires n <= |values| == |sig.arguments|
    requires forall i :: 0 <= i < n ==>
      sig.arguments[i].NamedTypeArgument? && FixValue(sig.arguments[i].typeSignature, values[i], decode).Ok?
    ensures FixFields(sig, values, n, decode).Ok?
    decreases n
  {
    if n > 0 {
      FixFieldsSucceed(sig, values, n - 1, decode);
    }
  }

  /**
   * A ROW value must have one element per parameter and every parameter must be a named type;
   * the fields keep the parameters' names (or their absence) and hold the fixed values.
   */
  lemma RowFixedFieldwise(sig: ClientTypeSignature, values: seq<JsonValue>, decode: Base64Decoder)
    requires sig.rawType == ROW
    ensures |values| != |sig.arguments| ==>
      FixValue(sig, JList(values), decode) == Err(IllegalArgument("Mismatched data values and row type"))
    ensures var r := FixValue(sig, JList(values), decode);
      r.Ok? ==> |r.value.fields| == |values| && forall i :: 0 <= i < |values| ==>
        sig.arguments[i].NamedTypeArgument? && FixValue(sig.arguments[i].typeSignature, values[i], decode).Ok?
        && r.value.fields[i] == RowField(sig.arguments[i].name, FixValue(sig.arguments[i].typeSignature, values[i], decode).value)
    ensures |values| == |sig.arguments| && (forall i :: 0 <= i < |values| ==>
        sig.arguments[i].NamedTypeArgument? && FixValue(sig.arguments[i].typeSignature, values[i], decode).Ok?)
      ==> FixValue(sig, JList(values), decode).Ok?
  {
    if |values| == |sig.arguments| {
      FixFieldsFieldwise(sig, values, |values|, decode);
      if forall i :: 0 <= i < |values| ==>
          sig.arguments[i].NamedTypeArgument? && FixValue(sig.arguments[i].typeSignature, values[i], decode).Ok? {
        FixFieldsSucceed(sig, values, |values|, decode);
      }
    }
  }

  /** The fixed key and value of entry i of a map. */
  function FixedKey(sig: ClientTypeSignature, entries: seq<(string, JsonValue)>, i: nat, decode: Base64Decoder)
    : Result<Fixed, Exception>
    requires i < |entries| && |sig.arguments| >= 2 && AllTypeArguments(sig)
  {
    FixValue(sig.arguments[0].typeSignature, JString(entries[i].0), decode)
  }

  function FixedEntryValue(sig: ClientTypeSignature, entries: seq<(string, JsonValue)>, i: nat, decode: Base64Decoder)
    : Result<Fixed, Exception>
    requires i < |entries| && |sig.arguments| >= 2 && AllTypeArguments(sig)
  {
    FixValue(sig.arguments[1].typeSignature, entries[i].1, decode)
  }

  /** One put: a successful map of n entries is the map of the first n - 1 with entry n - 1 put. */
  lemma FixEntriesStep(sig: ClientTypeSignature, entries: seq<(string, JsonValue)>, n: nat, decode: Base64Decoder)
    requires 0 < n <= |entries| && AllTypeArguments(sig) && |sig.arguments| >= 2
    requires FixEntries(sig, entries, n, decode).Ok?
    ensures FixEntries(sig, entries, n - 1, decode).Ok?
    ensures FixedKey(sig, entries, n - 1, decode).Ok? && FixedEntryValue(sig, entries, n - 1, decode).Ok?
    ensures FixEntries(sig, entries, n, decode).value
         == FixEntries(sig, entries, n - 1, decode).value[FixedKey(sig, entries, n - 1, decode).value
              := FixedEntryValue(sig, entries, n - 1, decode).value]
  {
  }

  /** A successful map fixed every key and every value. */
  lemma {:induction false} FixEntriesAllFix(sig: ClientTypeSignature, entries: seq<(string, JsonValue)>, n: nat,
                                            decode: Base64Decoder)
    requires n <= |entries| && AllTypeArguments(sig) && |sig.arguments| >= 2
    ensures FixEntries(sig, entries, n, decode).Ok? ==>
      forall i :: 0 <= i < n ==> FixedKey(sig, entries, i, decode).Ok? && FixedEntryValue(sig, entries, i, decode).Ok?
    decreases n
  {
    if n > 0 {
      FixEntriesAllFix(sig, entries, n - 1, decode);
    }
  }

  /** Every one of the first n keys fixes. */
  predicate KeysFix(sig: ClientTypeSignature, entries: seq<(string, JsonValue)>, n: nat, decode: Base64Decoder)
    requires n <= |entries| && AllTypeArguments(sig) && |sig.arguments| >= 2
  {
    forall i :: 0 <= i < n ==> FixedKey(sig, entries, i, decode).Ok?
  }

  /** The fixed keys of the first n entries. */
  function FixedKeys(sig: ClientTypeSignature, entries: seq<(string, JsonValue)>, n: nat, decode: Base64Decoder): set<Fixed>
    requires n <= |entries| && AllTypeArguments(sig) && |sig.arguments| >= 2 && KeysFix(sig, entries, n, decode)
  {
    set i | 0 <= i < n :: FixedKey(sig, entries, i, decode).value
  }

  lemma FixedKeysStep(sig: ClientTypeSignature, entries: seq<(string, JsonValue)>, n: nat, decode: Base64Decoder)
    requires 0 < n <= |entries| && AllTypeArguments(sig) && |sig.arguments| >= 2 && KeysFix(sig, entries, n, decode)
    ensures KeysFix(sig, entries, n - 1, decode)
    ensures FixedKeys(sig, entries, n, decode) == FixedKeys(sig, entries, n - 1, decode) + {FixedKey(sig, entries, n - 1, decode).value}
  {
    assert KeysFix(sig, entries, n - 1, decode);
    var key := FixedKey(sig, entries, n - 1, decode).value;
    forall x | x in FixedKeys(sig, entries, n, decode)
      ensures x in FixedKeys(sig, entries, n - 1, decode) + {key}
    {
      var i :| 0 <= i < n && FixedKey(sig, entries, i, decode).value == x;
      if i < n - 1 {
        assert x in FixedKeys(sig, entries, n - 1, decode);
      }
    }
  }

  /** The fixed map's keys are exactly the fixed keys of the entries. */
  lemma {:induction false} FixEntriesKeys(sig: ClientTypeSignature, entries: seq<(string, JsonValue)>, n: nat,
                                          decode: Base64Decoder)
    requires n <= |entries| && AllTypeArguments(sig) && |sig.arguments| >= 2
    requires FixEntries(sig, entries, n, decode).Ok?
    ensures KeysFix(sig, entries, n, decode)
    ensures FixEntries(sig, entries, n, decode).value.Keys == FixedKeys(sig, entries, n, decode)
    decreases n
  {
    FixEntriesAllFix(sig, entries, n, decode);
    assert KeysFix(sig, entries, n, decode);
    if n > 0 {
      FixEntriesStep(sig, entries, n, decode);
      FixEntriesKeys(sig, entries, n - 1, decode);
      FixedKeysStep(sig, entries, n, decode);
    }
  }

  /** Entry i is the last of the first n entries whose key fixes to its key. */
  predicate LastWithKey(sig: ClientTypeSignature, entries: seq<(string, JsonValue)>, n: nat, i: nat, decode: Base64Decoder)
    requires i < n <= |entries| && AllTypeArguments(sig) && |sig.arguments| >= 2
  {
    forall j :: i < j < n ==> FixedKey(sig, entries, j, decode) != FixedKey(sig, entries, i, decode)
  }

  /** Under each key sits the fixed value of the last entry with that key: a later put replaces an earlier one. */
  lemma {:induction false} FixEntriesLastWins(sig: ClientTypeSignature, entries: seq<(string, JsonValue)>, n: nat, i: nat,
                                              decode: Base64Decoder)
    requires i < n <= |entries| && AllTypeArguments(sig) && |sig.arguments| >= 2
    requires FixEntries(sig, entries, n, decode).Ok? && LastWithKey(sig, entries, n, i, decode)
    ensures FixedKey(sig, entries, i, decode).Ok? && FixedEntryValue(sig, entries, i, decode).Ok?
    ensures FixedKey(sig, entries, i, decode).value in FixEntries(sig, entries, n, decode).value
    ensures FixEntries(sig, entries, n, decode).value[FixedKey(sig, entries, i, decode).value]
         == FixedEntryValue(sig, entries, i, decode).value
    decreases n
  {
    FixEntriesAllFix(sig, entries, n, decode);
    FixEntriesStep(sig, entries, n, decode);
    if i < n - 1 {
      assert FixedKey(sig, entries, n - 1, decode) != FixedKey(sig, entries, i, decode);
      assert LastWithKey(sig, entries, n - 1, i, decode);
      FixEntriesLastWins(sig, entries, n - 1, i, decode);
    }
  }

  /** A later entry whose key fixes to the same key hides an earlier one. */
  lemma FixEntriesDuplicateKey(sig: ClientTypeSignature, entries: seq<(string, JsonValue)>, decode: Base64Decoder)
    requires |entries| == 2 && AllTypeArguments(sig) && |sig.arguments| >= 2
    requires FixEntries(sig, entries, 2, decode).Ok? && FixedKey(sig, entries, 0, decode) == FixedKey(sig, entries, 1, decode)
    ensures FixEntries(sig, entries, 2, decode).value
         == map[FixedKey(sig, entries, 1, decode).value := FixedEntryValue(sig, entries, 1, decode).value]
  {
    FixEntriesStep(sig, entries, 2, decode);
    FixEntriesStep(sig, entries, 1, decode);
  }

  // ---------------------------------------------------------------------------
  // fixData.

  /** The fixed first n cells of a row, cell i with column i's type. */
  function FixCells(signatures: seq<ClientTypeSignature>, row: seq<JsonValue>, n: nat, decode: Base64Decoder)
    : (r: Result<seq<Fixed>, Exception>)
    requires n <= |row| == |signatures|
    ensures r.Ok? ==> |r.value| == n
  {
    if n == 0 then Ok([])
    else
      match FixCells(signatures, row, n - 1, decode)
      case Err(e) => Err(e)
      case Ok(cells) =>
        match FixValue(signatures[n - 1], row[n - 1], decode)
        case Err(e) => Err(e)
        case Ok(v) => Ok(cells + [v])
  }

  /** The fixed first n rows; each row must have one cell per column. */
  function FixRows(signatures: seq<ClientTypeSignature>, data: seq<seq<JsonValue>>, n: nat, decode: Base64Decoder)
    : (r: Result<seq<seq<Fixed>>, Exception>)
    requires n <= |data|
    ensures r.Ok? ==> |r.value| == n
  {
    if n == 0 then Ok([])
    else
      match FixRows(signatures, data, n - 1, decode)
      case Err(e) => Err(e)
      case Ok(rows) =>
        if |data[n - 1]| != |signatures| then Err(IllegalArgument("row/column size mismatch"))
        else
          match FixCells(signatures, data[n - 1], |data[n - 1]|, decode)
          case Err(e) => Err(e)
          case Ok(cells) => Ok(rows + [cells])
  }

  function Signatures(columns: seq<Column>): (signatures: seq<ClientTypeSignature>)
    ensures |signatures| == |columns|
    ensures forall i :: 0 <= i < |columns| ==> signatures[i] == columns[i].typeSignature
  {
    seq(|columns|, i requires 0 <= i < |columns| => columns[i].typeSignature)
  }

  /** fixData: no data stays no data. */
  function FixData(columns: seq<Column>, data: Option<seq<seq<JsonValue>>>, decode: Base64Decoder)
    : (r: Result<Option<seq<seq<Fixed>>>, Exception>)
    ensures data.None? ==> r == Ok(None)
    ensures data.Some? && r.Ok? ==> r.value.Some? && |r.value.value| == |data.value|
  {
    if data.None? then Ok(None)
    else
      match FixRows(Signatures(columns), data.value, |data.value|, decode)
      case Err(e) => Err(e)
      case Ok(rows) => Ok(Some(rows))
  }

  lemma {:induction false} FixCellsCellwise(signatures: seq<ClientTypeSignature>, row: seq<JsonValue>, n: nat,
                                            decode: Base64Decoder)
    requires n <= |row| == |signatures|
    ensures var r := FixCells(signatures, row, n, decode);
      r.Ok? ==> forall i :: 0 <= i < n ==>
        FixValue(signatures[i], row[i], decode).Ok? && r.value[i] == FixValue(signatures[i], row[i], decode).value
    decreases n
  {
    var r := FixCells(signatures, row, n, decode);
    if n > 0 && r.Ok? {
      FixCellsCellwise(signatures, row, n - 1, decode);
      FixCellsStep(signatures, row, n, decode);
      var previous := FixCells(signatures, row, n - 1, decode).value;
      forall i | 0 <= i < n
        ensures FixValue(signatures[i], row[i], decode).Ok? && r.value[i] == FixValue(signatures[i], row[i], decode).value
      {
        if i < n - 1 {
          assert r.value[i] == previous[i];
        }
      }
    }
  }

  /** One more cell: the prefix's error, the cell's error, or the prefix extended by the fixed cell. */
  lemma FixCellsNext(signatures: seq<ClientTypeSignature>, row: seq<JsonValue>, i: nat, decode: Base64Decoder)
    requires i < |row| == |signatures|
    ensures var previous, cell := FixCells(signatures, row, i, decode), FixValue(signatures[i], row[i], decode);
      FixCells(signatures, row, i + 1, decode)
        == if previous.Err? then previous
           else if cell.Err? then Err(cell.error)
           else Ok(previous.value + [cell.value])
  {
  }

  /** A fixed prefix of n cells is the fixed prefix of n - 1 cells and the fixed last one. */
  lemma FixCellsStep(signatures: seq<ClientTypeSignature>, row: seq<JsonValue>, n: nat, decode: Base64Decoder)
    requires 0 < n <= |row| == |signatures| && FixCells(signatures, row, n, decode).Ok?
    ensures FixCells(signatures, row, n - 1, decode).Ok? && FixValue(signatures[n - 1], row[n - 1], decode).Ok?
    ensures FixCells(signatures, row, n, decode).value
         == FixCells(signatures, row, n - 1, decode).value + [FixValue(signatures[n - 1], row[n - 1], decode).value]
  {
  }

  /** Cell i of row k of the fixed data is column i's fixValue of the original cell. */
  predicate CellsFixed(signatures: seq<ClientTypeSignature>, row: seq<JsonValue>, cells: seq<Fixed>, decode: Base64Decoder)
  {
    |row| == |signatures| && |cells| == |signatures|
    && forall i :: 0 <= i < |signatures| ==>
         FixValue(signatures[i], row[i], decode).Ok? && cells[i] == FixValue(signatures[i], row[i], decode).value
  }

  /** One row: a successful n-row result is the (n - 1)-row result followed by row n - 1's cells. */
  lemma FixRowsStep(signatures: seq<ClientTypeSignature>, data: seq<seq<JsonValue>>, n: nat, decode: Base64Decoder)
    requires 0 < n <= |data| && FixRows(signatures, data, n, decode).Ok?
    ensures FixRows(signatures, data, n - 1, decode).Ok? && |data[n - 1]| == |signatures|
    ensures FixCells(signatures, data[n - 1], |data[n - 1]|, decode).Ok?
    ensures FixRows(signatures, data, n, decode).value
         == FixRows(signatures, data, n - 1, decode).value + [FixCells(signatures, data[n - 1], |data[n - 1]|, decode).value]
  {
  }

  lemma {:induction false} FixRowsRowwise(signatures: seq<ClientTypeSignature>, data: seq<seq<JsonValue>>, n: nat,
                                          decode: Base64Decoder)
    requires n <= |data|
    ensures var r := FixRows(signatures, data, n, decode);
      r.Ok? ==> forall k :: 0 <= k < n ==> CellsFixed(signatures, data[k], r.value[k], decode)
    decreases n
  {
    if n > 0 {
      FixRowsRowwise(signatures, data, n - 1, decode);
      var r := FixRows(signatures, data, n, decode);
      if r.Ok? {
        FixRowsStep(signatures, data, n, decode);
        var previous := FixRows(signatures, data, n - 1, decode).value;
        FixCellsCellwise(signatures, data[n - 1], |data[n - 1]|, decode);
        forall k | 0 <= k < n
          ensures CellsFixed(signatures, data[k], r.value[k], decode)
        {
          if k < n - 1 {
            assert r.value[k] == previous[k];
          }
        }
      }
    }
  }

  /**
   * Every row of fixed data has one cell per column, and cell i of row k is column i's fixValue of
   * the original cell.
   */
  lemma FixDataCellwise(columns: seq<Column>, data: seq<seq<JsonValue>>, decode: Base64Decoder)
    ensures var r := FixData(columns, Some(data), decode);
      r.Ok? ==> forall k :: 0 <= k < |data| ==>
        |data[k]| == |columns| && |r.value.value[k]| == |columns|
        && forall i :: 0 <= i < |columns| ==>
             FixValue(columns[i].typeSignature, data[k][i], decode).Ok?
             && r.value.value[k][i] == FixValue(columns[i].typeSignature, data[k][i], decode).value
  {
    FixRowsRowwise(Signatures(columns), data, |data|, decode);
  }

  /** The first row whose size differs from the column count, with every row before it fixing, fails the whole call. */
  lemma {:induction false} FixRowsSizeMismatch(signatures: seq<ClientTypeSignature>, data: seq<seq<JsonValue>>, n: nat,
                                               decode: Base64Decoder)
    requires 0 < n <= |data| && |data[n - 1]| != |signatures| && FixRows(signatures, data, n - 1, decode).Ok?
    ensures FixRows(signatures, data, |data|, decode) == Err(IllegalArgument("row/column size mismatch"))
  {
    FixRowsErrorPersists(signatures, data, n, |data|, decode);
  }

  lemma {:induction false} FixRowsErrorPersists(signatures: seq<ClientTypeSignature>, data: seq<seq<JsonValue>>,
                                                n: nat, m: nat, decode: Base64Decoder)
    requires n <= m <= |data| && FixRows(signatures, data, n, decode).Err?
    ensures FixRows(signatures, data, m, decode) == FixRows(signatures, data, n, decode)
    decreases m
  {
    if m > n {
      FixRowsErrorPersists(signatures, data, n, m - 1, decode);
    }
  }

  lemma {:induction false} FixCellsErrorPersists(signatures: seq<ClientTypeSignature>, row: seq<JsonValue>,
                                                 n: nat, m: nat, decode: Base64Decoder)
    requires n <= m <= |row| == |signatures| && FixCells(signatures, row, n, decode).Err?
    ensures FixCells(signatures, row, m, decode) == FixCells(signatures, row, n, decode)
    decreases m
  {
    if m > n {
      FixCellsErrorPersists(signatures, row, n, m - 1, decode);
    }
  }

  lemma {:induction false} FixEntriesErrorPersists(sig: ClientTypeSignature, entries: seq<(string, JsonValue)>,
                                                   n: nat, m: nat, decode: Base64Decoder)
    requires n <= m <= |entries| && AllTypeArguments(sig) && |sig.arguments| >= 2
    requires FixEntries(sig, entries, n, decode).Err?
    ensures FixEntries(sig, entries, m, decode) == FixEntries(sig, entries, n, decode)
    decreases m
  {
    if m > n {
      FixEntriesErrorPersists(sig, entries, n, m - 1, decode);
    }
  }

  // ---------------------------------------------------------------------------
  // The loops: fixValue building arrays, maps and rows by appending, one element at a time.

  // One more step of each prefix, for the loops below.

  lemma FixElementsNext(sig: ClientTypeSignature, values: seq<JsonValue>, i: nat, decode: Base64Decoder)
    requires i < |values|
    ensures var previous := FixElements(sig, values, i, decode);
      FixElements(sig, values, i + 1, decode)
        == if previous.Err? then previous
           else if !AllTypeArguments(sig) then Err(NotAllTypes)
           else if |sig.arguments| == 0 then Err(IndexOutOfBounds(0))
           else
             var v := FixValue(sig.arguments[0].typeSignature, values[i], decode);
             if v.Err? then Err(v.error) else Ok(previous.value + [v.value])
  {
  }

  lemma FixEntriesNext(sig: ClientTypeSignature, entries: seq<(string, JsonValue)>, i: nat, decode: Base64Decoder)
    requires i < |entries| && AllTypeArguments(sig) && |sig.arguments| >= 2
    ensures var previous := FixEntries(sig, entries, i, decode);
      var key := FixValue(sig.arguments[0].typeSignature, JString(entries[i].0), decode);
      var v := FixValue(sig.arguments[1].typeSignature, entries[i].1, decode);
      FixEntries(sig, entries, i + 1, decode)
        == if previous.Err? then previous
           else if key.Err? then Err(key.error)
           else if v.Err? then Err(v.error)
           else Ok(previous.value[key.value := v.value])
  {
  }

  lemma FixFieldsNext(sig: ClientTypeSignature, values: seq<JsonValue>, i: nat, decode: Base64Decoder)
    requires i < |values| == |sig.arguments|
    ensures var previous, parameter := FixFields(sig, values, i, decode), sig.arguments[i];
      FixFields(sig, values, i + 1, decode)
        == if previous.Err? then previous
           else if !parameter.NamedTypeArgument? then Err(UnexpectedParameter(parameter))
           else
             var v := FixValue(parameter.typeSignature, values[i], decode);
             if v.Err? then Err(v.error) else Ok(previous.value + [RowField(parameter.name, v.value)])
  {
  }

  lemma FixRowsNext(signatures: seq<ClientTypeSignature>, data: seq<seq<JsonValue>>, k: nat, decode: Base64Decoder)
    requires k < |data| && |data[k]| == |signatures|
    ensures var previous, cells := FixRows(signatures, data, k, decode), FixCells(signatures, data[k], |data[k]|, decode);
      FixRows(signatures, data, k + 1, decode)
        == if previous.Err? then previous
           else if cells.Err? then Err(cells.error)
           else Ok(previous.value + [cells.value])
  {
  }

  method FixValueOf(sig: ClientTypeSignature, value: JsonValue, decode: Base64Decoder) returns (r: Result<Fixed, Exception>)
    ensures r == FixValue(sig, value, decode)
    decreases sig, 1, 0
  {
    if value.JNull? {
      return Ok(FNull);
    }
    if sig.rawType == ARRAY {
      if !value.JList? {
        return Err(ClassCast("java.util.List"));
      }
      var elements := FixArray(sig, value.elements, decode);
      r := if elements.Ok? then Ok(FList(elements.value)) else Err(elements.error);
    } else if sig.rawType == MAP {
      if !AllTypeArguments(sig) {
        return Err(NotAllTypes);
      } else if |sig.arguments| < 1 {
        return Err(IndexOutOfBounds(0));
      } else if |sig.arguments| < 2 {
        return Err(IndexOutOfBounds(1));
      } else if !value.JObject? {
        return Err(ClassCast("java.util.Map"));
      }
      var entries := FixMap(sig, value.entries, decode);
      r := if entries.Ok? then Ok(FMap(entries.value)) else Err(entries.error);
    } else if sig.rawType == ROW {
      if !value.JList? {
        return Err(ClassCast("java.util.List"));
      }
      if |value.elements| != |sig.arguments| {
        return Err(IllegalArgument("Mismatched data values and row type"));
      }
      var fields := FixRow(sig, value.elements, decode);
      r := if fields.Ok? then Ok(FRow(fields.value)) else Err(fields.error);
    } else {
      r := FixScalar(sig.rawType, value, decode);
    }
  }

  method FixArray(sig: ClientTypeSignature, values: seq<JsonValue>, decode: Base64Decoder)
    returns (r: Result<seq<Fixed>, Exception>)
    ensures r == FixElements(sig, values, |values|, decode)
    decreases sig, 0, 0
  {
    var fixedValue: seq<Fixed> := [];
    var i := 0;
    while i < |values|
      invariant 0 <= i <= |values|
      invariant FixElements(sig, values, i, decode) == Ok(fixedValue)
    {
      if !AllTypeArguments(sig) {
        FixElementsErrorPersists(sig, values, i + 1, |values|, decode);
        return Err(NotAllTypes);
      }
      if |sig.arguments| == 0 {
        FixElementsErrorPersists(sig, values, i + 1, |values|, decode);
        return Err(IndexOutOfBounds(0));
      }
      var v := FixValueOf(sig.arguments[0].typeSignature, values[i], decode);
      FixElementsNext(sig, values, i, decode);
      if v.Err? {
        FixElementsErrorPersists(sig, values, i + 1, |values|, decode);
        return Err(v.error);
      }
      fixedValue := fixedValue + [v.value];
      i := i + 1;
    }
    r := Ok(fixedValue);
  }

  method FixMap(sig: ClientTypeSignature, entries: seq<(string, JsonValue)>, decode: Base64Decoder)
    returns (r: Result<map<Fixed, Fixed>, Exception>)
    requires AllTypeArguments(sig) && |sig.arguments| >= 2
    ensures r == FixEntries(sig, entries, |entries|, decode)
    decreases sig, 0, 0
  {
    var keySignature := sig.arguments[0].typeSignature;
    var valueSignature := sig.arguments[1].typeSignature;
    var fixedValue: map<Fixed, Fixed> := map[];
    var i := 0;
    while i < |entries|
      invariant 0 <= i <= |entries|
      invariant FixEntries(sig, entries, i, decode) == Ok(fixedValue)
    {
      var key := FixValueOf(keySignature, JString(entries[i].0), decode);
      FixEntriesNext(sig, entries, i, decode);
      if key.Err? {
        FixEntriesErrorPersists(sig, entries, i + 1, |entries|, decode);
        return Err(key.error);
      }
      var v := FixValueOf(valueSignature, entries[i].1, decode);
      if v.Err? {
        FixEntriesErrorPersists(sig, entries, i + 1, |entries|, decode);
        return Err(v.error);
      }
      fixedValue := fixedValue[key.value := v.value];
      i := i + 1;
    }
    r := Ok(fixedValue);
  }

  method FixRow(sig: ClientTypeSignature, values: seq<JsonValue>, decode: Base64Decoder)
    returns (r: Result<seq<RowField>, Exception>)
    requires |values| == |sig.arguments|
    ensures r == FixFields(sig, values, |values|, decode)
    decreases sig, 0, 0
  {
    var row: seq<RowField> := [];
    var i := 0;
    while i < |values|
      invariant 0 <= i <= |values|
      invariant FixFields(sig, values, i, decode) == Ok(row)
    {
      var parameter := sig.arguments[i];
      if !parameter.NamedTypeArgument? {
        FixFieldsErrorPersists(sig, values, i + 1, |values|, decode);
        return Err(UnexpectedParameter(parameter));
      }
      var v := FixValueOf(parameter.typeSignature, values[i], decode);
      FixFieldsNext(sig, values, i, decode);
      if v.Err? {
        FixFieldsErrorPersists(sig, values, i + 1, |values|, decode);
        return Err(v.error);
      }
      row := row + [RowField(parameter.name, v.value)];
      i := i + 1;
    }
    r := Ok(row);
  }

  /** fixData, row by row and cell by cell. */
  method FixDataOf(columns: seq<Column>, data: Option<seq<seq<JsonValue>>>, decode: Base64Decoder)
    returns (r: Result<Option<seq<seq<Fixed>>>, Exception>)
    ensures r == FixData(columns, data, decode)
  {
    if data.None? {
      return Ok(None);
    }
    var signatures := Signatures(columns);
    var rows: seq<seq<Fixed>> := [];
    var k := 0;
    while k < |data.value|
      invariant 0 <= k <= |data.value|
      invariant FixRows(signatures, data.value, k, decode) == Ok(rows)
    {
      var row := data.value[k];
      if |row| != |columns| {
        FixRowsErrorPersists(signatures, data.value, k + 1, |data.value|, decode);
        return Err(IllegalArgument("row/column size mismatch"));
      }
      var newRow := FixRowCells(signatures, row, decode);
      FixRowsNext(signatures, data.value, k, decode);
      if newRow.Err? {
        FixRowsErrorPersists(signatures, data.value, k + 1, |data.value|, decode);
        return Err(newRow.error);
      }
      rows := rows + [newRow.value];
      k := k + 1;
    }
    r := Ok(Some(rows));
  }

  method FixRowCells(signatures: seq<ClientTypeSignature>, row: seq<JsonValue>, decode: Base64Decoder)
    returns (r: Result<seq<Fixed>, Exception>)
    requires |row| == |signatures|
    ensures r == FixCells(signatures, row, |row|, decode)
  {
    var newRow: seq<Fixed> := [];
    var i := 0;
    while i < |row|
      invariant 0 <= i <= |row|
      invariant FixCells(signatures, row, i, decode) == Ok(newRow)
    {
      var v := FixValueOf(signatures[i], row[i], decode);
      FixCellsNext(signatures, row, i, decode);
      if v.Err? {
        FixCellsErrorPersists(signatures, row, i + 1, |row|, decode);
        return Err(v.error);
      }
      newRow := newRow + [v.value];
      i := i + 1;
    }
    r := Ok(newRow);
  }
}
