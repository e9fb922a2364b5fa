/**
 * TypeSignatureParameter: a parameter of a type signature, a tagged union of a type signature,
 * a named type signature (a row field), a long literal or a type variable.  The kind tag always
 * matches the value, because the only way to build one is through the kind-fixing factories.
 */
module TypeSignatureParameters {
  import opened Wrappers
  import opened Exceptions
  import opened JavaInts
  import Texts
  import RowFieldNames

  /**
   * A type signature, seen only through what this part of the model asks of it: its text
   * (`toString`), its JSON text (`jsonValue`) and whether it is calculated (`isCalculated`).
   */
  datatype TypeSignature = TypeSignature(text: string, json: string, calculated: bool)

  /** A type signature with an optional row field name. */
  datatype NamedTypeSignature = NamedTypeSignature(fieldName: Option<RowFieldNames.RowFieldName>, typeSignature: TypeSignature)

  /** NamedTypeSignature.toString: the quoted field name, a space and the type, or the type alone. */
  function NamedToString(n: NamedTypeSignature): (s: string)
    ensures n.fieldName.None? ==> s == n.typeSignature.text
    ensures n.fieldName.Some? ==> s == RowFieldNames.ToString(n.fieldName.value) + " " + n.typeSignature.text
  {
    match n.fieldName
    case None => n.typeSignature.text
    case Some(f) => "\"" + Texts.Doubled(f.name, '"') + "\" " + n.typeSignature.text
  }

  datatype ParameterKind = TypeKind | NamedTypeKind | LongKind | VariableKind

  /** The enum constant's name, as the getters' message prints it. */
  function KindName(k: ParameterKind): string
  {
    match k
    case TypeKind => "TYPE"
    case NamedTypeKind => "NAMED_TYPE"
    case LongKind => "LONG"
    case VariableKind => "VARIABLE"
  }

  datatype Value =
    | TypeValue(typeSignature: TypeSignature)
    | NamedTypeValue(namedTypeSignature: NamedTypeSignature)
    | LongValue(long: Long)
    | VariableValue(variable: string)

  /** The kind a value of this shape is stored under. */
  function KindOf(v: Value): ParameterKind
  {
    match v
    case TypeValue(_) => TypeKind
    case NamedTypeValue(_) => NamedTypeKind
    case LongValue(_) => LongKind
    case VariableValue(_) => VariableKind
  }

  datatype RawParameter = RawParameter(kind: ParameterKind, value: Value)

  /** A parameter as the factories build it: the kind tag matches the value. */
  type TypeSignatureParameter = p: RawParameter | p.kind == KindOf(p.value) witness RawParameter(LongKind, LongValue(0))

  // ---------------------------------------------------------------------------
  // Factories.

  function TypeParameter(ts: TypeSignature): (p: TypeSignatureParameter)
    ensures p.kind == TypeKind
    ensures GetTypeSignature(p) == Ok(ts)
  {
    RawParameter(TypeKind, TypeValue(ts))
  }

  function NumericParameter(longLiteral: Long): (p: TypeSignatureParameter)
    ensures p.kind == LongKind
    ensures GetLongLiteral(p) == Ok(longLiteral)
  {
    RawParameter(LongKind, LongValue(longLiteral))
  }

  function NamedTypeParameter(n: NamedTypeSignature): (p: TypeSignatureParameter)
    ensures p.kind == NamedTypeKind
    ensures GetNamedTypeSignature(p) == Ok(n)
  {
    RawParameter(NamedTypeKind, NamedTypeValue(n))
  }

  /** A named row field. */
  function NamedField(name: string, ts: TypeSignature): (p: TypeSignatureParameter)
    ensures p.kind == NamedTypeKind
    ensures GetNamedTypeSignature(p) == Ok(NamedTypeSignature(Some(RowFieldNames.RowFieldName(name)), ts))
  {
    RawParameter(NamedTypeKind, NamedTypeValue(NamedTypeSignature(Some(RowFieldNames.RowFieldName(name)), ts)))
  }

  /** An anonymous row field. */
  function AnonymousField(ts: TypeSignature): (p: TypeSignatureParameter)
    ensures p.kind == NamedTypeKind
    ensures GetNamedTypeSignature(p) == Ok(NamedTypeSignature(None, ts))
  {
    RawParameter(NamedTypeKind, NamedTypeValue(NamedTypeSignature(None, ts)))
  }

  function TypeVariable(variable: string): (p: TypeSignatureParameter)
    ensures p.kind == VariableKind
    ensures GetVariable(p) == Ok(variable)
  {
    RawParameter(VariableKind, VariableValue(variable))
  }

  // ---------------------------------------------------------------------------
  // Kind-checked getters.

  function KindMismatch(actual: ParameterKind, expected: ParameterKind): Exception
  {
    IllegalArgument("ParameterKind is [" + KindName(actual) + "] but expected [" + KindName(expected) + "]")
  }

  function GetTypeSignature(p: TypeSignatureParameter): (r: Result<TypeSignature, Exception>)
    ensures r.Ok? <==> p.kind == TypeKind
    ensures r.Ok? ==> p.value == TypeValue(r.value)
    ensures r.Err? ==> r.error == KindMismatch(p.kind, TypeKind)
  {
    match p.value
    case TypeValue(ts) => Ok(ts)
    case _ => Err(KindMismatch(p.kind, TypeKind))
  }

  function GetLongLiteral(p: TypeSignatureParameter): (r: Result<Long, Exception>)
    ensures r.Ok? <==> p.kind == LongKind
    ensures r.Ok? ==> p.value == LongValue(r.value)
    ensures r.Err? ==> r.error == KindMismatch(p.kind, LongKind)
  {
    match p.value
    case LongValue(l) => Ok(l)
    case _ => Err(KindMismatch(p.kind, LongKind))
  }

  function GetNamedTypeSignature(p: TypeSignatureParameter): (r: Result<NamedTypeSignature, Exception>)
    ensures r.Ok? <==> p.kind == NamedTypeKind
    ensures r.Ok? ==> p.value == NamedTypeValue(r.value)
    ensures r.Err? ==> r.error == KindMismatch(p.kind, NamedTypeKind)
  {
    match p.value
    case NamedTypeValue(n) => Ok(n)
    case _ => Err(KindMismatch(p.kind, NamedTypeKind))
  }

  function GetVariable(p: TypeSignatureParameter): (r: Result<string, Exception>)
    ensures r.Ok? <==> p.kind == VariableKind
    ensures r.Ok? ==> p.value == VariableValue(r.value)
    ensures r.Err? ==> r.error == KindMismatch(p.kind, VariableKind)
  {
    match p.value
    case VariableValue(v) => Ok(v)
    case _ => Err(KindMismatch(p.kind, VariableKind))
  }

  // ---------------------------------------------------------------------------
  // Derived views.

  /** The type signature of a TYPE parameter or of a NAMED_TYPE parameter's field; nothing otherwise. */
  function GetTypeSignatureOrNamedTypeSignature(p: TypeSignatureParameter): (r: Option<TypeSignature>)
    ensures r.Some? <==> p.kind == TypeKind || p.kind == NamedTypeKind
    ensures p.kind == TypeKind ==> r == Some(GetTypeSignature(p).value)
    ensures p.kind == NamedTypeKind ==> r == Some(GetNamedTypeSignature(p).value.typeSignature)
  {
    match p.value
    case TypeValue(ts) => Some(ts)
    case NamedTypeValue(n) => Some(n.typeSignature)
    case _ => None
  }

  /** isCalculated: a type's own flag for TYPE and NAMED_TYPE, false for LONG, true for VARIABLE. */
  function IsCalculated(p: TypeSignatureParameter): (r: bool)
    ensures p.kind == LongKind ==> !r
    ensures p.kind == VariableKind ==> r
    ensures GetTypeSignatureOrNamedTypeSignature(p).Some? ==> r == GetTypeSignatureOrNamedTypeSignature(p).value.calculated
  {
    match p.value
    case TypeValue(ts) => ts.calculated
    case NamedTypeValue(n) => n.typeSignature.calculated
    case LongValue(_) => false
    case VariableValue(_) => true
  }

  /** toString of the stored value. */
  function ValueToString(v: Value): (r: string)
    ensures v.LongValue? ==> Texts.ParseInt(r) == Some(v.long)
  {
    match v
    case TypeValue(ts) => ts.text
    case NamedTypeValue(n) => NamedToString(n)
    case LongValue(l) => Texts.ParseIntOfIntToString(l); Texts.IntToString(l)
    case VariableValue(s) => s
  }

  /** jsonValue: "@" before VARIABLE parameters only; a type signature's own JSON, else the value's text. */
  function JsonValue(p: TypeSignatureParameter): (r: string)
    ensures p.kind == VariableKind ==> r == "@" + GetVariable(p).value
    ensures p.kind == TypeKind ==> r == GetTypeSignature(p).value.json
    ensures p.kind == LongKind ==> r == Texts.IntToString(GetLongLiteral(p).value)
    ensures p.kind == NamedTypeKind ==> r == NamedToString(GetNamedTypeSignature(p).value)
  {
    var prefix := if p.kind == VariableKind then "@" else "";
    var valueJson := if p.value.TypeValue? then p.value.typeSignature.json else ValueToString(p.value);
    prefix + valueJson
  }

  /** The JSON text of a long literal reads back as the literal, and never starts with "@". */
  lemma LongJsonValueRoundTrip(l: Long)
    ensures Texts.ParseInt(JsonValue(NumericParameter(l))) == Some(l)
    ensures JsonValue(NumericParameter(l))[0] != '@'
  {
    Texts.ParseIntOfIntToString(l);
  }

  /** equals: the same kind and an equal value. */
  function Equals(p: TypeSignatureParameter, q: TypeSignatureParameter): (r: bool)
    ensures r <==> p == q
  {
    p.kind == q.kind && p.value == q.value
  }

}
