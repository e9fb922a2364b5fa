/**
 * ResolvedFunction: a function bound to concrete types, and the way it travels inside a
 * plan as a qualified name.  The name's last part is "@" + function name + "@" + payload, where
 * the payload is the base32hex text of the compressed JSON of the whole function.  The model
 * keeps that layout and leaves the payload's encoding abstract.
 */
module ResolvedFunctions {
  import opened Wrappers
  import opened Exceptions
  import Texts

  /** A dotted name; its parts are as the caller supplied them. */
  datatype QualifiedName = QualifiedName(parts: seq<string>)

  /** A qualified name has at least one part. */
  type Name = q: QualifiedName | |q.parts| >= 1 witness QualifiedName([""])

  function Suffix(q: Name): string
  {
    q.parts[|q.parts| - 1]
  }

  /** A qualified name's text: its parts joined by dots. */
  function NameText(q: Name): string
  {
    Texts.Join(q.parts, ".")
  }

  datatype BoundSignature = BoundSignature(name: string, returnType: string, argumentTypes: seq<string>)

  datatype FunctionNullability = FunctionNullability(returnNullable: bool, argumentNullable: seq<bool>)

  datatype FunctionKind = Scalar | Aggregate | Window | Table

  datatype ResolvedFunction = ResolvedFunction(
    signature: BoundSignature,
    functionId: string,
    functionKind: FunctionKind,
    deterministic: bool,
    functionNullability: FunctionNullability,
    typeDependencies: map<string, string>,
    functionDependencies: set<ResolvedFunction>)

  /** What the constructor's argument check demands: one nullability flag per argument type. */
  predicate WellFormed(f: ResolvedFunction)
  {
    |f.functionNullability.argumentNullable| == |f.signature.argumentTypes|
  }

  /** The constructor. */
  function Create(
    signature: BoundSignature, functionId: string, functionKind: FunctionKind, deterministic: bool,
    functionNullability: FunctionNullability, typeDependencies: map<string, string>,
    functionDependencies: set<ResolvedFunction>): (r: Result<ResolvedFunction, Exception>)
    ensures r.Ok? <==> |functionNullability.argumentNullable| == |signature.argumentTypes|
    ensures r.Ok? ==>
      WellFormed(r.value)
      && r.value == ResolvedFunction(signature, functionId, functionKind, deterministic, functionNullability,
                                     typeDependencies, functionDependencies)
    ensures r.Err? ==> r.error == IllegalArgument("signature and functionNullability must have same argument count")
  {
    var f := ResolvedFunction(signature, functionId, functionKind, deterministic, functionNullability,
                              typeDependencies, functionDependencies);
    if WellFormed(f) then Ok(f)
    else Err(IllegalArgument("signature and functionNullability must have same argument count"))
  }

  /** equals: every field except the nullability. */
  function Equals(f: ResolvedFunction, g: ResolvedFunction): (r: bool)
    ensures r <==> f.(functionNullability := g.functionNullability) == g
    ensures f == g ==> r
  {
    f.signature == g.signature && f.functionId == g.functionId && f.functionKind == g.functionKind
    && f.deterministic == g.deterministic && f.typeDependencies == g.typeDependencies
    && f.functionDependencies == g.functionDependencies
  }

  /** Two functions that differ only in nullability are equal, so equality ignores it. */
  lemma EqualsIgnoresNullability(f: ResolvedFunction, n: FunctionNullability)
    ensures Equals(f, f.(functionNullability := n))
    ensures f.functionNullability != n ==> f != f.(functionNullability := n)
  {
  }

  /** isResolved: the last part starts with "@". */
  predicate IsResolved(q: Name)
  {
    |Suffix(q)| >= 1 && Suffix(q)[0] == '@'
  }

  /** The pieces of a resolved last part, after the leading "@", split on "@". */
  function Pieces(q: Name): (parts: seq<string>)
    requires IsResolved(q)
    ensures |parts| >= 1 && forall i :: 0 <= i < |parts| ==> '@' !in parts[i]
  {
    Texts.Split(Suffix(q)[1..], '@')
  }

  /** The error both decoders raise when a resolved name is not "@" + name + "@" + payload. */
  function PartsError(q: Name): Exception
  {
    IllegalArgument("Expected encoded resolved function to contain two parts: " + NameText(q))
  }

  /**
   * extractFunctionName: an unresolved name's last part unchanged; for a resolved one the
   * text between the two "@"s, which must be the only two.
   */
  function ExtractFunctionName(q: Name): (r: Result<string, Exception>)
    ensures !IsResolved(q) ==> r == Ok(Suffix(q))
    ensures IsResolved(q) ==> (r.Ok? <==> |Pieces(q)| == 2)
    ensures IsResolved(q) && r.Ok? ==> '@' !in r.value && Suffix(q) == "@" + r.value + "@" + Pieces(q)[1]
    ensures r.Err? ==> r.error == PartsError(q)
  {
    if !IsResolved(q) then Ok(Suffix(q))
    else
      var parts := Pieces(q);
      if |parts| != 2 then Err(PartsError(q))
      else
        (Texts.JoinSplit(Suffix(q)[1..], '@');
         assert Suffix(q) == [Suffix(q)[0]] + Suffix(q)[1..];
         Ok(parts[0]))
  }

  /** Base32hex text, as Guava's base32Hex() writes it: digits, A-V and '=' padding. */
  predicate IsBase32Hex(payload: string)
  {
    forall i :: 0 <= i < |payload| ==> ('0' <= payload[i] <= '9') || ('A' <= payload[i] <= 'V') || payload[i] == '='
  }

  /** toQualifiedName, given the payload (the base32hex text of the compressed JSON of f). */
  function ToQualifiedName(f: ResolvedFunction, payload: string): (q: Name)
    requires IsBase32Hex(payload)
    ensures |q.parts| == 1 && IsResolved(q)
  {
    QualifiedName(["@" + f.signature.name + "@" + payload])
  }

  /** The pieces of "@" + name + "@" + payload are the pieces of name followed by the payload. */
  lemma PiecesOfEncoded(name: string, payload: string)
    requires '@' !in payload
    ensures Texts.Split(("@" + name + "@" + payload)[1..], '@') == Texts.Split(name, '@') + [payload]
  {
    assert ("@" + name + "@" + payload)[1..] == name + ['@'] + payload;
    Texts.SplitAround(name, payload, '@');
    Texts.SplitWithoutSeparator(payload, '@');
  }

  /** extractFunctionName recovers the name toQualifiedName embedded, when that name holds no "@". */
  lemma ExtractFunctionNameOfQualifiedName(f: ResolvedFunction, payload: string)
    requires IsBase32Hex(payload) && '@' !in f.signature.name
    ensures ExtractFunctionName(ToQualifiedName(f, payload)) == Ok(f.signature.name)
  {
    assert '@' !in payload;
    PiecesOfEncoded(f.signature.name, payload);
    Texts.SplitWithoutSeparator(f.signature.name, '@');
  }

  /** A name holding "@" does not survive the layout: extracting it fails. */
  lemma ExtractFunctionNameRejectsAt(f: ResolvedFunction, payload: string)
    requires IsBase32Hex(payload) && '@' in f.signature.name
    ensures ExtractFunctionName(ToQualifiedName(f, payload)).Err?
  {
    assert '@' !in payload;
    PiecesOfEncoded(f.signature.name, payload);
    Texts.SplitWithSeparator(f.signature.name, '@');
  }

  /**
   * ResolvedFunctionDecoder.fromQualifiedName.  `decode` stands for base32hex decoding,
   * decompression and JSON decoding of the upper-cased payload, which the model leaves abstract.
   */
  function FromQualifiedName(q: Name, decode: string -> Result<ResolvedFunction, Exception>)
    : (r: Result<Option<ResolvedFunction>, Exception>)
    ensures !IsResolved(q) ==> r == Ok(None)
    ensures r.Ok? && r.value.Some? ==>
      ExtractFunctionName(q).Ok? && Texts.EqualsIgnoreCase(r.value.value.signature.name, ExtractFunctionName(q).value)
      && decode(Texts.UpperCased(Pieces(q)[1])) == Ok(r.value.value)
    ensures IsResolved(q) && ExtractFunctionName(q).Err? ==> r == Err(PartsError(q))
  {
    if !IsResolved(q) then Ok(None)
    else
      var parts := Pieces(q);
      if |parts| != 2 then Err(PartsError(q))
      else
        var name := parts[0];
        match decode(Texts.UpperCased(parts[1]))
        case Err(e) => Err(e)
        case Ok(f) =>
          if Texts.EqualsIgnoreCase(f.signature.name, name) then Ok(Some(f))
          else Err(IllegalArgument("Expected decoded function to have name " + f.signature.name + ", but name is " + name))
  }

  /** Upper-casing undoes lower-casing on base32hex text. */
  lemma UpperLowerBase32Hex(payload: string)
    requires IsBase32Hex(payload)
    ensures Texts.UpperCased(Texts.LowerCased(payload)) == payload
    ensures Texts.UpperCased(payload) == payload
  {
  }

  /**
   * The round trip: decoding a function's qualified name gives the function back, even after
   * the last part has been lower-cased.
   */
  lemma FromQualifiedNameRoundTrip(f: ResolvedFunction, payload: string,
                                   decode: string -> Result<ResolvedFunction, Exception>, lowered: bool)
    requires IsBase32Hex(payload) && '@' !in f.signature.name && decode(payload) == Ok(f)
    ensures var q := ToQualifiedName(f, payload);
            var q' := if lowered then QualifiedName([Texts.LowerCased(Suffix(q))]) else q;
            FromQualifiedName(q', decode) == Ok(Some(f))
  {
    var name := f.signature.name;
    var q := ToQualifiedName(f, payload);
    assert '@' !in payload;
    UpperLowerBase32Hex(payload);
    if lowered {
      var s := Suffix(q);
      var l := Texts.LowerCased(s);
      assert l == "@" + Texts.LowerCased(name) + "@" + Texts.LowerCased(payload);
      assert '@' !in Texts.LowerCased(name) && '@' !in Texts.LowerCased(payload) by {
        assert forall i :: 0 <= i < |name| ==> Texts.LowerCased(name)[i] == Texts.AsciiLower(name[i]);
      }
      PiecesOfEncoded(Texts.LowerCased(name), Texts.LowerCased(payload));
      Texts.SplitWithoutSeparator(Texts.LowerCased(name), '@');
      Texts.EqualsIgnoreCaseLowerCased(name);
    } else {
      PiecesOfEncoded(name, payload);
      Texts.SplitWithoutSeparator(name, '@');
      Texts.EqualsIgnoreCaseLowerCased(name);
    }
  }
}
