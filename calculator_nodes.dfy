/**
 * The calculator's expression nodes: literals, typed variables and the three binary operators
 * that carry their own code generation.  A binary node's type is inferred from its inputs
 * (DOUBLE as soon as one input is DOUBLE, else LONG) and memoised; its Java code is fully
 * parenthesised, with a `(double)` cast on the LONG operand of a mixed operation.
 */
module CalculatorNodes {
  import opened Wrappers
  import opened Exceptions
  import opened JavaInts
  import Texts

  /** The calculator's data types; OtherType stands for any other constant, or a null type. */
  datatype DataType = Long | Double | OtherType(name: string)

  predicate IsNumeric(t: DataType)
  {
    t == Long || t == Double
  }

  /** A value handed to the literal constructor; a boxed double is kept as its `toString` text. */
  datatype JavaObject = BoxedLong(longValue: Long) | BoxedDouble(doubleText: string) | OtherObject(className: string)

  /** What a literal node can hold once its constructor's assertions pass. */
  datatype LiteralValue = LongLiteral(longValue: Long) | DoubleLiteral(doubleText: string)

  datatype Operator = Plus | Multiplication | Division

  /** The operator's Java symbol. */
  function Symbol(op: Operator): (s: string)
    ensures |s| == 1
  {
    match op
    case Plus => "+"
    case Multiplication => "*"
    case Division => "/"
  }

  datatype Node =
    | Literal(value: LiteralValue)
    | Variable(variableType: DataType, name: string)
    | Binary(op: Operator, left: Node, right: Node)

  /** The LiteralNode constructor, with its two assertions enabled. */
  function NewLiteral(value: Option<JavaObject>): (r: Result<Node, Exception>)
    ensures r.Ok? <==> value.Some? && !value.value.OtherObject?
    ensures r.Err? ==> r.error == AssertionFailure
    ensures r.Ok? ==> r.value.Literal? && (TypeOf(r.value) == Double <==> value.value.BoxedDouble?)
    ensures r.Ok? ==> (TypeOf(r.value) == Long <==> value.value.BoxedLong?)
  {
    if value.None? then Err(AssertionFailure)
    else
      match value.value
      case BoxedLong(x) => Ok(Literal(LongLiteral(x)))
      case BoxedDouble(text) => Ok(Literal(DoubleLiteral(text)))
      case OtherObject(_) => Err(AssertionFailure)
  }

  /** getInputs: none for a leaf, the two operands for a binary node. */
  function Inputs(n: Node): (inputs: seq<Node>)
    ensures n.Binary? <==> |inputs| == 2
    ensures n.Binary? ==> inputs == [n.left, n.right]
  {
    if n.Binary? then [n.left, n.right] else []
  }

  /**
   * inferTypeFromInputs on the inputs' types: the assertion on a non-empty input list, then
   * DOUBLE at the first DOUBLE input, else LONG.
   */
  function InferredType(types: seq<DataType>): (r: Result<DataType, Exception>)
    ensures types == [] ==> r == Err(AssertionFailure)
    ensures types != [] ==> r == Ok(if Double in types then Double else Long)
  {
    if types == [] then Err(AssertionFailure)
    else if types[0] == Double then Ok(Double)
    else if |types| == 1 then Ok(Long)
    else
      var rest := InferredType(types[1..]);
      assert Double in types <==> Double in types[1..] by {
        assert types == [types[0]] + types[1..];
      }
      rest
  }

  /**
   * getType: a literal's from its value, a variable's as declared, a binary node's inferred
   * from its two inputs.
   */
  function TypeOf(n: Node): (t: DataType)
    ensures n.Binary? ==> IsNumeric(t)
    ensures n.Binary? ==> (t == Double <==> TypeOf(n.left) == Double || TypeOf(n.right) == Double)
  {
    match n
    case Literal(LongLiteral(_)) => Long
    case Literal(DoubleLiteral(_)) => Double
    case Variable(t, _) => t
    case Binary(_, left, right) => InferredType([TypeOf(left), TypeOf(right)]).value
  }

  /** The inputs' types, in order. */
  function InputTypes(inputs: seq<Node>): (types: seq<DataType>)
    ensures |types| == |inputs|
    ensures forall i :: 0 <= i < |inputs| ==> types[i] == TypeOf(inputs[i])
  {
    if inputs == [] then [] else InputTypes(inputs[..|inputs| - 1]) + [TypeOf(inputs[|inputs| - 1])]
  }

  /** inferTypeFromInputs, as the loop with its early return. */
  method InferTypeFromInputs(inputs: seq<Node>) returns (r: Result<DataType, Exception>)
    ensures r == InferredType(InputTypes(inputs))
  {
    if |inputs| == 0 {
      return Err(AssertionFailure);
    }
    var i := 0;
    while i < |inputs|
      invariant 0 <= i <= |inputs|
      invariant forall j :: 0 <= j < i ==> TypeOf(inputs[j]) != Double
    {
      if TypeOf(inputs[i]) == Double {
        assert InputTypes(inputs)[i] == Double;
        return Ok(Double);
      }
      i := i + 1;
    }
    assert Double !in InputTypes(inputs) by {
      forall j | 0 <= j < |inputs| ensures InputTypes(inputs)[j] != Double {
      }
    }
    r := Ok(Long);
  }

  /**
   * AbstractNode's memo: the type is inferred on the first getType and kept in `dataType`
   * from then on.
   */
  class AbstractNode {
    const inputs: seq<Node>
    var dataType: Option<DataType>

    /** A remembered type is the inferred one. */
    predicate Valid()
      reads this
    {
      dataType.Some? ==> InferredType(InputTypes(inputs)) == Ok(dataType.value)
    }

    constructor(inputs: seq<Node>)
      ensures this.inputs == inputs && dataType == None && Valid()
    {
      this.inputs := inputs;
      dataType := None;
    }

    method GetType() returns (r: Result<DataType, Exception>)
      requires Valid()
      modifies this
      ensures Valid()
      ensures r == InferredType(InputTypes(inputs))
      ensures old(dataType).Some? ==> dataType == old(dataType)
      ensures old(dataType).None? ==> dataType == (if r.Ok? then Some(r.value) else None)
    {
      if dataType.None? {
        var inferred := InferTypeFromInputs(inputs);
        if inferred.Err? {
          return inferred;
        }
        dataType := Some(inferred.value);
      }
      r := Ok(dataType.value);
    }
  }

  /** A binary node's memo gives the node's type. */
  lemma BinaryMemoIsTypeOf(n: Node)
    requires n.Binary?
    ensures InferredType(InputTypes(Inputs(n))) == Ok(TypeOf(n))
  {
    assert InputTypes(Inputs(n)) == [TypeOf(n.left), TypeOf(n.right)];
  }

  // ---------------------------------------------------------------------------
  // Code generation.

  /** A literal's code: `Long.toString` for a long; a double's own text. */
  function LiteralCode(v: LiteralValue): string
  {
    match v
    case LongLiteral(x) => Texts.IntToString(x)
    case DoubleLiteral(text) => text
  }

  /** prefix + left + infix + right + ")", as soon as both operands' code is there. */
  function Enclose(prefix: string, left: Result<string, Exception>, infix: string, right: Result<string, Exception>)
    : Result<string, Exception>
  {
    if left.Err? then left
    else if right.Err? then right
    else Ok(prefix + left.value + infix + right.value + ")")
  }

  /** The binary nodes' generateCode, by the operands' types, in the source's order of cases. */
  function OperatorCode(op: Operator, leftType: DataType, rightType: DataType,
                        left: Result<string, Exception>, right: Result<string, Exception>)
    : (r: Result<string, Exception>)
    ensures !IsNumeric(leftType) || !IsNumeric(rightType) ==> r == Err(IllegalState(""))
  {
    var infix := " " + Symbol(op) + " ";
    if leftType == Double && rightType == Double then Enclose("(", left, infix, right)
    else if leftType == Double && rightType == Long then Enclose("(", left, infix + "(double)", right)
    else if leftType == Long && rightType == Double then Enclose("((double)", left, infix, right)
    else if leftType == Long && rightType == Long then Enclose("(", left, infix, right)
    else Err(IllegalState(""))
  }

  /** Every operator's operands have a numeric type, so no node throws. */
  predicate Generatable(n: Node)
  {
    match n
    case Literal(_) => true
    case Variable(_, _) => true
    case Binary(_, left, right) =>
      IsNumeric(TypeOf(left)) && IsNumeric(TypeOf(right)) && Generatable(left) && Generatable(right)
  }

  /** generateCode. */
  function GenerateCode(n: Node): (r: Result<string, Exception>)
    ensures r.Ok? <==> Generatable(n)
    ensures r.Err? ==> r.error == IllegalState("")
  {
    match n
    case Literal(v) => Ok(LiteralCode(v))
    case Variable(_, name) => Ok(name)
    case Binary(op, left, right) => OperatorCode(op, TypeOf(left), TypeOf(right), GenerateCode(left), GenerateCode(right))
  }

  /** A long literal's code reads back as its value. */
  lemma LongLiteralCodeRoundTrip(x: Long)
    ensures GenerateCode(Literal(LongLiteral(x))).Ok?
    ensures Texts.ParseInt(GenerateCode(Literal(LongLiteral(x))).value) == Some(x)
  {
    Texts.ParseIntOfIntToString(x);
  }

  // ---------------------------------------------------------------------------
  // A reference: the Java expression the code spells, with Java's typing.

  datatype JavaExpr =
    | JLiteral(text: string, isDouble: bool)
    | JName(name: string, declaredType: DataType)
    | JToDouble(operand: JavaExpr)
    | JBinary(symbol: string, left: JavaExpr, right: JavaExpr)

  /** The text of a Java expression, every operation in parentheses. */
  function Print(e: JavaExpr): string
  {
    match e
    case JLiteral(text, _) => text
    case JName(name, _) => name
    case JToDouble(operand) => "(double)" + Print(operand)
    case JBinary(symbol, left, right) => "(" + Print(left) + " " + symbol + " " + Print(right) + ")"
  }

  /** Java's static type: a cast to double is DOUBLE; an operation is DOUBLE as soon as one operand is (binary numeric promotion). */
  function JavaType(e: JavaExpr): DataType
  {
    match e
    case JLiteral(_, isDouble) => if isDouble then Double else Long
    case JName(_, t) => t
    case JToDouble(_) => Double
    case JBinary(_, left, right) => if JavaType(left) == Double || JavaType(right) == Double then Double else Long
  }

  /** No operation relies on an implicit promotion: both operands of each have the same numeric type. */
  predicate OperandsAgree(e: JavaExpr)
  {
    match e
    case JLiteral(_, _) => true
    case JName(_, t) => true
    case JToDouble(operand) => OperandsAgree(operand)
    case JBinary(_, left, right) =>
      IsNumeric(JavaType(left)) && JavaType(left) == JavaType(right) && OperandsAgree(left) && OperandsAgree(right)
  }

  /** The intended lowering: a LONG operand of a mixed operation is cast to double, nothing else is. */
  function Lower(n: Node): JavaExpr
  {
    match n
    case Literal(LongLiteral(x)) => JLiteral(Texts.IntToString(x), false)
    case Literal(DoubleLiteral(text)) => JLiteral(text, true)
    case Variable(t, name) => JName(name, t)
    case Binary(op, left, right) =>
      var mixed := TypeOf(left) != TypeOf(right);
      JBinary(Symbol(op),
              if mixed && TypeOf(left) == Long then JToDouble(Lower(left)) else Lower(left),
              if mixed && TypeOf(right) == Long then JToDouble(Lower(right)) else Lower(right))
  }

  /** The three layouts of generateCode, regrouped as the lowering prints them. */
  lemma Layouts(pl: string, symbol: string, pr: string)
    ensures "(" + pl + (" " + symbol + " ") + pr + ")" == "(" + pl + " " + symbol + " " + pr + ")"
    ensures "(" + pl + (" " + symbol + " " + "(double)") + pr + ")" == "(" + pl + " " + symbol + " " + ("(double)" + pr) + ")"
    ensures "((double)" + pl + (" " + symbol + " ") + pr + ")" == "(" + ("(double)" + pl) + " " + symbol + " " + pr + ")"
  {
  }

  /** One operator: with its operands' code the printed lowerings, its code is the printed lowering. */
  lemma BinaryCodeIsLowering(op: Operator, left: Node, right: Node)
    requires Generatable(Binary(op, left, right))
    requires GenerateCode(left) == Ok(Print(Lower(left))) && GenerateCode(right) == Ok(Print(Lower(right)))
    ensures GenerateCode(Binary(op, left, right)) == Ok(Print(Lower(Binary(op, left, right))))
  {
    Layouts(Print(Lower(left)), Symbol(op), Print(Lower(right)));
  }

  /** The generated code is the printed lowering. */
  lemma {:induction false} GeneratedCodeIsLowering(n: Node)
    requires Generatable(n)
    ensures GenerateCode(n) == Ok(Print(Lower(n)))
  {
    match n
    case Literal(_) =>
    case Variable(_, _) =>
    case Binary(op, left, right) =>
      GeneratedCodeIsLowering(left);
      GeneratedCodeIsLowering(right);
      BinaryCodeIsLowering(op, left, right);
  }

  /**
   * The lowering is typed as the node is, and every operation gets operands of one type:
   * mixed operations are done in double, LONG with LONG (division too) stays integral.
   */
  lemma {:induction false} LoweringTyped(n: Node)
    requires Generatable(n) && (n.Variable? ==> IsNumeric(n.variableType))
    ensures JavaType(Lower(n)) == TypeOf(n)
    ensures OperandsAgree(Lower(n))
  {
    match n
    case Literal(_) =>
    case Variable(_, _) =>
    case Binary(op, left, right) =>
      LoweringTyped(left);
      LoweringTyped(right);
      BinaryLoweringTyped(op, left, right);
  }

  /** One operator: with its operands' lowerings typed as they are, so is its own. */
  lemma BinaryLoweringTyped(op: Operator, left: Node, right: Node)
    requires IsNumeric(TypeOf(left)) && IsNumeric(TypeOf(right))
    requires JavaType(Lower(left)) == TypeOf(left) && OperandsAgree(Lower(left))
    requires JavaType(Lower(right)) == TypeOf(right) && OperandsAgree(Lower(right))
    ensures JavaType(Lower(Binary(op, left, right))) == TypeOf(Binary(op, left, right))
    ensures OperandsAgree(Lower(Binary(op, left, right)))
  {
  }

  /** A division of two LONG operands is emitted as Java's integer division, with no cast. */
  lemma LongDivisionStaysIntegral(left: Node, right: Node)
    requires Generatable(left) && Generatable(right) && TypeOf(left) == Long && TypeOf(right) == Long
    ensures GenerateCode(Binary(Division, left, right))
            == Ok("(" + GenerateCode(left).value + " / " + GenerateCode(right).value + ")")
    ensures Lower(Binary(Division, left, right)) == JBinary("/", Lower(left), Lower(right))
  {
    assert " " + Symbol(Division) + " " == " / ";
  }

  /** A node is DOUBLE exactly when one of its leaves is, once every leaf is numeric. */
  predicate HasDoubleLeaf(n: Node)
  {
    match n
    case Literal(v) => v.DoubleLiteral?
    case Variable(t, _) => t == Double
    case Binary(_, left, right) => HasDoubleLeaf(left) || HasDoubleLeaf(right)
  }

  lemma {:induction false} DoubleIffDoubleLeaf(n: Node)
    ensures TypeOf(n) == Double <==> HasDoubleLeaf(n)
  {
    match n
    case Literal(_) =>
    case Variable(_, _) =>
    case Binary(_, left, right) =>
      DoubleIffDoubleLeaf(left);
      DoubleIffDoubleLeaf(right);
  }
}
