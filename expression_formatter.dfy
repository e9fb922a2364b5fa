/**
 * ExpressionFormatter: SQL text for expression trees.  Identifiers and string literals are
 * quoted so that they read back unchanged; compound expressions are fully parenthesised.
 */
module ExpressionFormatters {
  import opened Wrappers
  import opened JavaInts
  import Texts
  import opened Exceptions

  // ---------------------------------------------------------------------------
  // String literals.

  predicate IsAsciiPrintable(codePoint: int)
  {
    0x20 <= codePoint < 0x7F
  }

  predicate AllAsciiPrintable(s: string)
  {
    forall i :: 0 <= i < |s| ==> IsAsciiPrintable(s[i] as int)
  }

  /** The escape of one code point inside a U&'...' literal. */
  function EscapeCodePoint(c: char): (t: string)
    ensures |t| >= 1
    ensures AllAsciiPrintable(t)
  {
    var codePoint := c as int;
    if IsAsciiPrintable(codePoint) then
      if c == '\\' then "\\\\" else [c]
    else if codePoint <= 0xFFFF then
      assert Texts.Pow16(4) == 0x1_0000;
      "\\" + Texts.HexFixed(codePoint, 4)
    else
      assert Texts.Pow16(6) == 0x100_0000;
      "\\+" + Texts.HexFixed(codePoint, 6)
  }

  /** Every code point escaped, in order. */
  function EscapeAll(s: string): (r: string)
    ensures AllAsciiPrintable(r)
  {
    if s == [] then "" else EscapeCodePoint(s[0]) + EscapeAll(s[1..])
  }

  lemma {:induction false} EscapeAllAppend(a: string, b: string)
    ensures EscapeAll(a + b) == EscapeAll(a) + EscapeAll(b)
  {
    if a == [] {
      assert a + b == b;
    } else {
      assert (a + b)[0] == a[0] && (a + b)[1..] == a[1..] + b;
      EscapeAllAppend(a[1..], b);
      calc {
        EscapeAll(a + b);
        EscapeCodePoint(a[0]) + EscapeAll(a[1..] + b);
        EscapeCodePoint(a[0]) + (EscapeAll(a[1..]) + EscapeAll(b));
        (EscapeCodePoint(a[0]) + EscapeAll(a[1..])) + EscapeAll(b);
      }
    }
  }

  lemma EscapeStep(d: string, i: nat)
    requires i < |d|
    ensures EscapeAll(d[..i + 1]) == EscapeAll(d[..i]) + EscapeCodePoint(d[i])
  {
    var c := d[i];
    assert d[..i + 1] == d[..i] + [c];
    assert [c][1..] == [];
    assert EscapeAll([c]) == EscapeCodePoint(c) + EscapeAll([]);
    EscapeAllAppend(d[..i], [c]);
  }

  /**
   * formatStringLiteral as a value: single quotes doubled; the doubled text in plain quotes when
   * every character is printable ASCII, else the U&'...' form with every code point escaped.
   */
  function StringLiteralText(s: string): (r: string)
    ensures |r| >= 2 && r[|r| - 1] == '\''
    ensures AllAsciiPrintable(r)
  {
    var d := Texts.Doubled(s, '\'');
    if AllAsciiPrintable(d) then "'" + d + "'" else "U&'" + EscapeAll(d) + "'"
  }

  /** formatStringLiteral: quotes doubled, then plain quotes or the escaping loop. */
  method FormatStringLiteral(s: string) returns (r: string)
    ensures r == StringLiteralText(s)
  {
    var d := Texts.Doubled(s, '\'');
    if AllAsciiPrintable(d) {
      r := "'" + d + "'";
    } else {
      r := FormatUnicodeLiteral(d);
    }
  }

  /** What the builder holds after the loop has escaped the first i code points. */
  function EscapedPrefix(d: string, i: nat): string
    requires i <= |d|
  {
    if i == 0 then "U&'" else EscapedPrefix(d, i - 1) + EscapeCodePoint(d[i - 1])
  }

  lemma {:induction false} EscapedPrefixIsEscapeAll(d: string, i: nat)
    requires i <= |d|
    ensures EscapedPrefix(d, i) == "U&'" + EscapeAll(d[..i])
  {
    if i > 0 {
      EscapedPrefixIsEscapeAll(d, i - 1);
      EscapeStep(d, i - 1);
    }
  }

  /** The U&'...' branch of formatStringLiteral: the loop over the code points of the quote-doubled text. */
  method FormatUnicodeLiteral(d: string) returns (r: string)
    ensures r == "U&'" + EscapeAll(d) + "'"
  {
    var builder := "U&'";
    var i := 0;
    while i < |d|
      invariant 0 <= i <= |d|
      invariant builder == EscapedPrefix(d, i)
    {
      builder := AppendEscaped(builder, d[i]);
      i := i + 1;
    }
    EscapedPrefixIsEscapeAll(d, |d|);
    assert d[..|d|] == d;
    builder := builder + "'";
    r := builder;
  }

  /** One iteration of formatStringLiteral's loop: the code point's escape appended to the builder. */
  method AppendEscaped(builder: string, c: char) returns (b: string)
    ensures b == builder + EscapeCodePoint(c)
  {
    b := builder;
    var codePoint := c as int;
    if IsAsciiPrintable(codePoint) {
      var ch := c;
      if ch == '\\' {
        b := b + [ch];
      }
      b := b + [ch];
    } else if codePoint <= 0xFFFF {
      assert Texts.Pow16(4) == 0x1_0000;
      b := b + "\\";
      b := b + Texts.HexFixed(codePoint, 4);
    } else {
      assert Texts.Pow16(6) == 0x100_0000;
      b := b + "\\+";
      b := b + Texts.HexFixed(codePoint, 6);
    }
  }

  /** A code point that is a character (not a surrogate, at most 0x10FFFF). */
  predicate IsScalarValue(v: int)
  {
    (0 <= v < 0xD800) || (0xE000 <= v < 0x11_0000)
  }

  /** Reading the escapes of a U&'...' body back, the reference for the escaping. */
  function Unescape(t: string): Option<string>
    decreases |t|
  {
    if t == [] then Some([])
    else if t[0] != '\\' then Prepend(t[0], Unescape(t[1..]))
    else if |t| >= 2 && t[1] == '\\' then Prepend('\\', Unescape(t[2..]))
    else if |t| >= 8 && t[1] == '+' then
      var v := Texts.HexValue(t[2..8]);
      if IsScalarValue(v) then Prepend(v as char, Unescape(t[8..])) else None
    else if |t| >= 5 then
      var v := Texts.HexValue(t[1..5]);
      if IsScalarValue(v) then Prepend(v as char, Unescape(t[5..])) else None
    else None
  }

  function Prepend(c: char, rest: Option<string>): Option<string>
  {
    match rest
    case Some(s) => Some([c] + s)
    case None => None
  }

  /** Each escape reads back as its code point, whatever follows it. */
  lemma UnescapeOne(c: char, rest: string)
    ensures Unescape(EscapeCodePoint(c) + rest) == Prepend(c, Unescape(rest))
  {
    var codePoint := c as int;
    if IsAsciiPrintable(codePoint) {
      UnescapePrintable(c, rest);
    } else if codePoint <= 0xFFFF {
      UnescapeFourDigits(c, rest);
    } else {
      UnescapeSixDigits(c, rest);
    }
  }

  lemma UnescapePrintable(c: char, rest: string)
    requires IsAsciiPrintable(c as int)
    ensures Unescape(EscapeCodePoint(c) + rest) == Prepend(c, Unescape(rest))
  {
    var t := EscapeCodePoint(c) + rest;
    if c == '\\' {
      assert t[2..] == rest;
    } else {
      assert t[1..] == rest;
    }
  }

  lemma UnescapeFourDigits(c: char, rest: string)
    requires !IsAsciiPrintable(c as int) && c as int <= 0xFFFF
    ensures Unescape(EscapeCodePoint(c) + rest) == Prepend(c, Unescape(rest))
  {
    var codePoint := c as int;
    assert Texts.Pow16(4) == 0x1_0000;
    var h := Texts.HexFixed(codePoint, 4);
    var t := "\\" + h + rest;
    assert EscapeCodePoint(c) + rest == t;
    assert t[1] == h[0];
    assert t[1..5] == h && t[5..] == rest;
    Texts.HexValueOfHexFixed(codePoint, 4);
  }

  lemma UnescapeSixDigits(c: char, rest: string)
    requires !IsAsciiPrintable(c as int) && c as int > 0xFFFF
    ensures Unescape(EscapeCodePoint(c) + rest) == Prepend(c, Unescape(rest))
  {
    var codePoint := c as int;
    assert Texts.Pow16(6) == 0x100_0000;
    var h := Texts.HexFixed(codePoint, 6);
    var t := "\\+" + h + rest;
    assert EscapeCodePoint(c) + rest == t;
    assert t[2..8] == h && t[8..] == rest;
    Texts.HexValueOfHexFixed(codePoint, 6);
  }

  lemma {:induction false} UnescapeEscapeAll(s: string)
    ensures Unescape(EscapeAll(s)) == Some(s)
  {
    if s == [] {
    } else {
      UnescapeEscapeAll(s[1..]);
      UnescapeOne(s[0], EscapeAll(s[1..]));
      assert [s[0]] + s[1..] == s;
    }
  }

  /** Reading a string literal back: the plain and the U&'...' forms, quotes un-doubled. */
  function ParseStringLiteral(t: string): (r: Option<string>)
    ensures r.Some? ==> |t| >= 2 && t[|t| - 1] == '\''
    ensures r.Some? && t[0] == '\'' ==> t == "'" + Texts.Doubled(r.value, '\'') + "'"
  {
    if |t| >= 4 && t[..3] == "U&'" && t[|t| - 1] == '\'' then
      assert t[0] == t[..3][0] == 'U';
      match Unescape(t[3..|t| - 1])
      case Some(d) => Texts.Undoubled(d, '\'')
      case None => None
    else if |t| >= 2 && t[0] == '\'' && t[|t| - 1] == '\'' then
      var body := t[1..|t| - 1];
      if Texts.Undoubled(body, '\'').Some? then
        Texts.DoubledUndoubled(body, '\'');
        assert "'" + body + "'" == t;
        Texts.Undoubled(body, '\'')
      else None
    else None
  }

  /** Every string literal reads back as the string it was formatted from. */
  lemma ParseFormattedStringLiteral(s: string)
    ensures ParseStringLiteral(StringLiteralText(s)) == Some(s)
  {
    Texts.UndoubledDoubled(s, '\'');
    var d := Texts.Doubled(s, '\'');
    if AllAsciiPrintable(d) {
      ParsePlain(d);
    } else {
      ParseUnicode(d);
    }
  }

  lemma ParsePlain(d: string)
    ensures ParseStringLiteral("'" + d + "'") == Texts.Undoubled(d, '\'')
  {
    var t := "'" + d + "'";
    assert t[0] == '\'' && t[|t| - 1] == '\'';
    assert |t| >= 4 ==> t[..3][0] == '\'';
    assert t[1..|t| - 1] == d;
  }

  lemma ParseUnicode(d: string)
    ensures ParseStringLiteral("U&'" + EscapeAll(d) + "'") == Texts.Undoubled(d, '\'')
  {
    var t := "U&'" + EscapeAll(d) + "'";
    assert t[..3] == "U&'" && t[3..|t| - 1] == EscapeAll(d);
    UnescapeEscapeAll(d);
  }

  /** Printable text is only quoted: the doubled text between single quotes. */
  lemma PrintableLiteral(s: string)
    requires AllAsciiPrintable(s)
    ensures StringLiteralText(s) == "'" + Texts.Doubled(s, '\'') + "'"
  {
    DoubledPrintable(s);
  }

  lemma {:induction false} DoubledPrintable(s: string)
    requires AllAsciiPrintable(s)
    ensures AllAsciiPrintable(Texts.Doubled(s, '\''))
  {
    if s != [] {
      DoubledPrintable(s[1..]);
    }
  }

  // ---------------------------------------------------------------------------
  // Identifiers and expressions.

  /** formatIdentifier: the text in double quotes, embedded double quotes doubled. */
  function FormatIdentifier(s: string): (r: string)
    ensures Texts.Unquoted(r, '"') == Some(s)
  {
    Texts.UnquotedQuoted(s, '"');
    Texts.Quoted(s, '"')
  }

  datatype Sign = Minus | Plus

  /** A call's processing mode, printed by its constant's name. */
  datatype ProcessingMode = Running | Final

  datatype NullTreatment = Ignore | Respect

  /** A qualified function name: its parts, of which there is at least one. */
  type CallName = parts: seq<string> | |parts| >= 1 witness [""]

  datatype Expression =
    | Identifier(value: string, delimited: bool)
    | SymbolReference(name: string)
    | StringLiteral(text: string)
    | CharLiteral(charText: string)
    | LongLiteral(long: Long)
    | BooleanLiteral(boolean: bool)
    | NullLiteral
    | NotExpression(operand: Expression)
      /** A comparison with its operator's text ("=", "<", ...). */
    | ComparisonExpression(comparisonOperator: string, left: Expression, right: Expression)
      /** An arithmetic binary expression with its operator's text ("+", "*", ...). */
    | ArithmeticBinary(arithmeticOperator: string, leftOperand: Expression, rightOperand: Expression)
    | ArithmeticUnary(sign: Sign, unaryOperand: Expression)
    | IsNullPredicate(nullOperand: Expression)
    | IsNotNullPredicate(notNullOperand: Expression)
    | BetweenPredicate(between: Expression, min: Expression, max: Expression)
      /**
       * A call: its name as formatName prints it, the name's parts, DISTINCT, the arguments, and
       * the optional processing mode, ORDER BY (its sort items, each already printed), null
       * treatment, FILTER condition and window (already printed by formatWindow).
       */
    | FunctionCall(formattedName: string, callName: CallName, distinct: bool, arguments: seq<Expression>,
                   processingMode: Option<ProcessingMode>, orderBy: Option<seq<string>>,
                   nullTreatment: Option<NullTreatment>, filter: Option<Expression>, window: Option<string>)

  /** formatBinaryExpression. */
  function FormatBinary(operator: string, left: string, right: string): string
  {
    "(" + left + " " + operator + " " + right + ")"
  }

  /** The argument list of a function call: "*" for an argument-less count, after "DISTINCT " if distinct. */
  function CallArguments(suffix: string, distinct: bool, formatted: seq<string>): (r: string)
    ensures formatted == [] && Texts.EqualsIgnoreCase(suffix, "count") ==> r == (if distinct then "DISTINCT *" else "*")
    ensures !(formatted == [] && Texts.EqualsIgnoreCase(suffix, "count")) ==>
      r == (if distinct then "DISTINCT " else "") + Texts.Join(formatted, ", ")
  {
    var arguments := if formatted == [] && Texts.EqualsIgnoreCase(suffix, "count") then "*" else Texts.Join(formatted, ", ");
    if distinct then "DISTINCT " + arguments else arguments
  }

  /** The name's last part (QualifiedName.getSuffix). */
  function Suffix(n: CallName): string
  {
    n[|n| - 1]
  }

  /** QualifiedName.of("LISTAGG").equals(n): a single part that lower-cases to "listagg". */
  predicate IsListagg(n: CallName)
  {
    |n| == 1 && Texts.LowerCased(n[0]) == "listagg"
  }

  /** formatOrderBy: "ORDER BY " and the sort items joined with ", ". */
  function OrderByText(sortItems: seq<string>): string
  {
    "ORDER BY " + Texts.Join(sortItems, ", ")
  }

  /** The processing mode's name and a space, before the call's name. */
  function ModePrefix(m: Option<ProcessingMode>): string
  {
    match m
    case None => ""
    case Some(Running) => "RUNNING "
    case Some(Final) => "FINAL "
  }

  /** An ORDER BY inside a call's parentheses, after the arguments. */
  function OrderByClause(o: Option<seq<string>>): string
  {
    if o.Some? then " " + OrderByText(o.value) else ""
  }

  function NullTreatmentClause(n: Option<NullTreatment>): string
  {
    match n
    case None => ""
    case Some(Ignore) => " IGNORE NULLS"
    case Some(Respect) => " RESPECT NULLS"
  }

  /** visitFilter's text, given the printed condition. */
  function FilterClause(condition: Option<string>): string
  {
    if condition.Some? then " FILTER (WHERE " + condition.value + ")" else ""
  }

  function OverClause(w: Option<string>): string
  {
    if w.Some? then " OVER " + w.value else ""
  }

  /** The text of a call other than LISTAGG, given its printed argument list and FILTER condition. */
  function CallText(e: Expression, arguments: string, condition: Option<string>): string
    requires e.FunctionCall?
  {
    ModePrefix(e.processingMode) + e.formattedName + "(" + arguments + OrderByClause(e.orderBy) + ")"
    + NullTreatmentClause(e.nullTreatment) + FilterClause(condition) + OverClause(e.window)
  }

  /** The texts, or the first failure among them: the order in which Java formats them. */
  function Collect(rs: seq<Result<string, Exception>>): (r: Result<seq<string>, Exception>)
    ensures r.Ok? <==> forall i :: 0 <= i < |rs| ==> rs[i].Ok?
    ensures r.Err? ==> exists i :: 0 <= i < |rs| && rs[i] == Err(r.error)
    ensures r.Ok? ==> |r.value| == |rs| && forall i :: 0 <= i < |rs| ==> r.value[i] == rs[i].value
  {
    if rs == [] then Ok([])
    else
      match rs[0]
      case Err(x) => Err(x)
      case Ok(t) =>
        match Collect(rs[1..])
        case Err(x) => Err(x)
        case Ok(ts) => Ok([t] + ts)
  }

  /** The text of a formatted operand between two fixed pieces; a failure passes through. */
  function Wrap(before: string, r: Result<string, Exception>, after: string): Result<string, Exception>
  {
    match r
    case Err(x) => Err(x)
    case Ok(t) => Ok(before + t + after)
  }

  /** A formatted operand followed by a fixed piece. */
  function Suffixed(r: Result<string, Exception>, after: string): Result<string, Exception>
  {
    match r
    case Err(x) => Err(x)
    case Ok(t) => Ok(t + after)
  }

  function Binary(operator: string, l: Result<string, Exception>, r: Result<string, Exception>): Result<string, Exception>
  {
    match l
    case Err(x) => Err(x)
    case Ok(a) =>
      match r
      case Err(x) => Err(x)
      case Ok(b) => Ok(FormatBinary(operator, a, b))
  }

  /**
   * The Formatter visitor, for the node kinds modelled.  Only a LISTAGG call throws: when its
   * arguments are not the five the parser builds.
   */
  function Format(e: Expression): (r: Result<string, Exception>)
    ensures r.Err? ==> ListaggFailure(r.error)
    decreases e, 2
  {
    match e
    case Identifier(value, delimited) => Ok(if !delimited then value else "\"" + Texts.Doubled(value, '"') + "\"")
    case SymbolReference(name) => Ok(FormatIdentifier(name))
    case StringLiteral(text) => Ok(StringLiteralText(text))
    case CharLiteral(text) => Ok("CHAR " + StringLiteralText(text))
    case LongLiteral(l) => Ok(Texts.IntToString(l))
    case BooleanLiteral(b) => Ok(if b then "true" else "false")
    case NullLiteral => Ok("null")
    case NotExpression(x) => Wrap("(NOT ", Format(x), ")")
    case ComparisonExpression(op, l, r) => Binary(op, Format(l), Format(r))
    case ArithmeticBinary(op, l, r) => Binary(op, Format(l), Format(r))
    case ArithmeticUnary(sign, x) =>
      (match sign
       case Minus => Wrap("-(", Format(x), ")")
       case Plus => (match Format(x) case Err(err) => Err(err) case Ok(t) => Ok("+" + t)))
    case IsNullPredicate(x) => Wrap("(", Format(x), " IS NULL)")
    case IsNotNullPredicate(x) => Wrap("(", Format(x), " IS NOT NULL)")
    case BetweenPredicate(v, lo, hi) =>
      (match Format(v)
       case Err(x) => Err(x)
       case Ok(value) =>
         match Format(lo)
         case Err(x) => Err(x)
         case Ok(low) => Wrap("(" + value + " BETWEEN " + low + " AND ", Format(hi), ")"))
    case FunctionCall(_, n, _, _, _, _, _, _, _) =>
      if IsListagg(n) then FormatListagg(e) else FormatCall(e)
  }

  /** Each argument formatted, in order. */
  function FormattedArguments(e: Expression): (rs: seq<Result<string, Exception>>)
    requires e.FunctionCall?
    ensures |rs| == |e.arguments| && forall i :: 0 <= i < |rs| ==> rs[i] == Format(e.arguments[i])
    decreases e, 0
  {
    seq(|e.arguments|, i requires 0 <= i < |e.arguments| => Format(e.arguments[i]))
  }

  /** visitFunctionCall for a name other than LISTAGG. */
  function FormatCall(e: Expression): (r: Result<string, Exception>)
    requires e.FunctionCall? && !IsListagg(e.callName)
    ensures r.Err? ==> ListaggFailure(r.error)
    decreases e, 1
  {
    match Collect(FormattedArguments(e))
    case Err(x) => Err(x)
    case Ok(texts) =>
      var arguments := CallArguments(Suffix(e.callName), e.distinct, texts);
      match e.filter
      case None => Ok(CallText(e, arguments, None))
      case Some(f) =>
        match Format(f)
        case Err(x) => Err(x)
        case Ok(condition) => Ok(CallText(e, arguments, Some(condition)))
  }

  /** The five arguments the parser gives a LISTAGG call: two flags among them are boolean literals. */
  predicate ListaggShaped(args: seq<Expression>)
  {
    |args| >= 5 && args[2].BooleanLiteral? && args[4].BooleanLiteral?
  }

  const BooleanLiteralClass: string := "io.trino.sql.tree.BooleanLiteral"

  /** The two exceptions visitListagg can throw while reading its arguments. */
  predicate ListaggFailure(x: Exception)
  {
    x.IndexOutOfBounds? || x == ClassCast(BooleanLiteralClass)
  }

  /** The ON OVERFLOW behaviour: ERROR, or TRUNCATE with the filler and WITH or WITHOUT COUNT. */
  function OverflowText(overflowError: bool, filler: string, showCount: bool): string
  {
    if overflowError then " ERROR"
    else " TRUNCATE " + filler + (if showCount then " WITH COUNT" else " WITHOUT COUNT")
  }

  /** The text visitListagg builds from the printed expression, separator and overflow behaviour. */
  function ListaggText(distinct: bool, expression: string, separator: string, overflow: string,
                       orderBy: Option<seq<string>>): string
  {
    "LISTAGG(" + (if distinct then "DISTINCT " else "") + expression + ", " + separator + " ON OVERFLOW " + overflow + ")"
    + (if orderBy.Some? then " WITHIN GROUP (" + OrderByText(orderBy.value) + ")" else "")
  }

  /**
   * visitListagg: the arguments are read and cast in order (get(0) ... get(4)), then the
   * expression and separator are formatted, then the filler, when the overflow is truncated.
   */
  function FormatListagg(e: Expression): (r: Result<string, Exception>)
    requires e.FunctionCall? && IsListagg(e.callName)
    ensures r.Ok? ==> ListaggShaped(e.arguments)
    ensures r.Err? ==> ListaggFailure(r.error)
    decreases e, 1
  {
    var args := e.arguments;
    if |args| < 3 then Err(IndexOutOfBounds(|args|))
    else if !args[2].BooleanLiteral? then Err(ClassCast(BooleanLiteralClass))
    else if |args| < 5 then Err(IndexOutOfBounds(|args|))
    else if !args[4].BooleanLiteral? then Err(ClassCast(BooleanLiteralClass))
    else
      match Format(args[0])
      case Err(x) => Err(x)
      case Ok(expression) =>
        match Format(args[1])
        case Err(x) => Err(x)
        case Ok(separator) =>
          var filler := if args[2].boolean then Ok("") else Format(args[3]);
          match filler
          case Err(x) => Err(x)
          case Ok(f) =>
            Ok(ListaggText(e.distinct, expression, separator, OverflowText(args[2].boolean, f, args[4].boolean), e.orderBy))
  }

  /** The printed filler of a LISTAGG call; it is not printed when the overflow is an error. */
  function FillerText(args: seq<Expression>): string
    requires ListaggShaped(args) && (!args[2].boolean ==> Format(args[3]).Ok?)
  {
    if args[2].boolean then "" else Format(args[3]).value
  }

  /** A delimited identifier reads back as its value; an undelimited one is its value verbatim. */
  lemma IdentifierForms(value: string)
    ensures Format(Identifier(value, false)) == Ok(value)
    ensures Format(Identifier(value, true)) == Ok(FormatIdentifier(value))
    ensures Texts.Unquoted(Format(Identifier(value, true)).value, '"') == Some(value)
    ensures Format(SymbolReference(value)) == Ok(FormatIdentifier(value))
  {
  }

  /** Parenthesised forms: each starts with "(" and ends with ")", so it can stand as any operand. */
  predicate Parenthesised(t: string)
  {
    |t| >= 2 && t[0] == '(' && t[|t| - 1] == ')'
  }

  lemma ParenthesisedForms(e: Expression)
    requires e.NotExpression? || e.ComparisonExpression? || e.ArithmeticBinary? || e.IsNullPredicate?
      || e.IsNotNullPredicate? || e.BetweenPredicate?
    ensures Format(e).Ok? ==> Parenthesised(Format(e).value)
  {
  }

  /**
   * Unary minus always keeps its operand in parentheses, so it never reads as a negative number
   * literal: the text after "-" starts with "(".  Unary plus adds only the sign.
   */
  lemma UnaryForms(x: Expression)
    ensures Format(x).Ok? ==> Format(ArithmeticUnary(Minus, x)) == Ok("-(" + Format(x).value + ")")
    ensures Format(x).Ok? ==> Format(ArithmeticUnary(Minus, x)).value[1] == '('
    ensures Format(x).Ok? ==> Format(ArithmeticUnary(Plus, x)) == Ok("+" + Format(x).value)
    ensures Format(x).Err? ==> Format(ArithmeticUnary(Minus, x)) == Format(x) == Format(ArithmeticUnary(Plus, x))
  {
    assert Format(ArithmeticUnary(Minus, x)) == Wrap("-(", Format(x), ")");
  }

  /** The printed FILTER condition of a call whose condition formats. */
  function ConditionText(filter: Option<Expression>): Option<string>
    requires filter.Some? ==> Format(filter.value).Ok?
  {
    if filter.Some? then Some(Format(filter.value).value) else None
  }

  /** "count" is not "listagg", whatever the letter case. */
  lemma CountIsNotListagg(n: CallName)
    requires Texts.EqualsIgnoreCase(Suffix(n), "count")
    ensures !IsListagg(n)
  {
  }

  /**
   * An argument-less count prints "*" as its argument list, after DISTINCT when it is distinct,
   * with the processing mode, ORDER BY, null treatment, FILTER and OVER clauses in their places.
   */
  lemma CountStar(name: string, n: CallName, distinct: bool, mode: Option<ProcessingMode>, orderBy: Option<seq<string>>,
                  nulls: Option<NullTreatment>, filter: Option<Expression>, window: Option<string>)
    requires Texts.EqualsIgnoreCase(Suffix(n), "count")
    requires filter.Some? ==> Format(filter.value).Ok?
    ensures var e := FunctionCall(name, n, distinct, [], mode, orderBy, nulls, filter, window);
      Format(e) == Ok(ModePrefix(mode) + name + "(" + (if distinct then "DISTINCT *" else "*") + OrderByClause(orderBy) + ")"
                      + NullTreatmentClause(nulls) + FilterClause(ConditionText(filter)) + OverClause(window))
  {
    CountIsNotListagg(n);
  }

  /** A call other than LISTAGG prints its arguments in order, joined with ", ", after "DISTINCT " when distinct. */
  lemma CallArgumentsInOrder(e: Expression)
    requires e.FunctionCall? && !IsListagg(e.callName) && e.arguments != []
    requires forall i :: 0 <= i < |e.arguments| ==> Format(e.arguments[i]).Ok?
    requires e.filter.Some? ==> Format(e.filter.value).Ok?
    ensures Format(e) == Ok(CallText(e, (if e.distinct then "DISTINCT " else "")
      + Texts.Join(seq(|e.arguments|, i requires 0 <= i < |e.arguments| => Format(e.arguments[i]).value), ", "),
      ConditionText(e.filter)))
  {
    var rs := FormattedArguments(e);
    var texts := Collect(rs).value;
    assert texts == seq(|e.arguments|, i requires 0 <= i < |e.arguments| => Format(e.arguments[i]).value);
  }

  /** A call other than LISTAGG fails exactly when one of its arguments or its FILTER condition fails. */
  lemma CallFailsOnlyThroughOperands(e: Expression)
    requires e.FunctionCall? && !IsListagg(e.callName)
    ensures Format(e).Err? <==>
      (exists i :: 0 <= i < |e.arguments| && Format(e.arguments[i]).Err?) || (e.filter.Some? && Format(e.filter.value).Err?)
  {
    var rs := FormattedArguments(e);
    if Collect(rs).Err? {
      var i :| 0 <= i < |rs| && !rs[i].Ok?;
      assert Format(e.arguments[i]).Err?;
    }
  }

  /**
   * A well-shaped LISTAGG call whose operands format prints "LISTAGG(", its expression and
   * separator, ON OVERFLOW (with two spaces before ERROR), and WITHIN GROUP for its ORDER BY.
   */
  lemma ListaggForm(e: Expression)
    requires e.FunctionCall? && IsListagg(e.callName) && ListaggShaped(e.arguments)
    requires Format(e.arguments[0]).Ok? && Format(e.arguments[1]).Ok?
    requires !e.arguments[2].boolean ==> Format(e.arguments[3]).Ok?
    ensures var args := e.arguments;
      Format(e) == Ok(ListaggText(e.distinct, Format(args[0]).value, Format(args[1]).value,
                                  OverflowText(args[2].boolean, FillerText(args), args[4].boolean), e.orderBy))
    ensures var args := e.arguments;
      OverflowText(args[2].boolean, FillerText(args), args[4].boolean)
      == if args[2].boolean then " ERROR"
         else " TRUNCATE " + Format(args[3]).value + (if args[4].boolean then " WITH COUNT" else " WITHOUT COUNT")
  {
    assert Format(e) == FormatListagg(e);
  }

  /**
   * LISTAGG prints neither its formatted name, a processing mode, a null treatment, a FILTER nor
   * an OVER clause: changing any of them leaves its text as it is.
   */
  lemma ListaggIgnoresCallClauses(e: Expression, name: string, mode: Option<ProcessingMode>, nulls: Option<NullTreatment>,
                                  filter: Option<Expression>, window: Option<string>)
    requires e.FunctionCall? && IsListagg(e.callName)
    ensures Format(e) == Format(e.(formattedName := name, processingMode := mode, nullTreatment := nulls,
                                   filter := filter, window := window))
  {
    var e' := e.(formattedName := name, processingMode := mode, nullTreatment := nulls, filter := filter, window := window);
    assert Format(e) == FormatListagg(e) && Format(e') == FormatListagg(e');
  }

  /** LISTAGG throws when it lacks one of its five arguments or a flag is not a boolean literal. */
  lemma ListaggArgumentErrors(e: Expression)
    requires e.FunctionCall? && IsListagg(e.callName) && !ListaggShaped(e.arguments)
    ensures var args := e.arguments;
      Format(e) == if |args| < 3 || (args[2].BooleanLiteral? && |args| < 5) then Err(IndexOutOfBounds(|args|))
                   else Err(ClassCast(BooleanLiteralClass))
  {
  }

  /** Every LISTAGG call in the tree has the five arguments the parser gives it. */
  predicate WellShaped(e: Expression)
    decreases e
  {
    match e
    case NotExpression(x) => WellShaped(x)
    case ComparisonExpression(_, l, r) => WellShaped(l) && WellShaped(r)
    case ArithmeticBinary(_, l, r) => WellShaped(l) && WellShaped(r)
    case ArithmeticUnary(_, x) => WellShaped(x)
    case IsNullPredicate(x) => WellShaped(x)
    case IsNotNullPredicate(x) => WellShaped(x)
    case BetweenPredicate(v, lo, hi) => WellShaped(v) && WellShaped(lo) && WellShaped(hi)
    case FunctionCall(_, n, _, args, _, _, _, f, _) =>
      (IsListagg(n) ==> ListaggShaped(args))
      && (forall i :: 0 <= i < |args| ==> WellShaped(args[i]))
      && (f.Some? ==> WellShaped(f.value))
    case _ => true
  }

  /** Formatting fails only on a LISTAGG call the parser would not build: a well-shaped tree always prints. */
  lemma {:induction false} FormatSucceeds(e: Expression)
    requires WellShaped(e)
    ensures Format(e).Ok?
    decreases e
  {
    match e
    case NotExpression(x) => FormatSucceeds(x);
    case ComparisonExpression(_, l, r) => FormatSucceeds(l); FormatSucceeds(r);
    case ArithmeticBinary(_, l, r) => FormatSucceeds(l); FormatSucceeds(r);
    case ArithmeticUnary(_, x) => FormatSucceeds(x);
    case IsNullPredicate(x) => FormatSucceeds(x);
    case IsNotNullPredicate(x) => FormatSucceeds(x);
    case BetweenPredicate(v, lo, hi) => FormatSucceeds(v); FormatSucceeds(lo); FormatSucceeds(hi);
    case FunctionCall(_, n, _, args, _, _, _, f, _) =>
      forall i | 0 <= i < |args|
        ensures Format(args[i]).Ok?
      {
        FormatSucceeds(args[i]);
      }
      if f.Some? {
        FormatSucceeds(f.value);
      }
      if !IsListagg(n) {
        var rs := FormattedArguments(e);
        assert forall i :: 0 <= i < |rs| ==> rs[i].Ok?;
      }
    case _ =>
  }

  // ---------------------------------------------------------------------------
  // Window frame bounds.

  datatype FrameBound =
    | UnboundedPreceding
    | Preceding(precedingValue: Expression)
    | CurrentRow
    | Following(followingValue: Expression)
    | UnboundedFollowing

  /** formatFrameBound: the fixed text of each kind, a bounded frame's value before its direction. */
  function FormatFrameBound(b: FrameBound): (r: Result<string, Exception>)
    ensures b.Preceding? ==> r == Suffixed(Format(b.precedingValue), " PRECEDING")
    ensures b.Following? ==> r == Suffixed(Format(b.followingValue), " FOLLOWING")
    ensures !b.Preceding? && !b.Following? ==> r.Ok?
  {
    match b
    case UnboundedPreceding => Ok("UNBOUNDED PRECEDING")
    case Preceding(v) => Suffixed(Format(v), " PRECEDING")
    case CurrentRow => Ok("CURRENT ROW")
    case Following(v) => Suffixed(Format(v), " FOLLOWING")
    case UnboundedFollowing => Ok("UNBOUNDED FOLLOWING")
  }

  /** The last nine characters of a text, or "" when it is shorter. */
  function LastNine(r: string): string
  {
    if |r| >= 9 then r[|r| - 9..] else ""
  }

  /** The text's last word names the direction: PRECEDING, FOLLOWING or ROW. */
  lemma FrameBoundDirection(b: FrameBound)
    requires FormatFrameBound(b).Ok?
    ensures (b.UnboundedPreceding? || b.Preceding?) <==> LastNine(FormatFrameBound(b).value) == "PRECEDING"
    ensures (b.UnboundedFollowing? || b.Following?) <==> LastNine(FormatFrameBound(b).value) == "FOLLOWING"
  {
    assert "PRECEDING" != "FOLLOWING" by { assert "PRECEDING"[0] != "FOLLOWING"[0]; }
    match b
    case UnboundedPreceding => EndsWithWord("UNBOUNDED", " PRECEDING");
    case Preceding(v) => EndsWithWord(Format(v).value, " PRECEDING");
    case CurrentRow => assert LastNine("CURRENT ROW") == "URRENT ROW"[1..];
    case Following(v) => EndsWithWord(Format(v).value, " FOLLOWING");
    case UnboundedFollowing => EndsWithWord("UNBOUNDED", " FOLLOWING");
  }

  /** The last nine characters of a text are those of its last piece, when that is long enough. */
  lemma EndsWithWord(front: string, word: string)
    requires |word| >= 9
    ensures LastNine(front + word) == word[|word| - 9..]
  {
  }
}
