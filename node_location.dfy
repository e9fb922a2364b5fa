/**
 * NodeLocation: the position of a syntax-tree node in the statement text, a line and a column,
 * both counted from one.  Its text form is "line:column".
 */
module NodeLocations {
  import opened Wrappers
  import opened Exceptions
  import opened JavaInts
  import Texts

  datatype NodeLocation = NodeLocation(line: Int, column: Int)

  /** The constructor, with its two argument checks in the source's order. */
  function Create(line: Int, column: Int): (r: Result<NodeLocation, Exception>)
    ensures r.Ok? <==> line >= 1 && column >= 1
    ensures r.Ok? ==> r.value.line == line && r.value.column == column
    ensures line < 1 ==> r == Err(IllegalArgument("line must be at least one, got: " + Texts.IntToString(line)))
    ensures line >= 1 && column < 1 ==> r == Err(IllegalArgument("column must be at least one, got: " + Texts.IntToString(column)))
  {
    if line < 1 then Err(IllegalArgument("line must be at least one, got: " + Texts.IntToString(line)))
    else if column < 1 then Err(IllegalArgument("column must be at least one, got: " + Texts.IntToString(column)))
    else Ok(NodeLocation(line, column))
  }

  /** What the constructor lets through. */
  predicate Valid(l: NodeLocation)
  {
    l.line >= 1 && l.column >= 1
  }

  /** toString: the line, a colon, the column. */
  function ToString(l: NodeLocation): (s: string)
    requires Valid(l)
    ensures ':' in s
    ensures forall i :: 0 <= i < |s| ==> s[i] == ':' || Texts.IsDigit(s[i])
  {
    Texts.IntToString(l.line) + ":" + Texts.IntToString(l.column)
  }

  /** Reads a "line:column" text back, accepting what the constructor accepts. */
  function Parse(s: string): (r: Option<NodeLocation>)
    ensures r.Some? ==> Valid(r.value)
  {
    var parts := Texts.Split(s, ':');
    if |parts| != 2 then None
    else
      match (Texts.ParseInt(parts[0]), Texts.ParseInt(parts[1]))
      case (Some(line), Some(column)) =>
        if -0x8000_0000 <= line <= 0x7FFF_FFFF && -0x8000_0000 <= column <= 0x7FFF_FFFF
          && Create(line, column).Ok?
        then Some(Create(line, column).value)
        else None
      case _ => None
  }

  /** The text of a location reads back as that location. */
  lemma ParseToString(l: NodeLocation)
    requires Valid(l)
    ensures Parse(ToString(l)) == Some(l)
  {
    var a := Texts.IntToString(l.line);
    var b := Texts.IntToString(l.column);
    assert ':' !in a by {
      forall i | 0 <= i < |a| ensures a[i] != ':' { assert Texts.IsDigit(a[i]); }
    }
    assert ':' !in b by {
      forall i | 0 <= i < |b| ensures b[i] != ':' { assert Texts.IsDigit(b[i]); }
    }
    assert ToString(l) == a + [':'] + b;
    Texts.SplitAround(a, b, ':');
    Texts.SplitWithoutSeparator(a, ':');
    Texts.SplitWithoutSeparator(b, ':');
    Texts.ParseIntOfIntToString(l.line);
    Texts.ParseIntOfIntToString(l.column);
  }

  /** Distinct locations have distinct texts. */
  lemma ToStringInjective(l: NodeLocation, m: NodeLocation)
    requires Valid(l) && Valid(m) && ToString(l) == ToString(m)
    ensures l == m
  {
    ParseToString(l);
    ParseToString(m);
  }

  /** equals: same line and same column. */
  function Equals(l: NodeLocation, m: NodeLocation): (r: bool)
    ensures r <==> l == m
    ensures r && Valid(l) ==> Valid(m) && ToString(l) == ToString(m)
  {
    l.line == m.line && l.column == m.column
  }
}
