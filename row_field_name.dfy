/**
 * RowFieldName: the name of a row type's field.  Its text form wraps the name in double quotes
 * and doubles every embedded double quote.
 */
module RowFieldNames {
  import opened Wrappers
  import opened Exceptions
  import Texts

  datatype RowFieldName = RowFieldName(name: string)

  /** The constructor: a null name (None) is rejected. */
  function Create(name: Option<string>): (r: Result<RowFieldName, Exception>)
    ensures r.Ok? <==> name.Some?
    ensures r.Ok? ==> r.value.name == name.value
    ensures r.Err? ==> r.error == NullPointer("name is null")
  {
    match name
    case None => Err(NullPointer("name is null"))
    case Some(n) => Ok(RowFieldName(n))
  }

  /** toString: the name between double quotes, embedded double quotes doubled. */
  function ToString(f: RowFieldName): (s: string)
    ensures |s| >= 2 && s[0] == '"' && s[|s| - 1] == '"'
    ensures '"' !in f.name ==> s == "\"" + f.name + "\""
  {
    Texts.Quoted(f.name, '"')
  }

  /** Undoing toString: strip the outer quotes and collapse the doubled ones. */
  function Parse(s: string): (r: Option<RowFieldName>)
    ensures r.Some? ==> ToString(r.value) == s
  {
    match Texts.Unquoted(s, '"')
    case Some(n) => Texts.QuotedUnquoted(s, '"'); Some(RowFieldName(n))
    case None => None
  }

  /** Parsing the text form gives back the field name. */
  lemma ParseToString(f: RowFieldName)
    ensures Parse(ToString(f)) == Some(f)
  {
    Texts.UnquotedQuoted(f.name, '"');
  }

  /** Distinct names have distinct text forms. */
  lemma ToStringInjective(f: RowFieldName, g: RowFieldName)
    requires ToString(f) == ToString(g)
    ensures f == g
  {
    ParseToString(f);
    ParseToString(g);
  }

  /** equals: two field names are equal exactly when their names are. */
  function Equals(f: RowFieldName, g: RowFieldName): (r: bool)
    ensures r <==> f == g
    ensures r ==> ToString(f) == ToString(g)
  {
    f.name == g.name
  }
}
