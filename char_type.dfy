/**
 * CharType: the fixed-length CHAR(n) type.  Values are stored without trailing spaces and read
 * back padded with spaces to the declared length.  Text is modelled as code points: in UTF-8
 * the last byte of a slice is a space exactly when its last code point is U+0020.
 */
module CharTypes {
  import opened Wrappers
  import opened Exceptions
  import opened JavaInts
  import Texts
  import TypeCoercions

  datatype CharType = CharType(length: nat)

  /** createCharType: lengths outside [0, MAX_LENGTH] fail with INVALID_FUNCTION_ARGUMENT. */
  function CreateCharType(length: Long): (r: Result<CharType, Exception>)
    ensures r.Ok? <==> 0 <= length <= TypeCoercions.MaxCharLength
    ensures r.Ok? ==> r.value.length == length
    ensures r.Err? ==> r.error.Trino? && r.error.errorCode == "INVALID_FUNCTION_ARGUMENT"
  {
    if length < 0 || length > TypeCoercions.MaxCharLength then
      Err(Trino("INVALID_FUNCTION_ARGUMENT",
        "CHAR length must be in range [0, " + Texts.IntToString(TypeCoercions.MaxCharLength) + "], got " + Texts.IntToString(length)))
    else
      Ok(CharType(length))
  }

  function Spaces(n: nat): (s: string)
    ensures |s| == n
    ensures forall i :: 0 <= i < n ==> s[i] == ' '
  {
    if n == 0 then "" else Spaces(n - 1) + " "
  }

  /** padSpaces: the value followed by spaces up to the length (no padding when it is already that long). */
  function PadSpaces(s: string, length: nat): (r: string)
    ensures |r| == if |s| < length then length else |s|
    ensures r[..|s|] == s
    ensures forall i :: |s| <= i < |r| ==> r[i] == ' '
  {
    if |s| < length then s + Spaces(length - |s|) else s
  }

  /** The value with every trailing space removed. */
  function TrimTrailingSpaces(s: string): (r: string)
    ensures |r| <= |s| && r == s[..|r|]
    ensures r == [] || r[|r| - 1] != ' '
    ensures forall i :: |r| <= i < |s| ==> s[i] == ' '
  {
    if s != [] && s[|s| - 1] == ' ' then TrimTrailingSpaces(s[..|s| - 1]) else s
  }

  predicate HasTrailingSpace(s: string)
  {
    |s| > 0 && s[|s| - 1] == ' '
  }

  /**
   * getObjectValue for one position: null stays null; a stored value longer than the type or
   * ending in a space is rejected; otherwise the value padded to the declared length.
   */
  function GetObjectValue(t: CharType, entry: Option<string>): (r: Result<Option<string>, Exception>)
    ensures entry.None? ==> r == Ok(None)
    ensures entry.Some? ==> (r.Ok? <==> |entry.value| <= t.length && !HasTrailingSpace(entry.value))
    ensures r.Ok? && entry.Some? ==> r.value.Some? && |r.value.value| == t.length
    ensures r.Err? ==> r.error.IllegalArgument?
  {
    match entry
    case None => Ok(None)
    case Some(s) =>
      if |s| > 0 && |s| > t.length then
        Err(IllegalArgument("Character count exceeds length limit " + Texts.IntToString(t.length) + ": " + s))
      else if |s| > 0 && s[|s| - 1] == ' ' then
        Err(IllegalArgument("Value representation has a trailing space: " + s))
      else
        Ok(Some(PadSpaces(s, t.length)))
  }

  /**
   * writeSlice(value, offset, length): the region to be written, refused when it is non-empty
   * and ends in a space.
   */
  function WriteSlice(value: string, offset: nat, length: nat): (r: Result<string, Exception>)
    requires offset + length <= |value|
    ensures r.Ok? <==> !HasTrailingSpace(value[offset..offset + length])
    ensures r.Ok? ==> r.value == value[offset..offset + length]
    ensures r.Err? ==> r.error == IllegalArgument("Slice representing Char should not have trailing spaces")
  {
    if length > 0 && value[offset + length - 1] == ' ' then
      Err(IllegalArgument("Slice representing Char should not have trailing spaces"))
    else
      Ok(value[offset..offset + length])
  }

  /** The one-argument writeSlice: the whole value. */
  function WriteWholeSlice(value: string): (r: Result<string, Exception>)
    ensures r.Ok? <==> !HasTrailingSpace(value)
    ensures r.Ok? ==> r.value == value
  {
    assert value[0..|value|] == value;
    WriteSlice(value, 0, |value|)
  }

  /**
   * What writeSlice stores, getObjectValue reads back padded to the declared length, and trimming
   * the padding gives the stored value again.
   */
  lemma WriteThenRead(t: CharType, value: string)
    requires WriteWholeSlice(value).Ok? && |value| <= t.length
    ensures GetObjectValue(t, Some(value)).Ok?
    ensures GetObjectValue(t, Some(value)).value == Some(PadSpaces(value, t.length))
    ensures TrimTrailingSpaces(PadSpaces(value, t.length)) == value
  {
    TrimPadded(value, t.length);
  }

  lemma {:induction false} TrimPadded(s: string, length: nat)
    requires !HasTrailingSpace(s)
    ensures TrimTrailingSpaces(PadSpaces(s, length)) == s
    decreases length
  {
    if |s| < length {
      var p := PadSpaces(s, length);
      assert p[|p| - 1] == ' ';
      assert p[..|p| - 1] == PadSpaces(s, length - 1);
      TrimPadded(s, length - 1);
    }
  }

  /** equals: two CHAR types are equal exactly when their lengths are. */
  function Equals(a: CharType, b: CharType): (r: bool)
    ensures r <==> a == b
  {
    a.length == b.length
  }
}
