/**
 * VarcharOperators: the casts out of VARCHAR that work on the slice's bytes directly.  Bytes are
 * Java's signed bytes; ASCII letters are the only ones the case mapping touches.
 */
module VarcharOperators {
  import opened Wrappers
  import opened Exceptions
  import opened JavaInts

  /** isLowerCase: an ASCII letter a-z. */
  predicate IsLowerCase(b: JavaByte)
  {
    'a' as int <= b <= 'z' as int
  }

  /** toUpperCase: a-z moved down by 32 to A-Z; every other byte unchanged. */
  function ToUpperCase(b: JavaByte): (r: JavaByte)
    ensures IsLowerCase(b) ==> r == b - 32 && 'A' as int <= r <= 'Z' as int
    ensures !IsLowerCase(b) ==> r == b
  {
    if IsLowerCase(b) then b - 32 else b
  }

  /** The ASCII codes of a text, for comparing it with bytes. */
  function Ascii(s: string): (r: seq<int>)
    ensures |r| == |s|
    ensures forall i :: 0 <= i < |s| ==> r[i] == s[i] as int
  {
    if s == [] then [] else [s[0] as int] + Ascii(s[1..])
  }

  /** A byte with A-Z moved up to a-z. */
  function LowerByte(b: JavaByte): int
  {
    if 'A' as int <= b <= 'Z' as int then b + 32 else b
  }

  /** A letter-case-insensitive reading of the bytes, independent of ToUpperCase. */
  function LowerCased(v: seq<JavaByte>): (r: seq<int>)
    ensures |r| == |v|
    ensures forall i :: 0 <= i < |v| ==> r[i] == LowerByte(v[i])
  {
    if v == [] then [] else [LowerByte(v[0])] + LowerCased(v[1..])
  }

  /** The spellings of true: t, 1 and true, in any letter case. */
  predicate IsTrueText(v: seq<JavaByte>)
  {
    LowerCased(v) == Ascii("t") || LowerCased(v) == Ascii("1") || LowerCased(v) == Ascii("true")
  }

  /** The spellings of false: f, 0 and false, in any letter case. */
  predicate IsFalseText(v: seq<JavaByte>)
  {
    LowerCased(v) == Ascii("f") || LowerCased(v) == Ascii("0") || LowerCased(v) == Ascii("false")
  }

  /** Slice.toStringUtf8, which is not part of this model: the decoding of the bytes for the error message. */
  type Utf8Decoder = seq<JavaByte> -> string

  /** The one-character test of castToBoolean for true, then the four-byte word test. */
  predicate SpelledTrue(v: seq<JavaByte>)
  {
    (|v| == 1 && (ToUpperCase(v[0]) == 'T' as int || ToUpperCase(v[0]) == '1' as int))
    || (|v| == 4 && ToUpperCase(v[0]) == 'T' as int && ToUpperCase(v[1]) == 'R' as int
        && ToUpperCase(v[2]) == 'U' as int && ToUpperCase(v[3]) == 'E' as int)
  }

  /** The one-character test of castToBoolean for false, then the five-byte word test. */
  predicate SpelledFalse(v: seq<JavaByte>)
  {
    (|v| == 1 && (ToUpperCase(v[0]) == 'F' as int || ToUpperCase(v[0]) == '0' as int))
    || (|v| == 5 && ToUpperCase(v[0]) == 'F' as int && ToUpperCase(v[1]) == 'A' as int
        && ToUpperCase(v[2]) == 'L' as int && ToUpperCase(v[3]) == 'S' as int && ToUpperCase(v[4]) == 'E' as int)
  }

  /** castToBoolean: true and false spellings in the source's order; anything else is INVALID_CAST_ARGUMENT. */
  function CastToBoolean(value: seq<JavaByte>, toStringUtf8: Utf8Decoder): (r: Result<bool, Exception>)
    ensures r == Ok(true) <==> IsTrueText(value)
    ensures r == Ok(false) <==> IsFalseText(value)
    ensures r.Err? <==> !IsTrueText(value) && !IsFalseText(value)
    ensures r.Err? ==> r.error == Trino("INVALID_CAST_ARGUMENT", "Cannot cast '" + toStringUtf8(value) + "' to BOOLEAN")
  {
    SpellingsMatchReference(value);
    if SpelledTrue(value) then Ok(true)
    else if SpelledFalse(value) then Ok(false)
    else Err(Trino("INVALID_CAST_ARGUMENT", "Cannot cast '" + toStringUtf8(value) + "' to BOOLEAN"))
  }

  /** For a lower-case letter or a digit c: the byte upper-cases to c's upper-case form exactly when it lower-cases to c. */
  lemma ByteCase(b: JavaByte, c: char)
    requires 'a' <= c <= 'z' || '0' <= c <= '9'
    ensures ToUpperCase(b) == (if 'a' <= c <= 'z' then c as int - 32 else c as int) <==> LowerByte(b) == c as int
  {
  }

  lemma WordCase(v: seq<JavaByte>, w: string)
    requires |v| == |w| && forall i :: 0 <= i < |w| ==> 'a' <= w[i] <= 'z' || '0' <= w[i] <= '9'
    ensures LowerCased(v) == Ascii(w) <==> forall i :: 0 <= i < |v| ==> ToUpperCase(v[i]) == (if 'a' <= w[i] <= 'z' then w[i] as int - 32 else w[i] as int)
  {
    forall i | 0 <= i < |v| {
      ByteCase(v[i], w[i]);
    }
    if forall i :: 0 <= i < |v| ==> LowerCased(v)[i] == Ascii(w)[i] {
      assert LowerCased(v) == Ascii(w);
    }
  }

  lemma OneByteSpellings(v: seq<JavaByte>)
    requires |v| == 1
    ensures IsTrueText(v) <==> SpelledTrue(v)
    ensures IsFalseText(v) <==> SpelledFalse(v)
  {
    WordCase(v, "t");
    WordCase(v, "1");
    WordCase(v, "f");
    WordCase(v, "0");
  }

  lemma FourByteSpellings(v: seq<JavaByte>)
    requires |v| == 4
    ensures IsTrueText(v) <==> SpelledTrue(v)
    ensures !IsFalseText(v) && !SpelledFalse(v)
  {
    WordCase(v, "true");
  }

  lemma FiveByteSpellings(v: seq<JavaByte>)
    requires |v| == 5
    ensures !IsTrueText(v) && !SpelledTrue(v)
    ensures IsFalseText(v) <==> SpelledFalse(v)
  {
    WordCase(v, "false");
  }

  /** The byte tests of castToBoolean accept exactly the case-insensitive reference spellings, which never overlap. */
  lemma SpellingsMatchReference(v: seq<JavaByte>)
    ensures IsTrueText(v) <==> SpelledTrue(v)
    ensures IsFalseText(v) <==> SpelledFalse(v)
    ensures !(IsTrueText(v) && IsFalseText(v))
  {
    if |v| == 1 {
      OneByteSpellings(v);
      assert !(SpelledTrue(v) && SpelledFalse(v));
    } else if |v| == 4 {
      FourByteSpellings(v);
    } else if |v| == 5 {
      FiveByteSpellings(v);
    } else {
      assert |LowerCased(v)| == |v|;
    }
  }

  /** castToBinary: the same bytes, reinterpreted as VARBINARY. */
  function CastToBinary(slice: seq<JavaByte>): (r: seq<JavaByte>)
    ensures |r| == |slice| && forall i :: 0 <= i < |slice| ==> r[i] == slice[i]
  {
    slice
  }
}
