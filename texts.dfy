/**
 * Text helpers shared by the formatting and parsing parts of the model: decimal and fixed-width
 * hexadecimal numerals, and the "double every quote, then wrap in quotes" escaping that SQL
 * identifiers, string literals and row field names use.
 */
module Texts {
  import opened Wrappers

  /** An unsigned byte, as the source's slices hold them. */
  type Byte = b: int | 0 <= b < 256

  // ---------------------------------------------------------------------------
  // Decimal numerals.

  function DecimalDigit(d: nat): (c: char)
    requires d < 10
    ensures '0' <= c <= '9'
    ensures c as int - '0' as int == d
  {
    (d + '0' as int) as char
  }

  predicate IsDigit(c: char)
  {
    '0' <= c <= '9'
  }

  /** The decimal text of a natural number, without leading zeros (Java's `Long.toString` for n >= 0). */
  function NatToString(n: nat): (s: string)
    ensures |s| >= 1
    ensures forall i :: 0 <= i < |s| ==> IsDigit(s[i])
    ensures |s| > 1 ==> s[0] != '0'
    decreases n
  {
    if n < 10 then [DecimalDigit(n)] else NatToString(n / 10) + [DecimalDigit(n % 10)]
  }

  /** The value of a digit string, most significant digit first. */
  function DecimalValue(s: string): nat
    requires forall i :: 0 <= i < |s| ==> IsDigit(s[i])
  {
    if s == [] then 0 else DecimalValue(s[..|s| - 1]) * 10 + DigitValue(s[|s| - 1])
  }

  function DigitValue(c: char): (d: nat)
    requires IsDigit(c)
    ensures d < 10
  {
    c as int - '0' as int
  }

  /** Reading the decimal text back gives the number. */
  lemma {:induction false} DecimalValueOfNatToString(n: nat)
    ensures DecimalValue(NatToString(n)) == n
    decreases n
  {
    var s := NatToString(n);
    if n >= 10 {
      DecimalValueOfNatToString(n / 10);
      assert s[..|s| - 1] == NatToString(n / 10);
    }
  }

  /** Distinct numbers have distinct decimal texts. */
  lemma NatToStringInjective(m: nat, n: nat)
    requires NatToString(m) == NatToString(n)
    ensures m == n
  {
    DecimalValueOfNatToString(m);
    DecimalValueOfNatToString(n);
  }

  /** The decimal text of an integer: a '-' before the magnitude for negative numbers. */
  function IntToString(i: int): (s: string)
    ensures |s| >= 1
    ensures (s[0] == '-') <==> i < 0
  {
    if i < 0 then "-" + NatToString(-i) else NatToString(i)
  }

  /** Reading an integer's text back: an optional '-' followed by digits. */
  function ParseInt(s: string): (r: Option<int>)
    ensures r.Some? ==> |s| >= 1 && (r.value < 0 ==> s[0] == '-')
  {
    if |s| >= 2 && s[0] == '-' && forall i :: 1 <= i < |s| ==> IsDigit(s[i]) then
      var magnitude: int := DecimalValue(s[1..]);
      Some(-magnitude)
    else if |s| >= 1 && forall i :: 0 <= i < |s| ==> IsDigit(s[i]) then
      Some(DecimalValue(s))
    else
      None
  }

  lemma ParseIntOfIntToString(i: int)
    ensures ParseInt(IntToString(i)) == Some(i)
  {
    var s := IntToString(i);
    if i < 0 {
      assert s[1..] == NatToString(-i);
      DecimalValueOfNatToString(-i);
    } else {
      DecimalValueOfNatToString(i);
    }
  }

  // ---------------------------------------------------------------------------
  // Fixed-width upper-case hexadecimal numerals (Java's "%0wX" for values that fit in w digits).

  function HexDigit(d: nat): (c: char)
    requires d < 16
    ensures ('0' <= c <= '9') || ('A' <= c <= 'F')
  {
    if d < 10 then DecimalDigit(d) else (d - 10 + 'A' as int) as char
  }

  function HexDigitValue(c: char): (d: nat)
    ensures d < 16
  {
    if '0' <= c <= '9' then c as int - '0' as int
    else if 'A' <= c <= 'F' then c as int - 'A' as int + 10
    else 0
  }

  function Pow16(w: nat): (p: nat)
    ensures p >= 1
  {
    if w == 0 then 1 else 16 * Pow16(w - 1)
  }

  /** The w-digit hexadecimal text of n, padded with leading zeros. */
  function HexFixed(n: nat, w: nat): (s: string)
    requires n < Pow16(w)
    ensures |s| == w
    ensures forall i :: 0 <= i < |s| ==> ('0' <= s[i] <= '9') || ('A' <= s[i] <= 'F')
  {
    if w == 0 then "" else HexFixed(n / 16, w - 1) + [HexDigit(n % 16)]
  }

  function HexValue(s: string): nat
  {
    if s == [] then 0 else HexValue(s[..|s| - 1]) * 16 + HexDigitValue(s[|s| - 1])
  }

  /** Reading the fixed-width hexadecimal text back gives the number. */
  lemma {:induction false} HexValueOfHexFixed(n: nat, w: nat)
    requires n < Pow16(w)
    ensures HexValue(HexFixed(n, w)) == n
  {
    if w > 0 {
      var s := HexFixed(n, w);
      HexValueOfHexFixed(n / 16, w - 1);
      assert s[..|s| - 1] == HexFixed(n / 16, w - 1);
    }
  }

  // ---------------------------------------------------------------------------
  // Quote doubling.

  /** Every occurrence of the quote character q doubled (Java's `s.replace("q", "qq")`). */
  function Doubled(s: string, q: char): (r: string)
    ensures |r| >= |s|
    ensures q !in s ==> r == s
  {
    if s == [] then [] else (if s[0] == q then [q, q] else [s[0]]) + Doubled(s[1..], q)
  }

  /** The inverse of Doubled: every q must come in a pair, which collapses to one q. */
  function Undoubled(t: string, q: char): Option<string>
  {
    if t == [] then Some([])
    else if t[0] != q then
      match Undoubled(t[1..], q)
      case Some(rest) => Some([t[0]] + rest)
      case None => None
    else if |t| >= 2 && t[1] == q then
      match Undoubled(t[2..], q)
      case Some(rest) => Some([q] + rest)
      case None => None
    else None
  }

  lemma {:induction false} UndoubledDoubled(s: string, q: char)
    ensures Undoubled(Doubled(s, q), q) == Some(s)
  {
    if s != [] {
      UndoubledDoubled(s[1..], q);
      var rest := Doubled(s[1..], q);
      if s[0] == q {
        var t := [q, q] + rest;
        assert t[2..] == rest;
        assert Undoubled(t, q) == Some([q] + s[1..]);
      } else {
        var t := [s[0]] + rest;
        assert t[1..] == rest;
        assert Undoubled(t, q) == Some([s[0]] + s[1..]);
      }
      assert [s[0]] + s[1..] == s;
    }
  }

  /** The text q + Doubled(s) + q. */
  function Quoted(s: string, q: char): (r: string)
    ensures |r| >= 2 && r[0] == q && r[|r| - 1] == q
    ensures q !in s ==> r[1..|r| - 1] == s
  {
    [q] + Doubled(s, q) + [q]
  }

  /** Strip the outer quotes and collapse the doubled inner ones. */
  function Unquoted(t: string, q: char): Option<string>
  {
    if |t| >= 2 && t[0] == q && t[|t| - 1] == q then Undoubled(t[1..|t| - 1], q) else None
  }

  /** The other direction: whatever Undoubled accepts, Doubled rebuilds exactly. */
  lemma {:induction false} DoubledUndoubled(t: string, q: char)
    requires Undoubled(t, q).Some?
    ensures Doubled(Undoubled(t, q).value, q) == t
    decreases |t|
  {
    if t != [] {
      if t[0] != q {
        DoubledUndoubled(t[1..], q);
        var u := [t[0]] + Undoubled(t[1..], q).value;
        assert u[0] == t[0] && u[1..] == Undoubled(t[1..], q).value;
      } else {
        DoubledUndoubled(t[2..], q);
        var u := [q] + Undoubled(t[2..], q).value;
        assert u[0] == q && u[1..] == Undoubled(t[2..], q).value;
        assert [q, q] + t[2..] == t;
      }
      assert [t[0]] + t[1..] == t;
    }
  }

  /** Every text Unquoted accepts is the quoting of what it returns. */
  lemma QuotedUnquoted(t: string, q: char)
    requires Unquoted(t, q).Some?
    ensures Quoted(Unquoted(t, q).value, q) == t
  {
    DoubledUndoubled(t[1..|t| - 1], q);
    assert [q] + t[1..|t| - 1] + [q] == t;
  }

  /** Quoting is reversible, so distinct texts quote differently. */
  lemma UnquotedQuoted(s: string, q: char)
    ensures Unquoted(Quoted(s, q), q) == Some(s)
  {
    var t := Quoted(s, q);
    assert t[1..|t| - 1] == Doubled(s, q);
    UndoubledDoubled(s, q);
  }

  lemma QuotedInjective(s1: string, s2: string, q: char)
    requires Quoted(s1, q) == Quoted(s2, q)
    ensures s1 == s2
  {
    UnquotedQuoted(s1, q);
    UnquotedQuoted(s2, q);
  }

  // ---------------------------------------------------------------------------
  // Joining and ASCII letter case.

  /** Joiner.on(sep).join: the texts with sep between neighbours. */
  function Join(texts: seq<string>, sep: string): string
  {
    if texts == [] then "" else if |texts| == 1 then texts[0] else texts[0] + sep + Join(texts[1..], sep)
  }

  function AsciiLower(c: char): char
  {
    if 'A' <= c <= 'Z' then (c as int + 32) as char else c
  }

  function AsciiUpper(c: char): char
  {
    if 'a' <= c <= 'z' then (c as int - 32) as char else c
  }

  /** toUpperCase(ENGLISH) on ASCII text. */
  function UpperCased(s: string): (r: string)
    ensures |r| == |s|
    ensures forall i :: 0 <= i < |s| ==> r[i] == AsciiUpper(s[i])
  {
    seq(|s|, i requires 0 <= i < |s| => AsciiUpper(s[i]))
  }

  /** equalsIgnoreCase with ASCII letter case ignored. */
  predicate EqualsIgnoreCase(a: string, b: string)
  {
    |a| == |b| && forall i :: 0 <= i < |a| ==> AsciiLower(a[i]) == AsciiLower(b[i])
  }

  /** toLowerCase(ENGLISH) on ASCII text. */
  function LowerCased(s: string): (r: string)
    ensures |r| == |s|
    ensures forall i :: 0 <= i < |s| ==> r[i] == AsciiLower(s[i])
  {
    seq(|s|, i requires 0 <= i < |s| => AsciiLower(s[i]))
  }

  /** A text equals its lower-cased form ignoring case. */
  lemma EqualsIgnoreCaseLowerCased(s: string)
    ensures EqualsIgnoreCase(s, LowerCased(s))
  {
    forall i | 0 <= i < |s|
      ensures AsciiLower(s[i]) == AsciiLower(LowerCased(s)[i])
    {
      var c := s[i];
      if 'A' <= c <= 'Z' {
        assert 'a' <= AsciiLower(c) <= 'z';
      }
    }
  }

  // ---------------------------------------------------------------------------
  // Splitting on a separator character.

  /**
   * Splitter.on(c).splitToList(s): the pieces between the occurrences of c, empty pieces
   * included; a text without c is one piece.
   */
  function Split(s: string, c: char): (parts: seq<string>)
    ensures |parts| >= 1
    ensures forall i :: 0 <= i < |parts| ==> c !in parts[i]
    decreases |s|
  {
    if s == [] then [""]
    else if s[0] == c then [""] + Split(s[1..], c)
    else
      var rest := Split(s[1..], c);
      [[s[0]] + rest[0]] + rest[1..]
  }

  /** Splitting a text that contains no separator gives the text itself. */
  lemma {:induction false} SplitWithoutSeparator(s: string, c: char)
    requires c !in s
    ensures Split(s, c) == [s]
    decreases |s|
  {
    if s != [] {
      SplitWithoutSeparator(s[1..], c);
      assert [s[0]] + s[1..] == s;
    }
  }

  /** The pieces of a + c + b are the pieces of a followed by the pieces of b. */
  lemma {:induction false} SplitAround(a: string, b: string, c: char)
    ensures Split(a + [c] + b, c) == Split(a, c) + Split(b, c)
    decreases |a|
  {
    var s := a + [c] + b;
    if a == [] {
      assert s[1..] == b;
    } else {
      assert s[1..] == a[1..] + [c] + b;
      SplitAround(a[1..], b, c);
    }
  }

  /** A text that contains the separator splits into at least two pieces. */
  lemma SplitWithSeparator(s: string, c: char)
    requires c in s
    ensures |Split(s, c)| >= 2
  {
    var k :| 0 <= k < |s| && s[k] == c;
    assert s == s[..k] + [c] + s[k + 1..];
    SplitAround(s[..k], s[k + 1..], c);
  }

  /** Splitting undoes joining with the separator, and joining undoes splitting. */
  lemma {:induction false} JoinSplit(s: string, c: char)
    ensures Join(Split(s, c), [c]) == s
    decreases |s|
  {
    if s != [] {
      JoinSplit(s[1..], c);
      var rest := Split(s[1..], c);
      if s[0] == c {
        assert [c] + s[1..] == s;
      } else {
        if |rest| == 1 {
          assert [s[0]] + s[1..] == s;
        } else {
          assert Join(rest, [c]) == rest[0] + [c] + Join(rest[1..], [c]);
          assert [s[0]] + s[1..] == s;
        }
      }
    }
  }
}
