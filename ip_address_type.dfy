/**
 * IpAddressType: IPADDRESS values are 16 bytes (an IPv6 address, IPv4 mapped into it), held as
 * two little-endian longs.  The comparison byte-reverses each long and compares the halves as
 * unsigned numbers, which orders addresses like their 16 bytes read in network (big-endian) order.
 */
module IpAddressTypes {
  import opened Wrappers
  import opened Exceptions
  import opened JavaInts
  import opened Texts

  /** INT128_BYTES. */
  const AddressBytes: nat := 16

  /** getFixedSize: one 128-bit value. */
  function FixedSize(): (n: nat)
    ensures n * 8 == 128
  {
    AddressBytes
  }

  // ---------------------------------------------------------------------------
  // Bytes and longs.

  function Pow256(n: nat): (p: nat)
    ensures p >= 1
  {
    if n == 0 then 1 else 256 * Pow256(n - 1)
  }

  /** The unsigned value of bytes stored least significant first. */
  function LittleEndian(w: seq<Byte>): (v: nat)
    ensures v < Pow256(|w|)
  {
    if w == [] then 0 else w[0] + 256 * LittleEndian(w[1..])
  }

  /** The unsigned value of bytes stored most significant first. */
  function BigEndian(w: seq<Byte>): nat
  {
    if w == [] then 0 else 256 * BigEndian(w[..|w| - 1]) + w[|w| - 1]
  }

  /** The n low-order bytes of u, least significant first. */
  function LittleEndianBytes(u: nat, n: nat): (w: seq<Byte>)
    ensures |w| == n
  {
    if n == 0 then [] else [u % 256] + LittleEndianBytes(u / 256, n - 1)
  }

  lemma {:induction false} LittleEndianOfBytes(u: nat, n: nat)
    requires u < Pow256(n)
    ensures LittleEndian(LittleEndianBytes(u, n)) == u
  {
    if n > 0 {
      LittleEndianOfBytes(u / 256, n - 1);
      assert LittleEndianBytes(u, n)[1..] == LittleEndianBytes(u / 256, n - 1);
    }
  }

  lemma {:induction false} BytesOfLittleEndian(w: seq<Byte>)
    ensures LittleEndianBytes(LittleEndian(w), |w|) == w
  {
    if w != [] {
      BytesOfLittleEndian(w[1..]);
      var u := LittleEndian(w);
      assert u % 256 == w[0] && u / 256 == LittleEndian(w[1..]);
    }
  }

  /** A 64-bit pattern read as a signed long. */
  function Signed(u: nat): (x: Long)
    requires u < 0x1_0000_0000_0000_0000
    ensures Unsigned(x) == u
  {
    if u >= 0x8000_0000_0000_0000 then u - 0x1_0000_0000_0000_0000 else u
  }

  /** Slice.getLong: the long stored little-endian at the offset. */
  function GetLong(s: seq<Byte>, offset: nat): (x: Long)
    requires offset + 8 <= |s|
    ensures Unsigned(x) == LittleEndian(s[offset..offset + 8])
  {
    assert Pow256(8) == 0x1_0000_0000_0000_0000;
    Signed(LittleEndian(s[offset..offset + 8]))
  }

  /** The eight bytes of a long, least significant first. */
  function LongBytes(x: Long): (w: seq<Byte>)
    ensures |w| == 8
  {
    LittleEndianBytes(Unsigned(x), 8)
  }

  function Reverse(w: seq<Byte>): (r: seq<Byte>)
    ensures |r| == |w|
  {
    if w == [] then [] else [w[|w| - 1]] + Reverse(w[..|w| - 1])
  }

  /** Long.reverseBytes. */
  function ReverseBytes(x: Long): Long
  {
    assert Pow256(8) == 0x1_0000_0000_0000_0000;
    Signed(LittleEndian(Reverse(LongBytes(x))))
  }

  lemma {:induction false} LittleEndianOfReverse(w: seq<Byte>)
    ensures LittleEndian(Reverse(w)) == BigEndian(w)
  {
    if w != [] {
      LittleEndianOfReverse(w[..|w| - 1]);
      assert Reverse(w)[1..] == Reverse(w[..|w| - 1]);
    }
  }

  lemma {:induction false} ReverseInjective(v: seq<Byte>, w: seq<Byte>)
    requires |v| == |w| && Reverse(v) == Reverse(w)
    ensures v == w
  {
    if v != [] {
      assert Reverse(v)[1..] == Reverse(v[..|v| - 1]);
      assert Reverse(w)[1..] == Reverse(w[..|w| - 1]);
      ReverseInjective(v[..|v| - 1], w[..|w| - 1]);
      assert v == v[..|v| - 1] + [v[|v| - 1]];
      assert w == w[..|w| - 1] + [w[|w| - 1]];
    }
  }

  /** Long.reverseBytes loses nothing: distinct longs reverse to distinct longs. */
  lemma ReverseBytesInjective(x: Long, y: Long)
    ensures ReverseBytes(x) == ReverseBytes(y) <==> x == y
  {
    if ReverseBytes(x) == ReverseBytes(y) {
      var rx, ry := Reverse(LongBytes(x)), Reverse(LongBytes(y));
      BytesOfLittleEndian(rx);
      BytesOfLittleEndian(ry);
      assert Pow256(8) == 0x1_0000_0000_0000_0000;
      assert LittleEndian(rx) == LittleEndian(ry);
      ReverseInjective(LongBytes(x), LongBytes(y));
      LittleEndianOfBytes(Unsigned(x), 8);
      LittleEndianOfBytes(Unsigned(y), 8);
      assert CompareUnsigned(x, y) == 0;
    }
  }

  /** Byte-reversing a stored long gives, unsigned, the big-endian value of its eight bytes. */
  lemma ReversedLong(s: seq<Byte>, offset: nat)
    requires offset + 8 <= |s|
    ensures Unsigned(ReverseBytes(GetLong(s, offset))) == BigEndian(s[offset..offset + 8])
  {
    var w := s[offset..offset + 8];
    BytesOfLittleEndian(w);
    assert LongBytes(GetLong(s, offset)) == w;
    LittleEndianOfReverse(w);
    assert Pow256(8) == 0x1_0000_0000_0000_0000;
  }

  // ---------------------------------------------------------------------------
  // Lexicographic order of byte strings, the reference the comparison is proved against.

  /** -1, 0 or 1 as x is before, equal to or after y, the first differing byte deciding. */
  function LexCompare(x: seq<Byte>, y: seq<Byte>): (r: int)
    requires |x| == |y|
    ensures -1 <= r <= 1
    ensures r == 0 <==> x == y
  {
    if x == [] then 0
    else if x[0] != y[0] then Compare(x[0], y[0])
    else
      var c := LexCompare(x[1..], y[1..]);
      assert c == 0 ==> x == [x[0]] + x[1..] == [y[0]] + y[1..] == y;
      c
  }

  lemma {:induction false} LexCompareAntisymmetric(x: seq<Byte>, y: seq<Byte>)
    requires |x| == |y|
    ensures LexCompare(x, y) == -LexCompare(y, x)
  {
    if x != [] && x[0] == y[0] {
      LexCompareAntisymmetric(x[1..], y[1..]);
    }
  }

  /** Comparing two concatenations: the first parts decide unless they are equal. */
  lemma {:induction false} LexCompareAppend(x1: seq<Byte>, x2: seq<Byte>, y1: seq<Byte>, y2: seq<Byte>)
    requires |x1| == |y1| && |x2| == |y2|
    ensures LexCompare(x1 + x2, y1 + y2) == if LexCompare(x1, y1) != 0 then LexCompare(x1, y1) else LexCompare(x2, y2)
  {
    if x1 == [] {
      assert x1 + x2 == x2 && y1 + y2 == y2;
    } else {
      assert (x1 + x2)[0] == x1[0] && (y1 + y2)[0] == y1[0];
      if x1[0] == y1[0] {
        assert (x1 + x2)[1..] == x1[1..] + x2 && (y1 + y2)[1..] == y1[1..] + y2;
        LexCompareAppend(x1[1..], x2, y1[1..], y2);
      }
    }
  }

  /** Big-endian values of equal-length strings compare like the strings themselves. */
  lemma {:induction false} BigEndianOrder(x: seq<Byte>, y: seq<Byte>)
    requires |x| == |y|
    ensures Compare(BigEndian(x), BigEndian(y)) == LexCompare(x, y)
  {
    if x != [] {
      var n := |x| - 1;
      BigEndianOrder(x[..n], y[..n]);
      assert x == x[..n] + [x[n]] && y == y[..n] + [y[n]];
      LexCompareAppend(x[..n], [x[n]], y[..n], [y[n]]);
      assert LexCompare([x[n]], [y[n]]) == Compare(x[n], y[n]) by {
        if x[n] == y[n] {
          assert [x[n]][1..] == [];
        }
      }
    }
  }

  // ---------------------------------------------------------------------------
  // The type's operations.

  /** equal: both halves equal. */
  function Equal(leftLow: Long, leftHigh: Long, rightLow: Long, rightHigh: Long): (r: bool)
    ensures r <==> GetSlice(leftLow, leftHigh) == GetSlice(rightLow, rightHigh)
  {
    leftLow == rightLow && leftHigh == rightHigh
  }

  /** compareBigEndian: the byte-reversed low halves compared unsigned, then the high halves. */
  function CompareBigEndian(leftLow64le: Long, leftHigh64le: Long, rightLow64le: Long, rightHigh64le: Long): (r: int)
    ensures r == 0 <==> Equal(leftLow64le, leftHigh64le, rightLow64le, rightHigh64le)
  {
    ReverseBytesInjective(leftLow64le, rightLow64le);
    ReverseBytesInjective(leftHigh64le, rightHigh64le);
    var value := CompareUnsigned(ReverseBytes(leftLow64le), ReverseBytes(rightLow64le));
    if value != 0 then value else CompareUnsigned(ReverseBytes(leftHigh64le), ReverseBytes(rightHigh64le))
  }

  type Address = s: seq<Byte> | |s| == 16 witness seq(16, _ => 0)

  /** The slice form of the equal operator: two getLong reads per side. */
  function EqualOperator(left: Address, right: Address): (r: bool)
    ensures r <==> left == right
  {
    LongsDetermineBytes(left, right);
    Equal(GetLong(left, 0), GetLong(left, 8), GetLong(right, 0), GetLong(right, 8))
  }

  lemma LongsDetermineBytes(left: Address, right: Address)
    ensures GetLong(left, 0) == GetLong(right, 0) && GetLong(left, 8) == GetLong(right, 8) <==> left == right
  {
    if GetLong(left, 0) == GetLong(right, 0) && GetLong(left, 8) == GetLong(right, 8) {
      BytesOfLittleEndian(left[0..8]);
      BytesOfLittleEndian(right[0..8]);
      BytesOfLittleEndian(left[8..16]);
      BytesOfLittleEndian(right[8..16]);
      assert left == left[0..8] + left[8..16];
      assert right == right[0..8] + right[8..16];
    }
  }

  /** The slice form of the comparison operator. */
  function ComparisonOperator(left: Address, right: Address): (r: int)
    ensures r == LexCompare(left, right)
  {
    ComparisonIsLexicographic(left, right);
    CompareBigEndian(GetLong(left, 0), GetLong(left, 8), GetLong(right, 0), GetLong(right, 8))
  }

  /** One half: the byte-reversed longs compare unsigned like their eight bytes. */
  lemma HalfIsLexicographic(left: Address, right: Address, offset: nat, half: int)
    requires offset == 0 || offset == 8
    requires half == LexCompare(left[offset..offset + 8], right[offset..offset + 8])
    ensures CompareUnsigned(ReverseBytes(GetLong(left, offset)), ReverseBytes(GetLong(right, offset))) == half
  {
    ReversedLong(left, offset);
    ReversedLong(right, offset);
    BigEndianOrder(left[offset..offset + 8], right[offset..offset + 8]);
  }

  lemma LexCompareHalves(left: Address, right: Address, low: int, high: int)
    requires low == LexCompare(left[0..8], right[0..8]) && high == LexCompare(left[8..16], right[8..16])
    ensures LexCompare(left, right) == if low != 0 then low else high
  {
    assert left == left[0..8] + left[8..16];
    assert right == right[0..8] + right[8..16];
    LexCompareAppend(left[0..8], left[8..16], right[0..8], right[8..16]);
  }

  /** The comparison orders addresses like their 16 bytes in network order. */
  lemma ComparisonIsLexicographic(left: Address, right: Address)
    ensures CompareBigEndian(GetLong(left, 0), GetLong(left, 8), GetLong(right, 0), GetLong(right, 8)) == LexCompare(left, right)
  {
    var low, high := LexCompare(left[0..8], right[0..8]), LexCompare(left[8..16], right[8..16]);
    LexCompareHalves(left, right, low, high);
    HalfIsLexicographic(left, right, 0, low);
    HalfIsLexicographic(left, right, 8, high);
    CompareBigEndianOfHalves(GetLong(left, 0), GetLong(left, 8), GetLong(right, 0), GetLong(right, 8), low, high);
  }

  /** compareBigEndian decides on the low halves unless they compare equal. */
  lemma CompareBigEndianOfHalves(leftLow: Long, leftHigh: Long, rightLow: Long, rightHigh: Long, low: int, high: int)
    requires CompareUnsigned(ReverseBytes(leftLow), ReverseBytes(rightLow)) == low
    requires CompareUnsigned(ReverseBytes(leftHigh), ReverseBytes(rightHigh)) == high
    ensures CompareBigEndian(leftLow, leftHigh, rightLow, rightHigh) == if low != 0 then low else high
  {
  }

  /** The comparison is zero exactly for equal addresses, and swapping the operands negates it. */
  lemma ComparisonConsistentWithEqual(left: Address, right: Address)
    ensures ComparisonOperator(left, right) == 0 <==> EqualOperator(left, right)
    ensures ComparisonOperator(left, right) == -ComparisonOperator(right, left)
  {
    LexCompareAntisymmetric(left, right);
  }

  /**
   * writeSlice(value, offset, length): unless the length is exactly 16, IllegalState; otherwise the
   * two longs read at the offset, which are what the block stores.
   */
  function WriteSlice(value: seq<Byte>, offset: nat, length: int): (r: Result<(Long, Long), Exception>)
    requires length == AddressBytes ==> offset + length <= |value|
    ensures r.Ok? <==> length == AddressBytes
    ensures r.Err? ==> r.error == IllegalState("Expected entry size to be exactly 16 but was " + IntToString(length))
  {
    if length != AddressBytes then
      Err(IllegalState("Expected entry size to be exactly 16 but was " + IntToString(length)))
    else
      Ok((GetLong(value, offset), GetLong(value, offset + 8)))
  }

  /** getSlice: the stored longs wrapped back into 16 bytes. */
  function GetSlice(low: Long, high: Long): (s: Address)
    ensures GetLong(s, 0) == low && GetLong(s, 8) == high
  {
    var s := LongBytes(low) + LongBytes(high);
    assert s[0..8] == LongBytes(low) && s[8..16] == LongBytes(high);
    assert Pow256(8) == 0x1_0000_0000_0000_0000;
    LittleEndianOfBytes(Unsigned(low), 8);
    LittleEndianOfBytes(Unsigned(high), 8);
    assert CompareUnsigned(GetLong(s, 0), low) == 0 && CompareUnsigned(GetLong(s, 8), high) == 0;
    s
  }

  /** Reading back what writeSlice stored gives the 16 bytes of the written region. */
  lemma WriteThenGetSlice(value: seq<Byte>, offset: nat)
    requires offset + AddressBytes <= |value|
    ensures WriteSlice(value, offset, AddressBytes).Ok?
    ensures GetSlice(WriteSlice(value, offset, AddressBytes).value.0, WriteSlice(value, offset, AddressBytes).value.1)
      == value[offset..offset + AddressBytes]
  {
    var w1 := value[offset..offset + 8];
    var w2 := value[offset + 8..offset + 16];
    BytesOfLittleEndian(w1);
    BytesOfLittleEndian(w2);
    assert value[offset..offset + 16] == w1 + w2;
  }
}
