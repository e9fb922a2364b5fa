/**
 * The columnar block model shared by DictionaryBlock and AbstractArrayBlock.
 *
 * A block is an immutable sequence of positions.  `Flat` stands for every leaf block
 * (long arrays, variable-width slices, ...): it holds one optional scalar per position and,
 * as the abstract leaf size, the number of bytes each position occupies.  `Dict` is a
 * DictionaryBlock: position p holds `dictionary[ids[idsOffset + p]]`.  `Arr` is an array
 * block: position p holds the elements `raw[offsets[offsetBase + p] .. offsets[offsetBase + p + 1])`
 * unless it is null.
 */
module Blocks {
  import opened Wrappers
  import BlockEncodings

  /** What a position holds, independent of how the block encodes it. */
  datatype Value = Null | Scalar(v: int) | Items(elements: seq<Value>)

  /**
   * The lazily computed statistics of a DictionaryBlock (sizeInBytes, uniqueIds,
   * isSequentialIds).  `Unknown`: not computed yet (uniqueIds reads -1).  `Compacted`:
   * the constructor was told the dictionary is compact and filled them in from the
   * dictionary.  `Computed`: calculateCompactSize has run; the values are those of
   * `CompactSize`.
   */
  datatype Stats = Unknown | Compacted(sequential: bool) | Computed

  datatype Block =
    | Flat(encoding: string, values: seq<Option<int>>, sizes: seq<nat>)
    | Dict(idsOffset: nat, positionCount: nat, dictionary: Block, ids: seq<int>, sourceId: nat, stats: Stats)
    | Arr(offsetBase: nat, positionCount: nat, valueIsNull: Option<seq<bool>>, offsets: seq<int>, raw: Block)

  /** What the block operations throw. */
  datatype BlockError = IllegalArgument(message: string) | IndexOutOfBounds | IllegalState(message: string)

  function PositionCount(b: Block): nat
  {
    match b
    case Flat(_, values, _) => |values|
    case Dict(_, n, _, _, _, _) => n
    case Arr(_, n, _, _, _) => n
  }

  /** Structural well-formedness: ids point into the dictionary, offsets into the raw block. */
  predicate Valid(b: Block)
    decreases b
  {
    match b
    case Flat(e, values, sizes) => e in BlockEncodings.LeafNames && |sizes| == |values|
    case Dict(off, n, d, ids, _, _) =>
      Valid(d) && off + n <= |ids| && forall i :: off <= i < off + n ==> 0 <= ids[i] < PositionCount(d)
    case Arr(base, n, nulls, offsets, raw) =>
      Valid(raw) && base + n < |offsets| && (nulls.Some? ==> base + n <= |nulls.value|)
      && (forall i :: base <= i <= base + n ==> 0 <= offsets[i] <= PositionCount(raw))
      && (forall i, j :: base <= i <= j <= base + n ==> offsets[i] <= offsets[j])
  }

  /** The ids window of a dictionary block: ids[idsOffset .. idsOffset + positionCount). */
  function IdsWindow(b: Block): (w: seq<int>)
    requires b.Dict? && Valid(b)
    ensures |w| == b.positionCount
    ensures forall i :: 0 <= i < |w| ==> 0 <= w[i] < PositionCount(b.dictionary)
  {
    b.ids[b.idsOffset .. b.idsOffset + b.positionCount]
  }

  /** First element index of an array-block entry (getOffset). */
  function Start(b: Block, p: nat): nat
    requires b.Arr? && Valid(b) && p <= b.positionCount
  {
    b.offsets[b.offsetBase + p]
  }

  /** Number of raw elements of an array-block entry. */
  function Length(b: Block, p: nat): nat
    requires b.Arr? && Valid(b) && p < b.positionCount
  {
    b.offsets[b.offsetBase + p + 1] - b.offsets[b.offsetBase + p]
  }

  predicate ArrNull(b: Block, p: nat)
    requires b.Arr? && Valid(b) && p < b.positionCount
  {
    b.valueIsNull.Some? && b.valueIsNull.value[b.offsetBase + p]
  }

  /** The logical value at position p. */
  function ValueAt(b: Block, p: nat): Value
    requires Valid(b) && p < PositionCount(b)
    decreases b, 0, 0
  {
    match b
    case Flat(_, values, _) => if values[p].Some? then Scalar(values[p].value) else Null
    case Dict(off, _, d, ids, _, _) => ValueAt(d, ids[off + p])
    case Arr(_, _, _, _, raw) => if ArrNull(b, p) then Null else Items(ValuesFrom(raw, Start(b, p), Length(b, p)))
  }

  /** The values of positions start .. start + len of a block. */
  function ValuesFrom(b: Block, start: nat, len: nat): (vs: seq<Value>)
    requires Valid(b) && start + len <= PositionCount(b)
    ensures |vs| == len
    decreases b, 1, len
  {
    if len == 0 then [] else [ValueAt(b, start)] + ValuesFrom(b, start + 1, len - 1)
  }

  lemma {:induction false} ValuesFromAt(b: Block, start: nat, len: nat, k: nat)
    requires Valid(b) && start + len <= PositionCount(b) && k < len
    ensures ValuesFrom(b, start, len)[k] == ValueAt(b, start + k)
    decreases len
  {
    if k > 0 {
      ValuesFromAt(b, start + 1, len - 1, k - 1);
    }
  }

  /** Every logical value of the block, in position order. */
  function Values(b: Block): (vs: seq<Value>)
    requires Valid(b)
    ensures |vs| == PositionCount(b)
  {
    seq(PositionCount(b), p requires 0 <= p < PositionCount(b) => ValueAt(b, p))
  }

  /** Block.mayHaveNull. */
  predicate MayHaveNull(b: Block)
    requires Valid(b)
    decreases b
  {
    match b
    case Flat(_, values, _) => exists i :: 0 <= i < |values| && values[i].None?
    case Dict(_, n, d, _, _, _) => n > 0 && MayHaveNull(d)
    case Arr(_, _, nulls, _, _) => nulls.Some?
  }

  /** Block.isNull on a valid position. */
  predicate IsNull(b: Block, p: nat)
    requires Valid(b) && p < PositionCount(b)
    decreases b
  {
    match b
    case Flat(_, values, _) => values[p].None?
    case Dict(off, n, d, ids, _, _) => MayHaveNull(b) && IsNull(d, ids[off + p])
    case Arr(_, _, _, _, _) => ArrNull(b, p)
  }

  /** Block.getEncodingName. */
  function EncodingName(b: Block): (r: string)
    ensures Valid(b) ==> r in BlockEncodings.BuiltIns
    ensures b.Dict? ==> r == BlockEncodings.Dictionary
  {
    match b
    case Flat(e, _, _) => e
    case Dict(_, _, _, _, _, _) => BlockEncodings.Dictionary
    case Arr(_, _, _, _, _) => BlockEncodings.ArrayEncoding
  }

  // ---------------------------------------------------------------------------
  // First-occurrence numbering, used by compact and copyPositions.

  /** The distinct elements of xs, in order of first occurrence. */
  function Distinct(xs: seq<int>): seq<int>
    decreases |xs|
  {
    if xs == [] then []
    else
      var d := Distinct(xs[..|xs| - 1]);
      if xs[|xs| - 1] in d then d else d + [xs[|xs| - 1]]
  }

  predicate NoDuplicates(s: seq<int>)
  {
    forall i, j :: 0 <= i < j < |s| ==> s[i] != s[j]
  }

  lemma {:induction false} DistinctFacts(xs: seq<int>)
    ensures NoDuplicates(Distinct(xs))
    ensures forall x :: x in Distinct(xs) <==> x in xs
    ensures |Distinct(xs)| <= |xs|
    ensures |Distinct(xs)| == |xs| ==> Distinct(xs) == xs
    decreases |xs|
  {
    if xs != [] {
      var init := xs[..|xs| - 1];
      DistinctFacts(init);
      assert xs == init + [xs[|xs| - 1]];
    }
  }

  lemma {:induction false} DistinctBounded(xs: seq<int>, hi: int)
    requires forall i :: 0 <= i < |xs| ==> 0 <= xs[i] < hi
    ensures forall j :: 0 <= j < |Distinct(xs)| ==> 0 <= Distinct(xs)[j] < hi
    decreases |xs|
  {
    if xs != [] {
      DistinctBounded(xs[..|xs| - 1], hi);
    }
  }

  /** The position of x in s. */
  function IndexOf(s: seq<int>, x: int): (k: nat)
    requires x in s
    ensures k < |s| && s[k] == x
  {
    if s[0] == x then 0 else 1 + IndexOf(s[1..], x)
  }

  lemma IndexOfUnique(s: seq<int>, x: int, j: nat)
    requires NoDuplicates(s) && j < |s| && s[j] == x
    ensures IndexOf(s, x) == j
  {
  }

  /** xs renumbered in first-occurrence order: element i becomes the rank of xs[i] in Distinct(xs). */
  function Renumbered(xs: seq<int>): (r: seq<int>)
    ensures |r| == |xs|
  {
    DistinctFacts(xs);
    seq(|xs|, i requires 0 <= i < |xs| => IndexOf(Distinct(xs), xs[i]))
  }

  lemma RenumberedFacts(xs: seq<int>)
    ensures forall i :: 0 <= i < |xs| ==>
      (0 <= Renumbered(xs)[i] < |Distinct(xs)| && Distinct(xs)[Renumbered(xs)[i]] == xs[i])
  {
    DistinctFacts(xs);
  }

  /** The given positions of a block resolved to ids of its dictionary. */
  function MappedIds(b: Block, ps: seq<int>): (m: seq<int>)
    requires b.Dict? && Valid(b)
    requires forall i :: 0 <= i < |ps| ==> 0 <= ps[i] < b.positionCount
    ensures |m| == |ps|
    ensures forall i :: 0 <= i < |m| ==> m[i] == b.ids[b.idsOffset + ps[i]] && 0 <= m[i] < PositionCount(b.dictionary)
  {
    seq(|ps|, i requires 0 <= i < |ps| => b.ids[b.idsOffset + ps[i]])
  }

  // ---------------------------------------------------------------------------
  // Statistics as the source keeps them.

  predicate StrictlyIncreasing(s: seq<int>)
  {
    forall k :: 0 < k < |s| ==> s[k - 1] < s[k]
  }

  /** The uniqueIds field as read directly (copyPositions, copyRegion): -1 until computed. */
  function RawUniqueIds(b: Block): int
    requires b.Dict? && Valid(b)
  {
    match b.stats
    case Unknown => -1
    case Compacted(_) => PositionCount(b.dictionary)
    case Computed => |Distinct(IdsWindow(b))|
  }

  /** The isSequentialIds field as read directly. */
  function RawSequentialIds(b: Block): bool
    requires b.Dict? && Valid(b)
  {
    match b.stats
    case Unknown => false
    case Compacted(q) => q
    case Computed => !b.dictionary.Dict? && StrictlyIncreasing(IdsWindow(b))
  }

  /** getUniqueIds: the field, computing it first when it is still -1. */
  function UniqueIds(b: Block): (r: int)
    requires b.Dict? && Valid(b)
    ensures r >= 0
    ensures RawUniqueIds(b) >= 0 ==> r == RawUniqueIds(b)
  {
    if b.stats.Unknown? then |Distinct(IdsWindow(b))| else RawUniqueIds(b)
  }

  /** isCompact. */
  predicate IsCompact(b: Block)
    requires b.Dict? && Valid(b)
  {
    !b.dictionary.Dict? && UniqueIds(b) == PositionCount(b.dictionary)
  }

  /**
   * The promise behind the constructor's dictionaryIsCompacted and isSequentialIds flags,
   * which the constructor does not check: every dictionary entry is referenced, and
   * sequential ids really increase.
   */
  predicate Honest(b: Block)
    requires Valid(b)
    decreases b
  {
    match b
    case Flat(_, _, _) => true
    case Dict(_, _, d, _, _, st) =>
      Honest(d)
      && (st.Compacted? ==> !d.Dict? && |Distinct(IdsWindow(b))| == PositionCount(d)
                            && (st.sequential ==> StrictlyIncreasing(IdsWindow(b))))
    case Arr(_, _, _, _, raw) => Honest(raw)
  }

  // ---------------------------------------------------------------------------
  // copyPositions

  /** Entry length as copyPositions copies it: a null entry of a block with a null array copies nothing. */
  function EntryLength(b: Block, p: nat): nat
    requires b.Arr? && Valid(b) && p < b.positionCount
  {
    if ArrNull(b, p) then 0 else Length(b, p)
  }

  /** newOffsets of AbstractArrayBlock.copyPositions. */
  function NewOffsets(b: Block, ps: seq<int>): (r: seq<nat>)
    requires b.Arr? && Valid(b) && forall i :: 0 <= i < |ps| ==> 0 <= ps[i] < b.positionCount
    ensures |r| == |ps| + 1 && r[0] == 0
    decreases |ps|
  {
    if ps == [] then [0]
    else
      var o := NewOffsets(b, ps[..|ps| - 1]);
      o + [o[|ps| - 1] + EntryLength(b, ps[|ps| - 1])]
  }

  /** The new offsets telescope: entry i of the copy is exactly as long as entry ps[i] copies. */
  lemma {:induction false} NewOffsetsStep(b: Block, ps: seq<int>, i: nat)
    requires b.Arr? && Valid(b) && forall j :: 0 <= j < |ps| ==> 0 <= ps[j] < b.positionCount
    requires i < |ps|
    ensures NewOffsets(b, ps)[i + 1] == NewOffsets(b, ps)[i] + EntryLength(b, ps[i])
    decreases |ps|
  {
    var init := ps[..|ps| - 1];
    if i < |ps| - 1 {
      NewOffsetsStep(b, init, i);
    }
  }

  /** The new offsets never decrease and stay within [0, last]. */
  lemma {:induction false} NewOffsetsBounded(b: Block, ps: seq<int>, i: nat, j: nat)
    requires b.Arr? && Valid(b) && forall k :: 0 <= k < |ps| ==> 0 <= ps[k] < b.positionCount
    requires i <= j <= |ps|
    ensures 0 <= NewOffsets(b, ps)[i] <= NewOffsets(b, ps)[j]
    decreases |ps|
  {
    if |ps| > 0 {
      var init := ps[..|ps| - 1];
      assert NewOffsets(b, ps) == NewOffsets(b, init) + [NewOffsets(b, init)[|init|] + EntryLength(b, ps[|ps| - 1])];
      if j < |ps| {
        NewOffsetsBounded(b, init, i, j);
      } else if i < |ps| {
        NewOffsetsBounded(b, init, i, |init|);
      }
    }
  }

  lemma NewOffsetsMonotone(b: Block, ps: seq<int>)
    requires b.Arr? && Valid(b) && forall k :: 0 <= k < |ps| ==> 0 <= ps[k] < b.positionCount
    ensures forall i, j :: 0 <= i <= j <= |ps| ==> 0 <= NewOffsets(b, ps)[i] <= NewOffsets(b, ps)[j]
  {
    forall i, j | 0 <= i <= j <= |ps| ensures 0 <= NewOffsets(b, ps)[i] <= NewOffsets(b, ps)[j] {
      NewOffsetsBounded(b, ps, i, j);
    }
  }

  /** Run of element indices a..a+n. */
  function Range(a: int, n: nat): (r: seq<int>)
    ensures |r| == n && forall k :: 0 <= k < n ==> r[k] == a + k
  {
    seq(n, k requires 0 <= k < n => a + k)
  }

  /** valuesPositions of AbstractArrayBlock.copyPositions: the element indices of the copied entries. */
  function ElementPositions(b: Block, ps: seq<int>): (r: seq<int>)
    requires b.Arr? && Valid(b) && forall i :: 0 <= i < |ps| ==> 0 <= ps[i] < b.positionCount
    ensures forall j :: 0 <= j < |r| ==> 0 <= r[j] < PositionCount(b.raw)
    decreases |ps|
  {
    if ps == [] then []
    else
      var init := ps[..|ps| - 1];
      var p := ps[|ps| - 1];
      ElementPositions(b, init) + (if ArrNull(b, p) then [] else Range(Start(b, p), Length(b, p)))
  }

  /** The copied elements are exactly as many as the last new offset says. */
  lemma {:induction false} ElementPositionsLength(b: Block, ps: seq<int>)
    requires b.Arr? && Valid(b) && forall i :: 0 <= i < |ps| ==> 0 <= ps[i] < b.positionCount
    ensures |ElementPositions(b, ps)| == NewOffsets(b, ps)[|ps|]
    decreases |ps|
  {
    if ps != [] {
      ElementPositionsLength(b, ps[..|ps| - 1]);
    }
  }

  /** The array block copyPositions builds around the copied elements `values`. */
  function CopiedArray(b: Block, ps: seq<int>, values: Block): (r: Block)
    requires b.Arr? && Valid(b) && forall i :: 0 <= i < |ps| ==> 0 <= ps[i] < b.positionCount
    requires Valid(values) && PositionCount(values) == |ElementPositions(b, ps)|
    ensures Valid(r) && PositionCount(r) == |ps|
  {
    NewOffsetsMonotone(b, ps);
    ElementPositionsLength(b, ps);
    var newNulls := if b.valueIsNull.Some? then Some(seq(|ps|, i requires 0 <= i < |ps| => ArrNull(b, ps[i]))) else None;
    Arr(0, |ps|, newNulls, NewOffsets(b, ps), values)
  }

  /** The dictionary block copyPositions builds over the compacted dictionary. */
  function RenumberedDictionary(m: seq<int>, compact: Block, freshId: nat): (r: Block)
    requires Valid(compact) && PositionCount(compact) == |Distinct(m)|
    ensures Valid(r) && PositionCount(r) == |m|
  {
    RenumberedFacts(m);
    Dict(0, |m|, compact, Renumbered(m), freshId, Compacted(false))
  }

  /** Entry i of a renumbered dictionary is the compacted entry its new id names. */
  lemma RenumberedValueAt(m: seq<int>, compact: Block, freshId: nat, i: nat)
    requires Valid(compact) && PositionCount(compact) == |Distinct(m)| && i < |m|
    ensures (RenumberedFacts(m); ValueAt(RenumberedDictionary(m, compact, freshId), i) == ValueAt(compact, Renumbered(m)[i]))
  {
    RenumberedFacts(m);
  }

  /** Block.copyPositions on positions that are valid for the block. */
  function CopyPositions(b: Block, ps: seq<int>, freshId: nat): (r: Block)
    requires Valid(b) && forall i :: 0 <= i < |ps| ==> 0 <= ps[i] < PositionCount(b)
    ensures Valid(r) && PositionCount(r) == |ps|
    decreases b
  {
    match b
    case Flat(e, values, sizes) =>
      assert PositionCount(b) == |values|;
      Flat(e, seq(|ps|, i requires 0 <= i < |ps| => values[ps[i]]), seq(|ps|, i requires 0 <= i < |ps| => sizes[ps[i]]))
    case Dict(_, n, d, _, _, _) =>
      assert PositionCount(b) == n;
      var m := MappedIds(b, ps);
      if |ps| <= 1 || d.Dict? || RawUniqueIds(b) == n then CopyPositions(d, m, freshId)
      else
        DistinctBounded(m, PositionCount(d));
        var compact := CopyPositions(d, Distinct(m), freshId);
        if |Distinct(m)| == |ps| then compact else RenumberedDictionary(m, compact, freshId)
    case Arr(_, n, _, _, raw) =>
      assert PositionCount(b) == n;
      CopiedArray(b, ps, CopyPositions(raw, ElementPositions(b, ps), freshId))
  }

  lemma {:induction false} ElementPositionsAt(b: Block, ps: seq<int>, i: nat, k: nat)
    requires b.Arr? && Valid(b) && forall j :: 0 <= j < |ps| ==> 0 <= ps[j] < b.positionCount
    requires i < |ps| && k < EntryLength(b, ps[i])
    ensures NewOffsets(b, ps)[i] + k < |ElementPositions(b, ps)|
      && ElementPositions(b, ps)[NewOffsets(b, ps)[i] + k] == Start(b, ps[i]) + k
    decreases |ps|
  {
    var init := ps[..|ps| - 1];
    if i < |ps| - 1 {
      assert init[i] == ps[i];
      ElementPositionsAt(b, init, i, k);
      ElementPositionsInit(b, ps, i, k);
    } else {
      ElementPositionsLast(b, ps, i, k);
    }
  }

  lemma ElementPositionsInit(b: Block, ps: seq<int>, i: nat, k: nat)
    requires b.Arr? && Valid(b) && forall j :: 0 <= j < |ps| ==> 0 <= ps[j] < b.positionCount
    requires i < |ps| - 1 && k < EntryLength(b, ps[i])
    requires var init := ps[..|ps| - 1];
             NewOffsets(b, init)[i] + k < |ElementPositions(b, init)|
             && ElementPositions(b, init)[NewOffsets(b, init)[i] + k] == Start(b, ps[i]) + k
    ensures NewOffsets(b, ps)[i] + k < |ElementPositions(b, ps)|
      && ElementPositions(b, ps)[NewOffsets(b, ps)[i] + k] == Start(b, ps[i]) + k
  {
    var init := ps[..|ps| - 1];
    ElementPositionsSnoc(b, ps);
    var o, oi := NewOffsets(b, ps), NewOffsets(b, init);
    assert o[i] == o[..|ps|][i] == oi[i];
  }

  lemma ElementPositionsLast(b: Block, ps: seq<int>, i: nat, k: nat)
    requires b.Arr? && Valid(b) && forall j :: 0 <= j < |ps| ==> 0 <= ps[j] < b.positionCount
    requires i == |ps| - 1 && k < EntryLength(b, ps[i])
    ensures NewOffsets(b, ps)[i] + k < |ElementPositions(b, ps)|
      && ElementPositions(b, ps)[NewOffsets(b, ps)[i] + k] == Start(b, ps[i]) + k
  {
    var init := ps[..|ps| - 1];
    var last := ps[|ps| - 1];
    ElementPositionsSnoc(b, ps);
    var o, oi := NewOffsets(b, ps), NewOffsets(b, init);
    assert o[|init|] == o[..|ps|][|init|] == oi[|init|];
    assert !ArrNull(b, last);
  }


  /** The element positions and new offsets of ps extend those of all but its last position. */
  lemma ElementPositionsSnoc(b: Block, ps: seq<int>)
    requires b.Arr? && Valid(b) && forall j :: 0 <= j < |ps| ==> 0 <= ps[j] < b.positionCount
    requires ps != []
    ensures var init := ps[..|ps| - 1];
            var last := ps[|ps| - 1];
            var tail := if ArrNull(b, last) then [] else Range(Start(b, last), Length(b, last));
            ElementPositions(b, ps) == ElementPositions(b, init) + tail
            && |ElementPositions(b, init)| == NewOffsets(b, init)[|init|]
            && NewOffsets(b, ps)[..|ps|] == NewOffsets(b, init)
            && |tail| == EntryLength(b, last)
  {
    ElementPositionsLength(b, ps[..|ps| - 1]);
  }


  /** copyPositions result position i holds the value of position ps[i]. */
  lemma {:induction false} CopyPositionsValueAt(b: Block, ps: seq<int>, freshId: nat, i: nat)
    requires Valid(b) && forall j :: 0 <= j < |ps| ==> 0 <= ps[j] < PositionCount(b)
    requires i < |ps|
    ensures ValueAt(CopyPositions(b, ps, freshId), i) == ValueAt(b, ps[i])
    decreases b, 3
  {
    match b
    case Flat(_, _, _) =>
    case Dict(_, _, _, _, _, _) => DictCopyPositionsValueAt(b, ps, freshId, i);
    case Arr(_, n, _, _, raw) =>
      assert PositionCount(b) == n;
      CopiedArrayValueAt(b, ps, freshId, i);
  }

  lemma {:induction false} DictCopyPositionsValueAt(b: Block, ps: seq<int>, freshId: nat, i: nat)
    requires b.Dict? && Valid(b) && forall j :: 0 <= j < |ps| ==> 0 <= ps[j] < b.positionCount
    requires i < |ps|
    ensures ValueAt(CopyPositions(b, ps, freshId), i) == ValueAt(b, ps[i])
    decreases b, 2
  {
    var d := b.dictionary;
    var m := MappedIds(b, ps);
    DictCopyPositionsCases(b, ps, freshId);
    assert ValueAt(b, ps[i]) == ValueAt(d, m[i]);
    if |ps| <= 1 || d.Dict? || RawUniqueIds(b) == b.positionCount {
      CopyPositionsValueAt(d, m, freshId, i);
    } else {
      DistinctBounded(m, PositionCount(d));
      if |Distinct(m)| == |ps| {
        DistinctFacts(m);
        CopyPositionsValueAt(d, m, freshId, i);
      } else {
        RenumberedFacts(m);
        var compact := CopyPositions(d, Distinct(m), freshId);
        RenumberedValueAt(m, compact, freshId, i);
        CopyPositionsValueAt(d, Distinct(m), freshId, Renumbered(m)[i]);
      }
    }
  }

  lemma CopyPositionsOfArray(b: Block, ps: seq<int>, freshId: nat)
    requires b.Arr? && Valid(b) && forall j :: 0 <= j < |ps| ==> 0 <= ps[j] < b.positionCount
    ensures CopyPositions(b, ps, freshId) == CopiedArray(b, ps, CopyPositions(b.raw, ElementPositions(b, ps), freshId))
  {
    assert PositionCount(b) == b.positionCount;
  }

  lemma {:induction false} CopiedArrayValueAt(b: Block, ps: seq<int>, freshId: nat, i: nat)
    requires b.Arr? && Valid(b) && forall j :: 0 <= j < |ps| ==> 0 <= ps[j] < b.positionCount
    requires i < |ps|
    ensures ValueAt(CopyPositions(b, ps, freshId), i) == ValueAt(b, ps[i])
    decreases b, 2
  {
    CopyPositionsOfArray(b, ps, freshId);
    if !ArrNull(b, ps[i]) {
      CopiedEntry(b, ps, freshId, i);
    }
    CopiedArrayEntry(b, ps, CopyPositions(b.raw, ElementPositions(b, ps), freshId), i);
  }

  /** Entry i of the array copy holds entry ps[i] when its run of copied elements does. */
  lemma CopiedArrayEntry(b: Block, ps: seq<int>, values: Block, i: nat)
    requires b.Arr? && Valid(b) && forall j :: 0 <= j < |ps| ==> 0 <= ps[j] < b.positionCount
    requires Valid(values) && PositionCount(values) == |ElementPositions(b, ps)| && i < |ps|
    requires !ArrNull(b, ps[i]) ==>
      NewOffsets(b, ps)[i] + Length(b, ps[i]) <= PositionCount(values)
      && ValuesFrom(values, NewOffsets(b, ps)[i], Length(b, ps[i])) == ValuesFrom(b.raw, Start(b, ps[i]), Length(b, ps[i]))
    ensures ValueAt(CopiedArray(b, ps, values), i) == ValueAt(b, ps[i])
  {
    var r := CopiedArray(b, ps, values);
    CopiedArrayShape(b, ps, values, i);
    ArrValueAt(r, i);
    ArrValueAt(b, ps[i]);
  }

  /** Entry i of the array copy has entry ps[i]'s null flag and length, and starts at the new offset. */
  lemma CopiedArrayShape(b: Block, ps: seq<int>, values: Block, i: nat)
    requires b.Arr? && Valid(b) && forall j :: 0 <= j < |ps| ==> 0 <= ps[j] < b.positionCount
    requires Valid(values) && PositionCount(values) == |ElementPositions(b, ps)| && i < |ps|
    ensures var r := CopiedArray(b, ps, values);
      r.Arr? && r.raw == values && r.positionCount == |ps| && ArrNull(r, i) == ArrNull(b, ps[i])
      && (!ArrNull(b, ps[i]) ==> Start(r, i) == NewOffsets(b, ps)[i] && Length(r, i) == Length(b, ps[i]))
  {
    var r := CopiedArray(b, ps, values);
    var o := NewOffsets(b, ps);
    assert r.raw == values && r.offsets == o && r.offsetBase == 0 && r.positionCount == |ps|;
    if !ArrNull(b, ps[i]) {
      NewOffsetsStep(b, ps, i);
    }
  }

  /** The value of an array-block entry, unfolded. */
  lemma ArrValueAt(b: Block, p: nat)
    requires b.Arr? && Valid(b) && p < b.positionCount
    ensures ValueAt(b, p) == if ArrNull(b, p) then Null else Items(ValuesFrom(b.raw, Start(b, p), Length(b, p)))
  {
  }

  lemma CopiedEntry(b: Block, ps: seq<int>, freshId: nat, i: nat)
    requires b.Arr? && Valid(b) && forall j :: 0 <= j < |ps| ==> 0 <= ps[j] < b.positionCount
    requires i < |ps| && !ArrNull(b, ps[i])
    ensures NewOffsets(b, ps)[i] + Length(b, ps[i]) <= |ElementPositions(b, ps)|
    ensures ValuesFrom(CopyPositions(b.raw, ElementPositions(b, ps), freshId), NewOffsets(b, ps)[i], Length(b, ps[i]))
            == ValuesFrom(b.raw, Start(b, ps[i]), Length(b, ps[i]))
    decreases b, 1
  {
    var ep := ElementPositions(b, ps);
    var values := CopyPositions(b.raw, ep, freshId);
    forall x | 0 <= x < |ep| ensures ValueAt(values, x) == ValueAt(b.raw, ep[x]) {
      CopyPositionsValueAt(b.raw, ep, freshId, x);
    }
    EntryRun(b, ps, i);
    GatheredRun(values, b.raw, ep, NewOffsets(b, ps)[i], Start(b, ps[i]), Length(b, ps[i]));
  }

  /** Entry i of the copy occupies a run of the gathered element positions that starts at entry ps[i]'s first element. */
  lemma EntryRun(b: Block, ps: seq<int>, i: nat)
    requires b.Arr? && Valid(b) && forall j :: 0 <= j < |ps| ==> 0 <= ps[j] < b.positionCount
    requires i < |ps| && !ArrNull(b, ps[i])
    ensures NewOffsets(b, ps)[i] + Length(b, ps[i]) <= |ElementPositions(b, ps)|
    ensures forall x :: NewOffsets(b, ps)[i] <= x < NewOffsets(b, ps)[i] + Length(b, ps[i]) ==>
              ElementPositions(b, ps)[x] == Start(b, ps[i]) + (x - NewOffsets(b, ps)[i])
  {
    var o := NewOffsets(b, ps);
    NewOffsetsStep(b, ps, i);
    NewOffsetsBounded(b, ps, i + 1, |ps|);
    ElementPositionsLength(b, ps);
    forall x | o[i] <= x < o[i] + Length(b, ps[i]) ensures ElementPositions(b, ps)[x] == Start(b, ps[i]) + (x - o[i]) {
      ElementPositionsAt(b, ps, i, x - o[i]);
    }
  }

  /** A run of gathered values equals the run of source values it was gathered from. */
  lemma {:induction false} GatheredRun(values: Block, raw: Block, ep: seq<int>, from: nat, start: nat, len: nat)
    requires Valid(values) && Valid(raw) && PositionCount(values) == |ep|
    requires forall x :: 0 <= x < |ep| ==> 0 <= ep[x] < PositionCount(raw)
    requires forall x :: 0 <= x < |ep| ==> ValueAt(values, x) == ValueAt(raw, ep[x])
    requires from + len <= |ep| && start + len <= PositionCount(raw)
    requires forall x :: from <= x < from + len ==> ep[x] == start + (x - from)
    ensures ValuesFrom(values, from, len) == ValuesFrom(raw, start, len)
    decreases len
  {
    if len > 0 {
      assert ep[from] == start;
      GatheredRun(values, raw, ep, from + 1, start + 1, len - 1);
    }
  }

  /** copyPositions keeps the values of the copied positions, in the order given. */
  lemma CopyPositionsValues(b: Block, ps: seq<int>, freshId: nat)
    requires Valid(b) && forall j :: 0 <= j < |ps| ==> 0 <= ps[j] < PositionCount(b)
    ensures Values(CopyPositions(b, ps, freshId)) == seq(|ps|, i requires 0 <= i < |ps| => ValueAt(b, ps[i]))
  {
    forall i | 0 <= i < |ps| ensures ValueAt(CopyPositions(b, ps, freshId), i) == ValueAt(b, ps[i]) {
      CopyPositionsValueAt(b, ps, freshId, i);
    }
  }

  // ---------------------------------------------------------------------------
  // Nulls

  /** A null position makes the block report that it may hold nulls. */
  lemma {:induction false} IsNullMayHaveNull(b: Block, p: nat)
    requires Valid(b) && p < PositionCount(b) && IsNull(b, p)
    ensures MayHaveNull(b)
  {
    match b
    case Flat(_, values, _) =>
      assert values[p].None?;
    case Dict(_, _, _, _, _, _) =>
    case Arr(_, _, _, _, _) =>
  }

  /** isNull reports exactly the positions whose value is null, through every level of nesting. */
  lemma {:induction false} IsNullIffNullValue(b: Block, p: nat)
    requires Valid(b) && p < PositionCount(b)
    ensures IsNull(b, p) <==> ValueAt(b, p) == Null
    decreases b
  {
    match b
    case Flat(_, _, _) =>
    case Dict(off, n, d, ids, _, _) =>
      IsNullIffNullValue(d, ids[off + p]);
      if IsNull(d, ids[off + p]) {
        IsNullMayHaveNull(d, ids[off + p]);
      }
    case Arr(_, _, _, _, _) =>
  }

  // ---------------------------------------------------------------------------
  // Counting distinct ids

  /** The ids 0 .. k-1. */
  function IdRange(k: nat): (r: set<int>)
    ensures forall x :: x in r <==> 0 <= x < k
    ensures |r| == k
  {
    if k == 0 then {} else IdRange(k - 1) + {k - 1}
  }

  /** A sequence without duplicates has as many elements as its set of elements. */
  lemma {:induction false} NoDuplicatesCard(s: seq<int>)
    requires NoDuplicates(s)
    ensures |set x | x in s| == |s|
    decreases |s|
  {
    if s != [] {
      var init := s[..|s| - 1];
      NoDuplicatesCard(init);
      assert (set x | x in s) == (set x | x in init) + {s[|s| - 1]};
      assert s[|s| - 1] !in init;
    }
  }

  lemma SubsetCard(a: set<int>, b: set<int>)
    requires a <= b
    ensures |a| <= |b| && (a != b ==> |a| < |b|)
  {
    var rest := b - a;
    assert b == a + rest && a * rest == {};
    if a != b {
      assert rest != {};
    }
  }

  /**
   * Ids drawn from [0, k) have at most k distinct values, and exactly k when every id
   * of [0, k) occurs: the fact behind isCompact and the compacted flags.
   */
  lemma DistinctCount(xs: seq<int>, k: nat)
    requires forall i :: 0 <= i < |xs| ==> 0 <= xs[i] < k
    ensures |Distinct(xs)| <= k
    ensures |Distinct(xs)| == k <==> forall x :: 0 <= x < k ==> x in xs
  {
    var d := Distinct(xs);
    DistinctFacts(xs);
    NoDuplicatesCard(d);
    var ds := set x | x in d;
    var all := IdRange(k);
    assert ds <= all;
    SubsetCard(ds, all);
    if forall x :: 0 <= x < k ==> x in xs {
      assert ds == all;
    }
    if |d| == k {
      assert ds == all;
      forall x | 0 <= x < k ensures x in xs {
        assert x in all;
      }
    }
  }

  /** Strictly increasing ids grow by at least one per step. */
  lemma {:induction false} IncreasingGap(w: seq<int>, i: nat, j: nat)
    requires StrictlyIncreasing(w) && i <= j < |w|
    ensures w[j] - w[i] >= j - i
    decreases j - i
  {
    if i < j {
      IncreasingGap(w, i, j - 1);
    }
  }

  lemma {:induction false} DistinctOfNoDuplicates(xs: seq<int>)
    requires NoDuplicates(xs)
    ensures Distinct(xs) == xs
    decreases |xs|
  {
    if xs != [] {
      var init := xs[..|xs| - 1];
      DistinctOfNoDuplicates(init);
      assert xs[|xs| - 1] !in init;
    }
  }

  /**
   * Strictly increasing ids into [0, k) that reference all k entries are exactly 0, 1, ..., k-1:
   * the ids a truthful isSequentialIds flag describes.
   */
  lemma SequentialIdsAreIdentity(w: seq<int>, k: nat)
    requires StrictlyIncreasing(w) && |Distinct(w)| == k
    requires forall i :: 0 <= i < |w| ==> 0 <= w[i] < k
    ensures |w| == k && forall i :: 0 <= i < |w| ==> w[i] == i
  {
    forall i, j | 0 <= i < j < |w| ensures w[i] != w[j] {
      IncreasingGap(w, i, j);
    }
    DistinctOfNoDuplicates(w);
    forall i | 0 <= i < |w| ensures w[i] == i {
      IncreasingGap(w, 0, i);
      IncreasingGap(w, i, |w| - 1);
    }
  }

  // ---------------------------------------------------------------------------
  // Truthful statistics

  /** Renumbering in first-occurrence order keeps the number of distinct ids. */
  lemma RenumberedCount(xs: seq<int>)
    ensures |Distinct(Renumbered(xs))| == |Distinct(xs)|
  {
    RenumberedFacts(xs);
    forall x | 0 <= x < |Distinct(xs)| ensures x in Renumbered(xs) {
      RenumberedHits(xs, x);
    }
    DistinctCount(Renumbered(xs), |Distinct(xs)|);
  }

  /** Every rank is taken by the first occurrence of the element with that rank. */
  lemma RenumberedHits(xs: seq<int>, x: nat)
    requires x < |Distinct(xs)|
    ensures x in Renumbered(xs)
  {
    var dist := Distinct(xs);
    DistinctFacts(xs);
    var i := IndexOf(xs, dist[x]);
    IndexOfUnique(dist, xs[i], x);
    assert Renumbered(xs)[i] == x;
  }

  /** Ids without duplicates renumber to 0, 1, 2, ... */
  lemma RenumberedOfNoDuplicates(xs: seq<int>)
    requires NoDuplicates(xs)
    ensures forall i :: 0 <= i < |xs| ==> Renumbered(xs)[i] == i
    ensures StrictlyIncreasing(Renumbered(xs))
  {
    DistinctOfNoDuplicates(xs);
    RenumberedFacts(xs);
  }

  /** copyPositions records only truthful statistics. */
  lemma {:induction false} CopyPositionsHonest(b: Block, ps: seq<int>, freshId: nat)
    requires Valid(b) && Honest(b) && forall i :: 0 <= i < |ps| ==> 0 <= ps[i] < PositionCount(b)
    ensures Honest(CopyPositions(b, ps, freshId))
    decreases b
  {
    match b
    case Flat(_, _, _) =>
    case Dict(_, n, d, _, _, _) =>
      assert PositionCount(b) == n;
      var m := MappedIds(b, ps);
      if |ps| <= 1 || d.Dict? || RawUniqueIds(b) == n {
        CopyPositionsHonest(d, m, freshId);
      } else {
        DistinctBounded(m, PositionCount(d));
        CopyPositionsHonest(d, Distinct(m), freshId);
        CopyPositionsKind(d, Distinct(m), freshId);
        var compact := CopyPositions(d, Distinct(m), freshId);
        if |Distinct(m)| != |ps| {
          var r := RenumberedDictionary(m, compact, freshId);
          assert IdsWindow(r) == Renumbered(m);
          RenumberedCount(m);
        }
      }
    case Arr(_, n, _, _, raw) =>
      assert PositionCount(b) == n;
      CopyPositionsOfArray(b, ps, freshId);
      CopyPositionsHonest(raw, ElementPositions(b, ps), freshId);
  }

  /** copyPositions of a dictionary block, one equation per strategy. */
  lemma DictCopyPositionsCases(b: Block, ps: seq<int>, freshId: nat)
    requires b.Dict? && Valid(b) && forall i :: 0 <= i < |ps| ==> 0 <= ps[i] < b.positionCount
    ensures var m := MappedIds(b, ps);
            |ps| <= 1 || b.dictionary.Dict? || RawUniqueIds(b) == b.positionCount ==>
              CopyPositions(b, ps, freshId) == CopyPositions(b.dictionary, m, freshId)
    ensures var m := MappedIds(b, ps);
            !(|ps| <= 1 || b.dictionary.Dict? || RawUniqueIds(b) == b.positionCount) && |Distinct(m)| == |ps| ==>
              (DistinctBounded(m, PositionCount(b.dictionary));
               CopyPositions(b, ps, freshId) == CopyPositions(b.dictionary, Distinct(m), freshId))
    ensures var m := MappedIds(b, ps);
            !(|ps| <= 1 || b.dictionary.Dict? || RawUniqueIds(b) == b.positionCount) && |Distinct(m)| != |ps| ==>
              (DistinctBounded(m, PositionCount(b.dictionary));
               CopyPositions(b, ps, freshId) == RenumberedDictionary(m, CopyPositions(b.dictionary, Distinct(m), freshId), freshId))
  {
  }

  lemma CopyPositionsKind(b: Block, ps: seq<int>, freshId: nat)
    requires Valid(b) && forall i :: 0 <= i < |ps| ==> 0 <= ps[i] < PositionCount(b)
    ensures b.Flat? ==> CopyPositions(b, ps, freshId).Flat?
    ensures b.Arr? ==> CopyPositions(b, ps, freshId).Arr?
  {
    if b.Arr? {
      CopyPositionsOfArray(b, ps, freshId);
    }
  }
}
