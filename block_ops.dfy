/**
 * The structural operations of DictionaryBlock and AbstractArrayBlock on block values:
 * construction checks, getId/isNull, getRegion, copyRegion, unnest, compact and
 * getPositions.  Every random dictionary id the source draws while one operation runs is
 * the parameter `freshId`.
 */
module BlockOps {
  import opened Wrappers
  import opened Blocks

  /** checkValidRegion: [position, position + length) lies inside the block. */
  predicate ValidRegion(n: nat, position: int, length: int)
  {
    0 <= position && 0 <= length && position + length <= n
  }

  // ---------------------------------------------------------------------------
  // Construction

  /**
   * The seven-argument DictionaryBlock constructor.  The ids that the new block's
   * positions use must index the dictionary; the source does not check that and
   * fails later, on first use.
   */
  function NewDictionaryBlock(idsOffset: nat, positionCount: int, dictionary: Block, ids: seq<int>,
                              compacted: bool, sequential: bool, sourceId: nat): (r: Result<Block, BlockError>)
    requires Valid(dictionary)
    requires forall i :: idsOffset <= i < |ids| && i < idsOffset + positionCount ==> 0 <= ids[i] < PositionCount(dictionary)
    ensures r.Ok? <==> 0 <= positionCount && idsOffset + positionCount <= |ids|
                       && !(compacted && dictionary.Dict?) && !(sequential && !compacted)
    ensures positionCount < 0 ==> r == Err(IllegalArgument("positionCount is negative"))
    ensures 0 <= positionCount && |ids| - idsOffset < positionCount ==> r == Err(IllegalArgument("ids length is less than positionCount"))
    ensures r.Ok? ==> Valid(r.value) && PositionCount(r.value) == positionCount
                      && r.value.Dict? && r.value.dictionary == dictionary && r.value.sourceId == sourceId
                      && RawSequentialIds(r.value) == sequential
                      && (compacted ==> RawUniqueIds(r.value) == PositionCount(dictionary))
                      && (!compacted ==> RawUniqueIds(r.value) == -1)
    ensures r.Ok? ==> forall p :: 0 <= p < positionCount ==> ValueAt(r.value, p) == ValueAt(dictionary, ids[idsOffset + p])
  {
    if positionCount < 0 then Err(IllegalArgument("positionCount is negative"))
    else if |ids| - idsOffset < positionCount then Err(IllegalArgument("ids length is less than positionCount"))
    else if compacted && dictionary.Dict? then Err(IllegalArgument("compacted dictionary should not have dictionary base block"))
    else if sequential && !compacted then Err(IllegalArgument("sequential ids flag is only valid for compacted dictionary"))
    else Ok(Dict(idsOffset, positionCount, dictionary, ids, sourceId, if compacted then Compacted(sequential) else Unknown))
  }

  // ---------------------------------------------------------------------------
  // Positions

  /** DictionaryBlock.getId: the stored id of a position, after checking the position. */
  function GetId(b: Block, position: int): (r: Result<int, BlockError>)
    requires b.Dict? && Valid(b)
    ensures r.Ok? <==> 0 <= position < b.positionCount
    ensures r.Ok? ==> r.value == b.ids[b.idsOffset + position] && 0 <= r.value < PositionCount(b.dictionary)
    ensures r.Ok? ==> ValueAt(b, position) == ValueAt(b.dictionary, r.value)
    ensures r.Err? ==> r.error.IllegalArgument?
  {
    if 0 <= position < b.positionCount then Ok(b.ids[b.idsOffset + position])
    else Err(IllegalArgument("Invalid position in block"))
  }

  /** DictionaryBlock.isNull: the dictionary's answer for the id, when the block may hold nulls. */
  function DictIsNull(b: Block, position: int): (r: Result<bool, BlockError>)
    requires b.Dict? && Valid(b)
    ensures r.Ok? <==> 0 <= position < b.positionCount
    ensures r.Ok? ==> (r.value <==> ValueAt(b, position) == Null)
    ensures r.Ok? && MayHaveNull(b.dictionary) ==> r.value == IsNull(b.dictionary, b.ids[b.idsOffset + position])
  {
    if 0 <= position < b.positionCount then
      IsNullIffNullValue(b, position);
      Ok(IsNull(b, position))
    else Err(IllegalArgument("Invalid position in block"))
  }

  /** AbstractArrayBlock.isNull: checkReadablePosition, then the null array (false when there is none). */
  function ArrIsNull(b: Block, position: int): (r: Result<bool, BlockError>)
    requires b.Arr? && Valid(b)
    ensures r.Ok? <==> 0 <= position < b.positionCount
    ensures r.Err? ==> r.error == IllegalArgument("position is not valid")
    ensures r.Ok? ==> (r.value <==> ValueAt(b, position) == Null)
    ensures r.Ok? && b.valueIsNull.None? ==> !r.value
  {
    if 0 <= position < b.positionCount then Ok(ArrNull(b, position))
    else Err(IllegalArgument("position is not valid"))
  }

  /** AbstractArrayBlock.getObject: the entry's elements as a region of the raw block. */
  function GetObject(b: Block, position: int, clazzIsBlock: bool): (r: Result<Block, BlockError>)
    requires b.Arr? && Valid(b)
    ensures r.Ok? <==> clazzIsBlock && 0 <= position < b.positionCount
    ensures !clazzIsBlock ==> r == Err(IllegalArgument("clazz must be Block.class"))
    ensures r.Ok? ==> Valid(r.value) && PositionCount(r.value) == Length(b, position)
    ensures r.Ok? && !ArrNull(b, position) ==> Items(Values(r.value)) == ValueAt(b, position)
  {
    if !clazzIsBlock then Err(IllegalArgument("clazz must be Block.class"))
    else if !(0 <= position < b.positionCount) then Err(IllegalArgument("position is not valid"))
    else
      var s := Start(b, position);
      var e := Start(b, position + 1);
      RegionValues(b.raw, s, e - s);
      GetRegion(b.raw, s, e - s)
  }

  lemma RegionValues(b: Block, start: nat, length: nat)
    requires Valid(b) && start + length <= PositionCount(b)
    ensures GetRegion(b, start, length).Ok? && Values(GetRegion(b, start, length).value) == ValuesFrom(b, start, length)
  {
    var r := GetRegion(b, start, length).value;
    GetRegionValues(b, start, length);
    forall k | 0 <= k < length ensures Values(r)[k] == ValuesFrom(b, start, length)[k] {
      ValuesFromAt(b, start, length, k);
    }
  }

  // ---------------------------------------------------------------------------
  // getRegion

  /**
   * getRegion: a view of [position, position + length).  A dictionary region shares ids,
   * dictionary and source id with the ids offset shifted (the whole block itself for the full
   * length); an array region shares offsets, null array and raw block with the offset base
   * shifted.
   */
  function GetRegion(b: Block, position: int, length: int): (r: Result<Block, BlockError>)
    requires Valid(b)
    ensures r.Ok? <==> ValidRegion(PositionCount(b), position, length)
    ensures r.Err? ==> r.error == IndexOutOfBounds
    ensures r.Ok? ==> Valid(r.value) && PositionCount(r.value) == length
    ensures r.Ok? && b.Dict? && length == b.positionCount ==> r.value == b
    ensures r.Ok? && b.Dict? && length != b.positionCount ==>
      r.value == Dict(b.idsOffset + position, length, b.dictionary, b.ids, b.sourceId, Unknown)
    ensures r.Ok? && b.Arr? ==>
      r.value == Arr(b.offsetBase + position, length, b.valueIsNull, b.offsets, b.raw)
  {
    if !ValidRegion(PositionCount(b), position, length) then Err(IndexOutOfBounds)
    else
      match b
      case Flat(e, values, sizes) =>
        Ok(Flat(e, values[position .. position + length], sizes[position .. position + length]))
      case Dict(off, n, d, ids, sid, _) =>
        if length == n then Ok(b) else Ok(Dict(off + position, length, d, ids, sid, Unknown))
      case Arr(base, n, nulls, offsets, raw) =>
        Ok(Arr(base + position, length, nulls, offsets, raw))
  }

  /** A region view holds the values of the region. */
  lemma GetRegionValues(b: Block, position: int, length: int)
    requires Valid(b) && ValidRegion(PositionCount(b), position, length)
    ensures forall i :: 0 <= i < length ==> ValueAt(GetRegion(b, position, length).value, i) == ValueAt(b, position + i)
  {
    var r := GetRegion(b, position, length).value;
    if b.Arr? {
      forall i | 0 <= i < length ensures ValueAt(r, i) == ValueAt(b, position + i) {
        assert Start(r, i) == Start(b, position + i) && Length(r, i) == Length(b, position + i);
      }
    }
  }

  // ---------------------------------------------------------------------------
  // unnest

  /** The block at the bottom of a chain of nested dictionaries. */
  function Base(b: Block): (r: Block)
    requires Valid(b)
    ensures Valid(r) && !r.Dict?
    decreases b
  {
    if b.Dict? then Base(b.dictionary) else b
  }

  /** An id of b resolved through every nested dictionary level to a position of Base(b). */
  function Resolve(b: Block, id: nat): (r: nat)
    requires Valid(b) && id < PositionCount(b)
    ensures r < PositionCount(Base(b))
    decreases b
  {
    if b.Dict? then Resolve(b.dictionary, b.ids[b.idsOffset + id]) else id
  }

  /** Resolving an id through every level reaches an entry holding the same value. */
  lemma {:induction false} ResolveValue(b: Block, id: nat)
    requires Valid(b) && id < PositionCount(b)
    ensures ValueAt(Base(b), Resolve(b, id)) == ValueAt(b, id)
    decreases b
  {
    if b.Dict? {
      ResolveValue(b.dictionary, b.ids[b.idsOffset + id]);
    }
  }

  /** unnest: the same positions over the innermost dictionary, with every id resolved. */
  function Unnest(b: Block, freshId: nat): (r: Block)
    requires b.Dict? && Valid(b)
    ensures r.Dict? && Valid(r) && r.positionCount == b.positionCount && !r.dictionary.Dict?
    ensures !b.dictionary.Dict? ==> r == b
  {
    if !b.dictionary.Dict? then b
    else
      var w := IdsWindow(b);
      Dict(0, b.positionCount, Base(b.dictionary), seq(b.positionCount, i requires 0 <= i < b.positionCount => Resolve(b.dictionary, w[i])), freshId, Unknown)
  }

  /** unnest keeps every logical value. */
  lemma UnnestValues(b: Block, freshId: nat)
    requires b.Dict? && Valid(b)
    ensures forall i :: 0 <= i < b.positionCount ==> ValueAt(Unnest(b, freshId), i) == ValueAt(b, i)
  {
    if b.dictionary.Dict? {
      forall i | 0 <= i < b.positionCount ensures ValueAt(Unnest(b, freshId), i) == ValueAt(b, i) {
        UnnestValueAt(b, freshId, i);
      }
    }
  }

  lemma UnnestValueAt(b: Block, freshId: nat, i: nat)
    requires b.Dict? && Valid(b) && b.dictionary.Dict? && i < b.positionCount
    ensures ValueAt(Unnest(b, freshId), i) == ValueAt(b, i)
  {
    var r := Unnest(b, freshId);
    var id := IdsWindow(b)[i];
    assert r.ids[r.idsOffset + i] == Resolve(b.dictionary, id);
    DictEntryValue(r, i);
    DictEntryValue(b, i);
    ResolveValue(b.dictionary, id);
  }


  // ---------------------------------------------------------------------------
  // compact

  /** The dictionary ids a dictionary block references, in order of first reference. */
  function ReferencedIds(b: Block): (r: seq<nat>)
    requires b.Dict? && Valid(b)
    ensures r == Distinct(IdsWindow(b))
    ensures forall j :: 0 <= j < |r| ==> r[j] < PositionCount(b.dictionary)
  {
    DistinctBounded(IdsWindow(b), PositionCount(b.dictionary));
    Distinct(IdsWindow(b))
  }

  /** The block compact builds when some dictionary entries are not referenced. */
  function CompactedBlock(b: Block, freshId: nat): (r: Block)
    requires b.Dict? && Valid(b)
    ensures r.Dict? && Valid(r) && r.positionCount == b.positionCount
  {
    var w := IdsWindow(b);
    DistinctBounded(w, PositionCount(b.dictionary));
    RenumberedFacts(w);
    var dictionary := CopyPositions(b.dictionary, Distinct(w), freshId);
    Dict(0, b.positionCount, dictionary, Renumbered(w), freshId, Compacted(UniqueIds(b) == b.positionCount))
  }

  /**
   * compact: the block itself when it is compact already; a nested block is unnested first;
   * otherwise ids renumbered in first-occurrence order over a copy of exactly the referenced
   * dictionary entries.  The copy never throws UnsupportedOperationException here.
   */
  function Compact(b: Block, freshId: nat): (r: Block)
    requires b.Dict? && Valid(b)
    ensures r.Dict? && Valid(r) && r.positionCount == b.positionCount && !r.dictionary.Dict?
    ensures IsCompact(b) ==> r == b
    ensures IsCompact(r)
    decreases if b.dictionary.Dict? then 1 else 0
  {
    if IsCompact(b) then b
    else if b.dictionary.Dict? then Compact(Unnest(b, freshId), freshId)
    else if |Distinct(IdsWindow(b))| == PositionCount(b.dictionary) then b
    else CompactedBlock(b, freshId)
  }

  /** The four ways compact can go, one equation each. */
  lemma CompactCases(b: Block, freshId: nat)
    requires b.Dict? && Valid(b)
    ensures IsCompact(b) ==> Compact(b, freshId) == b
    ensures !IsCompact(b) && b.dictionary.Dict? ==> Compact(b, freshId) == Compact(Unnest(b, freshId), freshId)
    ensures !IsCompact(b) && !b.dictionary.Dict? && |Distinct(IdsWindow(b))| == PositionCount(b.dictionary) ==>
              Compact(b, freshId) == b
    ensures !IsCompact(b) && !b.dictionary.Dict? && |Distinct(IdsWindow(b))| != PositionCount(b.dictionary) ==>
              Compact(b, freshId) == CompactedBlock(b, freshId)
  {
  }

  /** A dictionary block's value at a position is its dictionary's value at the stored id. */
  lemma DictEntryValue(c: Block, i: nat)
    requires c.Dict? && Valid(c) && i < c.positionCount
    ensures ValueAt(c, i) == ValueAt(c.dictionary, c.ids[c.idsOffset + i])
  {
  }

  lemma CompactedBlockValueAt(b: Block, freshId: nat, i: nat)
    requires b.Dict? && Valid(b) && i < b.positionCount
    ensures ValueAt(CompactedBlock(b, freshId), i) == ValueAt(b, i)
  {
    var w := IdsWindow(b);
    var dist := Distinct(w);
    var k := Renumbered(w)[i];
    DistinctBounded(w, PositionCount(b.dictionary));
    RenumberedFacts(w);
    var c := CompactedBlock(b, freshId);
    assert c.dictionary == CopyPositions(b.dictionary, dist, freshId) && c.ids[c.idsOffset + i] == k;
    DictEntryValue(c, i);
    assert dist[k] == w[i] == b.ids[b.idsOffset + i];
    CopyPositionsValueAt(b.dictionary, dist, freshId, k);
  }

  /** compact keeps the position count and every logical value. */
  lemma CompactValueAt(b: Block, freshId: nat, i: nat)
    requires b.Dict? && Valid(b) && i < b.positionCount
    ensures ValueAt(Compact(b, freshId), i) == ValueAt(b, i)
    decreases if b.dictionary.Dict? then 1 else 0
  {
    if IsCompact(b) {
    } else if b.dictionary.Dict? {
      UnnestValues(b, freshId);
      CompactValueAt(Unnest(b, freshId), freshId, i);
    } else if |Distinct(IdsWindow(b))| != PositionCount(b.dictionary) {
      CompactedBlockValueAt(b, freshId, i);
    }
  }

  /**
   * What a compaction that copies builds: ids in first-occurrence order, and a dictionary
   * holding exactly the distinct referenced entries in that order.
   */
  lemma CompactedBlockShape(b: Block, freshId: nat)
    requires b.Dict? && Valid(b)
    ensures CompactedBlock(b, freshId).ids == Renumbered(IdsWindow(b))
    ensures Values(CompactedBlock(b, freshId).dictionary)
         == seq(|ReferencedIds(b)|, j requires 0 <= j < |ReferencedIds(b)| => ValueAt(b.dictionary, ReferencedIds(b)[j]))
  {
    var w := IdsWindow(b);
    DistinctBounded(w, PositionCount(b.dictionary));
    CopyPositionsValues(b.dictionary, Distinct(w), freshId);
  }

  // ---------------------------------------------------------------------------
  // copyRegion

  /** compactOffsets: the offsets of [index, index + length] rebased to start at 0. */
  function CompactOffsets(offsets: seq<int>, index: nat, length: nat): (r: seq<int>)
    requires index + length < |offsets|
    ensures |r| == length + 1
    ensures forall i :: 0 <= i <= length ==> r[i] == offsets[index + i] - offsets[index]
  {
    seq(length + 1, i requires 0 <= i <= length => offsets[index + i] - offsets[index])
  }

  /**
   * Block.copyRegion: a compacted copy of [position, position + length).  Leaf blocks copy
   * their slice.  The dictionary and array cases follow DictionaryBlock.copyRegion and
   * AbstractArrayBlock.copyRegion.
   */
  function CopyRegion(b: Block, position: int, length: int, freshId: nat): (r: Result<Block, BlockError>)
    requires Valid(b)
    ensures !ValidRegion(PositionCount(b), position, length) ==> r == Err(IndexOutOfBounds)
    ensures r.Ok? ==> ValidRegion(PositionCount(b), position, length) && Valid(r.value) && PositionCount(r.value) == length
    decreases b, 1
  {
    if !ValidRegion(PositionCount(b), position, length) then Err(IndexOutOfBounds)
    else
      match b
      case Flat(e, values, sizes) => Ok(Flat(e, values[position .. position + length], sizes[position .. position + length]))
      case Dict(_, _, _, _, _, _) => DictCopyRegion(b, position, length, freshId)
      case Arr(_, _, _, _, _) => ArrCopyRegion(b, position, length, freshId)
  }

  /** True when copyRegion of a dictionary block copies the dictionary region starting at the first id. */
  predicate CopiesDictionaryRegion(b: Block, length: int)
    requires b.Dict? && Valid(b)
  {
    length <= 1 || (RawUniqueIds(b) == PositionCount(b.dictionary) && RawSequentialIds(b))
  }

  /** True when copyRegion of a dictionary block unwraps it and copies dictionary positions. */
  predicate UnwrapsDictionary(b: Block)
    requires b.Dict? && Valid(b)
  {
    b.dictionary.Dict? || RawUniqueIds(b) == b.positionCount
  }

  /** The ids of a region of a dictionary block. */
  function RegionIds(b: Block, position: nat, length: nat): (r: seq<int>)
    requires b.Dict? && Valid(b) && position + length <= b.positionCount
    ensures |r| == length
    ensures forall i :: 0 <= i < length ==> r[i] == b.ids[b.idsOffset + position + i] && 0 <= r[i] < PositionCount(b.dictionary)
  {
    b.ids[b.idsOffset + position .. b.idsOffset + position + length]
  }

  /**
   * DictionaryBlock.copyRegion, corrected: the empty region at the end of the block
   * (position == positionCount, length 0) copies an empty dictionary region instead of
   * calling getId(positionCount).
   */
  function DictCopyRegion(b: Block, position: nat, length: nat, freshId: nat): (r: Result<Block, BlockError>)
    requires b.Dict? && Valid(b) && position + length <= b.positionCount
    ensures r.Ok? ==> Valid(r.value) && PositionCount(r.value) == length
    decreases b, 0
  {
    if CopiesDictionaryRegion(b, length) then
      var first := if position == b.positionCount then 0 else b.ids[b.idsOffset + position];
      CopyRegion(b.dictionary, first, length, freshId)
    else if UnwrapsDictionary(b) then
      Ok(CopyPositions(b.dictionary, RegionIds(b, position, length), freshId))
    else
      Ok(Compact(Dict(0, length, b.dictionary, RegionIds(b, position, length), freshId, Unknown), freshId))
  }

  /** AbstractArrayBlock.copyRegion. */
  function ArrCopyRegion(b: Block, position: nat, length: nat, freshId: nat): (r: Result<Block, BlockError>)
    requires b.Arr? && Valid(b) && position + length <= b.positionCount
    ensures r.Ok? ==> Valid(r.value) && PositionCount(r.value) == length
    decreases b, 0
  {
    var start := Start(b, position);
    var end := Start(b, position + length);
    match CopyRegion(b.raw, start, end - start, freshId)
    case Err(e) => Err(e)
    case Ok(values) => Ok(RebasedArray(b, position, length, values))
  }

  /**
   * The array block over the copied elements values: its offsets and nulls are those of
   * the region, rebased to 0. The source returns the block itself when the copied arrays
   * are the very arrays it holds; as a value that block equals the one built here.
   */
  function RebasedArray(b: Block, position: nat, length: nat, values: Block): (r: Block)
    requires b.Arr? && Valid(b) && position + length <= b.positionCount && Valid(values)
    requires PositionCount(values) == Start(b, position + length) - Start(b, position)
    ensures r.Arr? && Valid(r) && PositionCount(r) == length && r.raw == values
    ensures forall i :: 0 <= i < length ==>
              (ArrNull(r, i) <==> ArrNull(b, position + i))
              && Start(r, i) + Start(b, position) == Start(b, position + i)
              && Length(r, i) == Length(b, position + i)
  {
    var index := position + b.offsetBase;
    var newOffsets := CompactOffsets(b.offsets, index, length);
    var newNulls := if b.valueIsNull.Some? then Some(b.valueIsNull.value[index .. index + length]) else None;
    var rebased := Arr(0, length, newNulls, newOffsets, values);
    RebasedFacts(b, position, length, values, rebased);
    rebased
  }

  lemma RebasedFacts(b: Block, position: nat, length: nat, values: Block, r: Block)
    requires b.Arr? && Valid(b) && position + length <= b.positionCount && Valid(values)
    requires PositionCount(values) == Start(b, position + length) - Start(b, position)
    requires var index := position + b.offsetBase;
             r == Arr(0, length, if b.valueIsNull.Some? then Some(b.valueIsNull.value[index .. index + length]) else None,
                      CompactOffsets(b.offsets, index, length), values)
    ensures r.Arr? && Valid(r) && PositionCount(r) == length
    ensures forall i :: 0 <= i < length ==>
              (ArrNull(r, i) <==> ArrNull(b, position + i))
              && Start(r, i) + Start(b, position) == Start(b, position + i)
              && Length(r, i) == Length(b, position + i)
  {
    RebasedValid(b, position, length, values, r);
    forall i | 0 <= i < length
      ensures (ArrNull(r, i) <==> ArrNull(b, position + i))
              && Start(r, i) + Start(b, position) == Start(b, position + i)
              && Length(r, i) == Length(b, position + i)
    {
      RebasedEntry(b, position, length, values, r, i);
    }
  }

  lemma RebasedValid(b: Block, position: nat, length: nat, values: Block, r: Block)
    requires b.Arr? && Valid(b) && position + length <= b.positionCount && Valid(values)
    requires PositionCount(values) == Start(b, position + length) - Start(b, position)
    requires var index := position + b.offsetBase;
             r == Arr(0, length, if b.valueIsNull.Some? then Some(b.valueIsNull.value[index .. index + length]) else None,
                      CompactOffsets(b.offsets, index, length), values)
    ensures Valid(r)
  {
    RebasedOffsets(b.offsets, b.offsetBase, position + b.offsetBase, length, PositionCount(values), b.offsetBase + b.positionCount);
  }


  /** The rebased offsets of a monotone run are monotone and lie within the copied elements. */
  lemma RebasedOffsets(offsets: seq<int>, base: nat, index: nat, length: nat, count: nat, top: nat)
    requires base <= index && index + length <= top < |offsets|
    requires forall i, j :: base <= i <= j <= top ==> offsets[i] <= offsets[j]
    requires count == offsets[index + length] - offsets[index]
    ensures var o := CompactOffsets(offsets, index, length);
            (forall i :: 0 <= i <= length ==> 0 <= o[i] <= count)
            && forall i, j :: 0 <= i <= j <= length ==> o[i] <= o[j]
  {
    var o := CompactOffsets(offsets, index, length);
    forall i, j | 0 <= i <= j <= length ensures o[i] <= o[j] {
      assert offsets[index + i] <= offsets[index + j];
    }
    forall i | 0 <= i <= length ensures 0 <= o[i] <= count {
      assert offsets[index] <= offsets[index + i] <= offsets[index + length];
    }
  }

  lemma RebasedEntry(b: Block, position: nat, length: nat, values: Block, r: Block, i: nat)
    requires b.Arr? && Valid(b) && position + length <= b.positionCount
    requires var index := position + b.offsetBase;
             r == Arr(0, length, if b.valueIsNull.Some? then Some(b.valueIsNull.value[index .. index + length]) else None,
                      CompactOffsets(b.offsets, index, length), values)
    requires Valid(r) && i < length
    ensures (ArrNull(r, i) <==> ArrNull(b, position + i))
            && Start(r, i) + Start(b, position) == Start(b, position + i)
            && Length(r, i) == Length(b, position + i)
  {
    var index := position + b.offsetBase;
    assert r.offsets[i] == b.offsets[index + i] - b.offsets[index];
    assert r.offsets[i + 1] == b.offsets[index + i + 1] - b.offsets[index];
  }



  /** A block whose positions repeat those of raw from shift on holds the same runs of values. */
  lemma {:induction false} ShiftedRun(values: Block, raw: Block, shift: nat, from: nat, len: nat)
    requires Valid(values) && Valid(raw) && shift + PositionCount(values) <= PositionCount(raw)
    requires forall x :: 0 <= x < PositionCount(values) ==> ValueAt(values, x) == ValueAt(raw, shift + x)
    requires from + len <= PositionCount(values)
    ensures ValuesFrom(values, from, len) == ValuesFrom(raw, shift + from, len)
    decreases len
  {
    if len > 0 {
      ShiftedRun(values, raw, shift, from + 1, len - 1);
    }
  }

  /** For blocks whose statistics are truthful, copyRegion succeeds on every valid region and keeps its values. */
  lemma {:induction false} CopyRegionValues(b: Block, position: int, length: int, freshId: nat)
    requires Valid(b) && Honest(b) && ValidRegion(PositionCount(b), position, length)
    ensures CopyRegion(b, position, length, freshId).Ok?
    ensures forall i :: 0 <= i < length ==>
              ValueAt(CopyRegion(b, position, length, freshId).value, i) == ValueAt(b, position + i)
    decreases b, 2
  {
    match b
    case Flat(_, _, _) =>
    case Dict(_, _, _, _, _, _) => DictCopyRegionValues(b, position, length, freshId);
    case Arr(_, _, _, _, _) => ArrCopyRegionValues(b, position, length, freshId);
  }

  lemma {:induction false} DictCopyRegionValues(b: Block, position: nat, length: nat, freshId: nat)
    requires b.Dict? && Valid(b) && Honest(b) && position + length <= b.positionCount
    ensures DictCopyRegion(b, position, length, freshId).Ok?
    ensures forall i :: 0 <= i < length ==>
              ValueAt(DictCopyRegion(b, position, length, freshId).value, i) == ValueAt(b, position + i)
    decreases b, 1
  {
    if CopiesDictionaryRegion(b, length) {
      CopiedDictionaryRegionValues(b, position, length, freshId);
    } else {
      var ids := RegionIds(b, position, length);
      var r := DictCopyRegion(b, position, length, freshId);
      if UnwrapsDictionary(b) {
        assert r == Ok(CopyPositions(b.dictionary, ids, freshId));
        forall i | 0 <= i < length ensures ValueAt(r.value, i) == ValueAt(b, position + i) {
          UnwrappedRegionValueAt(b, position, length, freshId, i);
        }
      } else {
        var inner := Dict(0, length, b.dictionary, ids, freshId, Unknown);
        assert r == Ok(Compact(inner, freshId));
        forall i | 0 <= i < length ensures ValueAt(r.value, i) == ValueAt(b, position + i) {
          CompactedRegionValueAt(b, position, length, freshId, i);
        }
      }
    }
  }

  lemma UnwrappedRegionValueAt(b: Block, position: nat, length: nat, freshId: nat, i: nat)
    requires b.Dict? && Valid(b) && position + length <= b.positionCount && i < length
    ensures ValueAt(CopyPositions(b.dictionary, RegionIds(b, position, length), freshId), i) == ValueAt(b, position + i)
  {
    var ids := RegionIds(b, position, length);
    assert ids[i] == b.ids[b.idsOffset + position + i];
    CopyPositionsValueAt(b.dictionary, ids, freshId, i);
    DictEntryValue(b, position + i);
  }

  lemma CompactedRegionValueAt(b: Block, position: nat, length: nat, freshId: nat, i: nat)
    requires b.Dict? && Valid(b) && position + length <= b.positionCount && i < length
    ensures var inner := Dict(0, length, b.dictionary, RegionIds(b, position, length), freshId, Unknown);
            Valid(inner) && ValueAt(Compact(inner, freshId), i) == ValueAt(b, position + i)
  {
    var ids := RegionIds(b, position, length);
    var inner := Dict(0, length, b.dictionary, ids, freshId, Unknown);
    InnerValueAt(b, position, length, ids, inner, i);
    CompactValueAt(inner, freshId, i);
  }

  lemma InnerValueAt(b: Block, position: nat, length: nat, ids: seq<int>, inner: Block, i: nat)
    requires b.Dict? && Valid(b) && position + length <= b.positionCount && i < length
    requires ids == RegionIds(b, position, length) && inner.Dict? && inner.idsOffset == 0 && inner.positionCount == length
    requires inner.dictionary == b.dictionary && inner.ids == ids
    ensures Valid(inner) && ValueAt(inner, i) == ValueAt(b, position + i)
  {
    assert inner.ids[inner.idsOffset + i] == ids[i] == b.ids[b.idsOffset + position + i];
    DictEntryValue(inner, i);
    DictEntryValue(b, position + i);
  }



  /** Truthful sequential-ids statistics mean the ids window is 0, 1, ..., positionCount - 1. */
  lemma SequentialWindow(b: Block)
    requires b.Dict? && Valid(b) && Honest(b)
    requires RawUniqueIds(b) == PositionCount(b.dictionary) && RawSequentialIds(b)
    ensures b.positionCount == PositionCount(b.dictionary)
    ensures forall i :: 0 <= i < b.positionCount ==> IdsWindow(b)[i] == i
  {
    var w := IdsWindow(b);
    assert StrictlyIncreasing(w) && |Distinct(w)| == PositionCount(b.dictionary);
    SequentialIdsAreIdentity(w, PositionCount(b.dictionary));
  }

  /** The first branch of copyRegion: the region of the dictionary starting at the first id. */
  lemma {:induction false} CopiedDictionaryRegionValues(b: Block, position: nat, length: nat, freshId: nat)
    requires b.Dict? && Valid(b) && Honest(b) && position + length <= b.positionCount
    requires CopiesDictionaryRegion(b, length)
    ensures DictCopyRegion(b, position, length, freshId).Ok?
    ensures forall i :: 0 <= i < length ==>
              ValueAt(DictCopyRegion(b, position, length, freshId).value, i) == ValueAt(b, position + i)
    decreases b, 0
  {
    var d := b.dictionary;
    var w := IdsWindow(b);
    var first := if position == b.positionCount then 0 else b.ids[b.idsOffset + position];
    assert DictCopyRegion(b, position, length, freshId) == CopyRegion(d, first, length, freshId);
    if length > 1 {
      SequentialWindow(b);
      assert first == w[position];
    } else if length == 1 {
      assert first == w[position];
    }
    CopyRegionValues(d, first, length, freshId);
    WindowRunValues(b, CopyRegion(d, first, length, freshId).value, first, position, length);
  }

  /** Positions whose ids are consecutive from first take their values from the dictionary run at first. */
  lemma WindowRunValues(b: Block, r: Block, first: nat, position: nat, length: nat)
    requires b.Dict? && Valid(b) && Valid(r) && PositionCount(r) == length
    requires position + length <= b.positionCount && first + length <= PositionCount(b.dictionary)
    requires forall i :: 0 <= i < length ==> ValueAt(r, i) == ValueAt(b.dictionary, first + i)
    requires forall x :: position <= x < position + length ==> IdsWindow(b)[x] == first + (x - position)
    ensures forall i :: 0 <= i < length ==> ValueAt(r, i) == ValueAt(b, position + i)
  {
    var w := IdsWindow(b);
    forall i | 0 <= i < length ensures ValueAt(r, i) == ValueAt(b, position + i) {
      assert w[position + i] == b.ids[b.idsOffset + position + i] == first + i;
    }
  }

  lemma {:induction false} ArrCopyRegionValues(b: Block, position: nat, length: nat, freshId: nat)
    requires b.Arr? && Valid(b) && Honest(b) && position + length <= b.positionCount
    ensures ArrCopyRegion(b, position, length, freshId).Ok?
    ensures forall i :: 0 <= i < length ==>
              ValueAt(ArrCopyRegion(b, position, length, freshId).value, i) == ValueAt(b, position + i)
    decreases b, 1
  {
    var start := Start(b, position);
    var count := Start(b, position + length) - start;
    ArrRegionInRaw(b, position, length);
    assert Honest(b.raw);
    CopyRegionValues(b.raw, start, count, freshId);
    var values := CopyRegion(b.raw, start, count, freshId).value;
    ArrCopiedRegionValues(b, position, length, freshId, values);
  }

  lemma ArrRegionInRaw(b: Block, position: nat, length: nat)
    requires b.Arr? && Valid(b) && position + length <= b.positionCount
    ensures Start(b, position) <= Start(b, position + length) <= PositionCount(b.raw)
  {
  }

  lemma ArrCopiedRegionValues(b: Block, position: nat, length: nat, freshId: nat, values: Block)
    requires b.Arr? && Valid(b) && position + length <= b.positionCount
    requires CopyRegion(b.raw, Start(b, position), Start(b, position + length) - Start(b, position), freshId) == Ok(values)
    requires PositionCount(values) == Start(b, position + length) - Start(b, position)
    requires forall x :: 0 <= x < PositionCount(values) ==> ValueAt(values, x) == ValueAt(b.raw, Start(b, position) + x)
    ensures ArrCopyRegion(b, position, length, freshId) == Ok(RebasedArray(b, position, length, values))
    ensures forall i :: 0 <= i < length ==> ValueAt(RebasedArray(b, position, length, values), i) == ValueAt(b, position + i)
  {
    ArrCopyRegionIs(b, position, length, freshId, values);
    RebasedValues(b, position, length, values);
  }

  /** An array region whose elements copy successfully is the rebased array over the copy. */
  lemma ArrCopyRegionIs(b: Block, position: nat, length: nat, freshId: nat, values: Block)
    requires b.Arr? && Valid(b) && position + length <= b.positionCount
    requires CopyRegion(b.raw, Start(b, position), Start(b, position + length) - Start(b, position), freshId) == Ok(values)
    ensures ArrCopyRegion(b, position, length, freshId) == Ok(RebasedArray(b, position, length, values))
  {
  }

  /** The rebased array block over a copy of the region's elements holds the region's values. */
  lemma RebasedValues(b: Block, position: nat, length: nat, values: Block)
    requires b.Arr? && Valid(b) && position + length <= b.positionCount && Valid(values)
    requires PositionCount(values) == Start(b, position + length) - Start(b, position)
    requires forall x :: 0 <= x < PositionCount(values) ==> ValueAt(values, x) == ValueAt(b.raw, Start(b, position) + x)
    ensures forall i :: 0 <= i < length ==> ValueAt(RebasedArray(b, position, length, values), i) == ValueAt(b, position + i)
  {
    var r := RebasedArray(b, position, length, values);
    forall i | 0 <= i < length ensures ValueAt(r, i) == ValueAt(b, position + i) {
      RebasedValueAt(r, b, Start(b, position), i, position + i);
    }
  }

  /** An array entry whose elements repeat those of another entry, shifted, has the same value. */
  lemma RebasedValueAt(r: Block, b: Block, shift: nat, i: nat, p: nat)
    requires r.Arr? && b.Arr? && Valid(r) && Valid(b) && i < r.positionCount && p < b.positionCount
    requires shift + PositionCount(r.raw) <= PositionCount(b.raw)
    requires forall x :: 0 <= x < PositionCount(r.raw) ==> ValueAt(r.raw, x) == ValueAt(b.raw, shift + x)
    requires (ArrNull(r, i) <==> ArrNull(b, p)) && Start(r, i) + shift == Start(b, p) && Length(r, i) == Length(b, p)
    ensures ValueAt(r, i) == ValueAt(b, p)
  {
    ShiftedRun(r.raw, b.raw, shift, Start(r, i), Length(r, i));
  }

  // ---------------------------------------------------------------------------
  // copyRegion as written

  /**
   * DictionaryBlock.copyRegion as written: the first branch reads getId(position), which
   * rejects position == positionCount, although checkValidRegion admits the empty region there.
   */
  function DictCopyRegionAsWritten(b: Block, position: nat, length: nat, freshId: nat): (r: Result<Block, BlockError>)
    requires b.Dict? && Valid(b) && position + length <= b.positionCount
    ensures position < b.positionCount ==> r == DictCopyRegion(b, position, length, freshId)
    ensures position == b.positionCount ==> r == Err(IllegalArgument("Invalid position in block"))
  {
    if CopiesDictionaryRegion(b, length) then
      match GetId(b, position)
      case Err(e) => Err(e)
      case Ok(id) => CopyRegion(b.dictionary, id, length, freshId)
    else
      DictCopyRegion(b, position, length, freshId)
  }

  /** A one-position dictionary block over a one-value leaf block. */
  function OnePositionDictionary(): (b: Block)
    ensures b.Dict? && Valid(b) && b.positionCount == 1
  {
    Dict(0, 1, Flat(BlockEncodings.LongArray, [Some(7)], [9]), [0], 0, Unknown)
  }

  /**
   * copyRegion(1, 0) of a one-position dictionary block: the region is valid and empty, the
   * code as written fails with IllegalArgumentException, the corrected copy is the empty block.
   */
  lemma EmptyRegionAtEnd()
    ensures ValidRegion(PositionCount(OnePositionDictionary()), 1, 0)
    ensures DictCopyRegionAsWritten(OnePositionDictionary(), 1, 0, 0) == Err(IllegalArgument("Invalid position in block"))
    ensures var r := CopyRegion(OnePositionDictionary(), 1, 0, 0); r.Ok? && PositionCount(r.value) == 0
  {
    assert CopiesDictionaryRegion(OnePositionDictionary(), 0);
  }

  // ---------------------------------------------------------------------------
  // getPositions

  /** True when every dictionary position is one of ids. */
  predicate ReferencesAll(ids: seq<int>, n: nat)
  {
    forall x :: 0 <= x < n ==> x in ids
  }

  /**
   * DictionaryBlock.getPositions: a dictionary block over the same dictionary whose ids are
   * the ids of positions[offset .. offset + length]; it is marked compacted when the source
   * block is compact and the new ids reference every dictionary position.
   */
  function GetPositions(b: Block, positions: seq<int>, offset: int, length: int): (r: Result<Block, BlockError>)
    requires b.Dict? && Valid(b)
    ensures !(0 <= offset && 0 <= length && offset + length <= |positions|) ==> r == Err(IndexOutOfBounds)
    ensures r.Ok? <==> 0 <= offset && 0 <= length && offset + length <= |positions|
                       && forall i :: offset <= i < offset + length ==> 0 <= positions[i] < b.positionCount
    ensures r.Err? && 0 <= offset && 0 <= length && offset + length <= |positions| ==>
              r.error == IllegalArgument("Invalid position in block")
    ensures r.Ok? ==> Valid(r.value) && r.value.Dict? && r.value.positionCount == length
                      && r.value.dictionary == b.dictionary && r.value.sourceId == b.sourceId
                      && !RawSequentialIds(r.value)
  {
    if !(0 <= offset && 0 <= length && offset + length <= |positions|) then Err(IndexOutOfBounds)
    else
      var ps := positions[offset .. offset + length];
      if exists i :: 0 <= i < length && !(0 <= ps[i] < b.positionCount) then
        Err(IllegalArgument("Invalid position in block"))
      else
        assert forall i :: offset <= i < offset + length ==> positions[i] == ps[i - offset];
        var newIds := MappedIds(b, ps);
        var compact := length >= PositionCount(b.dictionary) && IsCompact(b)
                       && ReferencesAll(newIds, PositionCount(b.dictionary));
        Ok(Dict(0, length, b.dictionary, newIds, b.sourceId, if compact then Compacted(false) else Unknown))
  }

  /** getPositions once the range and the positions are checked. */
  lemma GetPositionsOk(b: Block, positions: seq<int>, offset: nat, length: nat, newIds: seq<int>, compact: bool)
    requires b.Dict? && Valid(b) && offset + length <= |positions|
    requires forall i :: offset <= i < offset + length ==> 0 <= positions[i] < b.positionCount
    requires newIds == MappedIds(b, positions[offset .. offset + length])
    requires compact == (length >= PositionCount(b.dictionary) && IsCompact(b) && ReferencesAll(newIds, PositionCount(b.dictionary)))
    ensures GetPositions(b, positions, offset, length)
         == Ok(Dict(0, length, b.dictionary, newIds, b.sourceId, if compact then Compacted(false) else Unknown))
  {
    var ps := positions[offset .. offset + length];
    assert forall i :: 0 <= i < length ==> ps[i] == positions[offset + i];
  }

  /** getPositions holds the values of the positions named, in the order given. */
  lemma GetPositionsValues(b: Block, positions: seq<int>, offset: nat, length: nat)
    requires b.Dict? && Valid(b) && offset + length <= |positions|
    requires forall i :: offset <= i < offset + length ==> 0 <= positions[i] < b.positionCount
    ensures GetPositions(b, positions, offset, length).Ok?
    ensures forall i :: 0 <= i < length ==>
              ValueAt(GetPositions(b, positions, offset, length).value, i) == ValueAt(b, positions[offset + i])
  {
    var ps := positions[offset .. offset + length];
    var newIds := MappedIds(b, ps);
    var compact := length >= PositionCount(b.dictionary) && IsCompact(b) && ReferencesAll(newIds, PositionCount(b.dictionary));
    GetPositionsOk(b, positions, offset, length, newIds, compact);
    var r := Dict(0, length, b.dictionary, newIds, b.sourceId, if compact then Compacted(false) else Unknown);
    forall i | 0 <= i < length ensures ValueAt(r, i) == ValueAt(b, positions[offset + i]) {
      MappedValueAt(b, ps, r, i);
    }
  }

  lemma MappedValueAt(b: Block, ps: seq<int>, r: Block, i: nat)
    requires b.Dict? && Valid(b) && forall j :: 0 <= j < |ps| ==> 0 <= ps[j] < b.positionCount
    requires r.Dict? && Valid(r) && r.idsOffset == 0 && r.dictionary == b.dictionary && r.ids == MappedIds(b, ps)
    requires i < |ps| && i < r.positionCount
    ensures ValueAt(r, i) == ValueAt(b, ps[i])
  {
    assert r.ids[r.idsOffset + i] == b.ids[b.idsOffset + ps[i]];
    DictEntryValue(r, i);
    DictEntryValue(b, ps[i]);
  }


  /** The compacted flag getPositions sets is truthful: every dictionary position is referenced. */
  lemma GetPositionsHonest(b: Block, positions: seq<int>, offset: int, length: int)
    requires b.Dict? && Valid(b) && Honest(b) && GetPositions(b, positions, offset, length).Ok?
    ensures Honest(GetPositions(b, positions, offset, length).value)
  {
    var r := GetPositions(b, positions, offset, length).value;
    if r.stats.Compacted? {
      assert IdsWindow(r) == r.ids;
      assert ReferencesAll(r.ids, PositionCount(b.dictionary));
      DistinctCount(r.ids, PositionCount(b.dictionary));
    }
  }

  // ---------------------------------------------------------------------------
  // getSingleValueBlock

  /** AbstractArrayBlock.getSingleValueBlock: a one-entry array block over a copy of the entry's elements. */
  function GetSingleValueBlock(b: Block, position: int, freshId: nat): (r: Result<Block, BlockError>)
    requires b.Arr? && Valid(b)
    ensures !(0 <= position < b.positionCount) ==> r == Err(IllegalArgument("position is not valid"))
    ensures r.Ok? ==> 0 <= position < b.positionCount && Valid(r.value) && PositionCount(r.value) == 1
                      && r.value.Arr? && (ArrNull(r.value, 0) <==> ArrNull(b, position))
  {
    if !(0 <= position < b.positionCount) then Err(IllegalArgument("position is not valid"))
    else
      var start := Start(b, position);
      var len := Length(b, position);
      match CopyRegion(b.raw, start, len, freshId)
      case Err(e) => Err(e)
      case Ok(values) => Ok(Arr(0, 1, if ArrNull(b, position) then Some([true]) else None, [0, len], values))
  }

  /** For truthful statistics the single-value block holds the value of the position. */
  lemma GetSingleValueBlockValue(b: Block, position: nat, freshId: nat)
    requires b.Arr? && Valid(b) && Honest(b) && position < b.positionCount
    ensures GetSingleValueBlock(b, position, freshId).Ok?
    ensures ValueAt(GetSingleValueBlock(b, position, freshId).value, 0) == ValueAt(b, position)
  {
    var start := Start(b, position);
    var len := Length(b, position);
    CopyRegionValues(b.raw, start, len, freshId);
    var r := GetSingleValueBlock(b, position, freshId).value;
    if !ArrNull(b, position) {
      ShiftedRun(r.raw, b.raw, start, 0, len);
    }
  }

  // ---------------------------------------------------------------------------
  // Truthful statistics

  /**
   * For truthful statistics, isCompact holds exactly when the dictionary is not nested and
   * every dictionary entry is referenced.
   */
  lemma IsCompactMeansAllReferenced(b: Block)
    requires b.Dict? && Valid(b) && Honest(b)
    ensures IsCompact(b) <==> !b.dictionary.Dict? && ReferencesAll(IdsWindow(b), PositionCount(b.dictionary))
  {
    DistinctCount(IdsWindow(b), PositionCount(b.dictionary));
  }

  /** uniqueIds never exceeds the number of positions nor the dictionary size. */
  lemma UniqueIdsBounds(b: Block)
    requires b.Dict? && Valid(b) && Honest(b)
    ensures 0 <= UniqueIds(b) <= b.positionCount && UniqueIds(b) <= PositionCount(b.dictionary)
  {
    DistinctFacts(IdsWindow(b));
    DistinctCount(IdsWindow(b), PositionCount(b.dictionary));
  }

  /** Truthful sequential ids never repeat an id. */
  lemma SequentialIdsAreUnique(b: Block)
    requires b.Dict? && Valid(b) && Honest(b) && RawSequentialIds(b)
    ensures NoDuplicates(IdsWindow(b))
  {
    var w := IdsWindow(b);
    forall i, j | 0 <= i < j < |w| ensures w[i] != w[j] {
      IncreasingGap(w, i, j);
    }
  }

  lemma {:induction false} BaseHonest(b: Block)
    requires Valid(b) && Honest(b)
    ensures Honest(Base(b))
    decreases b
  {
    if b.Dict? {
      BaseHonest(b.dictionary);
    }
  }

  /** compact records only truthful statistics. */
  lemma {:induction false} CompactHonest(b: Block, freshId: nat)
    requires b.Dict? && Valid(b) && Honest(b)
    ensures Honest(Compact(b, freshId))
    decreases if b.dictionary.Dict? then 1 else 0
  {
    if IsCompact(b) {
    } else if b.dictionary.Dict? {
      BaseHonest(b.dictionary);
      CompactHonest(Unnest(b, freshId), freshId);
    } else if |Distinct(IdsWindow(b))| != PositionCount(b.dictionary) {
      CompactedBlockHonest(b, freshId);
    }
  }

  lemma CompactedBlockHonest(b: Block, freshId: nat)
    requires b.Dict? && Valid(b) && Honest(b) && !b.dictionary.Dict? && !IsCompact(b)
    ensures Honest(CompactedBlock(b, freshId))
  {
    var w := IdsWindow(b);
    var r := CompactedBlock(b, freshId);
    DistinctBounded(w, PositionCount(b.dictionary));
    DistinctFacts(w);
    CopyPositionsHonest(b.dictionary, Distinct(w), freshId);
    CopyPositionsKind(b.dictionary, Distinct(w), freshId);
    assert IdsWindow(r) == Renumbered(w);
    RenumberedCount(w);
    if UniqueIds(b) == b.positionCount {
      assert |Distinct(w)| == |w|;
      RenumberedOfNoDuplicates(w);
    }
  }

  /** copyRegion records only truthful statistics. */
  lemma {:induction false} CopyRegionHonest(b: Block, position: int, length: int, freshId: nat)
    requires Valid(b) && Honest(b) && ValidRegion(PositionCount(b), position, length)
    ensures CopyRegion(b, position, length, freshId).Ok? ==> Honest(CopyRegion(b, position, length, freshId).value)
    decreases b, 1
  {
    match b
    case Flat(_, _, _) =>
    case Dict(_, _, _, _, _, _) =>
      assert CopyRegion(b, position, length, freshId) == DictCopyRegion(b, position, length, freshId);
      DictCopyRegionHonest(b, position, length, freshId);
    case Arr(_, _, _, _, raw) =>
      assert CopyRegion(b, position, length, freshId) == ArrCopyRegion(b, position, length, freshId);
      ArrCopyRegionHonest(b, position, length, freshId);
  }

  lemma {:induction false} DictCopyRegionHonest(b: Block, position: nat, length: nat, freshId: nat)
    requires b.Dict? && Valid(b) && Honest(b) && position + length <= b.positionCount
    ensures DictCopyRegion(b, position, length, freshId).Ok? ==> Honest(DictCopyRegion(b, position, length, freshId).value)
    decreases b, 0
  {
    var d := b.dictionary;
    if CopiesDictionaryRegion(b, length) {
      var first := if position == b.positionCount then 0 else b.ids[b.idsOffset + position];
      if ValidRegion(PositionCount(d), first, length) {
        CopyRegionHonest(d, first, length, freshId);
      }
    } else if UnwrapsDictionary(b) {
      CopyPositionsHonest(d, RegionIds(b, position, length), freshId);
    } else {
      CompactHonest(Dict(0, length, d, RegionIds(b, position, length), freshId, Unknown), freshId);
    }
  }

  lemma {:induction false} ArrCopyRegionHonest(b: Block, position: nat, length: nat, freshId: nat)
    requires b.Arr? && Valid(b) && Honest(b) && position + length <= b.positionCount
    ensures ArrCopyRegion(b, position, length, freshId).Ok? ==> Honest(ArrCopyRegion(b, position, length, freshId).value)
    decreases b, 0
  {
    var start := Start(b, position);
    var count := Start(b, position + length) - start;
    ArrRegionInRaw(b, position, length);
    CopyRegionHonest(b.raw, start, count, freshId);
    var c := CopyRegion(b.raw, start, count, freshId);
    if c.Ok? {
      ArrCopyRegionIs(b, position, length, freshId, c.value);
    }
  }

}
