/**
 * DictionaryBlock as an object: the ids window and the dictionary are fixed at construction,
 * and the statistics sizeInBytes, uniqueIds, isSequentialIds and logicalSizeInBytes are
 * fields filled in lazily (a one-shot memo, -1 until computed).  Every method is proved
 * against the block-value functions of Blocks, BlockOps and BlockSizes, applied to `Model()`.
 * The dictionary is a block value: memo fields of a nested DictionaryBlock are not updated.
 */
module DictionaryBlocks {
  import opened Wrappers
  import opened Blocks
  import opened BlockOps
  import opened BlockSizes

  /**
   * A block value with a computed cache forgotten again: two dictionary blocks that differ
   * only in whether calculateCompactSize has run are the same block.
   */
  function Uncached(b: Block): (r: Block)
    ensures r.Dict? == b.Dict? && (!b.Dict? ==> r == b)
    ensures b.Dict? ==> (r.stats.Unknown? <==> b.stats.Unknown? || b.stats.Computed?)
  {
    if b.Dict? && b.stats.Computed? then b.(stats := Unknown) else b
  }

  /** Two outcomes that are the same block, or the same error, up to a computed cache. */
  predicate SameOutcome(r: Result<Block, BlockError>, s: Result<Block, BlockError>)
  {
    r.Ok? == s.Ok? && (r.Err? ==> r == s) && (r.Ok? ==> Uncached(r.value) == Uncached(s.value))
  }

  class DictionaryBlock {
    const idsOffset: nat
    const positionCount: nat
    const dictionary: Block
    const ids: seq<int>
    const dictionarySourceId: nat
    /** Whether the constructor was told the dictionary is compacted. */
    const compacted: bool

    var sizeInBytes: int
    var uniqueIds: int
    var isSequentialIds: bool
    var logicalSizeInBytes: int

    /** The block value this object stands for; its statistics say which fields are filled in. */
    function Model(): (b: Block)
      reads this
      ensures b.Dict? && b.idsOffset == idsOffset && b.positionCount == positionCount
      ensures b.dictionary == dictionary && b.ids == ids && b.sourceId == dictionarySourceId
    {
      Dict(idsOffset, positionCount, dictionary, ids, dictionarySourceId,
           if compacted then Compacted(isSequentialIds) else if uniqueIds == -1 then Unknown else Computed)
    }

    /** The fields agree with the statistics of Model(): -1 until computed, then computed right. */
    predicate Valid()
      reads this
    {
      Blocks.Valid(Model())
      && (compacted ==> !dictionary.Dict? && uniqueIds == PositionCount(dictionary)
                        && sizeInBytes == SizeInBytes(dictionary) + IdBytes * positionCount)
      && (!compacted && uniqueIds == -1 ==> sizeInBytes == -1 && !isSequentialIds)
      && (!compacted && uniqueIds != -1 ==>
            uniqueIds == |Distinct(IdsWindow(Model()))| && sizeInBytes == CompactSize(Model())
            && isSequentialIds == RawSequentialIds(Model()))
      && (logicalSizeInBytes == -1 || logicalSizeInBytes == LogicalSize(Model()))
    }

    /** The seven-argument constructor, once its checks have passed. */
    constructor (idsOffset: nat, positionCount: nat, dictionary: Block, ids: seq<int>,
                 dictionaryIsCompacted: bool, isSequentialIds: bool, dictionarySourceId: nat)
      requires Blocks.Valid(dictionary) && idsOffset + positionCount <= |ids|
      requires forall i :: idsOffset <= i < idsOffset + positionCount ==> 0 <= ids[i] < PositionCount(dictionary)
      requires !(dictionaryIsCompacted && dictionary.Dict?) && !(isSequentialIds && !dictionaryIsCompacted)
      ensures Valid()
      ensures Model() == NewDictionaryBlock(idsOffset, positionCount, dictionary, ids,
                                            dictionaryIsCompacted, isSequentialIds, dictionarySourceId).value
      ensures logicalSizeInBytes == -1
    {
      this.idsOffset := idsOffset;
      this.positionCount := positionCount;
      this.dictionary := dictionary;
      this.ids := ids;
      this.dictionarySourceId := dictionarySourceId;
      this.compacted := dictionaryIsCompacted;
      this.logicalSizeInBytes := -1;
      this.isSequentialIds := isSequentialIds;
      if dictionaryIsCompacted {
        this.sizeInBytes := SizeInBytes(dictionary) + IdBytes * positionCount;
        this.uniqueIds := PositionCount(dictionary);
      } else {
        this.sizeInBytes := -1;
        this.uniqueIds := -1;
      }
    }

    /**
     * The constructor with its checks: positionCount must not be negative, the ids must cover
     * the window, a compacted dictionary must not be nested, and sequential ids need the
     * compacted flag.
     */
    static method New(idsOffset: nat, positionCount: int, dictionary: Block, ids: seq<int>,
                      dictionaryIsCompacted: bool, isSequentialIds: bool, dictionarySourceId: nat)
      returns (r: Result<DictionaryBlock, BlockError>)
      requires Blocks.Valid(dictionary)
      requires forall i :: idsOffset <= i < |ids| && i < idsOffset + positionCount ==> 0 <= ids[i] < PositionCount(dictionary)
      ensures r.Ok? <==> NewDictionaryBlock(idsOffset, positionCount, dictionary, ids,
                                            dictionaryIsCompacted, isSequentialIds, dictionarySourceId).Ok?
      ensures r.Err? ==> r.error == NewDictionaryBlock(idsOffset, positionCount, dictionary, ids,
                                                       dictionaryIsCompacted, isSequentialIds, dictionarySourceId).error
      ensures r.Ok? ==> fresh(r.value) && r.value.Valid()
                        && r.value.Model() == NewDictionaryBlock(idsOffset, positionCount, dictionary, ids,
                                                                 dictionaryIsCompacted, isSequentialIds, dictionarySourceId).value
    {
      var checked := NewDictionaryBlock(idsOffset, positionCount, dictionary, ids,
                                        dictionaryIsCompacted, isSequentialIds, dictionarySourceId);
      if checked.Err? {
        return Err(checked.error);
      }
      var block := new DictionaryBlock(idsOffset, positionCount, dictionary, ids,
                                       dictionaryIsCompacted, isSequentialIds, dictionarySourceId);
      return Ok(block);
    }

    /** getId without the check: the id stored for a position of the window. */
    function IdAt(position: nat): (id: nat)
      reads this
      requires Valid() && position < positionCount
      ensures id == IdsWindow(Model())[position] && id < PositionCount(dictionary)
    {
      ids[idsOffset + position]
    }

    /**
     * calculateCompactSize: one pass over the ids marks the referenced entries in `used`,
     * counts the distinct ids and checks that they strictly increase; the size is that of the
     * referenced entries plus four bytes per position.
     */
    method CalculateCompactSize()
      requires Valid() && !compacted
      modifies this
      ensures Valid()
      ensures uniqueIds == |Distinct(IdsWindow(old(Model())))|
      ensures isSequentialIds == (!dictionary.Dict? && StrictlyIncreasing(IdsWindow(old(Model()))))
      ensures sizeInBytes == CompactSize(old(Model()))
      ensures Model() == old(Model()).(stats := Computed)
      ensures logicalSizeInBytes == old(logicalSizeInBytes)
    {
      var b := Model();
      var unique, sequential, size := MeasureCompact(b);
      ComputedStats(b);
      sizeInBytes := size;
      uniqueIds := unique;
      isSequentialIds := sequential;
      assert Model() == b.(stats := Computed);
    }

    /** getSizeInBytes: computed once by calculateCompactSize, then answered from the field. */
    method GetSizeInBytes() returns (r: nat)
      requires Valid()
      modifies this
      ensures Valid() && r == SizeInBytes(old(Model()))
      ensures Uncached(Model()) == Uncached(old(Model())) && logicalSizeInBytes == old(logicalSizeInBytes)
      ensures old(sizeInBytes) != -1 ==> unchanged(this)
    {
      if sizeInBytes == -1 {
        CalculateCompactSize();
      }
      r := sizeInBytes;
    }

    /** getUniqueIds: the number of distinct ids, computed once. */
    method GetUniqueIds() returns (r: nat)
      requires Valid()
      modifies this
      ensures Valid() && r == UniqueIds(old(Model()))
      ensures Uncached(Model()) == Uncached(old(Model())) && logicalSizeInBytes == old(logicalSizeInBytes)
      ensures old(uniqueIds) != -1 ==> unchanged(this)
    {
      if uniqueIds == -1 {
        CalculateCompactSize();
      }
      r := uniqueIds;
    }

    /**
     * isSequentialIds: once computed, whether the ids strictly increase over a dictionary
     * that is not nested; for a block built compacted, the flag it was given.
     */
    method IsSequentialIds() returns (r: bool)
      requires Valid()
      modifies this
      ensures Valid() && r == RawSequentialIds(Model())
      ensures !old(Model()).stats.Compacted? ==> r == (!dictionary.Dict? && StrictlyIncreasing(IdsWindow(old(Model()))))
      ensures Uncached(Model()) == Uncached(old(Model())) && logicalSizeInBytes == old(logicalSizeInBytes)
      ensures old(uniqueIds) != -1 ==> unchanged(this)
    {
      if uniqueIds == -1 {
        CalculateCompactSize();
      }
      r := isSequentialIds;
    }

    /** isCompact: never for a nested dictionary; otherwise whether every entry is referenced. */
    method IsCompact() returns (r: bool)
      requires Valid()
      modifies this
      ensures Valid() && r == Blocks.IsCompact(old(Model()))
      ensures Uncached(Model()) == Uncached(old(Model())) && logicalSizeInBytes == old(logicalSizeInBytes)
      ensures old(uniqueIds) != -1 || dictionary.Dict? ==> unchanged(this)
      ensures !dictionary.Dict? ==> uniqueIds != -1
    {
      if dictionary.Dict? {
        return false;
      }
      if uniqueIds == -1 {
        CalculateCompactSize();
      }
      r := uniqueIds == PositionCount(dictionary);
    }

    /** getCompactedDictionarySizeInBytes: the size without the four bytes per id. */
    method GetCompactedDictionarySizeInBytes() returns (r: nat)
      requires Valid()
      modifies this
      ensures Valid() && r == CompactedDictionarySize(old(Model()))
      ensures Uncached(Model()) == Uncached(old(Model())) && logicalSizeInBytes == old(logicalSizeInBytes)
      ensures old(sizeInBytes) != -1 ==> unchanged(this)
    {
      if sizeInBytes == -1 {
        CalculateCompactSize();
      }
      r := sizeInBytes - IdBytes * positionCount;
    }

    /** getLogicalSizeInBytes: the summed size of every position's own entry, computed once. */
    method GetLogicalSizeInBytes() returns (r: nat)
      requires Valid()
      modifies this
      ensures Valid() && r == LogicalSize(old(Model())) && logicalSizeInBytes == r
      ensures Model() == old(Model()) && sizeInBytes == old(sizeInBytes)
      ensures old(logicalSizeInBytes) >= 0 ==> unchanged(this)
    {
      if logicalSizeInBytes >= 0 {
        return logicalSizeInBytes;
      }
      r := SumEntrySizes(Model());
      logicalSizeInBytes := r;
    }

    /**
     * getRegionSizeInBytes, with the region check that keeps a negative length out (see the
     * findings): the cached size for the whole block, otherwise the referenced entries'
     * size plus four bytes per position.
     */
    method GetRegionSizeInBytes(position: int, length: int) returns (r: Result<nat, BlockError>)
      requires Valid()
      modifies this
      ensures Valid() && r == BlockSizes.GetRegionSizeInBytes(old(Model()), position, length)
      ensures Uncached(Model()) == Uncached(old(Model())) && logicalSizeInBytes == old(logicalSizeInBytes)
    {
      var b := Model();
      if !ValidRegion(positionCount, position, length) {
        return Err(IndexOutOfBounds);
      }
      if position == 0 && length == positionCount {
        DictRegionSize(b, position, length);
        var size := GetSizeInBytes();
        return Ok(size);
      }
      var size := PartialRegionSize(b, position, length);
      return Ok(size);
    }

    /**
     * getPositionsSizeInBytes: the selection must have one flag per position; the size of the
     * entries the selected positions reference plus four bytes per selected position.
     */
    method GetPositionsSizeInBytes(positions: seq<bool>) returns (r: Result<nat, BlockError>)
      requires Valid()
      ensures r == BlockSizes.GetPositionsSizeInBytes(Model(), positions)
    {
      if |positions| != positionCount {
        return Err(IllegalArgument("Invalid positions array size"));
      }
      var size := SelectedSize(Model(), positions);
      return Ok(size);
    }

    /**
     * getCompactedDictionaryPositionsSizeInBytes: the entries the selected positions
     * reference, sized through every nested dictionary without their ids.
     */
    method GetCompactedDictionaryPositionsSizeInBytes(positions: seq<bool>) returns (r: nat)
      requires Valid() && |positions| == positionCount
      ensures r == CompactedPositionsSize(Model(), positions)
    {
      r := SelectedCompactedSize(Model(), positions);
    }

    /**
     * getRegion: the whole block itself for the full length, otherwise a new block sharing
     * the ids, the dictionary and the source id with the ids offset shifted.
     */
    method GetRegion(position: int, length: int) returns (r: Result<DictionaryBlock, BlockError>)
      requires Valid()
      ensures r.Ok? <==> ValidRegion(positionCount, position, length)
      ensures r.Err? ==> r.error == IndexOutOfBounds
      ensures r.Ok? && length == positionCount ==> r.value == this
      ensures r.Ok? && length != positionCount ==>
                fresh(r.value) && r.value.Valid() && r.value.Model() == BlockOps.GetRegion(Model(), position, length).value
    {
      if !ValidRegion(positionCount, position, length) {
        return Err(IndexOutOfBounds);
      }
      if length == positionCount {
        return Ok(this);
      }
      var region := new DictionaryBlock(idsOffset + position, length, dictionary, ids, false, false, dictionarySourceId);
      return Ok(region);
    }

    /**
     * unnest: the ids are copied, then rewritten level by level through every nested
     * dictionary; the result is a new block over the innermost dictionary.  A block whose
     * dictionary is not nested is returned itself.
     */
    method Unnest(freshId: nat) returns (r: DictionaryBlock)
      requires Valid()
      ensures !dictionary.Dict? ==> r == this
      ensures dictionary.Dict? ==> fresh(r) && r.Valid() && r.Model() == BlockOps.Unnest(Model(), freshId)
    {
      if !dictionary.Dict? {
        return this;
      }
      var base, newIds := UnnestIds(dictionary, IdsWindow(Model()));
      r := new DictionaryBlock(0, positionCount, base, newIds, false, false, freshId);
    }

    /**
     * compact: the block itself when compact already; a nested block is unnested and the
     * result compacted; otherwise the referenced entries are numbered in first-occurrence
     * order, and unless every entry is referenced a new block over a copy of exactly those
     * entries is built, marked compacted and sequential when no id repeats.
     */
    method Compact(freshId: nat) returns (r: DictionaryBlock)
      requires Valid()
      modifies this
      ensures Valid() && Uncached(Model()) == Uncached(old(Model())) && logicalSizeInBytes == old(logicalSizeInBytes)
      ensures r == this || fresh(r)
      ensures r.Valid() && Uncached(r.Model()) == Uncached(BlockOps.Compact(old(Model()), freshId))
      decreases if dictionary.Dict? then 1 else 0
    {
      ghost var b := Model();
      CompactCases(b, freshId);
      var compact := IsCompact();
      if compact {
        return this;
      }
      assert IdsWindow(Model()) == IdsWindow(b);
      var unnested := Unnest(freshId);
      if unnested != this {
        assert BlockOps.Unnest(Model(), freshId) == BlockOps.Unnest(b, freshId);
        r := unnested.Compact(freshId);
        return;
      }
      r := CompactReferenced(freshId);
    }

    /**
     * The rest of compact, for a block over a dictionary that is not nested: the block itself
     * when every entry is referenced, otherwise a compacted block over a copy of the
     * referenced entries.
     */
    method CompactReferenced(freshId: nat) returns (r: DictionaryBlock)
      requires Valid() && !dictionary.Dict? && uniqueIds != -1
      ensures r == this || fresh(r)
      ensures r.Valid()
      ensures |Distinct(IdsWindow(Model()))| == PositionCount(dictionary) ==> r == this
      ensures |Distinct(IdsWindow(Model()))| != PositionCount(dictionary) ==>
                r.Model() == CompactedBlock(Model(), freshId)
    {
      var b := Model();
      var w := IdsWindow(b);
      var dictionarySize := PositionCount(dictionary);
      var dictionaryPositionsToCopy, remapIndex := RemapIds(w, dictionarySize);
      if |dictionaryPositionsToCopy| == dictionarySize {
        return this;
      }
      var newIds := RemappedIds(w, remapIndex);
      var sequential := uniqueIds == positionCount;
      assert sequential == (UniqueIds(b) == positionCount);
      r := NewCompacted(b, dictionaryPositionsToCopy, newIds, sequential, freshId);
    }

    /**
     * copyPositions: after the range check, the ids of the selected positions.  A single
     * position, a nested dictionary or ids known to be distinct unwrap this layer; otherwise
     * the referenced entries are gathered once in first-occurrence order and a compacted
     * dictionary block over them is built, unless no entry repeats.
     */
    method CopyPositions(positions: seq<int>, offset: int, length: int, freshId: nat) returns (r: Result<Block, BlockError>)
      requires Valid()
      ensures !(0 <= offset && 0 <= length && offset + length <= |positions|) ==> r == Err(IndexOutOfBounds)
      ensures r.Ok? <==> 0 <= offset && 0 <= length && offset + length <= |positions|
                         && forall i :: offset <= i < offset + length ==> 0 <= positions[i] < positionCount
      ensures r.Err? && 0 <= offset && 0 <= length && offset + length <= |positions| ==>
                r.error == IllegalArgument("Invalid position in block")
      ensures r.Ok? ==> r.value == Blocks.CopyPositions(Model(), positions[offset .. offset + length], freshId)
    {
      r := CopyDictionaryPositions(Model(), positions, offset, length, freshId);
    }


    /**
     * getPositions: a new block over the same dictionary and source id whose ids are those of
     * the selected positions; it is built compacted when this block is compact, the selection
     * is at least as long as the dictionary, and every entry is referenced again.
     */
    method GetPositions(positions: seq<int>, offset: int, length: int) returns (r: Result<DictionaryBlock, BlockError>)
      requires Valid()
      modifies this
      ensures Valid() && Uncached(Model()) == Uncached(old(Model())) && logicalSizeInBytes == old(logicalSizeInBytes)
      ensures r.Ok? == BlockOps.GetPositions(old(Model()), positions, offset, length).Ok?
      ensures r.Err? ==> r.error == BlockOps.GetPositions(old(Model()), positions, offset, length).error
      ensures r.Ok? ==> fresh(r.value) && r.value.Valid()
                        && r.value.Model() == BlockOps.GetPositions(old(Model()), positions, offset, length).value
    {
      if !(0 <= offset && 0 <= length && offset + length <= |positions|) {
        return Err(IndexOutOfBounds);
      }
      var b := Model();
      var dictionaryCount := PositionCount(dictionary);
      var isCompact := false;
      if length >= dictionaryCount {
        isCompact := IsCompact();
      }
      r := PositionsBlock(b, positions, offset, length, isCompact);
    }

    /**
     * copyRegion, with the first id read only when the region is not empty (see the
     * findings): a contiguous run is copied directly, a nested dictionary or distinct ids
     * unwrap this layer, and otherwise a new block over the region's ids is compacted.
     */
    method CopyRegion(position: int, length: int, freshId: nat) returns (r: Result<Block, BlockError>)
      requires Valid()
      ensures !ValidRegion(positionCount, position, length) ==> r == Err(IndexOutOfBounds)
      ensures SameOutcome(r, BlockOps.CopyRegion(Model(), position, length, freshId))
    {
      r := CopyDictionaryRegion(Model(), position, length, freshId);
    }

  }

  /** What the caches hold once calculateCompactSize has run, as functions of the block before. */
  lemma ComputedStats(b: Block)
    requires b.Dict? && Valid(b)
    ensures var c := b.(stats := Computed);
            Valid(c) && IdsWindow(c) == IdsWindow(b) && CompactSize(c) == CompactSize(b)
            && RawSequentialIds(c) == (!b.dictionary.Dict? && StrictlyIncreasing(IdsWindow(b)))
            && LogicalSize(c) == LogicalSize(b)
  {
    LogicalSizeUpToStats(b, Computed, b.positionCount);
    CompactSizeStats(b, Computed);
  }

  /**
   * calculateCompactSize on the block value: the distinct ids, whether the ids are sequential
   * (never for a nested dictionary), and the compact size.
   */
  method MeasureCompact(b: Block) returns (unique: nat, sequential: bool, size: nat)
    requires b.Dict? && Valid(b)
    ensures unique == |Distinct(IdsWindow(b))|
    ensures sequential == (!b.dictionary.Dict? && StrictlyIncreasing(IdsWindow(b)))
    ensures size == CompactSize(b)
  {
    var dictionary := b.dictionary;
    var dictionaryCount := PositionCount(dictionary);
    var used;
    used, unique, sequential := ScanIds(IdsWindow(b), dictionaryCount);
    AllIdsMask(b, used[..]);
    var dictionarySize;
    if dictionary.Dict? {
      if unique == dictionaryCount {
        dictionarySize := CompactedDictionarySize(dictionary);
      } else {
        dictionarySize := CompactedPositionsSize(dictionary, used[..]);
      }
      sequential := false;
    } else {
      if unique == dictionaryCount {
        dictionarySize := SizeInBytes(dictionary);
      } else {
        dictionarySize := PositionsSize(dictionary, used[..]);
      }
    }
    size := dictionarySize + IdBytes * b.positionCount;
  }

  /**
   * The loop of calculateCompactSize over the ids window: which entries are
   * referenced, how many distinct ids there are, and whether they strictly increase.
   */
  method ScanIds(w: seq<int>, dictionaryCount: nat) returns (used: array<bool>, unique: nat, sequential: bool)
    requires forall i :: 0 <= i < |w| ==> 0 <= w[i] < dictionaryCount
    ensures fresh(used) && used.Length == dictionaryCount
    ensures forall x :: 0 <= x < dictionaryCount ==> (used[x] <==> x in w)
    ensures unique == |Distinct(w)|
    ensures sequential == StrictlyIncreasing(w)
  {
    used := new bool[dictionaryCount](_ => false);
    unique := 0;
    var previousPosition := -1;
    sequential := true;
    var i := 0;
    while i < |w|
      invariant 0 <= i <= |w|
      invariant forall x :: 0 <= x < dictionaryCount ==> (used[x] <==> x in w[..i])
      invariant unique == |Distinct(w[..i])|
      invariant sequential == StrictlyIncreasing(w[..i])
      invariant previousPosition == if i == 0 then -1 else w[i - 1]
    {
      var position := w[i];
      assert w[..i + 1] == w[..i] + [position];
      ScanCountStep(w[..i], position);
      ScanIncreasingStep(w[..i], position);
      assert used[position] <==> position in w[..i];
      unique := unique + if used[position] then 0 else 1;
      used[position] := true;
      sequential := sequential && previousPosition < position;
      previousPosition := position;
      i := i + 1;
    }
    assert w[..i] == w;
  }

  /** One more id: it is new to the distinct ids unless seen, and extends an increasing run when larger. */
  lemma ScanCountStep(prefix: seq<int>, x: int)
    ensures |Distinct(prefix + [x])| == |Distinct(prefix)| + if x in prefix then 0 else 1
  {
    DistinctStep(prefix, x);
    DistinctFacts(prefix);
  }

  lemma ScanIncreasingStep(prefix: seq<int>, x: int)
    ensures StrictlyIncreasing(prefix + [x]) ==
              (StrictlyIncreasing(prefix) && (prefix == [] || prefix[|prefix| - 1] < x))
  {
    var s := prefix + [x];
    if StrictlyIncreasing(prefix) && (prefix == [] || prefix[|prefix| - 1] < x) {
      forall k | 0 < k < |s| ensures s[k - 1] < s[k] {
        if k < |prefix| {
          assert s[k - 1] == prefix[k - 1] && s[k] == prefix[k];
        }
      }
    }
    if StrictlyIncreasing(s) {
      forall k | 0 < k < |prefix| ensures prefix[k - 1] < prefix[k] {
        assert s[k - 1] == prefix[k - 1] && s[k] == prefix[k];
      }
      if prefix != [] {
        assert s[|prefix| - 1] < s[|prefix|];
      }
    }
  }



  lemma LogicalSizeStep(b: Block, i: nat)
    requires b.Dict? && Valid(b) && i < b.positionCount
    ensures LogicalSizeUpTo(b, i + 1) == LogicalSizeUpTo(b, i) + RegionSize(b.dictionary, IdsWindow(b)[i], 1)
  {
  }

  /** The loop of getLogicalSizeInBytes: each entry's size is looked up once and added per position. */
  method SumEntrySizes(b: Block) returns (size: nat)
    requires b.Dict? && Valid(b)
    ensures size == LogicalSize(b)
  {
    var w := IdsWindow(b);
    var dictionary := b.dictionary;
    ghost var sizes := EntrySizes(dictionary);
    var seenSizes := new int[PositionCount(dictionary)](_ => -1);
    size := 0;
    var i := 0;
    while i < b.positionCount
      invariant 0 <= i <= b.positionCount
      invariant Cached(seenSizes[..], sizes)
      invariant size == LogicalSizeUpTo(b, i)
    {
      var position := w[i];
      LogicalSizeStep(b, i);
      if seenSizes[position] < 0 {
        CachedUpdate(seenSizes[..], sizes, position);
        seenSizes[position] := RegionSize(dictionary, position, 1);
      }
      assert seenSizes[..][position] == seenSizes[position];
      size := size + seenSizes[position];
      i := i + 1;
    }
  }

  /** A memo of entry sizes: each slot is -1 (not yet measured) or the entry's size. */
  ghost predicate Cached(seen: seq<int>, sizes: seq<nat>)
  {
    |seen| == |sizes| && forall x :: 0 <= x < |seen| ==> seen[x] == -1 || seen[x] == sizes[x]
  }

  lemma CachedUpdate(seen: seq<int>, sizes: seq<nat>, p: nat)
    requires Cached(seen, sizes) && p < |seen|
    ensures Cached(seen[p := sizes[p]], sizes)
  {
  }

  /** The size of each dictionary entry on its own. */
  ghost function EntrySizes(d: Block): (sizes: seq<nat>)
    requires Valid(d)
    ensures |sizes| == PositionCount(d)
    ensures forall x :: 0 <= x < |sizes| ==> sizes[x] == RegionSize(d, x, 1)
  {
    seq(PositionCount(d), x requires 0 <= x < PositionCount(d) => RegionSize(d, x, 1))
  }



  /** The region size of a dictionary block, one equation per case. */
  lemma DictRegionSize(b: Block, position: nat, length: nat)
    requires b.Dict? && Valid(b) && position + length <= b.positionCount
    ensures position == 0 && length == b.positionCount ==> RegionSize(b, position, length) == SizeInBytes(b)
    ensures !(position == 0 && length == b.positionCount) ==>
              RegionSize(b, position, length) == PositionsSize(b.dictionary, IdsMask(b, RegionMask(b.positionCount, position, length))) + IdBytes * length
  {
  }


  /** getRegionSizeInBytes of a region that is not the whole block. */
  method PartialRegionSize(b: Block, position: nat, length: nat) returns (size: nat)
    requires b.Dict? && Valid(b) && position + length <= b.positionCount
    requires !(position == 0 && length == b.positionCount)
    ensures size == RegionSize(b, position, length)
  {
    DictRegionSize(b, position, length);
    var used := MarkRegion(b, position, length);
    size := PositionsSize(b.dictionary, used[..]) + IdBytes * length;
  }

  /** The loop of getRegionSizeInBytes: the entries that positions [position, position + length) reference. */
  method MarkRegion(b: Block, position: nat, length: nat) returns (used: array<bool>)
    requires b.Dict? && Valid(b) && position + length <= b.positionCount
    ensures fresh(used) && used[..] == IdsMask(b, RegionMask(b.positionCount, position, length))
  {
    var w := IdsWindow(b);
    used := new bool[PositionCount(b.dictionary)](_ => false);
    var i := position;
    while i < position + length
      invariant position <= i <= position + length
      invariant forall x :: 0 <= x < used.Length ==> (used[x] <==> exists j :: position <= j < i && w[j] == x)
    {
      used[w[i]] := true;
      i := i + 1;
    }
    ghost var m := IdsMask(b, RegionMask(b.positionCount, position, length));
    forall x | 0 <= x < used.Length ensures used[x] == m[x] {
      if m[x] {
        var j :| 0 <= j < b.positionCount && RegionMask(b.positionCount, position, length)[j] && w[j] == x;
      }
    }
  }


  /** getPositionsSizeInBytes of a dictionary block, once the mask has the right length. */
  method SelectedSize(b: Block, positions: seq<bool>) returns (size: nat)
    requires b.Dict? && Valid(b) && |positions| == b.positionCount
    ensures size == PositionsSize(b, positions)
  {
    var used := MarkSelected(b, positions);
    var selected := CountUsedPositions(positions);
    size := PositionsSize(b.dictionary, used[..]) + IdBytes * selected;
  }

  /** getCompactedDictionaryPositionsSizeInBytes: the selected entries' size after compacting. */
  method SelectedCompactedSize(b: Block, positions: seq<bool>) returns (size: nat)
    requires b.Dict? && Valid(b) && |positions| == b.positionCount
    ensures size == CompactedPositionsSize(b, positions)
  {
    var used := MarkSelected(b, positions);
    if b.dictionary.Dict? {
      return CompactedPositionsSize(b.dictionary, used[..]);
    }
    return PositionsSize(b.dictionary, used[..]);
  }

  /** The loop of getPositionsSizeInBytes: the entries that the selected positions reference. */
  method MarkSelected(b: Block, selected: seq<bool>) returns (used: array<bool>)
    requires b.Dict? && Valid(b) && |selected| == b.positionCount
    ensures fresh(used) && used[..] == IdsMask(b, selected)
  {
    var w := IdsWindow(b);
    used := new bool[PositionCount(b.dictionary)](_ => false);
    var i := 0;
    while i < |selected|
      invariant 0 <= i <= |selected|
      invariant forall x :: 0 <= x < used.Length ==> (used[x] <==> exists j :: 0 <= j < i && selected[j] && w[j] == x)
    {
      if selected[i] {
        used[w[i]] := true;
      }
      i := i + 1;
    }
    ghost var m := IdsMask(b, selected);
    forall x | 0 <= x < used.Length ensures used[x] == m[x] {
    }
  }

  /** countUsedPositions: the number of selected positions. */
  method CountUsedPositions(positions: seq<bool>) returns (count: nat)
    ensures count == CountTrue(positions)
  {
    count := 0;
    var i := 0;
    while i < |positions|
      invariant 0 <= i <= |positions|
      invariant count == CountTrue(positions[..i])
    {
      assert positions[..i + 1][..i] == positions[..i];
      count := count + if positions[i] then 1 else 0;
      i := i + 1;
    }
    assert positions[..i] == positions;
  }

  /**
   * The loops of unnest: the ids are copied, then rewritten through one nested dictionary
   * after another until the dictionary is no dictionary block.
   */
  method UnnestIds(dictionary: Block, w: seq<int>) returns (base: Block, newIds: seq<int>)
    requires Valid(dictionary) && forall i :: 0 <= i < |w| ==> 0 <= w[i] < PositionCount(dictionary)
    ensures base == Base(dictionary) && |newIds| == |w|
    ensures forall i :: 0 <= i < |w| ==> 0 <= newIds[i] < PositionCount(base)
    ensures newIds == seq(|w|, i requires 0 <= i < |w| => Resolve(dictionary, w[i]))
  {
    var a := new int[|w|](i requires 0 <= i < |w| => w[i]);
    base := dictionary;
    while base.Dict?
      invariant Valid(base) && Base(base) == Base(dictionary)
      invariant forall j :: 0 <= j < a.Length ==> 0 <= a[j] < PositionCount(base) && Resolve(base, a[j]) == Resolve(dictionary, w[j])
      decreases base
    {
      ResolveLevel(base, a);
      base := base.dictionary;
    }
    newIds := a[..];
  }

  /** One level of unnest: every id replaced by the nested dictionary's id at that position. */
  method ResolveLevel(d: Block, a: array<int>)
    requires d.Dict? && Valid(d) && forall j :: 0 <= j < a.Length ==> 0 <= a[j] < d.positionCount
    modifies a
    ensures forall j :: 0 <= j < a.Length ==> a[j] == IdsWindow(d)[old(a[j])] && 0 <= a[j] < PositionCount(d.dictionary)
  {
    var i := 0;
    while i < a.Length
      invariant 0 <= i <= a.Length
      invariant forall j :: 0 <= j < i ==> a[j] == IdsWindow(d)[old(a[j])] && 0 <= a[j] < PositionCount(d.dictionary)
      invariant forall j :: i <= j < a.Length ==> a[j] == old(a[j])
    {
      a[i] := IdsWindow(d)[a[i]];
      i := i + 1;
    }
  }

  /** Distinct grows by one id exactly when the id is new. */
  lemma DistinctStep(xs: seq<int>, x: int)
    ensures Distinct(xs + [x]) == if x in Distinct(xs) then Distinct(xs) else Distinct(xs) + [x]
  {
    assert (xs + [x])[..|xs|] == xs;
    DistinctFacts(xs);
  }

  /**
   * The first loop of compact: the referenced entries in first-occurrence order, and for
   * each entry its new index, -1 when it is not referenced.
   */
  method RemapIds(w: seq<int>, dictionarySize: nat) returns (toCopy: seq<int>, remapIndex: array<int>)
    requires forall i :: 0 <= i < |w| ==> 0 <= w[i] < dictionarySize
    ensures toCopy == Distinct(w) && fresh(remapIndex) && remapIndex.Length == dictionarySize
    ensures forall x :: 0 <= x < dictionarySize ==> (remapIndex[x] == -1 <==> x !in w)
    ensures forall i :: 0 <= i < |w| ==> remapIndex[w[i]] == Renumbered(w)[i]
  {
    remapIndex := new int[dictionarySize](_ => -1);
    toCopy := [];
    var newIndex := 0;
    var i := 0;
    while i < |w|
      invariant 0 <= i <= |w| && toCopy == Distinct(w[..i]) && newIndex == |toCopy|
      invariant forall x :: 0 <= x < dictionarySize ==> (remapIndex[x] == -1 <==> x !in toCopy)
      invariant forall x :: 0 <= x < dictionarySize && remapIndex[x] != -1 ==>
                  0 <= remapIndex[x] < |toCopy| && toCopy[remapIndex[x]] == x
    {
      var dictionaryIndex := w[i];
      assert w[..i + 1] == w[..i] + [dictionaryIndex];
      DistinctStep(w[..i], dictionaryIndex);
      if remapIndex[dictionaryIndex] == -1 {
        toCopy := toCopy + [dictionaryIndex];
        remapIndex[dictionaryIndex] := newIndex;
        newIndex := newIndex + 1;
      }
      i := i + 1;
    }
    assert w[..i] == w;
    DistinctFacts(w);
    forall j | 0 <= j < |w| ensures remapIndex[w[j]] == Renumbered(w)[j] {
      IndexOfUnique(Distinct(w), w[j], remapIndex[w[j]]);
    }
  }

  /** The second loop of compact: every id replaced by its entry's new index. */
  method RemappedIds(w: seq<int>, remapIndex: array<int>) returns (newIds: seq<int>)
    requires forall i :: 0 <= i < |w| ==> 0 <= w[i] < remapIndex.Length && remapIndex[w[i]] == Renumbered(w)[i]
    ensures newIds == Renumbered(w)
  {
    var a := new int[|w|];
    var i := 0;
    while i < |w|
      invariant 0 <= i <= |w|
      invariant forall j :: 0 <= j < i ==> a[j] == Renumbered(w)[j]
    {
      a[i] := remapIndex[w[i]];
      i := i + 1;
    }
    newIds := a[..];
  }


  /** The index map of compact: it sends every id chosen for copying to its place in the copy list. */
  ghost predicate IndexesOf(index: map<int, int>, toCopy: seq<int>)
  {
    (forall x :: x in index <==> x in toCopy)
    && forall x :: x in index ==> 0 <= index[x] < |toCopy| && toCopy[index[x]] == x
  }

  lemma IndexesOfStep(index: map<int, int>, toCopy: seq<int>, x: int)
    requires IndexesOf(index, toCopy) && x !in index
    ensures IndexesOf(index[x := |toCopy|], toCopy + [x])
  {
    var toCopy' := toCopy + [x];
    forall y | y in toCopy' ensures y in toCopy || y == x {
    }
  }

  /**
   * The loop of copyPositions over its hash map: each id gets the index of its first
   * occurrence among the ids gathered so far, and new ids are appended to the gather list.
   */
  method RenumberIds(m: seq<int>) returns (positionsToCopy: seq<int>, newIds: seq<int>)
    ensures positionsToCopy == Distinct(m) && newIds == Renumbered(m)
  {
    var oldIndexToNewIndex: map<int, int> := map[];
    positionsToCopy := [];
    var a := new int[|m|];
    var i := 0;
    while i < |m|
      invariant i <= |m| && Renumbering(m, i, positionsToCopy, oldIndexToNewIndex, a[..])
    {
      var oldIndex := m[i];
      RenumberingStep(m, i, positionsToCopy, oldIndexToNewIndex, a[..]);
      var newId;
      if oldIndex in oldIndexToNewIndex {
        newId := oldIndexToNewIndex[oldIndex];
      } else {
        newId := |positionsToCopy|;
        oldIndexToNewIndex := oldIndexToNewIndex[oldIndex := newId];
        positionsToCopy := positionsToCopy + [oldIndex];
      }
      a[i] := newId;
      i := i + 1;
    }
    newIds := a[..];
    RenumberingDone(m, positionsToCopy, oldIndexToNewIndex, newIds);
  }

  /**
   * The state of compact's renumbering loop after the first i ids of m: the ids chosen for
   * copying, the map from each to its place among them, and the new ids written so far.
   */
  ghost predicate Renumbering(m: seq<int>, i: nat, toCopy: seq<int>, index: map<int, int>, ids: seq<int>)
  {
    i <= |m| && |ids| == |m| && toCopy == Distinct(m[..i]) && IndexesOf(index, toCopy)
    && forall j :: 0 <= j < i ==> m[j] in index && ids[j] == index[m[j]]
  }

  lemma RenumberingStep(m: seq<int>, i: nat, toCopy: seq<int>, index: map<int, int>, ids: seq<int>)
    requires Renumbering(m, i, toCopy, index, ids) && i < |m|
    ensures m[i] in index ==> Renumbering(m, i + 1, toCopy, index, ids[i := index[m[i]]])
    ensures m[i] !in index ==>
              Renumbering(m, i + 1, toCopy + [m[i]], index[m[i] := |toCopy|], ids[i := |toCopy|])
  {
    assert m[..i + 1] == m[..i] + [m[i]];
    DistinctStep(m[..i], m[i]);
    if m[i] in index {
      RenumberingSeen(m, i, toCopy, index, ids);
    } else {
      IndexesOfStep(index, toCopy, m[i]);
      RenumberingNew(m, i, toCopy, index, ids);
    }
  }

  lemma RenumberingSeen(m: seq<int>, i: nat, toCopy: seq<int>, index: map<int, int>, ids: seq<int>)
    requires Renumbering(m, i, toCopy, index, ids) && i < |m| && m[i] in index
    requires Distinct(m[..i + 1]) == toCopy
    ensures Renumbering(m, i + 1, toCopy, index, ids[i := index[m[i]]])
  {
  }

  lemma RenumberingNew(m: seq<int>, i: nat, toCopy: seq<int>, index: map<int, int>, ids: seq<int>)
    requires Renumbering(m, i, toCopy, index, ids) && i < |m| && m[i] !in index
    requires Distinct(m[..i + 1]) == toCopy + [m[i]] && IndexesOf(index[m[i] := |toCopy|], toCopy + [m[i]])
    ensures Renumbering(m, i + 1, toCopy + [m[i]], index[m[i] := |toCopy|], ids[i := |toCopy|])
  {
  }


  lemma RenumberingDone(m: seq<int>, toCopy: seq<int>, index: map<int, int>, ids: seq<int>)
    requires Renumbering(m, |m|, toCopy, index, ids)
    ensures toCopy == Distinct(m) && ids == Renumbered(m)
  {
    assert m[..|m|] == m;
    forall j | 0 <= j < |m| ensures ids[j] == Renumbered(m)[j] {
      IndexesOfAt(index, toCopy, m, j);
    }
  }

  /** An id's place in the copy list is the rank Renumbered gives it. */
  lemma IndexesOfAt(index: map<int, int>, toCopy: seq<int>, m: seq<int>, j: nat)
    requires toCopy == Distinct(m) && IndexesOf(index, toCopy) && j < |m| && m[j] in index
    ensures index[m[j]] == Renumbered(m)[j]
  {
    DistinctFacts(m);
    IndexOfUnique(toCopy, m[j], index[m[j]]);
  }




  /**
   * copyPositions of a dictionary block: the positions are checked and mapped to dictionary
   * ids, then copied from the dictionary directly or, when they repeat entries, compacted.
   */
  method CopyDictionaryPositions(b: Block, positions: seq<int>, offset: int, length: int, freshId: nat)
    returns (r: Result<Block, BlockError>)
    requires b.Dict? && Valid(b)
    ensures !(0 <= offset && 0 <= length && offset + length <= |positions|) ==> r == Err(IndexOutOfBounds)
    ensures r.Ok? <==> 0 <= offset && 0 <= length && offset + length <= |positions|
                       && forall i :: offset <= i < offset + length ==> 0 <= positions[i] < b.positionCount
    ensures r.Err? && 0 <= offset && 0 <= length && offset + length <= |positions| ==>
              r.error == IllegalArgument("Invalid position in block")
    ensures r.Ok? ==> r.value == Blocks.CopyPositions(b, positions[offset .. offset + length], freshId)
  {
    if !(0 <= offset && 0 <= length && offset + length <= |positions|) {
      return Err(IndexOutOfBounds);
    }
    var mapped := MapPositions(b, positions, offset, length);
    if mapped.Err? {
      return Err(mapped.error);
    }
    var m := mapped.value;
    ghost var ps := positions[offset .. offset + length];
    DictCopyPositionsCases(b, ps, freshId);
    var uniqueIds := RawUniqueIds(b);
    if length <= 1 || b.dictionary.Dict? || uniqueIds == b.positionCount {
      return Ok(Blocks.CopyPositions(b.dictionary, m, freshId));
    }
    var copied := CopyRenumbered(b.dictionary, m, freshId);
    return Ok(copied);
  }

  /**
   * copyRegion of a dictionary block (with the first id read only when the region is not
   * empty): a region of the dictionary when the ids are 0, 1, 2, ..., else the region's
   * dictionary entries copied directly or compacted.
   */
  method CopyDictionaryRegion(b: Block, position: int, length: int, freshId: nat) returns (r: Result<Block, BlockError>)
    requires b.Dict? && Valid(b)
    ensures !ValidRegion(b.positionCount, position, length) ==> r == Err(IndexOutOfBounds)
    ensures SameOutcome(r, BlockOps.CopyRegion(b, position, length, freshId))
  {
    if !ValidRegion(b.positionCount, position, length) {
      return Err(IndexOutOfBounds);
    }
    assert BlockOps.CopyRegion(b, position, length, freshId) == DictCopyRegion(b, position, length, freshId);
    var uniqueIds := RawUniqueIds(b);
    var isSequentialIds := RawSequentialIds(b);
    var dictionary := b.dictionary;
    if length <= 1 || (uniqueIds == PositionCount(dictionary) && isSequentialIds) {
      var first := if position == b.positionCount then 0 else b.ids[b.idsOffset + position];
      return BlockOps.CopyRegion(dictionary, first, length, freshId);
    }
    if dictionary.Dict? || uniqueIds == b.positionCount {
      return Ok(Blocks.CopyPositions(dictionary, RegionIds(b, position, length), freshId));
    }
    var compacted := CompactRegion(b, position, length, freshId);
    return Ok(compacted);
  }

  /**
   * The second strategy of copyPositions: the referenced entries gathered once in
   * first-occurrence order; the gathered block itself when no entry repeats, otherwise a
   * compacted dictionary block over it.
   */
  method CopyRenumbered(dictionary: Block, m: seq<int>, freshId: nat) returns (r: Block)
    requires Valid(dictionary) && !dictionary.Dict? && forall i :: 0 <= i < |m| ==> 0 <= m[i] < PositionCount(dictionary)
    ensures (DistinctBounded(m, PositionCount(dictionary));
             |Distinct(m)| == |m| ==> r == Blocks.CopyPositions(dictionary, Distinct(m), freshId))
    ensures (DistinctBounded(m, PositionCount(dictionary));
             |Distinct(m)| != |m| ==> r == RenumberedDictionary(m, Blocks.CopyPositions(dictionary, Distinct(m), freshId), freshId))
  {
    var positionsToCopy, newIds := RenumberIds(m);
    DistinctBounded(m, PositionCount(dictionary));
    var compactDictionary := Blocks.CopyPositions(dictionary, positionsToCopy, freshId);
    if |positionsToCopy| == |m| {
      return compactDictionary;
    }
    CopyPositionsKind(dictionary, positionsToCopy, freshId);
    RenumberedFacts(m);
    var block := new DictionaryBlock(0, |m|, compactDictionary, newIds, true, false, freshId);
    return block.Model();
  }

  /**
   * The rest of getPositions, given whether the block is compact and the selection at least
   * as long as its dictionary: the new ids, and whether they reference every entry again.
   */
  method PositionsBlock(b: Block, positions: seq<int>, offset: nat, length: nat, compactBlock: bool)
    returns (r: Result<DictionaryBlock, BlockError>)
    requires b.Dict? && Valid(b) && offset + length <= |positions|
    requires compactBlock == (length >= PositionCount(b.dictionary) && Blocks.IsCompact(b))
    ensures r.Ok? == BlockOps.GetPositions(b, positions, offset, length).Ok?
    ensures r.Err? ==> r.error == BlockOps.GetPositions(b, positions, offset, length).error
    ensures r.Ok? ==> fresh(r.value) && r.value.Valid() && r.value.Model() == BlockOps.GetPositions(b, positions, offset, length).value
  {
    var dictionaryCount := PositionCount(b.dictionary);
    var mapped := MapPositions(b, positions, offset, length);
    if mapped.Err? {
      return Err(mapped.error);
    }
    var newIds := mapped.value;
    var isCompact := compactBlock;
    if isCompact {
      isCompact := AllReferenced(newIds, dictionaryCount);
    }
    GetPositionsOk(b, positions, offset, length, newIds, isCompact);
    var block := new DictionaryBlock(0, length, b.dictionary, newIds, isCompact, false, b.sourceId);
    return Ok(block);
  }

  /**
   * The block compact builds: a copy of the referenced entries in first-occurrence order,
   * the renumbered ids, marked compacted, and sequential when no id repeats.
   */
  method NewCompacted(b: Block, toCopy: seq<int>, newIds: seq<int>, sequential: bool, freshId: nat) returns (r: DictionaryBlock)
    requires b.Dict? && Valid(b) && !b.dictionary.Dict?
    requires toCopy == Distinct(IdsWindow(b)) && newIds == Renumbered(IdsWindow(b))
    requires sequential == (UniqueIds(b) == b.positionCount)
    ensures fresh(r) && r.Valid() && r.Model() == CompactedBlock(b, freshId)
  {
    var w := IdsWindow(b);
    DistinctBounded(w, PositionCount(b.dictionary));
    CopyPositionsKind(b.dictionary, toCopy, freshId);
    var compactDictionary := Blocks.CopyPositions(b.dictionary, toCopy, freshId);
    RenumberedFacts(w);
    r := new DictionaryBlock(0, b.positionCount, compactDictionary, newIds, true, sequential, freshId);
  }

  /**
   * The last strategy of copyRegion: a new dictionary block over a copy of the region's ids,
   * compacted.
   */
  method CompactRegion(b: Block, position: nat, length: nat, freshId: nat) returns (r: Block)
    requires b.Dict? && Valid(b) && position + length <= b.positionCount
    ensures Uncached(r) == Uncached(BlockOps.Compact(Dict(0, length, b.dictionary, RegionIds(b, position, length), freshId, Unknown), freshId))
  {
    var newIds := RegionIds(b, position, length);
    var block := new DictionaryBlock(0, length, b.dictionary, newIds, false, false, freshId);
    var compacted := block.Compact(freshId);
    return compacted.Model();
  }

  /**
   * The id lookups of copyPositions and getPositions: the ids of
   * positions[offset .. offset + length], failing at the first position out of range.
   */
  method MapPositions(b: Block, positions: seq<int>, offset: nat, length: nat) returns (r: Result<seq<int>, BlockError>)
    requires b.Dict? && Valid(b) && offset + length <= |positions|
    ensures r.Ok? <==> forall i :: offset <= i < offset + length ==> 0 <= positions[i] < b.positionCount
    ensures r.Err? ==> r.error == IllegalArgument("Invalid position in block")
    ensures r.Ok? ==> (forall i :: offset <= i < offset + length ==> 0 <= positions[i] < b.positionCount)
                      && r.value == MappedIds(b, positions[offset .. offset + length])
  {
    var ps := positions[offset .. offset + length];
    var a := new int[length];
    var i := 0;
    while i < length
      invariant 0 <= i <= length
      invariant forall j :: 0 <= j < i ==> 0 <= ps[j] < b.positionCount && a[j] == b.ids[b.idsOffset + ps[j]]
    {
      var id := GetId(b, positions[offset + i]);
      if id.Err? {
        return Err(id.error);
      }
      a[i] := id.value;
      i := i + 1;
    }
    r := Ok(a[..]);
    assert forall j :: offset <= j < offset + length ==> positions[j] == ps[j - offset];
  }

  /** The last loop of getPositions: whether every dictionary entry is referenced. */
  method AllReferenced(newIds: seq<int>, dictionaryCount: nat) returns (all: bool)
    requires forall i :: 0 <= i < |newIds| ==> 0 <= newIds[i] < dictionaryCount
    ensures all == ReferencesAll(newIds, dictionaryCount)
  {
    var seen := new bool[dictionaryCount](_ => false);
    var i := 0;
    while i < |newIds|
      invariant 0 <= i <= |newIds|
      invariant forall x :: 0 <= x < dictionaryCount ==> (seen[x] <==> x in newIds[..i])
    {
      assert newIds[..i + 1] == newIds[..i] + [newIds[i]];
      seen[newIds[i]] := true;
      i := i + 1;
    }
    assert newIds[..i] == newIds;
    all := true;
    var x := 0;
    while x < dictionaryCount && all
      invariant 0 <= x <= dictionaryCount
      invariant all == forall y :: 0 <= y < x ==> y in newIds
    {
      all := all && seen[x];
      x := x + 1;
    }
  }

  /** The mask of every referenced entry is the ids mask of the whole window. */
  lemma AllIdsMask(b: Block, used: seq<bool>)
    requires b.Dict? && Valid(b) && |used| == PositionCount(b.dictionary)
    requires forall x :: 0 <= x < |used| ==> (used[x] <==> x in IdsWindow(b))
    ensures used == IdsMask(b, AllTrue(b.positionCount))
  {
    var m := IdsMask(b, AllTrue(b.positionCount));
    forall x | 0 <= x < |used| ensures used[x] == m[x] {
      if used[x] {
        var i :| 0 <= i < |IdsWindow(b)| && IdsWindow(b)[i] == x;
        assert AllTrue(b.positionCount)[i];
      }
    }
  }
}
