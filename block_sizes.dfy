/**
 * The size accounting of DictionaryBlock and AbstractArrayBlock: getSizeInBytes (through
 * calculateCompactSize), getRegionSizeInBytes, getPositionsSizeInBytes, the compacted-dictionary
 * sizes of nested dictionaries, getLogicalSizeInBytes and getEstimatedDataSizeForStats.
 * A leaf block's size is the sum of the abstract per-position sizes it carries.
 */
module BlockSizes {
  import opened Wrappers
  import opened Blocks
  import opened BlockOps

  /** Integer.BYTES: the bytes of one dictionary id. */
  const IdBytes: nat := 4

  /** Integer.BYTES + Byte.BYTES: the offset and null flag of one array entry. */
  const EntryBytes: nat := 5

  // ---------------------------------------------------------------------------
  // Sums and masks

  function Sum(xs: seq<nat>): nat
  {
    if xs == [] then 0 else Sum(xs[..|xs| - 1]) + xs[|xs| - 1]
  }

  /** The sum of the sizes whose flag is set. */
  function SelectedSum(sizes: seq<nat>, used: seq<bool>): nat
    requires |used| == |sizes|
  {
    if sizes == [] then 0
    else SelectedSum(sizes[..|sizes| - 1], used[..|used| - 1]) + (if used[|used| - 1] then sizes[|sizes| - 1] else 0)
  }

  /** countUsedPositions: the number of flags set. */
  function CountTrue(used: seq<bool>): nat
  {
    if used == [] then 0 else CountTrue(used[..|used| - 1]) + (if used[|used| - 1] then 1 else 0)
  }

  function AllTrue(n: nat): (m: seq<bool>)
    ensures |m| == n && forall i :: 0 <= i < n ==> m[i]
  {
    seq(n, i => true)
  }

  /** The flags of the positions [start, start + length). */
  function RegionMask(n: nat, start: nat, length: nat): (m: seq<bool>)
    ensures |m| == n && forall i :: 0 <= i < n ==> (m[i] <==> start <= i < start + length)
  {
    seq(n, i => start <= i < start + length)
  }

  /** The dictionary entries that the selected positions of a dictionary block reference. */
  function IdsMask(b: Block, selected: seq<bool>): (m: seq<bool>)
    requires b.Dict? && Valid(b) && |selected| == b.positionCount
    ensures |m| == PositionCount(b.dictionary)
    ensures forall x :: 0 <= x < |m| ==>
              (m[x] <==> exists i :: 0 <= i < |selected| && selected[i] && IdsWindow(b)[i] == x)
  {
    var w := IdsWindow(b);
    seq(PositionCount(b.dictionary), x => exists i :: 0 <= i < |selected| && selected[i] && w[i] == x)
  }

  /** The raw elements that the selected entries of an array block cover. */
  function ElementMask(b: Block, selected: seq<bool>): (m: seq<bool>)
    requires b.Arr? && Valid(b) && |selected| == b.positionCount
    ensures |m| == PositionCount(b.raw)
    ensures forall j :: 0 <= j < |m| ==>
              (m[j] <==> exists i :: 0 <= i < |selected| && selected[i] && Start(b, i) <= j < Start(b, i + 1))
  {
    seq(PositionCount(b.raw), j => exists i :: 0 <= i < |selected| && selected[i] && Start(b, i) <= j < Start(b, i + 1))
  }

  // ---------------------------------------------------------------------------
  // Sizes

  /** The bytes a block spends on each position besides its data: an id, or an offset and a null flag. */
  function PerPositionBytes(b: Block): nat
  {
    match b
    case Flat(_, _, _) => 0
    case Dict(_, _, _, _, _, _) => IdBytes
    case Arr(_, _, _, _, _) => EntryBytes
  }

  /**
   * getPositionsSizeInBytes(used): the size of the selected positions.  A dictionary block
   * counts the referenced dictionary entries once and four bytes per selected id; an array
   * block counts the covered raw elements once and five bytes per selected entry.
   */
  function PositionsSize(b: Block, used: seq<bool>): (r: nat)
    requires Valid(b) && |used| == PositionCount(b)
    ensures r >= PerPositionBytes(b) * CountTrue(used)
    decreases b, 0
  {
    match b
    case Flat(_, _, sizes) => SelectedSum(sizes, used)
    case Dict(_, _, d, _, _, _) => PositionsSize(d, IdsMask(b, used)) + IdBytes * CountTrue(used)
    case Arr(_, _, _, _, raw) => PositionsSize(raw, ElementMask(b, used)) + EntryBytes * CountTrue(used)
  }

  /**
   * getCompactedDictionaryPositionsSizeInBytes: the size of the entries that the selected
   * positions reference, resolved through every nested dictionary.
   */
  function CompactedPositionsSize(b: Block, used: seq<bool>): nat
    requires b.Dict? && Valid(b) && |used| == b.positionCount
    decreases b, 0
  {
    var mask := IdsMask(b, used);
    if b.dictionary.Dict? then CompactedPositionsSize(b.dictionary, mask)
    else PositionsSize(b.dictionary, mask)
  }

  /**
   * calculateCompactSize's size: the size of the referenced dictionary entries (the whole
   * dictionary's size when every entry is referenced; for a nested dictionary, its compacted
   * size) plus four bytes per position.
   */
  function CompactSize(b: Block): (r: nat)
    requires b.Dict? && Valid(b)
    ensures r >= IdBytes * b.positionCount
    decreases b, 0
  {
    var d := b.dictionary;
    var used := IdsMask(b, AllTrue(b.positionCount));
    var unique := |Distinct(IdsWindow(b))|;
    var dictionarySize :=
      if d.Dict? then (if unique == PositionCount(d) then CompactedDictionarySize(d) else CompactedPositionsSize(d, used))
      else (if unique == PositionCount(d) then SizeInBytes(d) else PositionsSize(d, used));
    dictionarySize + IdBytes * b.positionCount
  }

  /** getCompactedDictionarySizeInBytes: the size without the ids. */
  function CompactedDictionarySize(b: Block): (r: nat)
    requires b.Dict? && Valid(b)
    ensures r + IdBytes * b.positionCount == SizeInBytes(b)
    decreases b, 2
  {
    SizeInBytes(b) - IdBytes * b.positionCount
  }

  /**
   * getSizeInBytes.  A dictionary block built with the compacted flag has its size filled in
   * by the constructor; otherwise it is calculateCompactSize's.  An array block's size is
   * that of its whole region.
   */
  function SizeInBytes(b: Block): (r: nat)
    requires Valid(b)
    ensures b.Dict? ==> r >= IdBytes * b.positionCount
    decreases b, if b.Arr? then 2 else 1
  {
    match b
    case Flat(_, _, sizes) => Sum(sizes)
    case Dict(_, n, d, _, _, stats) => if stats.Compacted? then SizeInBytes(d) + IdBytes * n else CompactSize(b)
    case Arr(_, n, _, _, _) => RegionSize(b, 0, n)
  }

  /**
   * getRegionSizeInBytes, for a valid region.  A dictionary block answers its cached size for
   * the whole block, otherwise the size of the entries the region references plus four bytes
   * per position; an array block answers the size of the elements' region plus five bytes
   * per entry.
   */
  function RegionSize(b: Block, position: nat, length: nat): (r: nat)
    requires Valid(b) && position + length <= PositionCount(b)
    ensures r >= PerPositionBytes(b) * length
    decreases b, if b.Dict? then 2 else 1
  {
    match b
    case Flat(_, _, sizes) => Sum(sizes[position .. position + length])
    case Dict(_, n, d, _, _, _) =>
      if position == 0 && length == n then SizeInBytes(b)
      else PositionsSize(d, IdsMask(b, RegionMask(n, position, length))) + IdBytes * length
    case Arr(_, _, _, _, raw) =>
      var start := Start(b, position);
      RegionSize(raw, start, Start(b, position + length) - start) + EntryBytes * length
  }

  /** getLogicalSizeInBytes of a dictionary block: the size of each position's own entry, summed. */
  function LogicalSize(b: Block): nat
    requires b.Dict? && Valid(b)
  {
    LogicalSizeUpTo(b, b.positionCount)
  }

  /** The logical size of the first k positions. */
  function LogicalSizeUpTo(b: Block, k: nat): nat
    requires b.Dict? && Valid(b) && k <= b.positionCount
  {
    if k == 0 then 0 else LogicalSizeUpTo(b, k - 1) + RegionSize(b.dictionary, IdsWindow(b)[k - 1], 1)
  }

  /** calculateCompactSize's size depends on the ids and the dictionary only, not on the cached statistics. */
  lemma CompactSizeStats(b: Block, stats: Stats)
    requires b.Dict? && Valid(b)
    ensures Valid(b.(stats := stats)) && CompactSize(b.(stats := stats)) == CompactSize(b)
  {
    assert IdsWindow(b.(stats := stats)) == IdsWindow(b);
    assert IdsMask(b.(stats := stats), AllTrue(b.positionCount)) == IdsMask(b, AllTrue(b.positionCount));
  }

  /** The logical size depends on the ids and the dictionary only, not on the cached statistics. */
  lemma {:induction false} LogicalSizeUpToStats(b: Block, stats: Stats, k: nat)
    requires b.Dict? && Valid(b) && k <= b.positionCount
    ensures Valid(b.(stats := stats)) && LogicalSizeUpTo(b.(stats := stats), k) == LogicalSizeUpTo(b, k)
  {
    if k > 0 {
      LogicalSizeUpToStats(b, stats, k - 1);
    }
  }

  /**
   * getEstimatedDataSizeForStats of a valid position: 0 for a null entry, the entry's size for
   * a leaf, the referenced entry's for a dictionary, and the sum over the elements for an array.
   */
  function EstimatedDataSize(b: Block, position: nat): nat
    requires Valid(b) && position < PositionCount(b)
    decreases b, 0, 0
  {
    match b
    case Flat(_, values, sizes) => if values[position].None? then 0 else sizes[position]
    case Dict(off, _, d, ids, _, _) => EstimatedDataSize(d, ids[off + position])
    case Arr(_, _, _, _, raw) =>
      if ArrNull(b, position) then 0 else ElementsDataSize(raw, Start(b, position), Length(b, position))
  }

  /** The estimated data sizes of the positions [start, start + length), summed. */
  function ElementsDataSize(b: Block, start: nat, length: nat): nat
    requires Valid(b) && start + length <= PositionCount(b)
    decreases b, 1, length
  {
    if length == 0 then 0 else ElementsDataSize(b, start, length - 1) + EstimatedDataSize(b, start + length - 1)
  }

  // ---------------------------------------------------------------------------
  // Checked entry points

  /** getPositionsSizeInBytes with checkValidPositions: the flags must cover the block exactly. */
  function GetPositionsSizeInBytes(b: Block, positions: seq<bool>): (r: Result<nat, BlockError>)
    requires Valid(b) && !b.Flat?
    ensures r.Ok? <==> |positions| == PositionCount(b)
    ensures r.Ok? ==> r.value == PositionsSize(b, positions)
    ensures r.Err? ==> r.error.IllegalArgument?
  {
    if |positions| != PositionCount(b) then Err(IllegalArgument("Invalid positions array size"))
    else Ok(PositionsSize(b, positions))
  }

  /**
   * getRegionSizeInBytes with checkValidRegion, as AbstractArrayBlock checks it; the dictionary
   * case is corrected to check the same way (see RegionSizeAsWritten).
   */
  function GetRegionSizeInBytes(b: Block, position: int, length: int): (r: Result<nat, BlockError>)
    requires Valid(b) && !b.Flat?
    ensures r.Ok? <==> ValidRegion(PositionCount(b), position, length)
    ensures r.Err? ==> r.error == IndexOutOfBounds
    ensures r.Ok? ==> r.value == RegionSize(b, position, length)
  {
    if !ValidRegion(PositionCount(b), position, length) then Err(IndexOutOfBounds)
    else Ok(RegionSize(b, position, length))
  }

  /**
   * DictionaryBlock.getRegionSizeInBytes as written: no checkValidRegion; only the getId calls
   * of the loop check positions, and a loop that does not run lets a negative length through
   * into the result.
   */
  function RegionSizeAsWritten(b: Block, position: int, length: int): (r: Result<int, BlockError>)
    requires b.Dict? && Valid(b)
    ensures ValidRegion(b.positionCount, position, length) ==> r == Ok(RegionSize(b, position, length) as int)
    ensures length < 0 ==> r == Ok(IdBytes * length)
    ensures 0 < length && !ValidRegion(b.positionCount, position, length) ==> r == Err(IllegalArgument("Invalid position in block"))
  {
    var n := b.positionCount;
    if ValidRegion(n, position, length) then Ok(RegionSize(b, position, length))
    else if length <= 0 then
      PositionsSizeNone(b.dictionary, IdsMask(b, RegionMask(n, 0, 0)));
      Ok(PositionsSize(b.dictionary, IdsMask(b, RegionMask(n, 0, 0))) + IdBytes * length)
    else Err(IllegalArgument("Invalid position in block"))
  }

  /** getRegionSizeInBytes(0, -1) of a one-position dictionary block answers -4 as written. */
  lemma NegativeRegionSize()
    ensures !ValidRegion(PositionCount(OnePositionDictionary()), 0, -1)
    ensures RegionSizeAsWritten(OnePositionDictionary(), 0, -1) == Ok(-4)
    ensures GetRegionSizeInBytes(OnePositionDictionary(), 0, -1) == Err(IndexOutOfBounds)
  {
  }

  /** getEstimatedDataSizeForStats with the position checks of getId and checkReadablePosition. */
  function GetEstimatedDataSizeForStats(b: Block, position: int): (r: Result<nat, BlockError>)
    requires Valid(b) && !b.Flat?
    ensures r.Ok? <==> 0 <= position < PositionCount(b)
    ensures r.Ok? ==> r.value == EstimatedDataSize(b, position)
    ensures b.Arr? && r.Err? ==> r.error == IllegalArgument("position is not valid")
  {
    if !(0 <= position < PositionCount(b)) then
      if b.Arr? then Err(IllegalArgument("position is not valid")) else Err(IllegalArgument("Invalid position in block"))
    else Ok(EstimatedDataSize(b, position))
  }

  // ---------------------------------------------------------------------------
  // Properties

  /** No selected position has no size. */
  lemma {:induction false} PositionsSizeNone(b: Block, used: seq<bool>)
    requires Valid(b) && |used| == PositionCount(b) && forall i :: 0 <= i < |used| ==> !used[i]
    ensures PositionsSize(b, used) == 0
    decreases b
  {
    match b
    case Flat(_, _, sizes) => SelectedSumNone(sizes, used);
    case Dict(_, _, d, _, _, _) =>
      CountTrueNone(used);
      PositionsSizeNone(d, IdsMask(b, used));
    case Arr(_, _, _, _, raw) =>
      CountTrueNone(used);
      PositionsSizeNone(raw, ElementMask(b, used));
  }

  lemma {:induction false} SelectedSumNone(sizes: seq<nat>, used: seq<bool>)
    requires |used| == |sizes| && forall i :: 0 <= i < |used| ==> !used[i]
    ensures SelectedSum(sizes, used) == 0
    decreases |sizes|
  {
    if sizes != [] {
      SelectedSumNone(sizes[..|sizes| - 1], used[..|used| - 1]);
    }
  }

  lemma {:induction false} CountTrueNone(used: seq<bool>)
    requires forall i :: 0 <= i < |used| ==> !used[i]
    ensures CountTrue(used) == 0
    decreases |used|
  {
    if used != [] {
      CountTrueNone(used[..|used| - 1]);
    }
  }

  /** Selecting more positions never makes getPositionsSizeInBytes smaller. */
  lemma {:induction false} PositionsSizeMonotone(b: Block, fewer: seq<bool>, more: seq<bool>)
    requires Valid(b) && |fewer| == PositionCount(b) && |more| == PositionCount(b)
    requires forall i :: 0 <= i < |fewer| ==> fewer[i] ==> more[i]
    ensures PositionsSize(b, fewer) <= PositionsSize(b, more)
    decreases b
  {
    match b
    case Flat(_, _, sizes) => SelectedSumMonotone(sizes, fewer, more);
    case Dict(_, _, d, _, _, _) =>
      CountTrueMonotone(fewer, more);
      IdsMaskMonotone(b, fewer, more);
      PositionsSizeMonotone(d, IdsMask(b, fewer), IdsMask(b, more));
    case Arr(_, _, _, _, raw) =>
      CountTrueMonotone(fewer, more);
      ElementMaskMonotone(b, fewer, more);
      PositionsSizeMonotone(raw, ElementMask(b, fewer), ElementMask(b, more));
  }

  lemma IdsMaskMonotone(b: Block, fewer: seq<bool>, more: seq<bool>)
    requires b.Dict? && Valid(b) && |fewer| == b.positionCount && |more| == b.positionCount
    requires forall i :: 0 <= i < |fewer| ==> fewer[i] ==> more[i]
    ensures forall x :: 0 <= x < PositionCount(b.dictionary) ==> IdsMask(b, fewer)[x] ==> IdsMask(b, more)[x]
  {
    forall x | 0 <= x < PositionCount(b.dictionary) && IdsMask(b, fewer)[x] ensures IdsMask(b, more)[x] {
      var i :| 0 <= i < |fewer| && fewer[i] && IdsWindow(b)[i] == x;
      assert more[i];
    }
  }

  lemma ElementMaskMonotone(b: Block, fewer: seq<bool>, more: seq<bool>)
    requires b.Arr? && Valid(b) && |fewer| == b.positionCount && |more| == b.positionCount
    requires forall i :: 0 <= i < |fewer| ==> fewer[i] ==> more[i]
    ensures forall j :: 0 <= j < PositionCount(b.raw) ==> ElementMask(b, fewer)[j] ==> ElementMask(b, more)[j]
  {
    forall j | 0 <= j < PositionCount(b.raw) && ElementMask(b, fewer)[j] ensures ElementMask(b, more)[j] {
      var i :| 0 <= i < |fewer| && fewer[i] && Start(b, i) <= j < Start(b, i + 1);
      assert more[i];
    }
  }

  lemma {:induction false} SelectedSumMonotone(sizes: seq<nat>, fewer: seq<bool>, more: seq<bool>)
    requires |fewer| == |sizes| && |more| == |sizes|
    requires forall i :: 0 <= i < |fewer| ==> fewer[i] ==> more[i]
    ensures SelectedSum(sizes, fewer) <= SelectedSum(sizes, more)
    decreases |sizes|
  {
    if sizes != [] {
      SelectedSumMonotone(sizes[..|sizes| - 1], fewer[..|fewer| - 1], more[..|more| - 1]);
    }
  }

  lemma {:induction false} CountTrueMonotone(fewer: seq<bool>, more: seq<bool>)
    requires |fewer| == |more| && forall i :: 0 <= i < |fewer| ==> fewer[i] ==> more[i]
    ensures CountTrue(fewer) <= CountTrue(more)
    decreases |fewer|
  {
    if fewer != [] {
      CountTrueMonotone(fewer[..|fewer| - 1], more[..|more| - 1]);
    }
  }

  /** The region size of the whole block is its size. */
  lemma WholeRegionSize(b: Block)
    requires Valid(b)
    ensures RegionSize(b, 0, PositionCount(b)) == SizeInBytes(b)
  {
    if b.Flat? {
      assert b.sizes[0 .. |b.sizes|] == b.sizes;
    }
  }

  /**
   * For truthful statistics the size the compacted-flag constructor fills in is the size
   * calculateCompactSize would compute.
   */
  lemma HonestSizeInBytes(b: Block)
    requires b.Dict? && Valid(b) && Honest(b)
    ensures SizeInBytes(b) == CompactSize(b)
  {
  }

  /** A null position has estimated data size 0. */
  lemma {:induction false} NullHasNoDataSize(b: Block, position: nat)
    requires Valid(b) && position < PositionCount(b) && ValueAt(b, position) == Null
    ensures EstimatedDataSize(b, position) == 0
    decreases b
  {
    if b.Dict? {
      NullHasNoDataSize(b.dictionary, b.ids[b.idsOffset + position]);
    }
  }

  /** When every entry of a leaf dictionary is referenced, calculateCompactSize counts the whole dictionary. */
  lemma CompactSizeOfCompact(b: Block)
    requires b.Dict? && Valid(b) && !b.dictionary.Dict? && ReferencesAll(IdsWindow(b), PositionCount(b.dictionary))
    ensures CompactSize(b) == SizeInBytes(b.dictionary) + IdBytes * b.positionCount
  {
    DistinctCount(IdsWindow(b), PositionCount(b.dictionary));
  }
}
