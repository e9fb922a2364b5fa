/**
 * The loops of AbstractArrayBlock: copyPositions (the new offsets, the new null flags and the
 * element indices gathered in one pass), getPositionsSizeInBytes (the `used` bitmap over the
 * raw elements) and getEstimatedDataSizeForStats (the sum over an entry's elements).  Each is
 * a method over an array block value, proved against the functions of Blocks and BlockSizes.
 */
module ArrayBlocks {
  import opened Wrappers
  import opened Blocks
  import opened BlockOps
  import opened BlockSizes

  // ---------------------------------------------------------------------------
  // copyPositions

  predicate ValidPositions(b: Block, ps: seq<int>)
    requires b.Arr?
  {
    forall k :: 0 <= k < |ps| ==> 0 <= ps[k] < b.positionCount
  }

  /** The offsets of one more copied entry follow the last one by its entry length. */
  lemma OffsetsSnoc(b: Block, q: seq<int>)
    requires b.Arr? && Valid(b) && ValidPositions(b, q) && q != []
    ensures NewOffsets(b, q) == NewOffsets(b, q[..|q| - 1]) + [NewOffsets(b, q[..|q| - 1])[|q| - 1] + EntryLength(b, q[|q| - 1])]
  {
    assert forall k :: 0 <= k < |q| ==> 0 <= q[k] < b.positionCount;
  }

  /** The elements of one more copied entry are appended after the others. */
  lemma PositionsSnoc(b: Block, q: seq<int>)
    requires b.Arr? && Valid(b) && ValidPositions(b, q) && q != []
    ensures ElementPositions(b, q) == ElementPositions(b, q[..|q| - 1]) +
              (if ArrNull(b, q[|q| - 1]) then [] else Range(Start(b, q[|q| - 1]), Length(b, q[|q| - 1])))
  {
    assert forall k :: 0 <= k < |q| ==> 0 <= q[k] < b.positionCount;
  }

  lemma RangeSnoc(a: int, n: nat)
    ensures Range(a, n + 1) == Range(a, n) + [a + n]
  {
    assert Range(a, n + 1)[n] == a + n;
  }

  /** The first i + 1 new offsets are those of the first i selected positions. */
  ghost predicate OffsetsUpTo(b: Block, ps: seq<int>, i: nat, offs: seq<int>)
    requires b.Arr? && Valid(b) && i <= |ps|
  {
    ValidPositions(b, ps[..i]) && |offs| == |ps| + 1 && offs[..i + 1] == NewOffsets(b, ps[..i])
  }

  /** The first i null flags are those of the selected entries; the others are still false. */
  ghost predicate NullsUpTo(b: Block, ps: seq<int>, i: nat, nulls: seq<bool>, hasNulls: bool)
    requires b.Arr? && Valid(b) && i <= |ps| && ValidPositions(b, ps[..i])
  {
    && hasNulls == b.valueIsNull.Some?
    && |nulls| == (if hasNulls then |ps| else 0)
    && (hasNulls ==> forall k :: 0 <= k < i ==> nulls[k] == ArrNull(b, ps[..i][k]))
    && (hasNulls ==> forall k :: i <= k < |ps| ==> !nulls[k])
  }

  lemma ValidStep(b: Block, ps: seq<int>, i: nat)
    requires b.Arr? && i < |ps| && ValidPositions(b, ps[..i]) && 0 <= ps[i] < b.positionCount
    ensures ValidPositions(b, ps[..i + 1])
  {
    assert forall k :: 0 <= k < i ==> ps[..i + 1][k] == ps[..i][k];
  }

  lemma OffsetsStep(b: Block, ps: seq<int>, i: nat, offs: seq<int>)
    requires b.Arr? && Valid(b) && i < |ps| && OffsetsUpTo(b, ps, i, offs)
    requires ValidPositions(b, ps[..i + 1])
    ensures OffsetsUpTo(b, ps, i + 1, offs[i + 1 := offs[i] + EntryLength(b, ps[i])])
  {
    var q := ps[..i + 1];
    assert q[..i] == ps[..i] && q[i] == ps[i];
    OffsetsSnoc(b, q);
    var o := offs[i + 1 := offs[i] + EntryLength(b, ps[i])];
    assert o[..i + 2] == offs[..i + 1] + [offs[i] + EntryLength(b, ps[i])];
  }

  lemma PositionsStep(b: Block, ps: seq<int>, i: nat)
    requires b.Arr? && Valid(b) && i < |ps| && ValidPositions(b, ps[..i + 1])
    ensures ValidPositions(b, ps[..i])
    ensures ElementPositions(b, ps[..i + 1]) == ElementPositions(b, ps[..i]) +
              (if ArrNull(b, ps[i]) then [] else Range(Start(b, ps[i]), Length(b, ps[i])))
  {
    var q := ps[..i + 1];
    assert q[..i] == ps[..i] && q[i] == ps[i];
    PositionsSnoc(b, q);
  }

  lemma NullsStep(b: Block, ps: seq<int>, i: nat, nulls: seq<bool>, hasNulls: bool)
    requires b.Arr? && Valid(b) && i < |ps| && ValidPositions(b, ps[..i + 1]) && ValidPositions(b, ps[..i])
    requires NullsUpTo(b, ps, i, nulls, hasNulls)
    ensures hasNulls && ArrNull(b, ps[i]) ==> NullsUpTo(b, ps, i + 1, nulls[i := true], hasNulls)
    ensures !(hasNulls && ArrNull(b, ps[i])) ==> NullsUpTo(b, ps, i + 1, nulls, hasNulls)
  {
    assert forall k :: 0 <= k < i ==> ps[..i + 1][k] == ps[..i][k];
    assert ps[..i + 1][i] == ps[i];
  }

  /** One iteration of the copyPositions loop keeps the loop state. */
  lemma LoopStep(b: Block, ps: seq<int>, i: nat, offs: seq<int>, nulls: seq<bool>, hasNulls: bool, vp: seq<int>)
    requires b.Arr? && Valid(b) && i < |ps| && 0 <= ps[i] < b.positionCount
    requires OffsetsUpTo(b, ps, i, offs) && NullsUpTo(b, ps, i, nulls, hasNulls) && vp == ElementPositions(b, ps[..i])
    ensures OffsetsUpTo(b, ps, i + 1, offs[i + 1 := offs[i] + EntryLength(b, ps[i])])
    ensures NullsUpTo(b, ps, i + 1, if ArrNull(b, ps[i]) then nulls[i := true] else nulls, hasNulls)
    ensures vp + (if ArrNull(b, ps[i]) then [] else Range(Start(b, ps[i]), Length(b, ps[i]))) == ElementPositions(b, ps[..i + 1])
  {
    ValidStep(b, ps, i);
    OffsetsStep(b, ps, i, offs);
    NullsStep(b, ps, i, nulls, hasNulls);
    PositionsStep(b, ps, i);
  }

  lemma InitialState(b: Block, ps: seq<int>, offs: seq<int>, nulls: seq<bool>, hasNulls: bool)
    requires b.Arr? && Valid(b) && |offs| == |ps| + 1 && offs[0] == 0
    requires hasNulls == b.valueIsNull.Some? && |nulls| == (if hasNulls then |ps| else 0)
    requires forall k :: 0 <= k < |nulls| ==> !nulls[k]
    ensures OffsetsUpTo(b, ps, 0, offs) && NullsUpTo(b, ps, 0, nulls, hasNulls)
    ensures ElementPositions(b, ps[..0]) == []
  {
    assert ps[..0] == [];
    assert offs[..1] == [0];
  }

  /** After the last position the loop state is the block CopiedArray describes. */
  lemma FinalState(b: Block, ps: seq<int>, offs: seq<int>, nulls: seq<bool>, hasNulls: bool, vp: seq<int>, freshId: nat)
    requires b.Arr? && Valid(b) && OffsetsUpTo(b, ps, |ps|, offs) && NullsUpTo(b, ps, |ps|, nulls, hasNulls)
    requires vp == ElementPositions(b, ps[..|ps|])
    ensures ValidPositions(b, ps) && vp == ElementPositions(b, ps)
    ensures forall j :: 0 <= j < |vp| ==> 0 <= vp[j] < PositionCount(b.raw)
    ensures Arr(0, |ps|, if hasNulls then Some(nulls) else None, offs, Blocks.CopyPositions(b.raw, vp, freshId))
            == Blocks.CopyPositions(b, ps, freshId)
  {
    assert ps[..|ps|] == ps;
    assert offs[..|ps| + 1] == offs;
    CopyPositionsOfArray(b, ps, freshId);
    if hasNulls {
      assert nulls == seq(|ps|, i requires 0 <= i < |ps| => ArrNull(b, ps[i]));
    }
  }

  /** The inner loop of copyPositions: the element indices [start, end) added one by one. */
  method AppendRange(vp: seq<int>, start: int, end: int) returns (r: seq<int>)
    requires start <= end
    ensures r == vp + Range(start, end - start)
  {
    r := vp;
    var elementIndex := start;
    while elementIndex < end
      invariant start <= elementIndex <= end
      invariant r == vp + Range(start, elementIndex - start)
    {
      RangeSnoc(start, elementIndex - start);
      r := r + [elementIndex];
      elementIndex := elementIndex + 1;
    }
  }

  /**
   * One iteration of the copyPositions loop, for the valid position `position` at index i: a
   * null entry (when the block has a null array) sets its flag and repeats the last offset; any
   * other entry adds its length to the offsets and its element indices to `valuesPositions`.
   */
  method CopyEntry(b: Block, ghost ps: seq<int>, i: nat, position: int, newOffsets: array<int>, newValueIsNull: array<bool>,
                   hasNulls: bool, valuesPositions: seq<int>) returns (vp: seq<int>)
    requires b.Arr? && Valid(b) && i < |ps| && position == ps[i] && 0 <= position < b.positionCount
    requires OffsetsUpTo(b, ps, i, newOffsets[..]) && NullsUpTo(b, ps, i, newValueIsNull[..], hasNulls)
    requires valuesPositions == ElementPositions(b, ps[..i])
    modifies newOffsets, newValueIsNull
    ensures OffsetsUpTo(b, ps, i + 1, newOffsets[..]) && NullsUpTo(b, ps, i + 1, newValueIsNull[..], hasNulls)
    ensures vp == ElementPositions(b, ps[..i + 1])
  {
    ghost var offs, nulls := newOffsets[..], newValueIsNull[..];
    LoopStep(b, ps, i, offs, nulls, hasNulls, valuesPositions);
    assert hasNulls == b.valueIsNull.Some?;
    if hasNulls && ArrNull(b, position) {
      newValueIsNull[i] := true;
      newOffsets[i + 1] := newOffsets[i];
      vp := valuesPositions;
    } else {
      var valuesStartOffset := b.offsets[b.offsetBase + position];
      var valuesEndOffset := b.offsets[b.offsetBase + position + 1];
      EntryBounds(b, position);
      var valuesLength := valuesEndOffset - valuesStartOffset;
      newOffsets[i + 1] := newOffsets[i] + valuesLength;
      vp := AppendRange(valuesPositions, valuesStartOffset, valuesEndOffset);
    }
    assert newValueIsNull[..] == if ArrNull(b, ps[i]) then nulls[i := true] else nulls;
    assert newOffsets[..] == offs[i + 1 := offs[i] + EntryLength(b, position)];
  }

  /** A non-null entry's element range, read from the offsets. */
  lemma EntryBounds(b: Block, p: nat)
    requires b.Arr? && Valid(b) && p < b.positionCount
    ensures b.offsets[b.offsetBase + p] == Start(b, p) <= b.offsets[b.offsetBase + p + 1]
    ensures !ArrNull(b, p) ==> b.offsets[b.offsetBase + p + 1] - b.offsets[b.offsetBase + p] == EntryLength(b, p)
  {
  }

  /**
   * The end of copyPositions: the single gather of the collected element indices on the raw
   * element block, and the new array block around it (createArrayBlockInternal).
   */
  method GatherValues(b: Block, ghost ps: seq<int>, length: nat, newOffsets: array<int>, newValueIsNull: array<bool>,
                      hasNulls: bool, valuesPositions: seq<int>, freshId: nat) returns (r: Block)
    requires b.Arr? && Valid(b) && length == |ps|
    requires OffsetsUpTo(b, ps, |ps|, newOffsets[..]) && NullsUpTo(b, ps, |ps|, newValueIsNull[..], hasNulls)
    requires valuesPositions == ElementPositions(b, ps[..|ps|])
    ensures ValidPositions(b, ps) && r == Blocks.CopyPositions(b, ps, freshId)
  {
    FinalState(b, ps, newOffsets[..], newValueIsNull[..], hasNulls, valuesPositions, freshId);
    var newValues := Blocks.CopyPositions(b.raw, valuesPositions, freshId);
    var newNulls := if hasNulls then Some(newValueIsNull[..]) else None;
    r := Arr(0, length, newNulls, newOffsets[..], newValues);
  }

  /**
   * The loop of copyPositions over the selected positions ps: fills newOffsets, newValueIsNull
   * (only when the block has a null array) and the element indices.  With a null array, isNull
   * rejects the first invalid position and the loop stops there.
   */
  method CopyEntries(b: Block, positions: seq<int>, offset: nat, ghost ps: seq<int>,
                     newOffsets: array<int>, newValueIsNull: array<bool>, hasNulls: bool)
    returns (ok: bool, valuesPositions: seq<int>)
    requires b.Arr? && Valid(b) && offset + |ps| <= |positions| && ps == positions[offset .. offset + |ps|]
    requires !hasNulls ==> ValidPositions(b, ps)
    requires OffsetsUpTo(b, ps, 0, newOffsets[..]) && NullsUpTo(b, ps, 0, newValueIsNull[..], hasNulls)
    modifies newOffsets, newValueIsNull
    ensures ok <==> ValidPositions(b, ps)
    ensures ok ==> OffsetsUpTo(b, ps, |ps|, newOffsets[..]) && NullsUpTo(b, ps, |ps|, newValueIsNull[..], hasNulls)
    ensures ok ==> valuesPositions == ElementPositions(b, ps[..|ps|])
  {
    valuesPositions := [];
    assert ps[..0] == [];
    var length := newOffsets.Length - 1;
    for i := 0 to length
      invariant OffsetsUpTo(b, ps, i, newOffsets[..])
      invariant NullsUpTo(b, ps, i, newValueIsNull[..], hasNulls)
      invariant valuesPositions == ElementPositions(b, ps[..i])
    {
      var position := positions[offset + i];
      assert position == ps[i];
      if hasNulls && !(0 <= position < b.positionCount) {
        return false, valuesPositions;
      }
      valuesPositions := CopyEntry(b, ps, i, position, newOffsets, newValueIsNull, hasNulls, valuesPositions);
    }
    assert ps[..length] == ps;
    return true, valuesPositions;
  }

  /**
   * copyPositions of an array block: checkArrayRange, then one pass over the selected positions
   * filling newOffsets, newValueIsNull (only when the block has a null array) and the element
   * indices, then a single gather on the raw element block.  With a null array every selected
   * position is checked by isNull; without one the positions are the caller's obligation.
   */
  method CopyArrayPositions(b: Block, positions: seq<int>, offset: int, length: int, freshId: nat)
    returns (r: Result<Block, BlockError>)
    requires b.Arr? && Valid(b)
    requires b.valueIsNull.None? && 0 <= offset && 0 <= length && offset + length <= |positions| ==>
               ValidPositions(b, positions[offset .. offset + length])
    ensures !(0 <= offset && 0 <= length && offset + length <= |positions|) ==> r == Err(IndexOutOfBounds)
    ensures r.Ok? <==> 0 <= offset && 0 <= length && offset + length <= |positions|
                       && ValidPositions(b, positions[offset .. offset + length])
    ensures r.Err? && 0 <= offset && 0 <= length && offset + length <= |positions| ==>
              r.error == IllegalArgument("position is not valid")
    ensures r.Ok? ==> r.value == Blocks.CopyPositions(b, positions[offset .. offset + length], freshId)
  {
    if !(0 <= offset && 0 <= length && offset + length <= |positions|) {
      return Err(IndexOutOfBounds);
    }
    ghost var ps := positions[offset .. offset + length];
    var newOffsets := new int[length + 1];
    newOffsets[0] := 0;
    var hasNulls := b.valueIsNull.Some?;
    var newValueIsNull := new bool[if hasNulls then length else 0](_ => false);
    InitialState(b, ps, newOffsets[..], newValueIsNull[..], hasNulls);
    var ok, valuesPositions := CopyEntries(b, positions, offset, ps, newOffsets, newValueIsNull, hasNulls);
    if !ok {
      return Err(IllegalArgument("position is not valid"));
    }
    var copy := GatherValues(b, ps, length, newOffsets, newValueIsNull, hasNulls, valuesPositions, freshId);
    return Ok(copy);
  }

  // ---------------------------------------------------------------------------
  // getPositionsSizeInBytes

  /** Raw element j lies in one of the first i entries whose flag is set. */
  ghost predicate Covered(b: Block, selected: seq<bool>, i: nat, j: int)
    requires b.Arr? && Valid(b) && |selected| == b.positionCount && i <= |selected|
  {
    exists k :: 0 <= k < i && selected[k] && Start(b, k) <= j < Start(b, k + 1)
  }

  lemma CoveredStep(b: Block, selected: seq<bool>, i: nat, j: int)
    requires b.Arr? && Valid(b) && |selected| == b.positionCount && i < |selected|
    ensures Covered(b, selected, i + 1, j) <==>
            Covered(b, selected, i, j) || (selected[i] && Start(b, i) <= j < Start(b, i + 1))
  {
    if Covered(b, selected, i + 1, j) && !(selected[i] && Start(b, i) <= j < Start(b, i + 1)) {
      var k :| 0 <= k < i + 1 && selected[k] && Start(b, k) <= j < Start(b, k + 1);
      assert k < i;
    }
  }

  lemma CountTrueSnoc(used: seq<bool>, i: nat)
    requires i < |used|
    ensures CountTrue(used[..i + 1]) == CountTrue(used[..i]) + (if used[i] then 1 else 0)
  {
    assert used[..i + 1][..i] == used[..i];
  }

  /**
   * getPositionsSizeInBytes of an array block: checkValidPositions, then the raw elements each
   * selected entry covers are marked once in `used` while the selected entries are counted.
   */
  method ArrayPositionsSizeInBytes(b: Block, positions: seq<bool>) returns (r: Result<nat, BlockError>)
    requires b.Arr? && Valid(b)
    ensures r == GetPositionsSizeInBytes(b, positions)
  {
    if |positions| != b.positionCount {
      return Err(IllegalArgument("Invalid positions array size"));
    }
    var used := new bool[PositionCount(b.raw)](_ => false);
    var usedPositionCount: nat := 0;
    for i := 0 to |positions|
      invariant usedPositionCount == CountTrue(positions[..i])
      invariant forall x :: 0 <= x < used.Length ==> (used[x] <==> Covered(b, positions, i, x))
    {
      CountTrueSnoc(positions, i);
      forall x | 0 <= x < used.Length {
        CoveredStep(b, positions, i, x);
      }
      if positions[i] {
        usedPositionCount := usedPositionCount + 1;
        var valueStart := b.offsets[b.offsetBase + i];
        var valueEnd := b.offsets[b.offsetBase + i + 1];
        assert valueStart == Start(b, i) && valueEnd == Start(b, i + 1);
        for j := valueStart to valueEnd
          invariant forall x :: 0 <= x < used.Length ==> (used[x] <==> Covered(b, positions, i, x) || valueStart <= x < j)
        {
          used[j] := true;
        }
      }
    }
    assert positions[..|positions|] == positions;
    assert used[..] == ElementMask(b, positions);
    r := Ok(PositionsSize(b.raw, used[..]) + EntryBytes * usedPositionCount);
  }

  // ---------------------------------------------------------------------------
  // getEstimatedDataSizeForStats

  lemma ArrEstimatedDataSize(b: Block, position: nat)
    requires b.Arr? && Valid(b) && position < b.positionCount
    ensures EstimatedDataSize(b, position) ==
            if ArrNull(b, position) then 0 else ElementsDataSize(b.raw, Start(b, position), Length(b, position))
  {
  }

  /**
   * getEstimatedDataSizeForStats of an array block: checkReadablePosition, 0 for a null entry,
   * else the raw elements' estimates summed.
   */
  method ArrayEstimatedDataSizeForStats(b: Block, position: int) returns (r: Result<nat, BlockError>)
    requires b.Arr? && Valid(b)
    ensures r == GetEstimatedDataSizeForStats(b, position)
  {
    if !(0 <= position < b.positionCount) {
      return Err(IllegalArgument("position is not valid"));
    }
    ArrEstimatedDataSize(b, position);
    if ArrNull(b, position) {
      return Ok(0);
    }
    var startValueOffset := b.offsets[b.offsetBase + position];
    var endValueOffset := b.offsets[b.offsetBase + position + 1];
    var size: nat := 0;
    for i := startValueOffset to endValueOffset
      invariant size == ElementsDataSize(b.raw, startValueOffset, i - startValueOffset)
    {
      size := size + EstimatedDataSize(b.raw, i);
    }
    return Ok(size);
  }
}
