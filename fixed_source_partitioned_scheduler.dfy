/**
 * FixedSourcePartitionedScheduler: the stage scheduler for stages whose splits are partitioned
 * by a fixed set of partition handles.  This module keeps its construction-time checks, the
 * number of lifespans run at once and the split batch size derived from it, the choice of
 * partition handle for a lifespan, closing, and the AsGroupedSourceScheduler adapter that
 * lets an ungrouped scan run inside a grouped stage.  The per-source schedulers themselves are
 * abstract: the model records the calls made on them.
 */
module FixedSourcePartitionedSchedulers {
  import opened Wrappers
  import opened Exceptions
  import opened JavaInts

  type PlanNodeId = string

  /** A lifespan: the whole task, or one driver group (bucket) of it. */
  datatype Lifespan = Lifespan(grouped: bool, id: Int)

  /** Lifespan.taskWide(). */
  const TaskWide: Lifespan := Lifespan(false, 0)

  /** Lifespan.driverGroup(id). */
  function DriverGroup(id: Int): Lifespan
  {
    Lifespan(true, id)
  }

  predicate IsTaskWide(l: Lifespan)
  {
    !l.grouped
  }

  /** A connector partition handle; NOT_PARTITIONED is the one for ungrouped execution. */
  datatype PartitionHandle = NotPartitioned | Partition(name: string)

  /** Whether the stage runs grouped, and which scan nodes do. */
  datatype StageExecutionDescriptor = StageExecutionDescriptor(stageGroupedExecution: bool, groupedScanNodes: set<PlanNodeId>)

  predicate IsScanGroupedExecution(d: StageExecutionDescriptor, planNodeId: PlanNodeId)
  {
    planNodeId in d.groupedScanNodes
  }

  const PartitionHandlesMessage :=
    "PartitionHandles should be [NOT_PARTITIONED] if and only if all scan nodes use ungrouped execution strategy"

  // ---------------------------------------------------------------------------
  // Construction.

  /**
   * The constructor's argument checks, in order.  The key-set check is a checkArgument without
   * a message, whose exception has a null message; the empty string stands for that null.
   */
  function CheckArguments(nodeCount: nat, splitSourceKeys: set<PlanNodeId>, schedulingOrder: seq<PlanNodeId>,
                          partitionHandles: seq<PartitionHandle>, descriptor: StageExecutionDescriptor)
    : (r: Result<(), Exception>)
    ensures r.Ok? <==>
      && nodeCount > 0
      && splitSourceKeys == (set p | p in schedulingOrder)
      && (partitionHandles == [NotPartitioned]) != descriptor.stageGroupedExecution
    ensures nodeCount == 0 ==> r == Err(IllegalArgument("nodes is empty"))
  {
    if nodeCount == 0 then Err(IllegalArgument("nodes is empty"))
    else if splitSourceKeys != (set p | p in schedulingOrder) then Err(IllegalArgument(""))
    else if (partitionHandles == [NotPartitioned]) == descriptor.stageGroupedExecution then
      Err(IllegalArgument(PartitionHandlesMessage))
    else Ok(())
  }

  /**
   * The lifespans run at once: concurrentLifespansPerTask times the node count (an `int`
   * product, so it wraps) when that is present and at most the partition count, else the
   * partition count.
   */
  function ConcurrentLifespans(concurrentLifespansPerTask: Option<Int>, nodeCount: Int, partitionCount: Int): (r: Int)
    ensures r <= partitionCount
    ensures concurrentLifespansPerTask.None? ==> r == partitionCount
    ensures concurrentLifespansPerTask.Some? ==>
      var k := concurrentLifespansPerTask.value;
      -0x8000_0000 <= k * nodeCount <= 0x7FFF_FFFF ==>
        r == (if k * nodeCount <= partitionCount then k * nodeCount else partitionCount)
  {
    if concurrentLifespansPerTask.Some? && ToInt(concurrentLifespansPerTask.value * nodeCount) <= partitionCount then
      ToInt(concurrentLifespansPerTask.value * nodeCount)
    else partitionCount
  }

  /** Math.max(splitBatchSize / concurrentLifespans, 1), with Java's truncating `int` division. */
  function BatchSize(splitBatchSize: Int, concurrentLifespans: Int): (r: Result<Int, Exception>)
    ensures r.Ok? <==> concurrentLifespans != 0
    ensures r.Ok? ==> r.value >= 1
    ensures r.Err? ==> r.error == Arithmetic("/ by zero")
  {
    if concurrentLifespans == 0 then Err(Arithmetic("/ by zero"))
    else
      var q := ToInt(TruncatedQuotient(splitBatchSize, concurrentLifespans));
      Ok(if q >= 1 then q else 1)
  }

  /** The sign and size of a product with a positive factor, by repeated addition. */
  lemma {:induction false} ProductBounds(a: int, y: int)
    requires y > 0
    ensures a >= 0 ==> a * y >= a
    ensures a >= 1 ==> a * y >= y
    ensures a < 0 ==> a * y <= -y
    decreases if a < 0 then 1 - a else a
  {
    if a > 0 {
      ProductBounds(a - 1, y);
      assert a * y == (a - 1) * y + y;
    } else if a < 0 {
      ProductBounds(-a, y);
      assert a * y == -((-a) * y);
    }
  }

  /** 0 <= x / y <= x for a non-negative x and a positive y. */
  lemma QuotientBounds(x: int, y: int)
    requires x >= 0 && y > 0
    ensures 0 <= x / y <= x
    ensures (x / y) * y <= x
  {
    var q := x / y;
    assert x == q * y + x % y && 0 <= x % y < y;
    ProductBounds(q, y);
  }

  /**
   * Each concurrent lifespan gets an equal share of the split batch size, rounded down; the
   * shares together stay within it, unless it is smaller than the lifespan count, when each
   * still gets one split.
   */
  lemma BatchesShareTheBudget(splitBatchSize: Int, concurrentLifespans: Int)
    requires concurrentLifespans > 0
    ensures var b := BatchSize(splitBatchSize, concurrentLifespans).value;
      && (concurrentLifespans <= splitBatchSize ==>
            b == splitBatchSize / concurrentLifespans && b * concurrentLifespans <= splitBatchSize)
      && (splitBatchSize < concurrentLifespans ==> b == 1)
  {
    var q := TruncatedQuotient(splitBatchSize, concurrentLifespans);
    if splitBatchSize >= 0 {
      QuotientBounds(splitBatchSize, concurrentLifespans);
      assert q == splitBatchSize / concurrentLifespans;
      assert ToInt(q) == q;
      if splitBatchSize < concurrentLifespans {
        assert q == 0 by {
          assert splitBatchSize == q * concurrentLifespans + splitBatchSize % concurrentLifespans;
          ProductBounds(q, concurrentLifespans);
        }
      } else {
        assert q >= 1 by {
          assert splitBatchSize == q * concurrentLifespans + splitBatchSize % concurrentLifespans;
          ProductBounds(q, concurrentLifespans);
        }
      }
    } else {
      QuotientBounds(-(splitBatchSize as int), concurrentLifespans);
      assert q <= 0 && ToInt(q) == q;
    }
  }

  /** With nodes and partitions present and a positive per-task count, the batch size is defined. */
  lemma LifespansPositive(concurrentLifespansPerTask: Option<Int>, nodeCount: Int, partitionCount: Int, splitBatchSize: Int)
    requires nodeCount > 0 && partitionCount > 0
    requires concurrentLifespansPerTask.Some? ==>
      concurrentLifespansPerTask.value > 0 && concurrentLifespansPerTask.value * nodeCount <= 0x7FFF_FFFF
    ensures ConcurrentLifespans(concurrentLifespansPerTask, nodeCount, partitionCount) > 0
    ensures BatchSize(splitBatchSize, ConcurrentLifespans(concurrentLifespansPerTask, nodeCount, partitionCount)).Ok?
  {
    if concurrentLifespansPerTask.Some? {
      var k := concurrentLifespansPerTask.value;
      assert k * nodeCount >= nodeCount by {
        assert k * nodeCount == (k - 1) * nodeCount + nodeCount;
        assert (k - 1) * nodeCount >= 0;
      }
    }
  }

  /** A per-task count of zero makes the division fail once there is a source to schedule. */
  lemma ZeroPerTaskDividesByZero(nodeCount: Int, partitionCount: Int, splitBatchSize: Int)
    requires partitionCount >= 0
    ensures ConcurrentLifespans(Some(0), nodeCount, partitionCount) == 0
    ensures BatchSize(splitBatchSize, 0) == Err(Arithmetic("/ by zero"))
  {
  }

  /** What the constructor makes for one plan node: the scheduler it creates and the calls it makes on it. */
  datatype SourceSchedulerSetup = SourceSchedulerSetup(
    planNodeId: PlanNodeId,
    splitBatchSize: Int,
    groupedExecution: bool,
    /** Wrapped in an AsGroupedSourceScheduler: an ungrouped scan in a grouped stage. */
    asGrouped: bool,
    /** Given startLifespan(taskWide, NOT_PARTITIONED) and noMoreLifespans: the first node of an ungrouped stage. */
    startedTaskWide: bool)

  function SetupFor(schedulingOrder: seq<PlanNodeId>, i: nat, descriptor: StageExecutionDescriptor, batchSize: Int)
    : (s: SourceSchedulerSetup)
    requires i < |schedulingOrder|
    ensures s.planNodeId == schedulingOrder[i] && s.splitBatchSize == batchSize
    ensures s.asGrouped <==> descriptor.stageGroupedExecution && !s.groupedExecution
    ensures s.startedTaskWide <==> i == 0 && !descriptor.stageGroupedExecution
  {
    var grouped := IsScanGroupedExecution(descriptor, schedulingOrder[i]);
    SourceSchedulerSetup(schedulingOrder[i], batchSize, grouped, descriptor.stageGroupedExecution && !grouped,
                         i == 0 && !descriptor.stageGroupedExecution)
  }

  /** The schedulers made for the first n plan nodes, in scheduling order. */
  function Setups(schedulingOrder: seq<PlanNodeId>, n: nat, descriptor: StageExecutionDescriptor, batchSize: Int)
    : (r: seq<SourceSchedulerSetup>)
    requires n <= |schedulingOrder|
    ensures |r| == n
    ensures forall i :: 0 <= i < n ==> r[i] == SetupFor(schedulingOrder, i, descriptor, batchSize)
  {
    if n == 0 then [] else Setups(schedulingOrder, n - 1, descriptor, batchSize) + [SetupFor(schedulingOrder, n - 1, descriptor, batchSize)]
  }

  /** The whole constructor: the checks, then one scheduler per plan node with the shared batch size. */
  function Construct(nodeCount: Int, splitSourceKeys: set<PlanNodeId>, schedulingOrder: seq<PlanNodeId>,
                     partitionHandles: seq<PartitionHandle>, descriptor: StageExecutionDescriptor, splitBatchSize: Int,
                     concurrentLifespansPerTask: Option<Int>): (r: Result<seq<SourceSchedulerSetup>, Exception>)
    requires 0 <= nodeCount && |partitionHandles| <= 0x7FFF_FFFF
    ensures r.Ok? ==> CheckArguments(nodeCount, splitSourceKeys, schedulingOrder, partitionHandles, descriptor).Ok?
    ensures r.Ok? ==> |r.value| == |schedulingOrder|
  {
    match CheckArguments(nodeCount, splitSourceKeys, schedulingOrder, partitionHandles, descriptor)
    case Err(e) => Err(e)
    case Ok(_) =>
      var concurrentLifespans := ConcurrentLifespans(concurrentLifespansPerTask, nodeCount, |partitionHandles|);
      if schedulingOrder == [] then Ok([])
      else
        match BatchSize(splitBatchSize, concurrentLifespans)
        case Err(e) => Err(e)
        case Ok(b) => Ok(Setups(schedulingOrder, |schedulingOrder|, descriptor, b))
  }

  /**
   * In an ungrouped stage exactly the first scheduler is started task-wide; in a grouped stage
   * none is, and exactly the ungrouped scans are wrapped.
   */
  lemma ConstructStartsFirstOnly(nodeCount: Int, splitSourceKeys: set<PlanNodeId>, schedulingOrder: seq<PlanNodeId>,
                                 partitionHandles: seq<PartitionHandle>, descriptor: StageExecutionDescriptor,
                                 splitBatchSize: Int, concurrentLifespansPerTask: Option<Int>)
    requires 0 <= nodeCount && |partitionHandles| <= 0x7FFF_FFFF
    ensures var r := Construct(nodeCount, splitSourceKeys, schedulingOrder, partitionHandles, descriptor,
                               splitBatchSize, concurrentLifespansPerTask);
      r.Ok? ==> forall i :: 0 <= i < |r.value| ==>
        && r.value[i].planNodeId == schedulingOrder[i] && r.value[i].splitBatchSize >= 1
        && (r.value[i].startedTaskWide <==> i == 0 && partitionHandles == [NotPartitioned])
        && (r.value[i].asGrouped <==> !IsScanGroupedExecution(descriptor, schedulingOrder[i]) && partitionHandles != [NotPartitioned])
  {
  }

  /** The pair of sources a scheduler's split sources must match, and the schedulers that follow. */
  lemma ConstructRejectsMismatchedSources(nodeCount: Int, splitSourceKeys: set<PlanNodeId>, schedulingOrder: seq<PlanNodeId>,
                                          partitionHandles: seq<PartitionHandle>, descriptor: StageExecutionDescriptor,
                                          splitBatchSize: Int, concurrentLifespansPerTask: Option<Int>, p: PlanNodeId)
    requires 0 < nodeCount && |partitionHandles| <= 0x7FFF_FFFF
    requires (p in splitSourceKeys) != (p in schedulingOrder)
    ensures Construct(nodeCount, splitSourceKeys, schedulingOrder, partitionHandles, descriptor, splitBatchSize,
                      concurrentLifespansPerTask) == Err(IllegalArgument(""))
  {
    assert splitSourceKeys != (set q | q in schedulingOrder) by {
      assert (p in splitSourceKeys) != (p in (set q | q in schedulingOrder));
    }
  }

  // ---------------------------------------------------------------------------
  // The calls on an abstract source scheduler.

  datatype InnerCall =
    | InnerStartLifespan(lifespan: Lifespan, partitionHandle: PartitionHandle)
    | InnerNoMoreLifespans
    | InnerDrainCompletedLifespans
    | InnerClose

  /** The number of startLifespan calls in a call log. */
  function Starts(calls: seq<InnerCall>): (n: nat)
    ensures n <= |calls|
  {
    if calls == [] then 0 else Starts(calls[..|calls| - 1]) + (if calls[|calls| - 1].InnerStartLifespan? then 1 else 0)
  }

  lemma {:induction false} StartsAppend(a: seq<InnerCall>, b: seq<InnerCall>)
    ensures Starts(a + b) == Starts(a) + Starts(b)
    decreases |b|
  {
    if b == [] {
      assert a + b == a;
    } else {
      assert (a + b)[..|a + b| - 1] == a + b[..|b| - 1];
      StartsAppend(a, b[..|b| - 1]);
    }
  }

  /** Every startLifespan in the log is task-wide with NOT_PARTITIONED and is followed by noMoreLifespans. */
  predicate StartedTaskWideOnly(calls: seq<InnerCall>)
  {
    forall i :: 0 <= i < |calls| && calls[i].InnerStartLifespan? ==>
      calls[i] == InnerStartLifespan(TaskWide, NotPartitioned) && i + 1 < |calls| && calls[i + 1] == InnerNoMoreLifespans
  }

  // ---------------------------------------------------------------------------
  // AsGroupedSourceScheduler.

  /** The adapter's fields, and the calls it has made on the scheduler it wraps. */
  datatype AsGroupedState = AsGroupedState(started: bool, completed: bool, pendingCompleted: seq<Lifespan>,
                                           innerCalls: seq<InnerCall>)

  /** The inner scheduler is started once, task-wide, and only once the adapter has started. */
  predicate Consistent(s: AsGroupedState)
  {
    Starts(s.innerCalls) == (if s.started then 1 else 0) && StartedTaskWideOnly(s.innerCalls)
    && (s.completed ==> InnerDrainCompletedLifespans in s.innerCalls)
  }

  const Initial: AsGroupedState := AsGroupedState(false, false, [], [])

  /** startLifespan: remember the lifespan; on the first call only, start the inner scheduler task-wide and end its lifespans. */
  function Started(s: AsGroupedState, lifespan: Lifespan, partitionHandle: PartitionHandle): (t: AsGroupedState)
    ensures t.pendingCompleted == s.pendingCompleted + [lifespan] && t.started && t.completed == s.completed
    ensures s.started ==> t.innerCalls == s.innerCalls
    ensures !s.started ==> t.innerCalls == s.innerCalls + [InnerStartLifespan(TaskWide, NotPartitioned), InnerNoMoreLifespans]
  {
    var pending := s.pendingCompleted + [lifespan];
    if s.started then s.(pendingCompleted := pending)
    else
      AsGroupedState(true, s.completed, pending,
                     s.innerCalls + [InnerStartLifespan(TaskWide, NotPartitioned), InnerNoMoreLifespans])
  }

  /** noMoreLifespans: only a check that a lifespan was started. */
  function NoMoreLifespansCheck(s: AsGroupedState): (r: Result<(), Exception>)
    ensures r.Ok? <==> s.started
    ensures r.Err? ==> r.error == IllegalState("")
  {
    if s.started then Ok(()) else Err(IllegalState(""))
  }

  /**
   * drainCompletedLifespans, given what the inner scheduler's drain returns (asked only until
   * the inner scheduler has completed): nothing until it reports exactly [taskWide], then every
   * pending lifespan.
   */
  function Drain(s: AsGroupedState, innerDrained: seq<Lifespan>): (r: (AsGroupedState, Result<seq<Lifespan>, Exception>))
    ensures s.completed ==> r == (s.(pendingCompleted := []), Ok(s.pendingCompleted))
    ensures !s.completed && innerDrained == [] ==>
      r == (s.(innerCalls := s.innerCalls + [InnerDrainCompletedLifespans]), Ok([]))
    ensures !s.completed && innerDrained != [] && innerDrained != [TaskWide] ==>
      r.1 == Err(IllegalState("")) && r.0.pendingCompleted == s.pendingCompleted && !r.0.completed
    ensures !s.completed && innerDrained == [TaskWide] ==>
      r.1 == Ok(s.pendingCompleted) && r.0.completed && r.0.pendingCompleted == []
  {
    if !s.completed then
      var asked := s.(innerCalls := s.innerCalls + [InnerDrainCompletedLifespans]);
      if innerDrained == [] then (asked, Ok([]))
      else if innerDrained != [TaskWide] then (asked, Err(IllegalState("")))
      else (asked.(completed := true, pendingCompleted := []), Ok(s.pendingCompleted))
    else (s.(pendingCompleted := []), Ok(s.pendingCompleted))
  }

  /** close: close the inner scheduler. */
  function CloseInner(s: AsGroupedState): (t: AsGroupedState)
    ensures t.innerCalls == s.innerCalls + [InnerClose]
    ensures t.(innerCalls := s.innerCalls) == s
  {
    s.(innerCalls := s.innerCalls + [InnerClose])
  }

  lemma InitialConsistent()
    ensures Consistent(Initial)
  {
  }

  /** startLifespan keeps the inner scheduler started exactly once, task-wide. */
  lemma StartLifespanConsistent(s: AsGroupedState, lifespan: Lifespan, partitionHandle: PartitionHandle)
    requires Consistent(s)
    ensures Consistent(Started(s, lifespan, partitionHandle))
    ensures Starts(Started(s, lifespan, partitionHandle).innerCalls) == 1
  {
    var t := Started(s, lifespan, partitionHandle);
    if !s.started {
      var added := [InnerStartLifespan(TaskWide, NotPartitioned), InnerNoMoreLifespans];
      StartsAppend(s.innerCalls, added);
      assert Starts(added) == 1 by {
        assert added[..1] == [InnerStartLifespan(TaskWide, NotPartitioned)];
        assert added[..1][..0] == [];
      }
      assert InnerDrainCompletedLifespans in s.innerCalls ==> InnerDrainCompletedLifespans in t.innerCalls;
    }
  }

  /** drainCompletedLifespans keeps the adapter consistent. */
  lemma DrainConsistent(s: AsGroupedState, innerDrained: seq<Lifespan>)
    requires Consistent(s)
    ensures Consistent(Drain(s, innerDrained).0)
  {
    if !s.completed {
      StartsAppend(s.innerCalls, [InnerDrainCompletedLifespans]);
      assert Starts([InnerDrainCompletedLifespans]) == 0 by {
        assert [InnerDrainCompletedLifespans][..0] == [];
      }
      var t := Drain(s, innerDrained).0;
      assert t.innerCalls[|s.innerCalls|] == InnerDrainCompletedLifespans;
    }
  }

  /** close keeps the adapter consistent. */
  lemma CloseConsistent(s: AsGroupedState)
    requires Consistent(s)
    ensures Consistent(CloseInner(s))
  {
    StartsAppend(s.innerCalls, [InnerClose]);
    assert Starts([InnerClose]) == 0 by {
      assert [InnerClose][..0] == [];
    }
    assert InnerDrainCompletedLifespans in s.innerCalls ==> InnerDrainCompletedLifespans in CloseInner(s).innerCalls;
  }

  /** Every lifespan started is handed back by the first drain after the inner scheduler completes. */
  lemma StartedLifespansReturnedOnCompletion(s: AsGroupedState, l: Lifespan)
    requires !s.completed && l in s.pendingCompleted
    ensures var (t, r) := Drain(s, [TaskWide]); r.Ok? && l in r.value && t.pendingCompleted == []
  {
  }

  /** Once completed, a drain returns exactly the lifespans started since the previous drain. */
  lemma DrainAfterStarts(s: AsGroupedState, a: Lifespan, b: Lifespan, h: PartitionHandle)
    requires s.completed && s.pendingCompleted == []
    ensures Drain(Started(Started(s, a, h), b, h), []).1 == Ok([a, b])
  {
    var t := Started(Started(s, a, h), b, h);
    assert t.completed && t.pendingCompleted == [a, b];
  }

  class AsGroupedSourceScheduler {
    var started: bool
    var completed: bool
    var pendingCompleted: seq<Lifespan>
    var innerCalls: seq<InnerCall>

    function State(): AsGroupedState
      reads this
    {
      AsGroupedState(started, completed, pendingCompleted, innerCalls)
    }

    constructor()
      ensures State() == Initial
    {
      started, completed, pendingCompleted, innerCalls := false, false, [], [];
    }

    method StartLifespan(lifespan: Lifespan, partitionHandle: PartitionHandle)
      modifies this
      ensures State() == Started(old(State()), lifespan, partitionHandle)
    {
      pendingCompleted := pendingCompleted + [lifespan];
      if started {
        return;
      }
      started := true;
      innerCalls := innerCalls + [InnerStartLifespan(TaskWide, NotPartitioned)];
      innerCalls := innerCalls + [InnerNoMoreLifespans];
    }

    method NoMoreLifespans() returns (r: Result<(), Exception>)
      ensures r == NoMoreLifespansCheck(State())
    {
      if !started {
        return Err(IllegalState(""));
      }
      r := Ok(());
    }

    method DrainCompletedLifespans(innerDrained: seq<Lifespan>) returns (r: Result<seq<Lifespan>, Exception>)
      modifies this
      ensures (State(), r) == Drain(old(State()), innerDrained)
    {
      if !completed {
        innerCalls := innerCalls + [InnerDrainCompletedLifespans];
        var lifespans := innerDrained;
        if lifespans == [] {
          return Ok([]);
        }
        if lifespans != [TaskWide] {
          return Err(IllegalState(""));
        }
        completed := true;
      }
      var result := pendingCompleted;
      pendingCompleted := [];
      r := Ok(result);
    }

    method Close()
      modifies this
      ensures State() == CloseInner(old(State()))
    {
      innerCalls := innerCalls + [InnerClose];
    }
  }

  // ---------------------------------------------------------------------------
  // The scheduler.

  class FixedSourcePartitionedScheduler {
    var partitionHandles: seq<PartitionHandle>
    var sourceSchedulers: seq<SourceSchedulerSetup>
    /** The plan nodes whose schedulers close was called on, in order. */
    var closed: seq<PlanNodeId>
    /** The warnings logged for closes that threw. */
    var closeWarnings: nat

    /** The constructor after its checks: one scheduler per plan node, in scheduling order. */
    constructor(partitionHandles: seq<PartitionHandle>, schedulingOrder: seq<PlanNodeId>,
                descriptor: StageExecutionDescriptor, batchSize: Int)
      ensures this.partitionHandles == partitionHandles
      ensures sourceSchedulers == Setups(schedulingOrder, |schedulingOrder|, descriptor, batchSize)
      ensures closed == [] && closeWarnings == 0
    {
      this.partitionHandles := partitionHandles;
      closed, closeWarnings := [], 0;
      var schedulers: seq<SourceSchedulerSetup> := [];
      var i := 0;
      while i < |schedulingOrder|
        invariant 0 <= i <= |schedulingOrder|
        invariant schedulers == Setups(schedulingOrder, i, descriptor, batchSize)
      {
        var planNodeId := schedulingOrder[i];
        var grouped := IsScanGroupedExecution(descriptor, planNodeId);
        var asGrouped := descriptor.stageGroupedExecution && !grouped;
        var firstPlanNode := i == 0;
        schedulers := schedulers + [SourceSchedulerSetup(planNodeId, batchSize, grouped, asGrouped,
                                                         firstPlanNode && !descriptor.stageGroupedExecution)];
        i := i + 1;
      }
      sourceSchedulers := schedulers;
    }

    /** partitionHandleFor: NOT_PARTITIONED for the task-wide lifespan, else the handle at the lifespan's id. */
    function PartitionHandleFor(lifespan: Lifespan): (r: Result<PartitionHandle, Exception>)
      reads this
      ensures IsTaskWide(lifespan) ==> r == Ok(NotPartitioned)
      ensures !IsTaskWide(lifespan) ==>
        (r.Ok? <==> 0 <= lifespan.id < |partitionHandles|)
        && (r.Ok? ==> r.value == partitionHandles[lifespan.id])
        && (r.Err? ==> r.error == IndexOutOfBounds(lifespan.id))
    {
      if IsTaskWide(lifespan) then Ok(NotPartitioned)
      else if 0 <= lifespan.id < |partitionHandles| then Ok(partitionHandles[lifespan.id])
      else Err(IndexOutOfBounds(lifespan.id))
    }

    /**
     * close: close every scheduler in order, logging (not propagating) a failure, then forget
     * them all.  `closeThrows` says which closes throw.
     */
    method Close(closeThrows: PlanNodeId -> bool)
      modifies this
      ensures sourceSchedulers == []
      ensures closed == old(closed) + PlanNodeIds(old(sourceSchedulers))
      ensures closeWarnings == old(closeWarnings) + Failures(old(sourceSchedulers), closeThrows)
      ensures partitionHandles == old(partitionHandles)
    {
      var i := 0;
      while i < |sourceSchedulers|
        invariant 0 <= i <= |sourceSchedulers|
        invariant sourceSchedulers == old(sourceSchedulers) && partitionHandles == old(partitionHandles)
        invariant closed == old(closed) + PlanNodeIds(sourceSchedulers[..i])
        invariant closeWarnings == old(closeWarnings) + Failures(sourceSchedulers[..i], closeThrows)
      {
        var sourceScheduler := sourceSchedulers[i];
        assert sourceSchedulers[..i + 1][..i] == sourceSchedulers[..i];
        closed := closed + [sourceScheduler.planNodeId];
        if closeThrows(sourceScheduler.planNodeId) {
          closeWarnings := closeWarnings + 1;
        }
        i := i + 1;
      }
      assert sourceSchedulers[..i] == sourceSchedulers;
      sourceSchedulers := [];
    }
  }

  function PlanNodeIds(schedulers: seq<SourceSchedulerSetup>): (ids: seq<PlanNodeId>)
    ensures |ids| == |schedulers|
    ensures forall i :: 0 <= i < |schedulers| ==> ids[i] == schedulers[i].planNodeId
  {
    if schedulers == [] then [] else PlanNodeIds(schedulers[..|schedulers| - 1]) + [schedulers[|schedulers| - 1].planNodeId]
  }

  /** The number of schedulers whose close throws. */
  function Failures(schedulers: seq<SourceSchedulerSetup>, closeThrows: PlanNodeId -> bool): (n: nat)
    ensures n <= |schedulers|
  {
    if schedulers == [] then 0
    else Failures(schedulers[..|schedulers| - 1], closeThrows) + (if closeThrows(schedulers[|schedulers| - 1].planNodeId) then 1 else 0)
  }

  /** Whatever throws, close reaches every scheduler: a failure costs a warning, never a skipped close. */
  lemma {:induction false} CloseReachesEvery(schedulers: seq<SourceSchedulerSetup>, closeThrows: PlanNodeId -> bool)
    ensures |PlanNodeIds(schedulers)| == |schedulers|
    ensures (forall i :: 0 <= i < |schedulers| ==> !closeThrows(schedulers[i].planNodeId)) ==> Failures(schedulers, closeThrows) == 0
    ensures (exists i :: 0 <= i < |schedulers| && closeThrows(schedulers[i].planNodeId)) ==> Failures(schedulers, closeThrows) > 0
    decreases |schedulers|
  {
    if schedulers != [] {
      var prefix := schedulers[..|schedulers| - 1];
      CloseReachesEvery(prefix, closeThrows);
      forall i | 0 <= i < |prefix|
        ensures prefix[i] == schedulers[i]
      {
      }
    }
  }

  /**
   * The constructor as the source calls it: the checks, then the schedulers.  The lifespan
   * scheduler of a grouped stage is not part of this model.
   */
  method NewFixedSourcePartitionedScheduler(nodeCount: Int, splitSourceKeys: set<PlanNodeId>,
                                            schedulingOrder: seq<PlanNodeId>, partitionHandles: seq<PartitionHandle>,
                                            descriptor: StageExecutionDescriptor, splitBatchSize: Int,
                                            concurrentLifespansPerTask: Option<Int>)
    returns (r: Result<FixedSourcePartitionedScheduler, Exception>)
    requires 0 <= nodeCount && |partitionHandles| <= 0x7FFF_FFFF
    ensures var c := Construct(nodeCount, splitSourceKeys, schedulingOrder, partitionHandles, descriptor,
                               splitBatchSize, concurrentLifespansPerTask);
      && (r.Ok? <==> c.Ok?)
      && (r.Err? ==> r.error == c.error)
      && (r.Ok? ==> fresh(r.value) && r.value.sourceSchedulers == c.value && r.value.partitionHandles == partitionHandles)
  {
    var checked := CheckArguments(nodeCount, splitSourceKeys, schedulingOrder, partitionHandles, descriptor);
    if checked.Err? {
      return Err(checked.error);
    }
    var concurrentLifespans := ConcurrentLifespans(concurrentLifespansPerTask, nodeCount, |partitionHandles|);
    var batchSize: Int := 1;
    if schedulingOrder != [] {
      var b := BatchSize(splitBatchSize, concurrentLifespans);
      if b.Err? {
        return Err(b.error);
      }
      batchSize := b.value;
    }
    var scheduler := new FixedSourcePartitionedScheduler(partitionHandles, schedulingOrder, descriptor, batchSize);
    r := Ok(scheduler);
  }
}
