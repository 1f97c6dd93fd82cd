/** The arena's grant: when a fill reports the bytes it claimed, and what the poolable memory amounts to in any run. */
module ArenaGrant {
  import opened Collections
  import opened Pool
  import opened PoolSafety
  import opened PoolLoss

  // ---- the size a fill reports ------------------------------------------------------------------------------------

  /** The capacities of the slots a fill allocates. */
  function NewBytes(fill: seq<Slot>): nat {
    if fill == [] then 0 else NewBytes(fill[..|fill| - 1]) + fill[|fill| - 1].cap
  }

  lemma {:induction false} FilledBytes(s: State, fill: seq<Slot>)
    ensures AddSlots(s, fill).bytes == s.bytes + NewBytes(fill)
  {
    if fill != [] {
      FilledBytes(s, fill[..|fill| - 1]);
    }
  }

  /** The pool's bytes after a fill are the bytes it claimed exactly when nothing was pooled before. */
  lemma ClaimIsExactIff(s: State, slotBytes: nat, fill: seq<Slot>)
    requires Enabled(s, ArenaFill(slotBytes, fill))
    ensures Apply(s, ArenaFill(slotBytes, fill)).bytes == s.bytes + NewBytes(fill)
    ensures Apply(s, ArenaFill(slotBytes, fill)).bytes == NewBytes(fill) <==> s.bytes == 0
  {
    FilledBytes(s, fill);
  }

  /** One buffer allocated, returned and pooled: a fill of one slot then reports two. */
  lemma ClaimCountsPooledBuffers() returns (steps: seq<Step>, s: State, slot: Slot)
    ensures Run(Init(1, POOL_MIN_BYTES), steps, s) && Enabled(s, ArenaFill(POOL_MIN_BYTES, [slot]))
    ensures NewBytes([slot]) == POOL_MIN_BYTES
    ensures Apply(s, ArenaFill(POOL_MIN_BYTES, [slot])).bytes == 2 * POOL_MIN_BYTES
  {
    InitIsSafe(1, POOL_MIN_BYTES);
    steps, s := AllocateAndReturn(Init(1, POOL_MIN_BYTES), POOL_MIN_BYTES);
    var f := FreshAddress(s.heap);
    slot := Slot(f, POOL_MIN_BYTES, false);
    hide Run, Inv;
    ClaimIsExactIff(s, POOL_MIN_BYTES, [slot]);
    assert [slot][..0] == [] && NewBytes([]) == 0;
  }

  // ---- the poolable memory ------------------------------------------------------------------------------------------

  function Poolable(heap: map<Addr, nat>): set<Addr> {
    set a | a in heap && heap[a] >= POOL_MIN_BYTES
  }

  /** All live bytes in buffers of poolable size, pooled, lent or on their way to be freed. */
  ghost function Footprint(heap: map<Addr, nat>): nat {
    SetCaps(Poolable(heap), heap)
  }

  function PoolableBytes(cap: nat): nat {
    if cap >= POOL_MIN_BYTES then cap else 0
  }

  lemma FootprintAdd(heap: map<Addr, nat>, a: Addr, cap: nat)
    requires a !in heap
    ensures Footprint(heap[a := cap]) == Footprint(heap) + PoolableBytes(cap)
  {
    var more := heap[a := cap];
    hide SetCaps;
    SetCapsSame(Poolable(heap), heap, more);
    if cap >= POOL_MIN_BYTES {
      assert Poolable(more) == Poolable(heap) + {a};
      SetCapsAdd(Poolable(heap), more, a);
    } else {
      assert Poolable(more) == Poolable(heap);
    }
  }

  lemma FootprintRemove(heap: map<Addr, nat>, a: Addr)
    requires a in heap
    ensures Footprint(heap) == Footprint(heap - {a}) + PoolableBytes(heap[a])
  {
    var fewer := heap - {a};
    hide SetCaps;
    assert fewer[a := heap[a]] == heap;
    FootprintAdd(fewer, a, heap[a]);
  }

  /** What a step allocates in buffers of poolable size. */
  function Adds(step: Step): nat {
    match step
    case Allocate(_, slot) => PoolableBytes(slot.cap)
    case ArenaFill(_, fill) => FillAdds(fill)
    case _ => 0
  }

  function FillAdds(fill: seq<Slot>): nat {
    if fill == [] then 0 else FillAdds(fill[..|fill| - 1]) + PoolableBytes(fill[|fill| - 1].cap)
  }

  function Added(steps: seq<Step>): nat {
    if steps == [] then 0 else Adds(steps[0]) + Added(steps[1..])
  }

  lemma {:induction false} FillFootprint(s: State, fill: seq<Slot>, atLeast: nat)
    requires Fresh(s, fill, atLeast)
    ensures Footprint(AddSlots(s, fill).heap) == Footprint(s.heap) + FillAdds(fill)
  {
    if fill != [] {
      var front, last := fill[..|fill| - 1], fill[|fill| - 1];
      FillFootprint(s, front, atLeast);
      AddSlotsHeap(s, front, last.addr);
      hide Footprint;
      FootprintAdd(AddSlots(s, front).heap, last.addr, last.cap);
    }
  }

  /** What a step takes out of the poolable memory. */
  function Drops(s: State, step: Step): nat {
    if step.Free? && step.a in s.heap then PoolableBytes(s.heap[step.a]) else 0
  }

  lemma ReturnFootprint(s: State, a: Addr)
    requires Enabled(s, Return(a))
    ensures Footprint(Apply(s, Return(a)).heap) == Footprint(s.heap)
  {
    hide Footprint;
    FootprintRemove(s.heap, a);
  }

  lemma FreeFootprint(s: State, a: Addr)
    requires Enabled(s, Free(a))
    ensures Footprint(Apply(s, Free(a)).heap) + PoolableBytes(s.heap[a]) == Footprint(s.heap)
  {
    hide Footprint;
    FootprintRemove(s.heap, a);
  }

  /** A step changes the poolable memory by what it allocates, or by the rejected buffer it frees. */
  lemma StepFootprint(s: State, step: Step)
    requires Enabled(s, step)
    ensures Footprint(Apply(s, step).heap) + Drops(s, step) == Footprint(s.heap) + Adds(step)
  {
    hide Footprint, IsFirstFit, NoFit, AddSlots, Returned, Unpinned;
    match step
    case Allocate(_, slot) =>
      assert [slot][0] == slot;
      FootprintAdd(s.heap, slot.addr, slot.cap);
    case Return(a) => ReturnFootprint(s, a);
    case Free(a) => FreeFootprint(s, a);
    case ArenaFill(slotBytes, fill) => FillFootprint(s, fill, slotBytes);
    case _ =>
  }

  /** A step that allocates a buffer of poolable size. */
  predicate Enlarges(step: Step) {
    match step
    case Allocate(_, slot) => slot.cap >= POOL_MIN_BYTES
    case ArenaFill(_, fill) => exists i :: 0 <= i < |fill| && fill[i].cap >= POOL_MIN_BYTES
    case _ => false
  }

  lemma {:induction false} FillAddsIff(fill: seq<Slot>)
    ensures FillAdds(fill) > 0 <==> exists i :: 0 <= i < |fill| && fill[i].cap >= POOL_MIN_BYTES
  {
    if fill != [] {
      FillAddsIff(fill[..|fill| - 1]);
    }
  }

  lemma AddsIff(step: Step)
    ensures Adds(step) > 0 <==> Enlarges(step)
  {
    if step.ArenaFill? {
      FillAddsIff(step.fill);
    }
  }

  /** The steps that enlarge the poolable memory, in arena mode or not. */
  lemma EnlargesIff(s: State, step: Step)
    requires Enabled(s, step)
    ensures Footprint(Apply(s, step).heap) > Footprint(s.heap) <==> Enlarges(step)
  {
    StepFootprint(s, step);
    AddsIff(step);
    hide Footprint, Apply;
  }

  // ---- runs ---------------------------------------------------------------------------------------------------------

  /** Every buffer on its way to be freed is of poolable size: smaller ones are freed at once. */
  ghost predicate CondemnedPoolable(s: State) {
    forall a :: a in s.freeing ==> a in s.heap && s.heap[a] >= POOL_MIN_BYTES
  }

  lemma {:induction false} FillKeepsCapacities(s: State, fill: seq<Slot>, atLeast: nat)
    requires Fresh(s, fill, atLeast)
    ensures AddSlots(s, fill).freeing == s.freeing && AddSlots(s, fill).dropBytes == s.dropBytes
    ensures forall a :: a in s.heap ==> a in AddSlots(s, fill).heap && AddSlots(s, fill).heap[a] == s.heap[a]
  {
    if fill != [] {
      FillKeepsCapacities(s, fill[..|fill| - 1], atLeast);
    }
  }

  lemma FreeingIsApart(s: State)
    requires Inv(s)
    ensures s.lent !! s.freeing
  {
  }

  lemma CondemnedReturn(s: State, a: Addr)
    requires CondemnedPoolable(s) && s.lent !! s.freeing && Enabled(s, Return(a))
    ensures CondemnedPoolable(Apply(s, Return(a))) && Apply(s, Return(a)).dropBytes == s.dropBytes
  {
  }

  lemma CondemnedFree(s: State, a: Addr)
    requires CondemnedPoolable(s) && Enabled(s, Free(a))
    ensures CondemnedPoolable(Apply(s, Free(a)))
    ensures Apply(s, Free(a)).dropBytes == s.dropBytes + Drops(s, Free(a))
  {
  }

  /** Nothing is condemned or freed, and every capacity stays what it is. */
  ghost predicate LeavesCondemned(s: State, t: State) {
    && t.freeing == s.freeing && t.dropBytes == s.dropBytes
    && forall a :: a in s.heap ==> a in t.heap && t.heap[a] == s.heap[a]
  }

  lemma AllocateLeavesCondemned(s: State, len: nat, slot: Slot)
    requires Enabled(s, Allocate(len, slot))
    ensures LeavesCondemned(s, Apply(s, Allocate(len, slot)))
  {
    assert [slot][0] == slot;
  }

  lemma FillLeavesCondemned(s: State, slotBytes: nat, fill: seq<Slot>)
    requires Enabled(s, ArenaFill(slotBytes, fill))
    ensures LeavesCondemned(s, Apply(s, ArenaFill(slotBytes, fill)))
  {
    hide AddSlots;
    FillKeepsCapacities(s, fill, slotBytes);
  }

  lemma HitLeavesHeap(s: State, step: Step)
    requires Enabled(s, step) && (step.Hit? || step.RetryHit?)
    ensures Apply(s, step).heap == s.heap && Apply(s, step).freeing == s.freeing
    ensures Apply(s, step).dropBytes == s.dropBytes
  {
  }

  lemma OthersLeaveCondemned(s: State, step: Step)
    requires Enabled(s, step) && !step.Return? && !step.Free?
    ensures LeavesCondemned(s, Apply(s, step))
  {
    hide Enabled, Apply;
    if step.Allocate? {
      hide LeavesCondemned;
      AllocateLeavesCondemned(s, step.len, step.slot);
    } else if step.ArenaFill? {
      hide LeavesCondemned;
      FillLeavesCondemned(s, step.slotBytes, step.fill);
    } else if step.Hit? || step.RetryHit? {
      HitLeavesHeap(s, step);
    } else {
      BookkeepingOnly(s, step);
    }
  }

  lemma CondemnedStep(s: State, step: Step)
    requires Inv(s) && CondemnedPoolable(s) && Enabled(s, step)
    ensures CondemnedPoolable(Apply(s, step))
    ensures Apply(s, step).dropBytes == s.dropBytes + Drops(s, step)
  {
    hide Inv, Enabled, Apply;
    if step.Return? {
      FreeingIsApart(s);
      hide CondemnedPoolable;
      CondemnedReturn(s, step.a);
    } else if step.Free? {
      hide CondemnedPoolable, Drops;
      CondemnedFree(s, step.a);
    } else {
      OthersLeaveCondemned(s, step);
    }
  }

  lemma {:induction false} RunFootprint(s: State, steps: seq<Step>, end: State)
    requires Inv(s) && CondemnedPoolable(s) && Run(s, steps, end)
    ensures Footprint(end.heap) + end.dropBytes == Footprint(s.heap) + s.dropBytes + Added(steps)
    decreases |steps|
  {
    hide Inv, CondemnedPoolable, Enabled, Apply, Footprint, Adds, Drops;
    if steps != [] {
      StepKeeps(s, steps[0]);
      CondemnedStep(s, steps[0]);
      StepFootprint(s, steps[0]);
      RunFootprint(Apply(s, steps[0]), steps[1..], end);
    }
  }

  /** In every run, poolable bytes allocated are live or counted as dropped. */
  lemma PoolableBytesAreConserved(maxBufs: nat, maxBytes: nat, steps: seq<Step>, s: State)
    requires Run(Init(maxBufs, maxBytes), steps, s)
    ensures Footprint(s.heap) + s.dropBytes == Added(steps)
  {
    InitIsSafe(maxBufs, maxBytes);
    assert Poolable(map[]) == {};
    RunFootprint(Init(maxBufs, maxBytes), steps, s);
  }

  // ---- arena mode ---------------------------------------------------------------------------------------------------

  lemma {:induction false} SlotsKeepArena(s: State, fill: seq<Slot>)
    ensures AddSlots(s, fill).arena == s.arena && AddSlots(s, fill).freeing == s.freeing
    ensures AddSlots(s, fill).dropBytes == s.dropBytes && AddSlots(s, fill).allocating == s.allocating
  {
    if fill != [] {
      SlotsKeepArena(s, fill[..|fill| - 1]);
    }
  }

  lemma ArenaCondemnsNothing(s: State, step: Step)
    requires s.arena.Some? && s.freeing == {} && Enabled(s, step)
    ensures Apply(s, step).arena.Some? && Apply(s, step).freeing == {} && Apply(s, step).dropBytes == s.dropBytes
  {
    if step.ArenaFill? {
      SlotsKeepArena(s, step.fill);
    }
  }

  lemma {:induction false} ArenaDropsNothing(s: State, steps: seq<Step>, end: State)
    requires s.arena.Some? && s.freeing == {} && Run(s, steps, end)
    ensures end.dropBytes == s.dropBytes
    decreases |steps|
  {
    hide Enabled, Apply;
    if steps != [] {
      ArenaCondemnsNothing(s, steps[0]);
      ArenaDropsNothing(Apply(s, steps[0]), steps[1..], end);
    }
  }

  lemma {:induction false} AddedIff(steps: seq<Step>)
    ensures Added(steps) > 0 <==> exists i :: 0 <= i < |steps| && Enlarges(steps[i])
  {
    hide Enlarges, Adds;
    if steps != [] {
      AddsIff(steps[0]);
      AddedIff(steps[1..]);
      assert steps == [steps[0]] + steps[1..];
      if i :| 0 <= i < |steps| && Enlarges(steps[i]) {
        assert i > 0 ==> steps[1..][i - 1] == steps[i];
      }
    }
  }

  /** With the mode on, the poolable memory never shrinks, and over a run it stays the same if and only if no step
      allocates a buffer of poolable size. */
  lemma ArenaFootprintConstantIff(s: State, steps: seq<Step>, end: State)
    requires Inv(s) && s.arena.Some? && s.freeing == {} && Run(s, steps, end)
    ensures Footprint(end.heap) == Footprint(s.heap) + Added(steps)
    ensures Footprint(end.heap) == Footprint(s.heap) <==> forall i :: 0 <= i < |steps| ==> !Enlarges(steps[i])
  {
    assert CondemnedPoolable(s);
    hide Inv, CondemnedPoolable, Run, Footprint;
    RunFootprint(s, steps, end);
    ArenaDropsNothing(s, steps, end);
    AddedIff(steps);
  }

  /** Which requests the mode lets allocate: those that find no room and are larger than a slot, and those that
      have waited too long. */
  lemma ArenaRequestAllocatesIff(s: State, len: nat)
    requires s.arena.Some? && Enabled(s, Miss(len))
    ensures Apply(s, Miss(len)).allocating == s.allocating + multiset{len} <==> len > s.arena.value
    ensures Apply(s, Miss(len)).allocating == s.allocating <==> len <= s.arena.value
  {
    assert (s.allocating + multiset{len})[len] == s.allocating[len] + 1;
  }

  /** A request within the slot size that is not given up on, or too small to be pooled; the allocator answers a
      request that is too small with a buffer that is. */
  ghost predicate WithinGrant(s: State, step: Step) {
    && !step.GiveUp? && !step.ArenaFill?
    && (step.Miss? && s.arena.Some? ==> step.len <= s.arena.value)
    && (step.Allocate? && step.len < POOL_MIN_BYTES ==> step.slot.cap < POOL_MIN_BYTES)
  }

  ghost predicate AllWithinGrant(s: State, steps: seq<Step>, end: State)
    requires Run(s, steps, end)
    decreases |steps|
  {
    steps == [] || (WithinGrant(s, steps[0]) && AllWithinGrant(Apply(s, steps[0]), steps[1..], end))
  }

  ghost predicate OnlySmallPending(s: State) {
    forall len :: len in s.allocating ==> len < POOL_MIN_BYTES
  }

  lemma WithinGrantStep(s: State, step: Step)
    requires s.arena.Some? && OnlySmallPending(s) && Enabled(s, step) && WithinGrant(s, step)
    ensures OnlySmallPending(Apply(s, step)) && Apply(s, step).arena.Some? && !Enlarges(step)
  {
    hide IsFirstFit, NoFit, Fresh;
  }

  lemma {:induction false} WithinGrantRun(s: State, steps: seq<Step>, end: State)
    requires s.arena.Some? && OnlySmallPending(s) && Run(s, steps, end) && AllWithinGrant(s, steps, end)
    ensures forall i :: 0 <= i < |steps| ==> !Enlarges(steps[i])
    decreases |steps|
  {
    hide Enabled, Apply, Enlarges, WithinGrant, OnlySmallPending;
    if steps != [] {
      WithinGrantStep(s, steps[0]);
      WithinGrantRun(Apply(s, steps[0]), steps[1..], end);
      assert forall i :: 0 < i < |steps| ==> steps[i] == steps[1..][i - 1];
    }
  }

  /** As long as every request fits a slot and none gives up waiting, the poolable memory is a constant. */
  lemma GrantIsConstantWithinSlots(s: State, steps: seq<Step>, end: State)
    requires Inv(s) && s.arena.Some? && s.freeing == {} && OnlySmallPending(s)
    requires Run(s, steps, end) && AllWithinGrant(s, steps, end)
    ensures Footprint(end.heap) == Footprint(s.heap)
  {
    hide Inv, Run, Footprint, OnlySmallPending, AllWithinGrant;
    WithinGrantRun(s, steps, end);
    ArenaFootprintConstantIff(s, steps, end);
  }

  lemma {:induction false} CapAtMostSum(b: seq<Addr>, heap: map<Addr, nat>, j: nat)
    requires j < |b|
    ensures Cap(heap, b[j]) <= SumCaps(b, heap)
  {
    if j < |b| - 1 {
      CapAtMostSum(b[..|b| - 1], heap, j);
    }
  }

  lemma NothingPooledFits(s: State, len: nat)
    requires Inv(s) && len > s.bytes
    ensures NoFit(s, len)
  {
    forall j | 0 <= j < |s.bufs| && s.bufs[j] in s.heap ensures s.heap[s.bufs[j]] < len {
      CapAtMostSum(s.bufs, s.heap, j);
    }
  }

  /** From every state with the mode on, a request larger than a slot and than everything pooled allocates a buffer
      outside the grant; and that buffer is never given back. */
  lemma GrowsPastTheGrant(s: State) returns (steps: seq<Step>, end: State, a: Addr)
    requires Inv(s) && s.arena.Some?
    ensures Run(s, steps, end) && Inv(end) && |steps| == 2
    ensures Footprint(end.heap) > Footprint(s.heap)
    ensures a !in s.heap && forall more, later :: Run(end, more, later) ==> a in later.heap
  {
    var len := s.arena.value + s.bytes + POOL_MIN_BYTES + 1;
    NothingPooledFits(s, len);
    a := FreshAddress(s.heap);
    var slot := Slot(a, len, false);
    var t := MissedInArena(s, len);
    end := AllocatedInArena(t, len, slot);
    hide Inv, Enabled, Apply, Footprint;
    EnlargesIff(s, Miss(len));
    StepFootprint(s, Miss(len));
    EnlargesIff(t, Allocate(len, slot));
    OneStep(s, Miss(len));
    OneStep(t, Allocate(len, slot));
    RunConcat(s, [Miss(len)], t, [Allocate(len, slot)], end);
    steps := [Miss(len)] + [Allocate(len, slot)];
    forall more, later | Run(end, more, later) ensures a in later.heap {
      ArenaNeverLosesABuffer(end, more, later, a, len);
    }
  }

  lemma MissedInArena(s: State, len: nat) returns (t: State)
    requires Inv(s) && s.arena.Some? && len >= POOL_MIN_BYTES && len > s.arena.value && NoFit(s, len)
    ensures Enabled(s, Miss(len)) && t == Apply(s, Miss(len)) && Inv(t) && len in t.allocating
    ensures t.heap == s.heap && t.arena == s.arena
  {
    StepKeeps(s, Miss(len));
    t := Apply(s, Miss(len));
    hide Inv;
  }

  lemma AllocatedInArena(s: State, len: nat, slot: Slot) returns (t: State)
    requires Inv(s) && s.arena.Some? && len in s.allocating && slot.addr !in s.heap && slot.cap == len >= POOL_MIN_BYTES
    ensures Enabled(s, Allocate(len, slot)) && t == Apply(s, Allocate(len, slot)) && Inv(t)
    ensures t.arena == s.arena && Kept(t, slot.addr, len)
  {
    StepKeeps(s, Allocate(len, slot));
    t := Apply(s, Allocate(len, slot));
    assert slot.addr !in s.freeing;
    hide Inv;
  }
}
