/** What the pool's counters count over a run, and what one hit, one return and one allocation do, told without the
    transition function. */
module PoolCounters {
  import opened Collections
  import opened Pool
  import opened PoolSafety

  /** How often each counter is to move at this step. */
  datatype Tally = Tally(hits: nat, misses: nat, drops: nat, slots: nat)

  ghost function Moves(step: Step): Tally {
    match step
    case Hit(_, _) => Tally(1, 0, 0, 0)
    case RetryHit(_, _) => Tally(1, 0, 0, 0)
    case Miss(_) => Tally(0, 1, 0, 0)
    case Free(_) => Tally(0, 0, 1, 0)
    case ArenaFill(_, fill) => Tally(0, 0, 0, |fill|)
    case _ => Tally(0, 0, 0, 0)
  }

  ghost function Plus(a: Tally, b: Tally): Tally {
    Tally(a.hits + b.hits, a.misses + b.misses, a.drops + b.drops, a.slots + b.slots)
  }

  ghost function Told(steps: seq<Step>): Tally {
    if steps == [] then Tally(0, 0, 0, 0) else Plus(Moves(steps[0]), Told(steps[1..]))
  }

  ghost function Shown(s: State): Tally {
    Tally(s.hits, s.misses, s.drops, s.slots)
  }

  lemma {:induction false} FillCounts(s: State, fill: seq<Slot>)
    ensures Shown(AddSlots(s, fill)) == Plus(Shown(s), Tally(0, 0, 0, |fill|))
  {
    if fill != [] {
      FillCounts(s, fill[..|fill| - 1]);
    }
  }

  lemma FillStepCounts(s: State, step: Step)
    requires Enabled(s, step) && step.ArenaFill?
    ensures Shown(Apply(s, step)) == Plus(Shown(s), Moves(step))
  {
    hide Fresh, AddSlots;
    FillCounts(s, step.fill);
  }

  lemma TakeStepCounts(s: State, step: Step)
    requires Enabled(s, step) && (step.Hit? || step.RetryHit?)
    ensures Shown(Apply(s, step)) == Plus(Shown(s), Moves(step))
  {
    hide SwapRemove;
  }

  lemma BufferStepCounts(s: State, step: Step)
    requires Enabled(s, step) && (step.Return? || step.Free? || step.Allocate?)
    ensures Shown(Apply(s, step)) == Plus(Shown(s), Moves(step))
  {
    hide Fresh;
  }

  lemma StepCounts(s: State, step: Step)
    requires Enabled(s, step)
    ensures Shown(Apply(s, step)) == Plus(Shown(s), Moves(step))
  {
    hide Fresh, IsFirstFit, NoFit;
    if step.ArenaFill? {
      hide *;
      FillStepCounts(s, step);
    } else if step.Hit? || step.RetryHit? {
      hide *;
      TakeStepCounts(s, step);
    } else if step.Return? || step.Free? || step.Allocate? {
      hide *;
      BufferStepCounts(s, step);
    }
  }

  lemma {:induction false} RunCounts(s: State, steps: seq<Step>, end: State)
    requires Run(s, steps, end)
    ensures Shown(end) == Plus(Shown(s), Told(steps))
    decreases |steps|
  {
    hide Enabled, Apply;
    if steps != [] {
      StepCounts(s, steps[0]);
      RunCounts(Apply(s, steps[0]), steps[1..], end);
    }
  }

  /** In every run the counters are the number of hits, misses, freed rejects and arena slots. */
  lemma CountersTellTheRun(maxBufs: nat, maxBytes: nat, steps: seq<Step>, s: State)
    requires Run(Init(maxBufs, maxBytes), steps, s)
    ensures Tally(s.hits, s.misses, s.drops, s.slots) == Told(steps)
  {
    RunCounts(Init(maxBufs, maxBytes), steps, s);
  }

  // ---- requests -----------------------------------------------------------------------------------------------------

  /** The requests that have neither a buffer nor an error yet. */
  ghost function Pending(s: State): multiset<nat> {
    s.waiting + s.allocating
  }

  /** What a step adds to them: a request that found no buffer, or asks for less than the pool keeps. */
  ghost function Asked(step: Step): multiset<nat> {
    match step
    case Small(len) => multiset{len}
    case Miss(len) => multiset{len}
    case _ => multiset{}
  }

  /** What it takes away: a request that got a returned slot or a fresh allocation. */
  ghost function Served(step: Step): multiset<nat> {
    match step
    case RetryHit(len, _) => multiset{len}
    case Allocate(len, _) => multiset{len}
    case _ => multiset{}
  }

  ghost function AllAsked(steps: seq<Step>): multiset<nat> {
    if steps == [] then multiset{} else Asked(steps[0]) + AllAsked(steps[1..])
  }

  ghost function AllServed(steps: seq<Step>): multiset<nat> {
    if steps == [] then multiset{} else Served(steps[0]) + AllServed(steps[1..])
  }

  lemma {:induction false} FillServesNone(s: State, fill: seq<Slot>)
    ensures Pending(AddSlots(s, fill)) == Pending(s)
  {
    if fill != [] {
      FillServesNone(s, fill[..|fill| - 1]);
    }
  }

  lemma FillStepServes(s: State, step: Step)
    requires Enabled(s, step) && step.ArenaFill?
    ensures Pending(Apply(s, step)) == Pending(s)
  {
    hide Fresh, AddSlots;
    FillServesNone(s, step.fill);
  }

  lemma BufferStepServes(s: State, step: Step)
    requires Enabled(s, step) && (step.Return? || step.Free? || step.Hit?)
    ensures Pending(Apply(s, step)) == Pending(s)
  {
    hide SwapRemove;
  }

  lemma AskingStepServes(s: State, step: Step)
    requires Enabled(s, step) && (step.Miss? || step.Small?)
    ensures Pending(Apply(s, step)) == Pending(s) + Asked(step)
  {
    hide NoFit;
  }

  lemma TakenAndBack(m: multiset<nat>, len: nat)
    requires len in m
    ensures (m - multiset{len}) + multiset{len} == m
  {
  }

  lemma WaitingStepServes(s: State, step: Step)
    requires Enabled(s, step) && (step.GiveUp? || step.RetryHit?)
    ensures Pending(Apply(s, step)) + Served(step) == Pending(s)
  {
    hide IsFirstFit, NoFit, SwapRemove;
    TakenAndBack(s.waiting, step.len);
  }

  lemma AllocatingStepServes(s: State, step: Step)
    requires Enabled(s, step) && step.Allocate?
    ensures Pending(Apply(s, step)) + Served(step) == Pending(s)
  {
    hide Fresh;
    TakenAndBack(s.allocating, step.len);
  }

  lemma Balance(p: multiset<nat>, a: multiset<nat>, q: multiset<nat>, b: multiset<nat>, r: multiset<nat>,
                c: multiset<nat>, d: multiset<nat>)
    requires q + b == p + a && r + d == q + c
    ensures r + (b + d) == p + (a + c)
  {
    forall x ensures (r + (b + d))[x] == (p + (a + c))[x] {
      assert (q + b)[x] == (p + a)[x] && (r + d)[x] == (q + c)[x];
    }
  }

  lemma StepServes(s: State, step: Step)
    requires Enabled(s, step)
    ensures Pending(Apply(s, step)) + Served(step) == Pending(s) + Asked(step)
  {
    if step.ArenaFill? {
      FillStepServes(s, step);
    } else if step.Return? || step.Free? || step.Hit? {
      BufferStepServes(s, step);
    } else if step.Miss? || step.Small? {
      AskingStepServes(s, step);
    } else if step.GiveUp? || step.RetryHit? {
      WaitingStepServes(s, step);
    } else if step.Allocate? {
      AllocatingStepServes(s, step);
    }
    hide Enabled;
  }

  lemma {:induction false} RunServes(s: State, steps: seq<Step>, end: State)
    requires Run(s, steps, end)
    ensures Pending(end) + AllServed(steps) == Pending(s) + AllAsked(steps)
    decreases |steps|
  {
    hide Enabled, Apply, Pending, Asked, Served;
    if steps != [] {
      var t := Apply(s, steps[0]);
      StepServes(s, steps[0]);
      RunServes(t, steps[1..], end);
      Balance(Pending(s), Asked(steps[0]), Pending(t), Served(steps[0]), Pending(end), AllAsked(steps[1..]),
              AllServed(steps[1..]));
    }
  }

  /** No request is lost or served twice: in every run, those asked for without a hit are those served and those still
      pending, size by size. */
  lemma RequestsAreConserved(maxBufs: nat, maxBytes: nat, steps: seq<Step>, s: State)
    requires Run(Init(maxBufs, maxBytes), steps, s)
    ensures s.waiting + s.allocating + AllServed(steps) == AllAsked(steps)
  {
    RunServes(Init(maxBufs, maxBytes), steps, s);
  }

  // ---- single steps -------------------------------------------------------------------------------------------------

  /** A hit lends out the first pooled buffer with room; the last pooled buffer takes its place and no other moves. */
  lemma HitTakesFirstFit(s: State, len: nat, i: nat)
    requires Inv(s) && Enabled(s, Hit(len, i))
    ensures var t := Apply(s, Hit(len, i)); var last := |s.bufs| - 1;
            && i <= last && s.heap[s.bufs[i]] >= len && t.lent == s.lent + {s.bufs[i]} && t.heap == s.heap
            && |t.bufs| == last && forall j :: 0 <= j < last ==> t.bufs[j] == if j == i then s.bufs[last] else s.bufs[j]
    ensures forall j :: 0 <= j < i ==> s.bufs[j] in s.heap && s.heap[s.bufs[j]] < len
  {
    PooledIsLive(s);
  }

  /** A returned buffer below one mebibyte is freed at once; a larger one joins the end of the pool in arena mode or
      within both caps, and waits to be freed otherwise. */
  lemma ReturnGoesWhere(s: State, a: Addr)
    requires Inv(s) && Enabled(s, Return(a))
    ensures var t, cap := Apply(s, Return(a)), s.heap[a];
            if cap < 0x10_0000 then t.heap == s.heap - {a} && t.bufs == s.bufs && t.freeing == s.freeing
            else if s.arena.Some? || (|s.bufs| < s.maxBufs && s.bytes + cap <= s.maxBytes)
            then t.heap == s.heap && t.bufs == s.bufs + [a] && t.freeing == s.freeing
            else t.heap == s.heap && t.bufs == s.bufs && t.freeing == s.freeing + {a}
    ensures Apply(s, Return(a)).lent == s.lent - {a}
  {
  }

  /** A new buffer is page-locked if and only if hooks are installed, it has a mebibyte or more, the ceiling has room
      for it and the driver agrees. */
  lemma LockedIff(s: State, len: nat, slot: Slot)
    requires Inv(s) && Enabled(s, Allocate(len, slot))
    ensures slot.addr in Apply(s, Allocate(len, slot)).pins
       <==> s.hooks && slot.cap >= 0x10_0000 && s.pinBytes + slot.cap <= s.pinMax && slot.driverAgrees
    ensures slot.addr in Apply(s, Allocate(len, slot)).lent
    ensures Apply(s, Allocate(len, slot)).heap == s.heap[slot.addr := slot.cap]
  {
    assert [slot][0].addr !in s.heap;
    NotLockedBefore(s, slot.addr);
    hide Inv;
  }

  lemma NotLockedBefore(s: State, a: Addr)
    requires Inv(s) && a !in s.heap
    ensures a !in s.pins
  {
  }
}
