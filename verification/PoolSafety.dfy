/** What holds in every run of the recycling pool: byte and count accounting, single ownership, the organic
    caps, symmetric page-locks, and an active arena that never loses a buffer. */
module PoolSafety {
  import opened Collections
  import opened Wrappers
  import opened Pool

  function Cap(heap: map<Addr, nat>, a: Addr): nat {
    if a in heap then heap[a] else 0
  }

  /** The capacities of a list of buffers, added up. */
  function SumCaps(b: seq<Addr>, heap: map<Addr, nat>): nat {
    if b == [] then 0 else SumCaps(b[..|b| - 1], heap) + Cap(heap, b[|b| - 1])
  }

  /** The capacities of a set of buffers, added up. */
  ghost function SetCaps(s: set<Addr>, heap: map<Addr, nat>): nat {
    if s == {} then 0
    else
      var a :| a in s;
      SetCaps(s - {a}, heap) + Cap(heap, a)
  }

  // ---- sums -------------------------------------------------------------------------------------------------

  lemma {:induction false} SetCapsRemove(s: set<Addr>, heap: map<Addr, nat>, a: Addr)
    requires a in s
    ensures SetCaps(s, heap) == SetCaps(s - {a}, heap) + Cap(heap, a)
    decreases |s|
  {
    var b :| b in s && SetCaps(s, heap) == SetCaps(s - {b}, heap) + Cap(heap, b);
    if b != a {
      SetCapsRemove(s - {b}, heap, a);
      SetCapsRemove(s - {a}, heap, b);
      assert s - {b} - {a} == s - {a} - {b};
    }
  }

  lemma SetCapsAdd(s: set<Addr>, heap: map<Addr, nat>, a: Addr)
    requires a !in s
    ensures SetCaps(s + {a}, heap) == SetCaps(s, heap) + Cap(heap, a)
  {
    SetCapsRemove(s + {a}, heap, a);
    assert s + {a} - {a} == s;
  }

  lemma {:induction false} SetCapsSame(s: set<Addr>, h: map<Addr, nat>, g: map<Addr, nat>)
    requires forall a :: a in s ==> Cap(h, a) == Cap(g, a)
    ensures SetCaps(s, h) == SetCaps(s, g)
    decreases |s|
  {
    if s != {} {
      var a :| a in s;
      SetCapsRemove(s, h, a);
      SetCapsRemove(s, g, a);
      SetCapsSame(s - {a}, h, g);
    }
  }

  lemma {:induction false} SumCapsSame(b: seq<Addr>, h: map<Addr, nat>, g: map<Addr, nat>)
    requires forall a :: a in b ==> Cap(h, a) == Cap(g, a)
    ensures SumCaps(b, h) == SumCaps(b, g)
  {
    if b != [] {
      SumCapsSame(b[..|b| - 1], h, g);
    }
  }

  lemma SumCapsSnoc(b: seq<Addr>, a: Addr, heap: map<Addr, nat>)
    ensures SumCaps(b + [a], heap) == SumCaps(b, heap) + Cap(heap, a)
  {
  }

  lemma {:induction false} SumCapsUpdate(b: seq<Addr>, i: nat, a: Addr, heap: map<Addr, nat>)
    requires i < |b|
    ensures SumCaps(b[i := a], heap) + Cap(heap, b[i]) == SumCaps(b, heap) + Cap(heap, a)
  {
    var n := |b| - 1;
    if i < n {
      SumCapsUpdate(b[..n], i, a, heap);
      assert b[i := a][..n] == b[..n][i := a];
    } else {
      assert b[i := a][..n] == b[..n];
    }
  }

  lemma SwapRemoveMembers(b: seq<Addr>, i: nat)
    requires i < |b| && Distinct(b)
    ensures Elems(SwapRemove(b, i)) == Elems(b) - {b[i]}
  {
    var last := |b| - 1;
    var r := SwapRemove(b, i);
    forall x ensures x in r <==> x in b && x != b[i] {
      if x in b && x != b[i] {
        var j :| 0 <= j < |b| && b[j] == x;
        assert r[if j == last then i else j] == x;
      }
    }
  }

  lemma SwapRemoveTakesOne(b: seq<Addr>, i: nat, heap: map<Addr, nat>)
    requires i < |b| && Distinct(b)
    ensures Distinct(SwapRemove(b, i))
    ensures Elems(SwapRemove(b, i)) == Elems(b) - {b[i]}
    ensures SumCaps(SwapRemove(b, i), heap) + Cap(heap, b[i]) == SumCaps(b, heap)
  {
    var last := |b| - 1;
    SwapRemoveMembers(b, i);
    SumCapsUpdate(b, i, b[last], heap);
    assert b[i := b[last]] == SwapRemove(b, i) + [b[last]];
    SumCapsSnoc(SwapRemove(b, i), b[last], heap);
  }

  // ---- the invariant --------------------------------------------------------------------------------------

  /** The live allocations are those in the pool, in callers' hands and on their way to be freed, all apart. */
  ghost predicate Parts(pooled: set<Addr>, live: set<Addr>, lent: set<Addr>, freeing: set<Addr>) {
    live == pooled + lent + freeing && pooled !! lent !! freeing
  }

  /** Every live allocation is in exactly one place, and in the pool once. */
  ghost predicate OneOwner(bufs: seq<Addr>, live: set<Addr>, lent: set<Addr>, freeing: set<Addr>) {
    Distinct(bufs) && Parts(Elems(bufs), live, lent, freeing)
  }

  ghost predicate Owned(s: State) {
    OneOwner(s.bufs, s.heap.Keys, s.lent, s.freeing)
  }

  ghost predicate Accounted(s: State) {
    && s.bytes == SumCaps(s.bufs, s.heap)
    && |s.bufs| + s.hits == s.pushes + s.slots
  }

  /** Until an arena is filled, retention is within both caps; the mode is only switched on after a fill. */
  ghost predicate Capped(s: State) {
    && (s.slots == 0 ==> |s.bufs| <= s.maxBufs && s.bytes <= s.maxBytes)
    && (s.arena.Some? || s.activating != multiset{} ==> s.slots > 0)
  }

  /** Every page-lock is on a live allocation of poolable size, and the locked bytes are their capacities. */
  ghost predicate Locked(s: State) {
    && (forall a :: a in s.pins ==> a in s.heap && s.heap[a] >= POOL_MIN_BYTES)
    && (s.pins != {} ==> s.hooks)
    && s.pinBytes == SetCaps(s.pins, s.heap)
  }

  ghost predicate Inv(s: State) {
    Owned(s) && Accounted(s) && Capped(s) && Locked(s)
  }

  // ---- ownership moves ----------------------------------------------------------------------------------------

  lemma OwnerLends(bufs: seq<Addr>, live: set<Addr>, lent: set<Addr>, freeing: set<Addr>, i: nat)
    requires OneOwner(bufs, live, lent, freeing) && i < |bufs|
    ensures bufs[i] in live && OneOwner(SwapRemove(bufs, i), live, lent + {bufs[i]}, freeing)
  {
    SwapRemoveTakesOne(bufs, i, map[]);
    hide SwapRemove, Distinct;
    assert bufs[i] in Elems(bufs);
  }

  lemma PartsAllocate(pooled: set<Addr>, live: set<Addr>, lent: set<Addr>, freeing: set<Addr>, a: Addr)
    requires Parts(pooled, live, lent, freeing) && a !in live
    ensures a !in pooled && Parts(pooled, live + {a}, lent + {a}, freeing)
    ensures Parts(pooled + {a}, live + {a}, lent, freeing)
  {
  }

  lemma PartsKeep(pooled: set<Addr>, live: set<Addr>, lent: set<Addr>, freeing: set<Addr>, a: Addr)
    requires Parts(pooled, live, lent, freeing) && a in lent
    ensures a !in pooled && a !in freeing && Parts(pooled + {a}, live, lent - {a}, freeing)
  {
  }

  lemma PartsReject(pooled: set<Addr>, live: set<Addr>, lent: set<Addr>, freeing: set<Addr>, a: Addr)
    requires Parts(pooled, live, lent, freeing) && a in lent
    ensures Parts(pooled, live, lent - {a}, freeing + {a})
  {
  }

  lemma PartsFree(pooled: set<Addr>, live: set<Addr>, lent: set<Addr>, freeing: set<Addr>, a: Addr)
    requires Parts(pooled, live, lent, freeing)
    ensures a in lent ==> Parts(pooled, live - {a}, lent - {a}, freeing)
    ensures a in freeing ==> a !in pooled && Parts(pooled, live - {a}, lent, freeing - {a})
  {
  }

  lemma OwnerAllocates(bufs: seq<Addr>, live: set<Addr>, lent: set<Addr>, freeing: set<Addr>, a: Addr)
    requires OneOwner(bufs, live, lent, freeing) && a !in live
    ensures a !in Elems(bufs) && OneOwner(bufs, live + {a}, lent + {a}, freeing)
    ensures OneOwner(bufs + [a], live + {a}, lent, freeing)
  {
    hide Distinct, Elems, Parts;
    PartsAllocate(Elems(bufs), live, lent, freeing, a);
    PushTakesOneMore(bufs, a, map[]);
  }

  lemma OwnerReturns(bufs: seq<Addr>, live: set<Addr>, lent: set<Addr>, freeing: set<Addr>, a: Addr)
    requires OneOwner(bufs, live, lent, freeing) && a in lent
    ensures a !in Elems(bufs)
    ensures OneOwner(bufs + [a], live, lent - {a}, freeing)
    ensures OneOwner(bufs, live, lent - {a}, freeing + {a})
    ensures OneOwner(bufs, live - {a}, lent - {a}, freeing)
  {
    hide Distinct, Elems, Parts;
    PartsKeep(Elems(bufs), live, lent, freeing, a);
    PartsReject(Elems(bufs), live, lent, freeing, a);
    PartsFree(Elems(bufs), live, lent, freeing, a);
    PushTakesOneMore(bufs, a, map[]);
  }

  lemma OwnerFrees(bufs: seq<Addr>, live: set<Addr>, lent: set<Addr>, freeing: set<Addr>, a: Addr)
    requires OneOwner(bufs, live, lent, freeing) && a in freeing
    ensures a !in Elems(bufs) && OneOwner(bufs, live - {a}, lent, freeing - {a})
  {
    hide Distinct, Elems, Parts;
    PartsFree(Elems(bufs), live, lent, freeing, a);
  }

  /** Adding a buffer to the pool's list. */
  lemma PushTakesOneMore(b: seq<Addr>, a: Addr, heap: map<Addr, nat>)
    requires Distinct(b) && a !in Elems(b)
    ensures Distinct(b + [a]) && Elems(b + [a]) == Elems(b) + {a}
    ensures SumCaps(b + [a], heap) == SumCaps(b, heap) + Cap(heap, a)
  {
  }

  // ---- each operation keeps the invariant ------------------------------------------------------------------------

  lemma TakeKeeps(s: State, i: nat)
    requires Inv(s) && i < |s.bufs| && s.bufs[i] in s.heap
    ensures Inv(Take(s, i))
  {
    assert Distinct(s.bufs);
    SwapRemoveTakesOne(s.bufs, i, s.heap);
    OwnerLends(s.bufs, s.heap.Keys, s.lent, s.freeing, i);
    hide SwapRemove, SumCaps, SetCaps, Distinct, OneOwner, Elems;
  }

  /** The pool, its owners and its page-locks are the same, and no arena has become active or pending. */
  ghost predicate BooksKept(s: State, t: State) {
    && t.bufs == s.bufs && t.bytes == s.bytes && t.heap == s.heap && t.lent == s.lent && t.freeing == s.freeing
    && t.pins == s.pins && t.pinBytes == s.pinBytes && (s.hooks ==> t.hooks) && t.dropBytes == s.dropBytes
    && t.hits == s.hits && t.pushes == s.pushes && t.slots == s.slots && t.maxBufs == s.maxBufs
    && t.maxBytes == s.maxBytes
    && (t.arena.Some? || t.activating != multiset{} ==> s.arena.Some? || s.activating != multiset{})
  }

  lemma SameBooks(s: State, t: State)
    requires Inv(s) && BooksKept(s, t)
    ensures Inv(t)
  {
    hide SumCaps, SetCaps, OneOwner;
  }

  lemma HitKeeps(s: State, step: Step)
    requires Inv(s) && Enabled(s, step) && (step.Hit? || step.RetryHit?)
    ensures Inv(Apply(s, step))
  {
    TakeKeeps(s, step.i);
    hide Inv;
    SameBooks(Take(s, step.i), Apply(s, step));
  }

  /** A new allocation disturbs nothing that is counted. */
  lemma AllocatedSums(s: State, a: Addr, cap: nat)
    requires Inv(s) && a !in s.heap
    ensures SumCaps(s.bufs, Allocated(s, a, cap).heap) == s.bytes
    ensures SetCaps(s.pins, Allocated(s, a, cap).heap) == s.pinBytes
  {
    assert a !in Elems(s.bufs);
    hide SumCaps, SetCaps, OneOwner;
    SumCapsSame(s.bufs, s.heap, s.heap[a := cap]);
    SetCapsSame(s.pins, s.heap, s.heap[a := cap]);
  }

  lemma PinnedLeaves(s: State, a: Addr, driverAgrees: bool)
    requires a in s.heap
    ensures var t := Pinned(s, a, driverAgrees); t == s.(pins := t.pins, pinBytes := t.pinBytes)
  {
  }

  lemma PinnedKeeps(s: State, slot: Slot)
    requires Inv(s) && slot.addr !in s.heap
    ensures Locked(Pinned(Allocated(s, slot.addr, slot.cap), slot.addr, slot.driverAgrees))
  {
    var t := Allocated(s, slot.addr, slot.cap);
    AllocatedSums(s, slot.addr, slot.cap);
    SetCapsAdd(s.pins, t.heap, slot.addr);
    hide SumCaps, SetCaps, Owned, Accounted, Capped;
  }

  lemma LiveAfter(heap: map<Addr, nat>, a: Addr, cap: nat)
    ensures heap[a := cap].Keys == heap.Keys + {a} && (heap - {a}).Keys == heap.Keys - {a}
  {
  }

  /** A fresh allocation that goes to a caller. */
  lemma LentOutKeeps(s: State, slot: Slot)
    requires Inv(s) && slot.addr !in s.heap
    ensures Inv(Pinned(Allocated(s, slot.addr, slot.cap), slot.addr, slot.driverAgrees).(lent := s.lent + {slot.addr}))
  {
    var a := slot.addr;
    AllocatedSums(s, a, slot.cap);
    PinnedKeeps(s, slot);
    PinnedLeaves(Allocated(s, a, slot.cap), a, slot.driverAgrees);
    LiveAfter(s.heap, a, slot.cap);
    OwnerAllocates(s.bufs, s.heap.Keys, s.lent, s.freeing, a);
    hide SumCaps, SetCaps, OneOwner, Pinned;
  }

  lemma AllocateKeeps(s: State, len: nat, slot: Slot)
    requires Inv(s) && Enabled(s, Allocate(len, slot))
    ensures Inv(Apply(s, Allocate(len, slot)))
  {
    assert [slot][0] == slot;
    var u := s.(allocating := s.allocating - multiset{len});
    hide Inv;
    SameBooks(s, u);
    LentOutKeeps(u, slot);
  }

  lemma JoinsOwned(s: State, v: State, a: Addr, cap: nat)
    requires Owned(s) && a !in s.heap
    requires v.bufs == s.bufs + [a] && v.heap == s.heap[a := cap] && v.lent == s.lent && v.freeing == s.freeing
    ensures Owned(v)
  {
    LiveAfter(s.heap, a, cap);
    OwnerAllocates(s.bufs, s.heap.Keys, s.lent, s.freeing, a);
    hide OneOwner;
  }

  lemma JoinsAccounted(s: State, v: State, a: Addr, cap: nat)
    requires Inv(s) && a !in s.heap && v.bufs == s.bufs + [a] && v.heap == s.heap[a := cap] && v.bytes == s.bytes + cap
    requires v.hits == s.hits && v.pushes == s.pushes && v.slots == s.slots + 1
    ensures Accounted(v) && Capped(v)
  {
    AllocatedSums(s, a, cap);
    SumCapsSnoc(s.bufs, a, s.heap[a := cap]);
    hide SumCaps, SetCaps, OneOwner;
  }

  lemma SameLocks(u: State, v: State)
    requires Locked(u) && v.pins == u.pins && v.heap == u.heap && v.pinBytes == u.pinBytes && v.hooks == u.hooks
    ensures Locked(v)
  {
    hide SetCaps;
  }

  lemma JoinsPool(s: State, u: State, a: Addr, cap: nat)
    requires Inv(s) && a !in s.heap && u == Allocated(s, a, cap).(pins := u.pins, pinBytes := u.pinBytes) && Locked(u)
    ensures Inv(u.(bytes := s.bytes + cap, bufs := s.bufs + [a], slots := s.slots + 1))
  {
    var v := u.(bytes := s.bytes + cap, bufs := s.bufs + [a], slots := s.slots + 1);
    assert Owned(s);
    hide Owned, Accounted, Capped, Locked;
    JoinsOwned(s, v, a, cap);
    JoinsAccounted(s, v, a, cap);
    SameLocks(u, v);
  }

  /** A fresh allocation that joins the pool. */
  lemma AddSlotKeeps(s: State, slot: Slot)
    requires Inv(s) && slot.addr !in s.heap
    ensures Inv(AddSlot(s, slot))
  {
    hide Inv, Locked, Pinned;
    var a := slot.addr;
    var u := Pinned(Allocated(s, a, slot.cap), a, slot.driverAgrees);
    PinnedKeeps(s, slot);
    PinnedLeaves(Allocated(s, a, slot.cap), a, slot.driverAgrees);
    JoinsPool(s, u, a, slot.cap);
  }

  lemma {:induction false} AddSlotsHeap(s: State, fill: seq<Slot>, a: Addr)
    requires a !in s.heap && forall i :: 0 <= i < |fill| ==> fill[i].addr != a
    ensures a !in AddSlots(s, fill).heap
  {
    if fill != [] {
      AddSlotsHeap(s, fill[..|fill| - 1], a);
    }
  }

  lemma {:induction false} AddSlotsKeeps(s: State, fill: seq<Slot>, atLeast: nat)
    requires Inv(s) && Fresh(s, fill, atLeast)
    ensures Inv(AddSlots(s, fill)) && AddSlots(s, fill).slots == s.slots + |fill|
  {
    if fill != [] {
      var front, last := fill[..|fill| - 1], fill[|fill| - 1];
      AddSlotsKeeps(s, front, atLeast);
      AddSlotsHeap(s, front, last.addr);
      hide Inv;
      AddSlotKeeps(AddSlots(s, front), last);
    }
  }

  lemma {:induction false} AddSlotsActivating(s: State, fill: seq<Slot>)
    ensures AddSlots(s, fill).activating == s.activating
  {
    if fill != [] {
      AddSlotsActivating(s, fill[..|fill| - 1]);
    }
  }

  /** An arena that has slots may be activated. */
  lemma PendingKeeps(t: State, slotBytes: nat)
    requires Inv(t) && t.slots > 0
    ensures Inv(t.(activating := t.activating + multiset{slotBytes}))
  {
    hide SumCaps, SetCaps, OneOwner;
  }

  lemma FillKeeps(s: State, slotBytes: nat, fill: seq<Slot>)
    requires Inv(s) && Enabled(s, ArenaFill(slotBytes, fill))
    ensures Inv(Apply(s, ArenaFill(slotBytes, fill)))
  {
    hide Inv, AddSlots, Fresh;
    AddSlotsKeeps(s, fill, slotBytes);
    AddSlotsActivating(s, fill);
    PendingKeeps(AddSlots(s, fill), slotBytes);
  }

  /** A return that the pool accepts. */
  lemma PushedKeeps(s: State, a: Addr)
    requires Inv(s) && a in s.lent && a in s.heap
    requires s.slots > 0 || (|s.bufs| < s.maxBufs && s.bytes + s.heap[a] <= s.maxBytes)
    ensures Inv(s.(lent := s.lent - {a}, bytes := s.bytes + s.heap[a], bufs := s.bufs + [a], pushes := s.pushes + 1))
  {
    OwnerReturns(s.bufs, s.heap.Keys, s.lent, s.freeing, a);
    SumCapsSnoc(s.bufs, a, s.heap);
    hide SumCaps, SetCaps, OneOwner;
  }

  /** A return below the pool's minimum goes straight to the allocator; it was never page-locked. */
  lemma SmallFreedKeeps(s: State, a: Addr)
    requires Inv(s) && a in s.lent && a in s.heap && s.heap[a] < POOL_MIN_BYTES
    ensures Inv(Freed(s.(lent := s.lent - {a}), a))
  {
    OwnerReturns(s.bufs, s.heap.Keys, s.lent, s.freeing, a);
    FreedSums(s, a);
    LiveAfter(s.heap, a, 0);
    hide SumCaps, SetCaps, OneOwner;
  }

  lemma RejectedKeeps(s: State, a: Addr)
    requires Inv(s) && a in s.lent && a in s.heap
    ensures Inv(s.(lent := s.lent - {a}, freeing := s.freeing + {a}))
  {
    OwnerReturns(s.bufs, s.heap.Keys, s.lent, s.freeing, a);
    hide SumCaps, SetCaps, OneOwner;
  }

  lemma ArenaHasSlots(s: State)
    requires Inv(s) && s.arena.Some?
    ensures s.slots > 0
  {
  }

  lemma ReturnedKeeps(s: State, a: Addr)
    requires Inv(s) && a in s.lent && a in s.heap
    ensures Inv(Returned(s, a))
  {
    hide Inv, Freed;
    if s.heap[a] < POOL_MIN_BYTES {
      SmallFreedKeeps(s, a);
    } else if s.arena.Some? || (|s.bufs| < s.maxBufs && s.bytes + s.heap[a] <= s.maxBytes) {
      if s.arena.Some? {
        ArenaHasSlots(s);
      }
      PushedKeeps(s, a);
    } else {
      RejectedKeeps(s, a);
    }
  }

  /** Freeing what is neither pooled nor locked leaves both sums. */
  lemma FreedSums(s: State, a: Addr)
    requires a !in Elems(s.bufs) && a !in s.pins
    ensures SumCaps(s.bufs, s.heap - {a}) == SumCaps(s.bufs, s.heap)
    ensures SetCaps(s.pins, s.heap - {a}) == SetCaps(s.pins, s.heap)
  {
    forall b | b in s.bufs ensures b != a {
      assert b in Elems(s.bufs);
    }
    SumCapsSame(s.bufs, s.heap, s.heap - {a});
    SetCapsSame(s.pins, s.heap, s.heap - {a});
  }

  /** Releasing the page-lock, if there is one. */
  lemma UnpinnedKeeps(s: State, a: Addr)
    requires Inv(s) && a in s.heap
    ensures var t := Unpinned(s, a); Locked(t) && a !in t.pins && t == s.(pins := t.pins, pinBytes := t.pinBytes)
  {
    if a in s.pins {
      SetCapsRemove(s.pins, s.heap, a);
    }
    hide SumCaps, SetCaps, OneOwner;
  }

  lemma FreeKeeps(s: State, a: Addr)
    requires Inv(s) && a in s.freeing && a in s.heap
    ensures Inv(Apply(s, Free(a)))
  {
    UnpinnedKeeps(s, a);
    OwnerFrees(s.bufs, s.heap.Keys, s.lent, s.freeing, a);
    FreedSums(Unpinned(s, a), a);
    LiveAfter(s.heap, a, 0);
    hide SumCaps, SetCaps, OneOwner, Unpinned;
  }

  predicate Bookkeeping(step: Step) {
    step.InstallHooks? || step.SetPinMax? || step.Small? || step.Miss? || step.GiveUp? || step.ArenaActivate?
  }

  lemma MissOnly(s: State, len: nat)
    requires Enabled(s, Miss(len))
    ensures BooksKept(s, Apply(s, Miss(len)))
  {
    hide NoFit;
  }

  lemma BookkeepingOnly(s: State, step: Step)
    requires Enabled(s, step) && Bookkeeping(step)
    ensures BooksKept(s, Apply(s, step))
  {
    hide NoFit;
    if step.Miss? {
      MissOnly(s, step.len);
    }
  }

  lemma BookkeepingKeeps(s: State, step: Step)
    requires Inv(s) && Enabled(s, step) && Bookkeeping(step)
    ensures Inv(Apply(s, step))
  {
    hide *;
    BookkeepingOnly(s, step);
    SameBooks(s, Apply(s, step));
  }

  lemma StepKeeps(s: State, step: Step)
    requires Inv(s) && Enabled(s, step)
    ensures Inv(Apply(s, step))
  {
    hide Inv, Apply;
    match step
    case Hit(_, _) => HitKeeps(s, step);
    case RetryHit(_, _) => HitKeeps(s, step);
    case Allocate(len, slot) => AllocateKeeps(s, len, slot);
    case Return(a) => ReturnKeeps(s, a);
    case Free(a) => FreeKeeps(s, a);
    case ArenaFill(slotBytes, fill) => FillKeeps(s, slotBytes, fill);
    case _ => BookkeepingKeeps(s, step);
  }

  lemma ReturnKeeps(s: State, a: Addr)
    requires Inv(s) && Enabled(s, Return(a))
    ensures Inv(Apply(s, Return(a)))
  {
    hide Inv, Returned;
    ReturnedKeeps(s, a);
  }

  // ---- runs -------------------------------------------------------------------------------------------------

  ghost predicate Run(s: State, steps: seq<Step>, end: State)
    decreases |steps|
  {
    if steps == [] then s == end
    else Enabled(s, steps[0]) && Run(Apply(s, steps[0]), steps[1..], end)
  }

  lemma {:induction false} RunKeeps(s: State, steps: seq<Step>, end: State)
    requires Inv(s) && Run(s, steps, end)
    ensures Inv(end)
    decreases |steps|
  {
    if steps != [] {
      StepKeeps(s, steps[0]);
      RunKeeps(Apply(s, steps[0]), steps[1..], end);
    }
  }

  lemma InitIsSafe(maxBufs: nat, maxBytes: nat)
    ensures Inv(Init(maxBufs, maxBytes))
  {
  }

  lemma PooledIsLive(s: State)
    requires Inv(s)
    ensures forall i :: 0 <= i < |s.bufs| ==> s.bufs[i] in s.heap
  {
  }

  /** In every run: the recorded bytes are the pooled capacities, takes and returns balance, no buffer has two
      owners and none is lost without being freed, page-locks are on live poolable buffers and their bytes add
      up, and both caps hold as long as no arena was filled. */
  lemma EveryRunIsSafe(maxBufs: nat, maxBytes: nat, steps: seq<Step>, s: State)
    requires Run(Init(maxBufs, maxBytes), steps, s)
    ensures s.bytes == SumCaps(s.bufs, s.heap) && |s.bufs| + s.hits == s.pushes + s.slots
    ensures Distinct(s.bufs) && Elems(s.bufs) !! s.lent !! s.freeing
    ensures s.heap.Keys == Elems(s.bufs) + s.lent + s.freeing
    ensures s.pins <= s.heap.Keys && s.pinBytes == SetCaps(s.pins, s.heap)
    ensures s.slots == 0 ==> |s.bufs| <= s.maxBufs && s.bytes <= s.maxBytes
  {
    InitIsSafe(maxBufs, maxBytes);
    RunKeeps(Init(maxBufs, maxBytes), steps, s);
  }

  // ---- arena mode never loses a buffer ------------------------------------------------------------------------

  /** A buffer of poolable size that is not already condemned. */
  ghost predicate Kept(s: State, a: Addr, cap: nat) {
    a in s.heap && s.heap[a] == cap >= POOL_MIN_BYTES && a !in s.freeing
  }

  lemma {:induction false} AddSlotsKeepsOthers(s: State, fill: seq<Slot>, a: Addr, cap: nat)
    requires Kept(s, a, cap) && forall i :: 0 <= i < |fill| ==> fill[i].addr != a
    ensures Kept(AddSlots(s, fill), a, cap) && AddSlots(s, fill).arena == s.arena
  {
    if fill != [] {
      AddSlotsKeepsOthers(s, fill[..|fill| - 1], a, cap);
    }
  }

  lemma ArenaReturnKeeps(s: State, b: Addr, a: Addr, cap: nat)
    requires s.arena.Some? && Enabled(s, Return(b)) && Kept(s, a, cap)
    ensures Apply(s, Return(b)).arena.Some? && Kept(Apply(s, Return(b)), a, cap)
  {
  }

  lemma ArenaFreeKeeps(s: State, b: Addr, a: Addr, cap: nat)
    requires s.arena.Some? && Enabled(s, Free(b)) && Kept(s, a, cap)
    ensures Apply(s, Free(b)).arena.Some? && Kept(Apply(s, Free(b)), a, cap)
  {
  }

  lemma ArenaAllocateKeeps(s: State, len: nat, slot: Slot, a: Addr, cap: nat)
    requires s.arena.Some? && Enabled(s, Allocate(len, slot)) && Kept(s, a, cap)
    ensures Apply(s, Allocate(len, slot)).arena.Some? && Kept(Apply(s, Allocate(len, slot)), a, cap)
  {
    assert [slot][0] == slot;
  }

  lemma ArenaStepKeeps(s: State, step: Step, a: Addr, cap: nat)
    requires s.arena.Some? && Enabled(s, step) && Kept(s, a, cap)
    ensures Apply(s, step).arena.Some? && Kept(Apply(s, step), a, cap)
  {
    match step
    case ArenaFill(_, fill) => AddSlotsKeepsOthers(s, fill, a, cap);
    case Allocate(len, slot) =>
      hide Apply, Enabled, Kept;
      ArenaAllocateKeeps(s, len, slot, a, cap);
    case Return(b) =>
      hide Apply, Enabled, Kept;
      ArenaReturnKeeps(s, b, a, cap);
    case Free(b) =>
      hide Apply, Enabled, Kept;
      ArenaFreeKeeps(s, b, a, cap);
    case _ =>
  }

  /** Once arena mode is on, every poolable buffer alive then stays alive, whatever happens. */
  lemma {:induction false} ArenaNeverLosesABuffer(s: State, steps: seq<Step>, end: State, a: Addr, cap: nat)
    requires s.arena.Some? && Run(s, steps, end) && Kept(s, a, cap)
    ensures Kept(end, a, cap)
    decreases |steps|
  {
    if steps != [] {
      ArenaStepKeeps(s, steps[0], a, cap);
      ArenaNeverLosesABuffer(Apply(s, steps[0]), steps[1..], end, a, cap);
    }
  }

  /** The promise starts when the mode is switched on, not when the slots are filled: in between, a slot that
      is borrowed and returned can still be rejected by the organic caps. */
  lemma SlotLostBeforeActivation() returns (steps: seq<Step>, s: State)
    ensures Run(Init(0, 0), steps, s) && s.arena == Some(POOL_MIN_BYTES) && s.slots == 1 && s.heap == map[]
  {
    hide Enabled, Apply, Init, Run;
    var slot := Slot(1, POOL_MIN_BYTES, false);
    var s0 := Init(0, 0);
    var s1 := Filled1(s0, slot);
    var s2 := Borrowed1(s1);
    var s3, s4 := Lost1(s2);
    s := Activated1(s4);
    steps := [ArenaFill(POOL_MIN_BYTES, [slot]), Hit(POOL_MIN_BYTES, 0), Return(1), Free(1),
        ArenaActivate(POOL_MIN_BYTES)];
    RunSnoc5(s0, s1, s2, s3, s4, s, steps);
  }

  lemma Activated1(s: State) returns (t: State)
    requires s.activating == multiset{POOL_MIN_BYTES}
    ensures Enabled(s, ArenaActivate(POOL_MIN_BYTES)) && t == Apply(s, ArenaActivate(POOL_MIN_BYTES))
    ensures t.arena == Some(POOL_MIN_BYTES) && t.slots == s.slots && t.heap == s.heap
  {
    t := Apply(s, ArenaActivate(POOL_MIN_BYTES));
  }

  lemma Borrowed1(s: State) returns (t: State)
    requires s.bufs == [1] && s.heap == map[1 := POOL_MIN_BYTES] && s.slots == 1 && s.arena == None && s.pins == {}
    requires s.maxBufs == 0 && s.lent == {} && s.freeing == {} && s.activating == multiset{POOL_MIN_BYTES} && !s.hooks
    ensures Enabled(s, Hit(POOL_MIN_BYTES, 0)) && t == Apply(s, Hit(POOL_MIN_BYTES, 0))
    ensures t.bufs == [] && t.heap == s.heap && t.slots == 1 && t.arena == None && t.maxBufs == 0 && t.lent == {1}
    ensures t.freeing == {} && t.activating == s.activating && !t.hooks
  {
    t := Apply(s, Hit(POOL_MIN_BYTES, 0));
  }

  lemma Lost1(s: State) returns (r: State, t: State)
    requires s.bufs == [] && s.heap == map[1 := POOL_MIN_BYTES] && s.slots == 1 && s.arena == None && s.maxBufs == 0
    requires s.lent == {1} && s.freeing == {} && s.activating == multiset{POOL_MIN_BYTES} && !s.hooks
    ensures Enabled(s, Return(1)) && r == Apply(s, Return(1)) && Enabled(r, Free(1)) && t == Apply(r, Free(1))
    ensures t.heap == map[] && t.slots == 1 && t.activating == multiset{POOL_MIN_BYTES}
  {
    r := Apply(s, Return(1));
    t := Apply(r, Free(1));
  }

  lemma Filled1(s: State, slot: Slot) returns (t: State)
    requires s == Init(0, 0) && slot == Slot(1, POOL_MIN_BYTES, false)
    ensures Enabled(s, ArenaFill(POOL_MIN_BYTES, [slot])) && t == Apply(s, ArenaFill(POOL_MIN_BYTES, [slot]))
    ensures t.bufs == [1] && t.heap == map[1 := POOL_MIN_BYTES] && t.slots == 1 && t.arena == None && t.pins == {}
    ensures t.maxBufs == 0 && t.lent == {} && t.freeing == {} && t.activating == multiset{POOL_MIN_BYTES} && !t.hooks
  {
    assert AddSlots(s, [slot]) == AddSlot(AddSlots(s, []), slot) by {
      assert [slot][..0] == [];
    }
    t := Apply(s, ArenaFill(POOL_MIN_BYTES, [slot]));
  }

  lemma RunSnoc5(s0: State, s1: State, s2: State, s3: State, s4: State, s5: State, steps: seq<Step>)
    requires |steps| == 5
    requires Enabled(s0, steps[0]) && Apply(s0, steps[0]) == s1 && Enabled(s1, steps[1]) && Apply(s1, steps[1]) == s2
    requires Enabled(s2, steps[2]) && Apply(s2, steps[2]) == s3 && Enabled(s3, steps[3]) && Apply(s3, steps[3]) == s4
    requires Enabled(s4, steps[4]) && Apply(s4, steps[4]) == s5
    ensures Run(s0, steps, s5)
  {
    hide Enabled, Apply;
    assert Run(s4, steps[4..], s5) by {
      assert steps[4..][1..] == [];
    }
    assert steps[3..][1..] == steps[4..] && steps[2..][1..] == steps[3..] && steps[1..][1..] == steps[2..];
    assert Run(s3, steps[3..], s5);
    assert Run(s2, steps[2..], s5);
    assert Run(s1, steps[1..], s5);
  }
}
