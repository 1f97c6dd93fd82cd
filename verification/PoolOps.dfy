/** The pool's global state and its lock-held sections, each proved to be the transition it stands for. */
module PoolOps {
  import opened Wrappers
  import opened Pool
  import opened PoolSafety
  import opened ArenaGrant

  /** What the pool mutex guards. */
  datatype Stock = Stock(bufs: seq<Addr>, bytes: nat)

  /** The page-locked addresses and their byte count. */
  datatype Locks = Locks(pins: set<Addr>, bytes: nat)

  datatype Counts = Counts(hits: nat, misses: nat, pushes: nat, drops: nat, dropBytes: nat)

  /** Where the callers' threads are. */
  datatype World = World(
    lent: set<Addr>, waiting: multiset<nat>, allocating: multiset<nat>, freeing: set<Addr>,
    activating: multiset<nat>, slots: nat)

  class BufferPool {
    const maxBufs: nat
    const maxBytes: nat
    var hooks: bool
    var pinMax: nat
    var pool: Stock
    var arena: Option<nat>
    var locks: Locks
    /** What `capacity()` answers for each live buffer. */
    var heap: map<Addr, nat>
    var counts: Counts
    ghost var world: World

    ghost function Snapshot(): State
      reads this
    {
      State(maxBufs, maxBytes, hooks, pinMax, pool.bufs, pool.bytes, arena, locks.pins, locks.bytes, heap,
            world.lent, world.waiting, world.allocating, world.freeing, world.activating,
            counts.hits, counts.misses, counts.pushes, counts.drops, counts.dropBytes, world.slots)
    }

    ghost predicate Valid()
      reads this
    {
      Inv(Snapshot())
    }

    constructor (maxBufs: nat, maxBytes: nat)
      ensures Valid() && Snapshot() == Init(maxBufs, maxBytes)
    {
      this.maxBufs, this.maxBytes := maxBufs, maxBytes;
      hooks, pinMax, pool, arena, locks, heap := false, 0, Stock([], 0), None, Locks({}, 0), map[];
      counts, world := Counts(0, 0, 0, 0, 0), World({}, multiset{}, multiset{}, {}, multiset{}, 0);
      new;
      InitIsSafe(maxBufs, maxBytes);
    }

    /** The first pooled buffer with room for `len` bytes. */
    method Position(len: nat) returns (i: Option<nat>)
      requires Valid()
      ensures i.Some? ==> IsFirstFit(Snapshot(), len, i.value)
      ensures i.None? ==> NoFit(Snapshot(), len)
    {
      PooledIsLive(Snapshot());
      hide Inv;
      var k := 0;
      while k < |pool.bufs|
        invariant 0 <= k <= |pool.bufs|
        invariant forall j :: 0 <= j < k ==> pool.bufs[j] in heap && heap[pool.bufs[j]] < len
      {
        if heap[pool.bufs[k]] >= len {
          return Some(k);
        }
        k := k + 1;
      }
      i := None;
    }

    /** `swap_remove` on the pool, with the byte count following. */
    method TakeAt(i: nat) returns (a: Addr)
      requires i < |pool.bufs| && pool.bufs[i] in heap
      modifies this
      ensures a == old(pool.bufs[i]) && Snapshot() == Take(old(Snapshot()), i)
    {
      a := pool.bufs[i];
      pool := Stock(SwapRemove(pool.bufs, i), if pool.bytes < heap[a] then 0 else pool.bytes - heap[a]);
      world := world.(lent := world.lent + {a});
      counts := counts.(hits := counts.hits + 1);
    }

    /** A request the pool cannot serve: it waits for an arena slot, or is about to allocate. */
    method RecordMiss(len: nat)
      requires len >= POOL_MIN_BYTES && NoFit(Snapshot(), len)
      modifies this
      ensures Enabled(old(Snapshot()), Miss(len)) && Snapshot() == Apply(old(Snapshot()), Miss(len))
    {
      hide NoFit;
      counts := counts.(misses := counts.misses + 1);
      if arena.Some? && len <= arena.value {
        world := world.(waiting := world.waiting + multiset{len});
      } else {
        world := world.(allocating := world.allocating + multiset{len});
      }
    }

    /** The lock-held part of a request of at least the pool's minimum; `i` is where a hit was found. */
    method Acquire(len: nat) returns (a: Option<Addr>, ghost i: nat)
      requires Valid() && len >= POOL_MIN_BYTES
      modifies this
      ensures Valid()
      ensures a.Some? ==> Enabled(old(Snapshot()), Hit(len, i)) && Snapshot() == Apply(old(Snapshot()), Hit(len, i))
      ensures a.Some? ==> a.value in heap && heap[a.value] >= len && a.value in world.lent
      ensures a.None? ==> Enabled(old(Snapshot()), Miss(len)) && Snapshot() == Apply(old(Snapshot()), Miss(len))
    {
      ghost var before := Snapshot();
      var found := Position(len);
      i := 0;
      if found.Some? {
        i := found.value;
        StepKeeps(before, Hit(len, i));
        hide Inv;
        var taken := TakeAt(found.value);
        a := Some(taken);
      } else {
        StepKeeps(before, Miss(len));
        hide Inv;
        RecordMiss(len);
        a := None;
      }
    }

    /** A request that has waited too long is about to allocate. */
    ghost method RecordGiveUp(len: nat)
      requires len in world.waiting && NoFit(Snapshot(), len)
      modifies this`world
      ensures Enabled(old(Snapshot()), GiveUp(len)) && Snapshot() == Apply(old(Snapshot()), GiveUp(len))
    {
      hide NoFit;
      world := world.(waiting := world.waiting - multiset{len}, allocating := world.allocating + multiset{len});
    }

    /** A waiting request takes the slot that has come back. */
    method TakeAgain(len: nat, i: nat) returns (a: Addr)
      requires len in world.waiting && IsFirstFit(Snapshot(), len, i)
      modifies this
      ensures Enabled(old(Snapshot()), RetryHit(len, i)) && Snapshot() == Apply(old(Snapshot()), RetryHit(len, i))
    {
      a := TakeAt(i);
      world := world.(waiting := world.waiting - multiset{len});
    }

    /** One turn of the arena wait: takes a slot if one has come back; after too many turns, gives up. */
    method Retry(len: nat, tooLong: bool) returns (a: Option<Addr>, ghost i: nat)
      requires Valid() && len in world.waiting
      modifies this
      ensures Valid()
      ensures a.Some? ==>
              Enabled(old(Snapshot()), RetryHit(len, i)) && Snapshot() == Apply(old(Snapshot()), RetryHit(len, i))
      ensures a.None? && tooLong ==>
              Enabled(old(Snapshot()), GiveUp(len)) && Snapshot() == Apply(old(Snapshot()), GiveUp(len))
      ensures a.None? && !tooLong ==> Snapshot() == old(Snapshot())
    {
      hide Inv, Enabled, Apply, IsFirstFit, NoFit;
      ghost var before := Snapshot();
      var found := Position(len);
      a, i := None, 0;
      if found.Some? {
        i := found.value;
        var taken := TakeAgain(len, found.value);
        a := Some(taken);
        StepKeeps(before, RetryHit(len, i));
      } else if tooLong {
        RecordGiveUp(len);
        StepKeeps(before, GiveUp(len));
      }
    }

    /** `pin_alloc` on the buffer just allocated at `a`. */
    method PinAlloc(a: Addr, driverAgrees: bool)
      requires a in heap
      modifies this`locks
      ensures Snapshot() == Pinned(old(Snapshot()), a, driverAgrees)
      ensures Snapshot().pins == locks.pins && Snapshot().pinBytes == locks.bytes
    {
      if !hooks {
        return;
      }
      if heap[a] < POOL_MIN_BYTES {
        return;
      }
      if locks.bytes + heap[a] > pinMax {
        return;
      }
      if driverAgrees {
        locks := Locks(locks.pins + {a}, locks.bytes + heap[a]);
      }
    }

    /** `unpin_alloc`: only what was really locked is unlocked. */
    method UnpinAlloc(a: Addr)
      requires a in heap
      modifies this`locks
      ensures Snapshot() == Unpinned(old(Snapshot()), a)
    {
      if !hooks {
        return;
      }
      if a in locks.pins {
        locks := Locks(locks.pins - {a}, if locks.bytes < heap[a] then 0 else locks.bytes - heap[a]);
      }
    }

    method NewBuffer(len: nat, slot: Slot)
      requires Enabled(Snapshot(), Step.Allocate(len, slot))
      modifies this
      ensures Snapshot() == Apply(old(Snapshot()), Step.Allocate(len, slot))
    {
      hide Fresh;
      world := world.(allocating := world.allocating - multiset{len});
      heap := heap[slot.addr := slot.cap];
      PinAlloc(slot.addr, slot.driverAgrees);
      world := world.(lent := world.lent + {slot.addr});
    }

    /** The fall-through of a request: a fresh allocation, page-locked when possible. */
    method Allocate(len: nat, slot: Slot)
      requires Valid() && Enabled(Snapshot(), Step.Allocate(len, slot))
      modifies this
      ensures Valid() && Snapshot() == Apply(old(Snapshot()), Step.Allocate(len, slot))
    {
      StepKeeps(Snapshot(), Step.Allocate(len, slot));
      hide Inv, Enabled, Apply, Snapshot;
      NewBuffer(len, slot);
    }

    method GiveBack(a: Addr) returns (rejected: bool)
      requires a in heap && a !in world.freeing
      modifies this
      ensures Snapshot() == Returned(old(Snapshot()), a)
      ensures rejected <==> a in world.freeing
    {
      var cap := heap[a];
      world := world.(lent := world.lent - {a});
      rejected := false;
      if cap < POOL_MIN_BYTES {
        heap := heap - {a};
      } else if arena.Some? || (|pool.bufs| < maxBufs && pool.bytes + cap <= maxBytes) {
        pool := Stock(pool.bufs + [a], pool.bytes + cap);
        counts := counts.(pushes := counts.pushes + 1);
      } else {
        world := world.(freeing := world.freeing + {a});
        rejected := true;
      }
    }

    /** `drop` up to the release of the pool lock; a rejected buffer still has to be freed. */
    method Drop(a: Addr) returns (rejected: bool)
      requires Valid() && a in world.lent && a in heap
      modifies this
      ensures Valid() && Snapshot() == Apply(old(Snapshot()), Return(a))
      ensures rejected <==> a in world.freeing
    {
      StepKeeps(Snapshot(), Return(a));
      assert a !in world.freeing;
      hide Inv, Returned;
      rejected := GiveBack(a);
    }

    method UnlockAndFree(a: Addr)
      requires a in world.freeing && a in heap
      modifies this
      ensures Snapshot() == Apply(old(Snapshot()), Free(a))
    {
      var cap := heap[a];
      UnpinAlloc(a);
      heap := heap - {a};
      world := world.(freeing := world.freeing - {a});
      counts := counts.(drops := counts.drops + 1, dropBytes := counts.dropBytes + cap);
    }

    /** The rest of `drop` for a rejected buffer: the page-lock goes before the memory. */
    method FreeRejected(a: Addr)
      requires Valid() && a in world.freeing && a in heap
      modifies this
      ensures Valid() && Snapshot() == Apply(old(Snapshot()), Free(a))
    {
      assert Enabled(Snapshot(), Free(a));
      StepKeeps(Snapshot(), Free(a));
      hide Inv, Apply, Enabled, Snapshot;
      UnlockAndFree(a);
    }

    method AddOneSlot(slot: Slot)
      modifies this
      ensures Snapshot() == AddSlot(old(Snapshot()), slot)
    {
      heap := heap[slot.addr := slot.cap];
      PinAlloc(slot.addr, slot.driverAgrees);
      pool := Stock(pool.bufs + [slot.addr], pool.bytes + slot.cap);
      world := world.(slots := world.slots + 1);
    }

    method AddAllSlots(fill: seq<Slot>)
      modifies this
      ensures Snapshot() == AddSlots(old(Snapshot()), fill)
    {
      ghost var before := Snapshot();
      hide AddSlot, Snapshot;
      var k := 0;
      while k < |fill|
        invariant 0 <= k <= |fill| && Snapshot() == AddSlots(before, fill[..k])
      {
        assert fill[..k + 1][..k] == fill[..k];
        AddOneSlot(fill[k]);
        k := k + 1;
      }
      assert fill[..k] == fill;
    }

    /** The fill of `arena_init`, under the pool lock; `fill` is what the allocator and the driver answer.
        The returned size is everything then in the pool: what this call claimed exactly when nothing was pooled. */
    method FillArena(slotBytes: nat, fill: seq<Slot>) returns (claimed: nat)
      requires Valid() && Fresh(Snapshot(), fill, slotBytes)
      modifies this
      ensures Valid()
      ensures slotBytes == 0 || fill == [] ==> claimed == 0 && Snapshot() == old(Snapshot())
      ensures slotBytes > 0 && fill != [] ==> claimed == old(pool.bytes) + NewBytes(fill) == pool.bytes
      ensures claimed == (if slotBytes == 0 then 0 else NewBytes(fill))
              <==> slotBytes == 0 || fill == [] || old(pool.bytes) == 0
      ensures slotBytes > 0 && fill != [] ==> Snapshot() == Apply(old(Snapshot()), ArenaFill(slotBytes, fill))
    {
      if slotBytes == 0 || fill == [] {
        return 0;
      }
      StepKeeps(Snapshot(), ArenaFill(slotBytes, fill));
      AddSlotsActivating(Snapshot(), fill);
      FilledBytes(Snapshot(), fill);
      hide Inv, AddSlots, Fresh;
      AddAllSlots(fill);
      world := world.(activating := world.activating + multiset{slotBytes});
      claimed := pool.bytes;
    }

    /** The last statement of `arena_init`. */
    method ActivateArena(slotBytes: nat)
      requires Valid() && slotBytes in world.activating
      modifies this
      ensures Valid() && Snapshot() == Apply(old(Snapshot()), ArenaActivate(slotBytes))
    {
      StepKeeps(Snapshot(), ArenaActivate(slotBytes));
      hide Inv;
      arena := Some(slotBytes);
      world := world.(activating := world.activating - multiset{slotBytes});
    }
  }
}
