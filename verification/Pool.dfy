/** The recycling buffer pool as a transition system: every lock-held section is one step, threads may be
    anywhere between sections, and the allocator hands out any fresh address. */
module Pool {
  import opened Wrappers

  type Addr = nat

  /** Only buffers of at least this capacity are pooled or page-locked. */
  const POOL_MIN_BYTES: nat := 0x10_0000

  datatype State = State(
    maxBufs: nat, maxBytes: nat,                 // the two organic caps
    hooks: bool, pinMax: nat,                    // page-lock hooks installed, and their ceiling
    bufs: seq<Addr>, bytes: nat,                 // the pool
    arena: Option<nat>,                          // slot size once arena mode is on
    pins: set<Addr>, pinBytes: nat,              // page-locks held
    heap: map<Addr, nat>,                        // every live allocation and its capacity
    lent: set<Addr>,                             // buffers owned by callers
    waiting: multiset<nat>,                      // requests spinning for an arena slot
    allocating: multiset<nat>,                   // requests about to allocate
    freeing: set<Addr>,                          // rejected returns about to be freed
    activating: multiset<nat>,                   // arena fills whose mode switch is still to come
    hits: nat, misses: nat, pushes: nat, drops: nat, dropBytes: nat, slots: nat)

  function Init(maxBufs: nat, maxBytes: nat): State {
    State(maxBufs, maxBytes, false, 0, [], 0, None, {}, 0, map[], {}, multiset{}, multiset{}, {}, multiset{},
          0, 0, 0, 0, 0, 0)
  }

  // ---- the pool's own operations --------------------------------------------------------------------------

  /** A pooled buffer big enough for the request, first in pool order. */
  ghost predicate IsFirstFit(s: State, len: nat, i: nat) {
    && i < |s.bufs| && s.bufs[i] in s.heap && s.heap[s.bufs[i]] >= len
    && forall j :: 0 <= j < i && s.bufs[j] in s.heap ==> s.heap[s.bufs[j]] < len
  }

  ghost predicate NoFit(s: State, len: nat) {
    forall j :: 0 <= j < |s.bufs| && s.bufs[j] in s.heap ==> s.heap[s.bufs[j]] < len
  }

  /** Takes element `i` out and puts the last one in its place. */
  function SwapRemove(b: seq<Addr>, i: nat): seq<Addr>
    requires i < |b|
  {
    var last := |b| - 1;
    b[i := b[last]][..last]
  }

  /** Lends out pooled buffer `i`. */
  function Take(s: State, i: nat): State
    requires i < |s.bufs| && s.bufs[i] in s.heap
  {
    var a := s.bufs[i];
    s.(bufs := SwapRemove(s.bufs, i),
       bytes := if s.bytes < s.heap[a] then 0 else s.bytes - s.heap[a],
       lent := s.lent + {a}, hits := s.hits + 1)
  }

  /** Page-locks a new allocation, when hooks are installed, it is big enough, the ceiling allows it and the
      driver agrees. */
  function Pinned(s: State, a: Addr, driverAgrees: bool): State
    requires a in s.heap
  {
    if !s.hooks || s.heap[a] < POOL_MIN_BYTES || s.pinBytes + s.heap[a] > s.pinMax || !driverAgrees then s
    else s.(pins := s.pins + {a}, pinBytes := s.pinBytes + s.heap[a])
  }

  function Unpinned(s: State, a: Addr): State
    requires a in s.heap
  {
    if s.hooks && a in s.pins then
      s.(pins := s.pins - {a}, pinBytes := if s.pinBytes < s.heap[a] then 0 else s.pinBytes - s.heap[a])
    else s
  }

  function Allocated(s: State, a: Addr, cap: nat): State {
    s.(heap := s.heap[a := cap])
  }

  function Freed(s: State, a: Addr): State {
    s.(heap := s.heap - {a})
  }

  /** The end of a buffer's life with its caller. */
  function Returned(s: State, a: Addr): State
    requires a in s.heap
  {
    var cap := s.heap[a];
    var s := s.(lent := s.lent - {a});
    if cap < POOL_MIN_BYTES then Freed(s, a)
    else if s.arena.Some? || (|s.bufs| < s.maxBufs && s.bytes + cap <= s.maxBytes) then
      s.(bytes := s.bytes + cap, bufs := s.bufs + [a], pushes := s.pushes + 1)
    else s.(freeing := s.freeing + {a})
  }

  /** One arena slot: allocated, page-locked, pooled. */
  datatype Slot = Slot(addr: Addr, cap: nat, driverAgrees: bool)

  function AddSlot(s: State, slot: Slot): State {
    var s := Pinned(Allocated(s, slot.addr, slot.cap), slot.addr, slot.driverAgrees);
    s.(bytes := s.bytes + slot.cap, bufs := s.bufs + [slot.addr], slots := s.slots + 1)
  }

  function AddSlots(s: State, fill: seq<Slot>): State {
    if fill == [] then s else AddSlot(AddSlots(s, fill[..|fill| - 1]), fill[|fill| - 1])
  }

  // ---- steps ------------------------------------------------------------------------------------------------

  datatype Step =
    | InstallHooks
    | SetPinMax(pinMax: nat)
    | Small(len: nat)                            // below the pool's minimum: straight to the allocator
    | Hit(len: nat, i: nat)
    | Miss(len: nat)                             // arena mode: wait for a slot; otherwise allocate
    | RetryHit(len: nat, i: nat)
    | GiveUp(len: nat)                           // waited too long
    | Allocate(len: nat, slot: Slot)
    | Return(a: Addr)
    | Free(a: Addr)                              // a rejected return: page-lock released, memory freed
    | ArenaFill(slotBytes: nat, fill: seq<Slot>)
    | ArenaActivate(slotBytes: nat)

  ghost predicate Fresh(s: State, fill: seq<Slot>, atLeast: nat) {
    && (forall i :: 0 <= i < |fill| ==> fill[i].addr !in s.heap && fill[i].cap >= atLeast)
    && (forall i, j :: 0 <= i < j < |fill| ==> fill[i].addr != fill[j].addr)
  }

  ghost predicate Enabled(s: State, step: Step) {
    match step
    case InstallHooks => true
    case SetPinMax(_) => true
    case Small(len) => len < POOL_MIN_BYTES
    case Hit(len, i) => len >= POOL_MIN_BYTES && IsFirstFit(s, len, i)
    case Miss(len) => len >= POOL_MIN_BYTES && NoFit(s, len)
    case RetryHit(len, i) => len in s.waiting && IsFirstFit(s, len, i)
    case GiveUp(len) => len in s.waiting && NoFit(s, len)
    case Allocate(len, slot) => len in s.allocating && Fresh(s, [slot], len)
    case Return(a) => a in s.lent && a in s.heap
    case Free(a) => a in s.freeing && a in s.heap
    case ArenaFill(slotBytes, fill) => slotBytes > 0 && fill != [] && Fresh(s, fill, slotBytes)
    case ArenaActivate(slotBytes) => slotBytes in s.activating
  }

  ghost function Apply(s: State, step: Step): State
    requires Enabled(s, step)
  {
    match step
    case InstallHooks => s.(hooks := true)
    case SetPinMax(n) => s.(pinMax := n)
    case Small(len) => s.(allocating := s.allocating + multiset{len})
    case Hit(_, i) => Take(s, i)
    case Miss(len) =>
      var s := s.(misses := s.misses + 1);
      if s.arena.Some? && len <= s.arena.value then s.(waiting := s.waiting + multiset{len})
      else s.(allocating := s.allocating + multiset{len})
    case RetryHit(len, i) => Take(s, i).(waiting := s.waiting - multiset{len})
    case GiveUp(len) => s.(waiting := s.waiting - multiset{len}, allocating := s.allocating + multiset{len})
    case Allocate(len, slot) =>
      var s := s.(allocating := s.allocating - multiset{len});
      Pinned(Allocated(s, slot.addr, slot.cap), slot.addr, slot.driverAgrees).(lent := s.lent + {slot.addr})
    case Return(a) => Returned(s, a)
    case Free(a) =>
      var cap := s.heap[a];
      Freed(Unpinned(s, a), a).(freeing := s.freeing - {a}, drops := s.drops + 1, dropBytes := s.dropBytes + cap)
    case ArenaFill(slotBytes, fill) => AddSlots(s, fill).(activating := s.activating + multiset{slotBytes})
    case ArenaActivate(slotBytes) => s.(arena := Some(slotBytes), activating := s.activating - multiset{slotBytes})
  }
}
