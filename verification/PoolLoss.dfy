/** When the recycling pool can lose a buffer: exactly as long as arena mode is off. */
module PoolLoss {
  import opened Collections
  import opened Pool
  import opened PoolSafety

  /** A return of poolable size is rejected exactly when the mode is off and a cap is reached. */
  lemma ReturnRejectedIff(s: State, a: Addr)
    requires Inv(s) && Enabled(s, Return(a)) && s.heap[a] >= POOL_MIN_BYTES
    ensures a in Apply(s, Return(a)).freeing <==>
            s.arena.None? && (|s.bufs| >= s.maxBufs || s.bytes + s.heap[a] > s.maxBytes)
  {
    assert a !in s.freeing;
  }

  // ---- a continuation that loses a buffer ----------------------------------------------------------------

  lemma {:induction false} RunConcat(s: State, first: seq<Step>, t: State, second: seq<Step>, end: State)
    requires Run(s, first, t) && Run(t, second, end)
    ensures Run(s, first + second, end)
    decreases |first|
  {
    hide Enabled, Apply;
    if first == [] {
      assert first + second == second;
    } else {
      RunConcat(Apply(s, first[0]), first[1..], t, second, end);
      assert (first + second)[1..] == first[1..] + second;
    }
  }

  lemma OneStep(s: State, step: Step)
    requires Enabled(s, step)
    ensures Run(s, [step], Apply(s, step))
  {
    hide Enabled, Apply;
    assert [step][1..] == [];
  }

  /** If some pooled buffer has room, one of them is the first. */
  lemma {:induction false} FirstFitExists(s: State, len: nat, from: nat, j: nat) returns (i: nat)
    requires from <= j < |s.bufs| && s.bufs[j] in s.heap && s.heap[s.bufs[j]] >= len
    requires forall k :: 0 <= k < from && s.bufs[k] in s.heap ==> s.heap[s.bufs[k]] < len
    ensures IsFirstFit(s, len, i)
    decreases j - from
  {
    if s.bufs[from] in s.heap && s.heap[s.bufs[from]] >= len {
      i := from;
    } else {
      i := FirstFitExists(s, len, from + 1, j);
    }
  }

  /** What borrowing leaves as it was. */
  ghost predicate SameBut(s: State, t: State) {
    && t.heap == s.heap && t.freeing == s.freeing && t.arena == s.arena && t.maxBufs == s.maxBufs
    && t.maxBytes == s.maxBytes
  }

  /** Callers can borrow every pooled buffer of poolable size. */
  lemma {:induction false} BorrowAll(s: State) returns (steps: seq<Step>, t: State)
    requires Inv(s)
    ensures Run(s, steps, t) && Inv(t) && SameBut(s, t) && NoFit(t, POOL_MIN_BYTES)
    decreases |s.bufs|
  {
    if NoFit(s, POOL_MIN_BYTES) {
      steps, t := [], s;
    } else {
      var j :| 0 <= j < |s.bufs| && s.bufs[j] in s.heap && s.heap[s.bufs[j]] >= POOL_MIN_BYTES;
      var i := FirstFitExists(s, POOL_MIN_BYTES, 0, j);
      var step := Hit(POOL_MIN_BYTES, i);
      StepKeeps(s, step);
      OneStep(s, step);
      var more;
      more, t := BorrowAll(Apply(s, step));
      steps := [step] + more;
      RunConcat(s, [step], Apply(s, step), more, t);
    }
  }

  /** A kept buffer is lent out once nothing of its size is pooled. */
  lemma KeptIsLent(s: State, a: Addr, cap: nat)
    requires Inv(s) && Kept(s, a, cap) && NoFit(s, POOL_MIN_BYTES)
    ensures a in s.lent
  {
    forall j | 0 <= j < |s.bufs| ensures s.bufs[j] != a {
      assert s.bufs[j] in s.heap ==> s.heap[s.bufs[j]] < POOL_MIN_BYTES;
    }
    assert a !in Elems(s.bufs);
  }

  lemma FreshAddress(heap: map<Addr, nat>) returns (f: Addr)
    ensures f !in heap
  {
    var n := |heap.Keys| + 1;
    if forall e :: e in Below(n) ==> e in heap {
      SubsetSize(Below(n), heap.Keys);
      assert false;
    }
    f :| f in Below(n) && f !in heap;
  }

  /** A request of `c` bytes that finds no room: allocated, and returned into the pool. */
  lemma AllocateAndReturn(s: State, c: nat) returns (steps: seq<Step>, t: State)
    requires Inv(s) && s.arena.None? && c >= POOL_MIN_BYTES && NoFit(s, c) && |s.bufs| < s.maxBufs
    requires s.bytes + c <= s.maxBytes
    ensures Run(s, steps, t) && Inv(t) && t.arena.None? && t.maxBytes == s.maxBytes && t.bytes == s.bytes + c
    ensures s.lent <= t.lent && forall b :: b in s.heap ==> b in t.heap && t.heap[b] == s.heap[b]
  {
    hide Enabled, Apply, Run, Inv, NoFit;
    var f := FreshAddress(s.heap);
    var s1 := Missed(s, c);
    var s2 := AllocatedFor(s1, c, f);
    t := PooledAgain(s2, c, f);
    IsLent(s);
    OneStep(s, Miss(c));
    OneStep(s1, Allocate(c, Slot(f, c, false)));
    OneStep(s2, Return(f));
    RunConcat(s, [Miss(c)], s1, [Allocate(c, Slot(f, c, false))], s2);
    RunConcat(s, [Miss(c)] + [Allocate(c, Slot(f, c, false))], s2, [Return(f)], t);
    steps := [Miss(c)] + [Allocate(c, Slot(f, c, false))] + [Return(f)];
  }

  lemma IsLent(s: State)
    requires Inv(s)
    ensures s.lent <= s.heap.Keys
  {
  }

  /** A return that both caps allow joins the pool. */
  lemma PooledAgain(s: State, c: nat, f: Addr) returns (t: State)
    requires Inv(s) && f in s.lent && f in s.heap && s.heap[f] == c >= POOL_MIN_BYTES
    requires |s.bufs| < s.maxBufs && s.bytes + c <= s.maxBytes
    ensures Enabled(s, Return(f)) && t == Apply(s, Return(f)) && Inv(t)
    ensures t.arena == s.arena && t.maxBytes == s.maxBytes && t.bytes == s.bytes + c && t.heap == s.heap
    ensures t.lent == s.lent - {f}
  {
    StepKeeps(s, Return(f));
    t := Apply(s, Return(f));
    hide Inv;
  }

  lemma Missed(s: State, c: nat) returns (t: State)
    requires Inv(s) && s.arena.None? && c >= POOL_MIN_BYTES && NoFit(s, c)
    ensures Enabled(s, Miss(c)) && t == Apply(s, Miss(c)) && Inv(t) && c in t.allocating
    ensures t == s.(misses := t.misses, allocating := t.allocating)
  {
    StepKeeps(s, Miss(c));
    t := Apply(s, Miss(c));
    hide Inv;
  }

  lemma AllocatedFor(s: State, c: nat, f: Addr) returns (t: State)
    requires Inv(s) && s.arena.None? && c in s.allocating && f !in s.heap
    ensures var step := Allocate(c, Slot(f, c, false)); Enabled(s, step) && t == Apply(s, step)
    ensures Inv(t) && f in t.lent && t.lent == s.lent + {f} && t.heap == s.heap[f := c] && t.arena.None?
    ensures t.bufs == s.bufs && t.bytes == s.bytes && t.freeing == s.freeing && t.maxBufs == s.maxBufs
    ensures t.maxBytes == s.maxBytes
  {
    StepKeeps(s, Allocate(c, Slot(f, c, false)));
    t := Apply(s, Allocate(c, Slot(f, c, false)));
    hide Inv;
  }

  /** A rejected return loses its buffer for good. */
  lemma RejectedIsLost(s: State, a: Addr) returns (steps: seq<Step>, t: State)
    requires Inv(s) && a in s.lent && a in s.heap && s.heap[a] >= POOL_MIN_BYTES
    requires s.arena.None? && (|s.bufs| >= s.maxBufs || s.bytes + s.heap[a] > s.maxBytes)
    ensures Run(s, steps, t) && a !in t.heap
  {
    ReturnRejectedIff(s, a);
    var r := Apply(s, Return(a));
    assert a in r.heap;
    t := Apply(r, Free(a));
    assert a !in t.heap;
    OneStep(s, Return(a));
    OneStep(r, Free(a));
    hide Enabled, Apply, Run;
    steps := [Return(a)] + [Free(a)];
    RunConcat(s, [Return(a)], r, [Free(a)], t);
  }

  /** With the mode off: borrow everything, fill the pool to its cap, return the buffer. */
  lemma LostInSomeRun(s: State, a: Addr, cap: nat) returns (steps: seq<Step>, end: State)
    requires Inv(s) && Kept(s, a, cap) && s.arena.None?
    ensures Run(s, steps, end) && a !in end.heap
  {
    var borrow, t := BorrowAll(s);
    KeptIsLent(t, a, cap);
    var loss;
    if |t.bufs| >= t.maxBufs || t.bytes + cap > t.maxBytes {
      loss, end := RejectedIsLost(t, a);
      steps := borrow + loss;
      RunConcat(s, borrow, t, loss, end);
    } else {
      var fill, u := AllocateAndReturn(t, t.maxBytes - t.bytes);
      loss, end := RejectedIsLost(u, a);
      hide Run, Inv;
      RunConcat(s, borrow, t, fill, u);
      steps := borrow + fill + loss;
      RunConcat(s, borrow + fill, u, loss, end);
    }
  }

  /** Whether some continuation frees the buffer. */
  ghost predicate CanBeLost(s: State, a: Addr) {
    exists steps, end :: Run(s, steps, end) && a !in end.heap
  }

  /** The promise that poolable buffers are never given back holds exactly while arena mode is on. */
  lemma CanBeLostIffModeOff(s: State, a: Addr, cap: nat)
    requires Inv(s) && Kept(s, a, cap)
    ensures CanBeLost(s, a) <==> s.arena.None?
  {
    hide Inv;
    if s.arena.None? {
      var steps, end := LostInSomeRun(s, a, cap);
    } else {
      forall steps, end | Run(s, steps, end) ensures a in end.heap {
        ArenaNeverLosesABuffer(s, steps, end, a, cap);
      }
    }
  }
}
