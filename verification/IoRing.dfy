/** The bounded-depth reader: slots are filled with reads, completions arrive in any order and batch size, and
    a completed slot is reused for the next offset. */
module IoRing {
  import opened Collections

  /** What happens on the ring: read `index` is submitted on buffer `slot`, or completes there. */
  datatype Event = Submitted(slot: nat, index: nat) | Completed(slot: nat, index: nat)

  /** The reads in flight after `trace`, by slot. */
  function Flight(trace: seq<Event>): map<nat, nat> {
    if trace == [] then map[]
    else
      var before := Flight(trace[..|trace| - 1]);
      match trace[|trace| - 1]
      case Submitted(slot, index) => before[slot := index]
      case Completed(slot, _) => before - {slot}
  }

  /** One event the buffers and the ring allow: a read goes to a free slot, a completion is of a read in flight. */
  predicate Allowed(flight: map<nat, nat>, qd: nat, e: Event) {
    match e
    case Submitted(slot, _) => slot < qd && slot !in flight
    case Completed(slot, index) => slot in flight && flight[slot] == index
  }

  predicate Proper(trace: seq<Event>, qd: nat) {
    trace == [] || (Proper(trace[..|trace| - 1], qd) && Allowed(Flight(trace[..|trace| - 1]), qd, trace[|trace| - 1]))
  }

  /** The indices submitted, in order. */
  function Order(trace: seq<Event>): seq<nat> {
    if trace == [] then []
    else Order(trace[..|trace| - 1]) + (match trace[|trace| - 1] case Submitted(_, i) => [i] case Completed(_, _) => [])
  }

  /** The indices completed, in order. */
  function Finished(trace: seq<Event>): seq<nat> {
    if trace == [] then []
    else
      Finished(trace[..|trace| - 1])
      + (match trace[|trace| - 1] case Submitted(_, _) => [] case Completed(_, i) => [i])
  }

  // ---- what any proper trace keeps ----------------------------------------------------------------------

  /** The reads in flight on slots below `qd`, as a multiset. */
  function Carried(flight: map<nat, nat>, qd: nat): multiset<nat> {
    if qd == 0 then multiset{}
    else Carried(flight, qd - 1) + (if qd - 1 in flight then multiset{flight[qd - 1]} else multiset{})
  }

  lemma {:induction false} CarriedPut(flight: map<nat, nat>, qd: nat, slot: nat, index: nat)
    requires slot !in flight
    ensures Carried(flight[slot := index], qd)
            == Carried(flight, qd) + (if slot < qd then multiset{index} else multiset{})
  {
    if qd > 0 {
      CarriedPut(flight, qd - 1, slot, index);
    }
  }

  lemma CarriedRemove(flight: map<nat, nat>, qd: nat, slot: nat)
    requires slot in flight
    ensures Carried(flight, qd)
            == Carried(flight - {slot}, qd) + (if slot < qd then multiset{flight[slot]} else multiset{})
  {
  }

  lemma {:induction false} SlotsBelow(trace: seq<Event>, qd: nat)
    requires Proper(trace, qd)
    ensures forall slot :: slot in Flight(trace) ==> slot < qd
  {
    if trace != [] {
      SlotsBelow(trace[..|trace| - 1], qd);
    }
  }

  /** Every read submitted has either completed or is still in flight, each exactly as often. */
  lemma {:induction false} ReadsConserved(trace: seq<Event>, qd: nat)
    requires Proper(trace, qd)
    ensures multiset(Order(trace)) == multiset(Finished(trace)) + Carried(Flight(trace), qd)
  {
    if trace == [] {
      NothingCarried(map[], qd);
    } else {
      var before, e := trace[..|trace| - 1], trace[|trace| - 1];
      ReadsConserved(before, qd);
      SlotsBelow(before, qd);
      match e
      case Submitted(slot, index) => CarriedPut(Flight(before), qd, slot, index);
      case Completed(slot, _) => CarriedRemove(Flight(before), qd, slot);
    }
  }

  lemma {:induction false} NothingCarried(flight: map<nat, nat>, qd: nat)
    requires flight == map[]
    ensures Carried(flight, qd) == multiset{}
  {
    if qd > 0 {
      NothingCarried(flight, qd - 1);
    }
  }

  lemma {:induction false} ProperPrefix(trace: seq<Event>, qd: nat, k: nat)
    requires Proper(trace, qd) && k <= |trace|
    ensures Proper(trace[..k], qd)
  {
    if k < |trace| {
      ProperPrefix(trace[..|trace| - 1], qd, k);
      assert trace[..|trace| - 1][..k] == trace[..k];
    } else {
      assert trace[..k] == trace;
    }
  }

  /** At no moment are more than `qd` reads in flight, and no two share a buffer. */
  lemma NeverMoreThanDepth(trace: seq<Event>, qd: nat, k: nat)
    requires Proper(trace, qd) && k <= |trace|
    ensures |Flight(trace[..k])| <= qd
    ensures k < |trace| && trace[k].Submitted? ==> trace[k].slot < qd && trace[k].slot !in Flight(trace[..k])
  {
    ProperPrefix(trace, qd, k);
    SlotsBelow(trace[..k], qd);
    SlotCount(Flight(trace[..k]), qd);
    if k < |trace| {
      ProperPrefix(trace, qd, k + 1);
      hide Flight;
      assert trace[..k + 1][..k] == trace[..k];
    }
  }

  lemma SlotCount(flight: map<nat, nat>, qd: nat)
    requires forall slot :: slot in flight ==> slot < qd
    ensures |flight| <= qd
  {
    assert Below(qd) == flight.Keys + (Below(qd) - flight.Keys);
  }

  // ---- the reader -----------------------------------------------------------------------------------------

  /** A batch of completions the kernel may answer: some of the slots in flight, at least one, each once. */
  ghost predicate IsBatch(done: seq<nat>, flight: map<nat, nat>) {
    && done != [] && (forall i :: 0 <= i < |done| ==> done[i] in flight)
    && forall i, j :: 0 <= i < j < |done| ==> done[i] != done[j]
  }

  /** Any completion behaviour, given what has happened so far. */
  ghost predicate IsKernel(completions: seq<Event> -> seq<nat>) {
    forall t :: Flight(t) != map[] ==> IsBatch(completions(t), Flight(t))
  }

  ghost predicate Started(trace: seq<Event>, qd: nat, next: nat) {
    Proper(trace, qd) && Order(trace) == Indices(next)
  }

  lemma Snoc(trace: seq<Event>, e: Event, qd: nat)
    requires Proper(trace, qd) && Allowed(Flight(trace), qd, e)
    ensures Proper(trace + [e], qd)
    ensures Flight(trace + [e]) == if e.Submitted? then Flight(trace)[e.slot := e.index] else Flight(trace) - {e.slot}
    ensures Order(trace + [e]) == Order(trace) + if e.Submitted? then [e.index] else []
  {
  }

  lemma CompleteOne(trace: seq<Event>, qd: nat, next: nat, slot: nat)
    requires Started(trace, qd, next) && slot in Flight(trace)
    ensures var t := trace + [Completed(slot, Flight(trace)[slot])];
            Started(t, qd, next) && Flight(t) == Flight(trace) - {slot} && |Flight(t)| == |Flight(trace)| - 1
  {
    Snoc(trace, Completed(slot, Flight(trace)[slot]), qd);
    assert Flight(trace).Keys == (Flight(trace) - {slot}).Keys + {slot};
  }

  lemma SubmitNext(trace: seq<Event>, qd: nat, next: nat, slot: nat)
    requires Started(trace, qd, next) && slot < qd && slot !in Flight(trace)
    ensures var t := trace + [Submitted(slot, next)];
            Started(t, qd, next + 1) && Flight(t) == Flight(trace)[slot := next] && |Flight(t)| == |Flight(trace)| + 1
  {
  }

  /** While filling, exactly the slots below `next` are taken. */
  ghost predicate Filling(trace: seq<Event>, qd: nat, next: nat) {
    Started(trace, qd, next) && |Flight(trace)| == next && forall slot: nat :: slot in Flight(trace) <==> slot < next
  }

  lemma FillStart(qd: nat)
    ensures Filling([], qd, 0)
  {
  }

  lemma FillNext(trace: seq<Event>, qd: nat, next: nat)
    requires Filling(trace, qd, next) && next < qd
    ensures Filling(trace + [Submitted(next, next)], qd, next + 1)
  {
  }

  /** The initial fill: one read per slot, from slot 0 up. */
  method Fill(n: nat, qd: nat) returns (trace: seq<Event>, next: nat, inflight: nat)
    ensures Filling(trace, qd, next) && inflight == next == if n < qd then n else qd
  {
    hide *;
    FillStart(qd);
    trace, next, inflight := [], 0, 0;
    while next < n && inflight < qd
      invariant Filling(trace, qd, next) && inflight == next <= n && next <= qd
    {
      FillNext(trace, qd, next);
      trace := trace + [Submitted(inflight, next)];
      next := next + 1;
      inflight := inflight + 1;
    }
  }

  /** The completions of one batch, as the ring reports them. */
  method Reap(trace: seq<Event>, done: seq<nat>, qd: nat, ghost next: nat) returns (after: seq<Event>)
    requires Started(trace, qd, next) && IsBatch(done, Flight(trace))
    ensures Started(after, qd, next) && |Flight(after)| == |Flight(trace)| - |done|
    ensures forall i :: 0 <= i < |done| ==> done[i] < qd && done[i] !in Flight(after)
  {
    SlotsBelow(trace, qd);
    hide Started, Flight;
    after := trace;
    var k := 0;
    while k < |done|
      invariant 0 <= k <= |done| && Started(after, qd, next) && |Flight(after)| == |Flight(trace)| - k
      invariant forall i :: k <= i < |done| ==> done[i] in Flight(after)
      invariant forall i :: 0 <= i < k ==> done[i] !in Flight(after)
    {
      var e := Completed(done[k], Flight(after)[done[k]]);
      CompleteOne(after, qd, next, done[k]);
      after := after + [e];
      k := k + 1;
    }
  }

  /** Each reaped slot takes the next offset, while there is one. */
  method Refill(trace: seq<Event>, done: seq<nat>, qd: nat, n: nat, next0: nat, inflight0: nat)
      returns (after: seq<Event>, next: nat, inflight: nat)
    requires Started(trace, qd, next0) && next0 <= n && inflight0 == |Flight(trace)| + |done|
    requires forall i :: 0 <= i < |done| ==> done[i] < qd && done[i] !in Flight(trace)
    requires forall i, j :: 0 <= i < j < |done| ==> done[i] != done[j]
    ensures Started(after, qd, next) && next0 <= next <= n && inflight == |Flight(after)|
    ensures n - next + inflight == n - next0 + inflight0 - |done|
    ensures inflight < inflight0 ==> next == n
  {
    after, next, inflight := trace, next0, inflight0;
    hide Started, Flight;
    var k := 0;
    while k < |done|
      invariant 0 <= k <= |done| && Started(after, qd, next) && next0 <= next <= n
      invariant inflight == |Flight(after)| + (|done| - k)
      invariant n - next + inflight == n - next0 + inflight0 - k
      invariant forall i :: k <= i < |done| ==> done[i] !in Flight(after)
      invariant inflight < inflight0 ==> next == n
      invariant inflight <= inflight0
    {
      inflight := inflight - 1;
      if next < n {
        SubmitNext(after, qd, next, done[k]);
        after := after + [Submitted(done[k], next)];
        next := next + 1;
        inflight := inflight + 1;
      }
      k := k + 1;
    }
  }

  /** Reads each of `n` offsets through a ring of depth `qd`, on the path without ring errors. */
  method ReadAll(n: nat, qd: nat, completions: seq<Event> -> seq<nat>) returns (trace: seq<Event>)
    requires qd >= 1 && IsKernel(completions)
    ensures Proper(trace, qd) && Flight(trace) == map[]
    ensures Order(trace) == Indices(n) && multiset(Finished(trace)) == multiset(Indices(n))
  {
    hide Proper, Carried;
    var next, inflight;
    trace, next, inflight := Fill(n, qd);
    while inflight > 0
      invariant Started(trace, qd, next) && next <= n && inflight == |Flight(trace)|
      invariant inflight == 0 ==> next == n
      decreases n - next + inflight
    {
      var done := completions(trace);
      var reaped := Reap(trace, done, qd, next);
      trace, next, inflight := Refill(reaped, done, qd, n, next, inflight);
    }
    assert Flight(trace) == map[];
    ReadsConserved(trace, qd);
    NothingCarried(Flight(trace), qd);
  }

  /** Each offset is submitted and completed exactly once. */
  lemma EachOnce(trace: seq<Event>, n: nat, i: nat)
    requires Order(trace) == Indices(n) && multiset(Finished(trace)) == multiset(Indices(n))
    ensures multiset(Order(trace))[i] == multiset(Finished(trace))[i] == if i < n then 1 else 0
  {
    IndicesCount(n, i);
  }
}
