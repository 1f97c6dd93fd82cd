/** The reference sliding window: the rows listed at prefill and the rows decoded from a ring buffer at decode
    are the same positions. */
module Windows {
  import opened Arithmetic
  import opened Sorting
  import opened TopK

  function Least(p: nat, win: nat): nat {
    if p + 1 < win then 0 else p + 1 - win
  }

  function NotBefore(lo: nat): nat -> bool {
    (v: nat) => v >= lo
  }

  /** The last `win` positions up to and including `p`, ascending. */
  function Window(p: nat, win: nat): seq<nat> {
    Where(p + 1, NotBefore(Least(p, win)))
  }

  /** The window at `p` holds the positions up to `p` that are fewer than `win` behind it, ascending. */
  lemma WindowHolds(p: nat, win: nat, q: nat)
    ensures q in Window(p, win) <==> q <= p < q + win
    ensures forall i, j :: 0 <= i < j < |Window(p, win)| ==> Window(p, win)[i] < Window(p, win)[j]
  {
    WhereContents(p + 1, NotBefore(Least(p, win)));
  }

  /** The newest position at or before `p` that lands in ring slot `v`. */
  function Newest(p: nat, win: nat, v: nat): int
    requires win > 0
  {
    p - (p - v) % win
  }

  /** A position in the window is the newest of its own slot, and of no other. */
  lemma SlotOfPosition(p: nat, win: nat, q: nat)
    requires win > 0 && Least(p, win) <= q <= p
    ensures q % win < win && Newest(p, win, q % win) == q
  {
    DivModUnique(p - q % win, win, q / win, p - q);
  }

  lemma PositionOfSlot(p: nat, win: nat, v: nat)
    requires v < win
    ensures p - win < Newest(p, win, v) <= p
    ensures Newest(p, win, v) >= 0 ==> Newest(p, win, v) % win == v
  {
    var q := Newest(p, win, v);
    var k := (p - v) / win;
    assert p - v == k * win + (p - v) % win;
    if q >= 0 {
      if k < 0 {
        Negative(k, win);
        assert false;
      }
      DivModUnique(q, win, k, v);
    }
  }

  lemma Negative(k: int, win: nat)
    requires k < 0
    ensures k * win <= -(win as int)
  {
  }

  function From(lo: nat, hi: nat): (s: seq<nat>)
    requires lo <= hi
    ensures |s| == hi - lo && forall i :: 0 <= i < |s| ==> s[i] == lo + i
  {
    seq(hi - lo, i requires 0 <= i < hi - lo => lo + i)
  }

  /** The slots in the order the ring is read: those after the current slot, then up to and including it. */
  function RingSlots(win: nat, sp: nat): (s: seq<nat>)
    requires sp < win
    ensures |s| == win && forall i :: 0 <= i < win ==> s[i] == if i < win - sp - 1 then sp + 1 + i
            else i - (win - sp - 1)
  {
    From(sp + 1, win) + From(0, sp + 1)
  }

  /** Every slot is read, once. */
  lemma RingSlotsOnce(win: nat, sp: nat, v: nat)
    requires sp < win
    ensures v in RingSlots(win, sp) <==> v < win
    ensures forall i, j :: 0 <= i < j < win ==> RingSlots(win, sp)[i] != RingSlots(win, sp)[j]
  {
    if v < win {
      assert RingSlots(win, sp)[if v > sp then v - sp - 1 else v + (win - sp - 1)] == v;
    }
  }

  /** `q` is the newest position of one of the first `k` slots. */
  ghost predicate Seen(slots: seq<nat>, k: nat, p: nat, win: nat, q: int)
    requires win > 0 && k <= |slots|
  {
    exists i :: 0 <= i < k && Newest(p, win, slots[i]) == q
  }

  lemma SeenNext(slots: seq<nat>, k: nat, p: nat, win: nat, q: int)
    requires win > 0 && k < |slots|
    ensures Seen(slots, k + 1, p, win, q) <==> Seen(slots, k, p, win, q) || Newest(p, win, slots[k]) == q
  {
  }

  /** What has been collected from the first `k` slots. */
  ghost predicate Collected(out: seq<nat>, slots: seq<nat>, k: nat, p: nat, win: nat)
    requires win > 0 && k <= |slots|
  {
    && (forall i, j :: 0 <= i < j < |out| ==> out[i] != out[j])
    && forall q: nat :: q in out <==> q <= p && Seen(slots, k, p, win, q)
  }

  lemma CollectNext(out: seq<nat>, slots: seq<nat>, k: nat, p: nat, win: nat, next: seq<nat>)
    requires win > 0 && k < |slots| && Collected(out, slots, k, p, win)
    requires forall i, j :: 0 <= i < j < |slots| ==> slots[i] != slots[j]
    requires forall i :: 0 <= i < |slots| ==> slots[i] < win
    requires var q := Newest(p, win, slots[k]); next == if 0 <= q <= p then out + [q as nat] else out
    ensures Collected(next, slots, k + 1, p, win)
  {
    forall i | 0 <= i <= k ensures Newest(p, win, slots[i]) >= 0 ==> Newest(p, win, slots[i]) % win == slots[i] {
      PositionOfSlot(p, win, slots[i]);
    }
    hide Newest;
    var q := Newest(p, win, slots[k]);
    forall i | 0 <= i < k ensures q >= 0 ==> Newest(p, win, slots[i]) != q {
      assert slots[i] != slots[k];
    }
    forall r: nat ensures r in next <==> r <= p && Seen(slots, k + 1, p, win, r) {
      SeenNext(slots, k, p, win, r);
    }
    assert 0 <= q <= p ==> (q as nat) !in out;
  }

  /** A decode row: the newest position of each slot, where there is one, sorted. */
  method RingRow(win: nat, startPos: nat, p: nat) returns (row: seq<nat>)
    requires win > 0
    ensures row == Window(p, win)
  {
    var sp := startPos % win;
    var slots := RingSlots(win, sp);
    RingSlotsOnce(win, sp, 0);
    var out: seq<nat> := [];
    var k := 0;
    while k < |slots|
      invariant 0 <= k <= |slots| && Collected(out, slots, k, p, win)
    {
      var q := Newest(p, win, slots[k]);
      ghost var before := out;
      if 0 <= q <= p {
        out := out + [q];
      }
      CollectNext(before, slots, k, p, win, out);
      k := k + 1;
    }
    forall v: nat ensures v in slots <==> v < win {
      RingSlotsOnce(win, sp, v);
    }
    RingIsWindow(out, slots, p, win);
    row := Sort(out, Increasing());
  }

  lemma RingIsWindow(out: seq<nat>, slots: seq<nat>, p: nat, win: nat)
    requires win > 0 && Collected(out, slots, |slots|, p, win) && forall v: nat :: v in slots <==> v < win
    ensures Sort(out, Increasing()) == Window(p, win)
  {
    SortRises(out);
    forall q: nat ensures q in Sort(out, Increasing()) <==> q < p + 1 && NotBefore(Least(p, win))(q) {
      if q <= p && q >= Least(p, win) {
        SlotOfPosition(p, win, q);
        var v: nat := q % win;
        assert v in slots;
        var i :| 0 <= i < |slots| && slots[i] == v;
      }
      if q in out {
        var i :| 0 <= i < |slots| && Newest(p, win, slots[i]) == q;
        assert slots[i] in slots;
        PositionOfSlot(p, win, slots[i]);
      }
    }
    RisingIsWhere(Sort(out, Increasing()), p + 1, NotBefore(Least(p, win)));
  }

  /** A prefill row: `min(seqLen, win)` candidates from the first position of the window, cut at `p`. */
  method PrefillRow(win: nat, seqLen: nat, p: nat) returns (row: seq<nat>)
    requires p < seqLen
    ensures row == Window(p, win)
  {
    var lo := Least(p, win);
    var count := if seqLen < win then seqLen else win;
    row := [];
    var v := lo;
    while v < lo + count
      invariant lo <= v <= lo + count
      invariant Rising(row) && forall u: nat :: u in row <==> lo <= u < v && u <= p
    {
      if v <= p {
        assert forall i :: 0 <= i < |row| ==> row[i] in row;
        row := row + [v];
      }
      v := v + 1;
    }
    RisingIsWhere(row, p + 1, NotBefore(lo));
  }

  /** `ref_window`: at prefill and at decode alike, each query sees the last `win` positions up to its own. */
  method RefWindow(win: nat, seqLen: nat, startPos: nat) returns (rows: seq<seq<nat>>)
    requires startPos > 0 ==> win > 0
    ensures |rows| == seqLen && forall i :: 0 <= i < seqLen ==> rows[i] == Window(startPos + i, win)
  {
    rows := [];
    for i := 0 to seqLen
      invariant |rows| == i && forall j :: 0 <= j < i ==> rows[j] == Window(startPos + j, win)
    {
      var p := startPos + i;
      var row;
      if startPos == 0 {
        row := PrefillRow(win, seqLen, p);
      } else {
        row := RingRow(win, startPos, p);
      }
      rows := rows + [row];
    }
  }
}
