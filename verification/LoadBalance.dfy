/** Assignments of weighted jobs to nodes, the greedy rule, and Graham's bound on heaviest-first greedy. */
module LoadBalance {

  function Total(w: seq<nat>): nat {
    if w == [] then 0 else Total(w[..|w| - 1]) + w[|w| - 1]
  }

  /** The weight that assignment `a` puts on `node`. */
  function Load(w: seq<nat>, a: seq<nat>, node: nat): nat
    requires |w| == |a|
  {
    if w == [] then 0
    else
      var n := |w| - 1;
      Load(w[..n], a[..n], node) + if a[n] == node then w[n] else 0
  }

  /** The largest load among nodes `0..m`. */
  function Makespan(w: seq<nat>, a: seq<nat>, m: nat): (t: nat)
    requires |w| == |a|
    ensures forall i :: 0 <= i < m ==> Load(w, a, i) <= t
    ensures m > 0 ==> exists i :: 0 <= i < m && Load(w, a, i) == t
  {
    if m == 0 then 0
    else
      var t := Makespan(w, a, m - 1);
      if t < Load(w, a, m - 1) || m == 1 then Load(w, a, m - 1) else t
  }

  ghost predicate IsAssignment(a: seq<nat>, n: nat, m: nat) {
    |a| == n && forall k :: 0 <= k < n ==> a[k] < m
  }

  ghost predicate Descending(w: seq<nat>) {
    forall i, j :: 0 <= i < j < |w| ==> w[i] >= w[j]
  }

  /** `node` is the lightest node, and the lowest-numbered of those equally light. */
  ghost predicate Lightest(w: seq<nat>, a: seq<nat>, m: nat, node: nat)
    requires |w| == |a|
  {
    && node < m
    && forall j :: 0 <= j < m ==>
         && Load(w, a, node) <= Load(w, a, j)
         && (j < node ==> Load(w, a, node) < Load(w, a, j))
  }

  /** Every job went to the lightest node at its turn. */
  ghost predicate Greedy(w: seq<nat>, a: seq<nat>, m: nat) {
    && |a| == |w|
    && forall k :: 0 <= k < |w| ==> Lightest(w[..k], a[..k], m, a[k])
  }

  lemma {:induction false} GreedyIsUnique(w: seq<nat>, a: seq<nat>, b: seq<nat>, m: nat)
    requires Greedy(w, a, m) && Greedy(w, b, m)
    ensures a == b
  {
    if w != [] {
      var n := |w| - 1;
      GreedyPrefix(w, a, m, n);
      GreedyPrefix(w, b, m, n);
      GreedyIsUnique(w[..n], a[..n], b[..n], m);
      assert Lightest(w[..n], a[..n], m, a[n]) && Lightest(w[..n], b[..n], m, b[n]);
      assert a == a[..n] + [a[n]] && b == b[..n] + [b[n]];
    }
  }

  lemma GreedyPrefix(w: seq<nat>, a: seq<nat>, m: nat, n: nat)
    requires Greedy(w, a, m) && n <= |w|
    ensures Greedy(w[..n], a[..n], m)
  {
    forall k | 0 <= k < n ensures Lightest(w[..n][..k], a[..n][..k], m, a[..n][k]) {
      assert w[..n][..k] == w[..k] && a[..n][..k] == a[..k];
    }
  }

  // ---- sums over nodes ---------------------------------------------------------

  function SumLoads(w: seq<nat>, a: seq<nat>, m: nat): nat
    requires |w| == |a|
  {
    if m == 0 then 0 else SumLoads(w, a, m - 1) + Load(w, a, m - 1)
  }

  lemma {:induction false} SumLoadsStep(w: seq<nat>, a: seq<nat>, m: nat)
    requires |w| == |a| > 0
    ensures SumLoads(w, a, m)
         == SumLoads(w[..|w| - 1], a[..|w| - 1], m) + if a[|w| - 1] < m then w[|w| - 1] else 0
  {
    if m > 0 {
      SumLoadsStep(w, a, m - 1);
    }
  }

  lemma {:induction false} SumLoadsEmpty(m: nat)
    ensures SumLoads([], [], m) == 0
  {
    if m > 0 {
      SumLoadsEmpty(m - 1);
    }
  }

  /** Nothing is lost or counted twice: the loads add up to the total weight. */
  lemma {:induction false} LoadsPartitionTotal(w: seq<nat>, a: seq<nat>, m: nat)
    requires IsAssignment(a, |w|, m)
    ensures SumLoads(w, a, m) == Total(w)
  {
    if w == [] {
      SumLoadsEmpty(m);
    } else {
      SumLoadsStep(w, a, m);
      LoadsPartitionTotal(w[..|w| - 1], a[..|w| - 1], m);
    }
  }

  lemma {:induction false} SumLoadsBetween(w: seq<nat>, a: seq<nat>, m: nat, lo: nat, hi: nat)
    requires |w| == |a|
    ensures (forall i :: 0 <= i < m ==> Load(w, a, i) >= lo) ==> SumLoads(w, a, m) >= m * lo
    ensures (forall i :: 0 <= i < m ==> Load(w, a, i) <= hi) ==> SumLoads(w, a, m) <= m * hi
  {
    if m > 0 {
      SumLoadsBetween(w, a, m - 1, lo, hi);
      assert m * lo == (m - 1) * lo + lo && m * hi == (m - 1) * hi + hi;
    }
  }

  lemma {:induction false} LoadOfPrefix(w: seq<nat>, a: seq<nat>, k: nat, node: nat)
    requires |w| == |a| && k <= |w|
    ensures Load(w[..k], a[..k], node) <= Load(w, a, node)
  {
    if k < |w| {
      var n := |w| - 1;
      LoadOfPrefix(w[..n], a[..n], k, node);
      assert w[..n][..k] == w[..k] && a[..n][..k] == a[..k];
    } else {
      assert w[..k] == w && a[..k] == a;
    }
  }

  /** The last job placed on `node`, if it has any. */
  lemma {:induction false} LastJob(w: seq<nat>, a: seq<nat>, node: nat) returns (k: nat)
    requires |w| == |a| && Load(w, a, node) > 0
    ensures k < |w| && a[k] == node
    ensures Load(w, a, node) == Load(w[..k], a[..k], node) + w[k]
  {
    var n := |w| - 1;
    if a[n] == node {
      k := n;
    } else {
      k := LastJob(w[..n], a[..n], node);
      assert w[..n][..k] == w[..k] && a[..n][..k] == a[..k];
    }
  }

  // ---- the bound -----------------------------------------------------------------

  /** Two units for a job too heavy to share a node with one of weight `x` under limit `t`, else one. */
  function Units(w: seq<nat>, x: nat, t: nat): (c: seq<nat>)
    ensures |c| == |w| && forall i :: 0 <= i < |w| ==> c[i] == if w[i] + x > t then 2 else 1
  {
    seq(|w|, i requires 0 <= i < |w| => if w[i] + x > t then 2 else 1)
  }

  /** A node above `t - x` holds at least two units. */
  lemma {:induction false} HeavyNodeHasTwoUnits(w: seq<nat>, a: seq<nat>, node: nat, x: nat, t: nat)
    requires |w| == |a| && x <= t
    ensures Load(Units(w, x, t), a, node) == 0 ==> Load(w, a, node) == 0
    ensures Load(w, a, node) + x > t ==> Load(Units(w, x, t), a, node) >= 2
  {
    if w != [] {
      var n := |w| - 1;
      HeavyNodeHasTwoUnits(w[..n], a[..n], node, x, t);
      assert Units(w, x, t)[..n] == Units(w[..n], x, t);
    }
  }

  /** A node within `t` holds at most two units when every job exceeds a third of `t`. */
  lemma {:induction false} FittingNodeHasTwoUnits(w: seq<nat>, a: seq<nat>, node: nat, x: nat, t: nat)
    requires |w| == |a| && x <= t < 3 * x
    requires forall i :: 0 <= i < |w| ==> w[i] >= x
    ensures var u := Load(Units(w, x, t), a, node);
            Load(w, a, node) >= if u == 0 then 0 else if u == 1 then x else if u == 2 then t - x + 1 else t + 1
  {
    if w != [] {
      var n := |w| - 1;
      FittingNodeHasTwoUnits(w[..n], a[..n], node, x, t);
      assert Units(w, x, t)[..n] == Units(w[..n], x, t);
    }
  }

  /** If the jobs up to `k` all exceed a third of what some assignment `b` achieves, greedy placed job `k` within it. */
  lemma LargeJobsFit(w: seq<nat>, a: seq<nat>, b: seq<nat>, m: nat, k: nat, t: nat)
    requires k < |w| && Descending(w) && Greedy(w, a, m) && IsAssignment(b, |w|, m)
    requires forall i :: 0 <= i < m ==> Load(w, b, i) <= t
    requires 3 * w[k] > t
    ensures Load(w[..k], a[..k], a[k]) + w[k] <= t
  {
    var x := w[k];
    var p, q := w[..k + 1], b[..k + 1];
    LoadOfPrefix(w, b, k + 1, b[k]);
    assert p[..k] == w[..k];
    assert x <= Load(p, q, b[k]) <= t;
    if Load(w[..k], a[..k], a[k]) + x > t {
      var c := Units(p, x, t);
      assert c[..k] == Units(w[..k], x, t);
      forall i | 0 <= i < m ensures Load(c[..k], a[..k], i) >= 2 && Load(c, q, i) <= 2 {
        assert Lightest(w[..k], a[..k], m, a[k]);
        HeavyNodeHasTwoUnits(w[..k], a[..k], i, x, t);
        LoadOfPrefix(w, b, k + 1, i);
        FittingNodeHasTwoUnits(p, q, i, x, t);
      }
      AtLeastTwoEach(c[..k], a[..k], m);
      AtMostTwoEach(c, q, m);
      assert false;
    }
  }

  lemma AtLeastTwoEach(c: seq<nat>, a: seq<nat>, m: nat)
    requires |c| == |a| && (forall k :: 0 <= k < |a| ==> a[k] < m)
    requires forall i :: 0 <= i < m ==> Load(c, a, i) >= 2
    ensures Total(c) >= 2 * m
  {
    SumLoadsBetween(c, a, m, 2, 0);
    LoadsPartitionTotal(c, a, m);
  }

  lemma AtMostTwoEach(c: seq<nat>, a: seq<nat>, m: nat)
    requires |c| == |a| && (forall k :: 0 <= k < |a| ==> a[k] < m)
    requires forall i :: 0 <= i < m ==> Load(c, a, i) <= 2
    ensures Total(c) <= 2 * m
  {
    SumLoadsBetween(c, a, m, 0, 2);
    LoadsPartitionTotal(c, a, m);
  }

  /** Before job `k`, the lightest node holds at most the average; and job `k` is part of what `b` spreads. */
  lemma AverageBound(w: seq<nat>, a: seq<nat>, b: seq<nat>, m: nat, k: nat, t: nat)
    requires k < |w| && Greedy(w, a, m) && IsAssignment(b, |w|, m)
    requires forall i :: 0 <= i < m ==> Load(w, b, i) <= t
    ensures m * Load(w[..k], a[..k], a[k]) + w[k] <= m * t
  {
    var p, q := w[..k + 1], b[..k + 1];
    forall i | 0 <= i < m ensures Load(p, q, i) <= t {
      LoadOfPrefix(w, b, k + 1, i);
    }
    SumLoadsBetween(p, q, m, 0, t);
    LoadsPartitionTotal(p, q, m);
    assert p[..k] == w[..k];
    forall j | 0 <= j < k ensures a[j] < m {
      assert Lightest(w[..j], a[..j], m, a[j]);
    }
    assert Lightest(w[..k], a[..k], m, a[k]);
    SumLoadsBetween(w[..k], a[..k], m, Load(w[..k], a[..k], a[k]), 0);
    LoadsPartitionTotal(w[..k], a[..k], m);
  }

  /** Graham's theorem, exact constant: heaviest-first greedy is within 4/3 - 1/(3m) of every assignment. */
  lemma GrahamBound(w: seq<nat>, a: seq<nat>, b: seq<nat>, m: nat)
    requires m > 0 && Descending(w) && Greedy(w, a, m) && IsAssignment(b, |w|, m)
    ensures 3 * m * Makespan(w, a, m) <= (4 * m - 1) * Makespan(w, b, m)
  {
    var t := Makespan(w, b, m);
    var node: nat :| node < m && Load(w, a, node) == Makespan(w, a, m);
    var load := Load(w, a, node);
    if load > 0 {
      var k := LastJob(w, a, node);
      if 3 * w[k] > t {
        LargeJobsFit(w, a, b, m, k, t);
        Scale(m, load, t, t);
      } else {
        AverageBound(w, a, b, m, k, t);
        SmallLastJob(m, load - w[k], w[k], t);
      }
    } else {
      Scale(m, load, t, t);
    }
  }

  lemma Scale(m: nat, load: nat, t: nat, s: nat)
    requires m > 0 && load <= t == s
    ensures 3 * m * load <= (4 * m - 1) * s
  {
    assert 3 * m * load <= 3 * m * s;
    assert (4 * m - 1) * s == 3 * m * s + (m - 1) * s;
  }

  lemma SmallLastJob(m: nat, l: nat, x: nat, t: nat)
    requires m > 0 && m * l + x <= m * t && 3 * x <= t
    ensures 3 * m * (l + x) <= (4 * m - 1) * t
  {
    var ml, mx, mt := m * l, m * x, m * t;
    assert 3 * m * (l + x) == 3 * ml + 3 * mx by { Distribute(3 * m, l, x); }
    assert (4 * m - 1) * t == 4 * mt - t;
    assert 3 * mx - 3 * x <= mt - t by { ScaleLess(m, 3 * x, t); }
  }

  lemma Distribute(f: nat, l: nat, x: nat)
    ensures f * (l + x) == f * l + f * x
  {
  }

  lemma ScaleLess(m: nat, y: nat, t: nat)
    requires m > 0 && y <= t
    ensures m * y - y <= m * t - t
  {
    var n := m - 1;
    var d := t - y;
    assert n * (y + d) == n * y + n * d;
    assert m * y == n * y + y && m * t == n * t + t;
  }

  /** No node ends more than one job heavier than any other. */
  lemma GreedyGap(w: seq<nat>, a: seq<nat>, m: nat, i: nat, j: nat, heaviest: nat)
    requires Greedy(w, a, m) && i < m && j < m
    requires forall k :: 0 <= k < |w| ==> w[k] <= heaviest
    ensures Load(w, a, i) <= Load(w, a, j) + heaviest
  {
    if Load(w, a, i) > 0 {
      var k := LastJob(w, a, i);
      assert Lightest(w[..k], a[..k], m, a[k]);
      LoadOfPrefix(w, a, k, j);
    }
  }
}
