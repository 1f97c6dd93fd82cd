/** Which node owns each routed expert: contiguous blocks, heaviest-first balancing, and shares
    proportional to capacity (`crates/colibri-cluster/src/sharding.rs`). */
module Sharding {
  import opened Arithmetic
  import opened Collections
  import opened Wrappers
  import opened LoadBalance
  import opened Octets
  import opened Permute

  /** `table` is the explicit owner of each expert; `None` means the closed-form contiguous map. */
  datatype ExpertSharding = ExpertSharding(numNodes: nat, nExperts: nat, table: Option<seq<nat>>) {

    ghost predicate Valid() {
      && numNodes >= 1 && nExperts >= 1
      && (table.Some? ==> IsAssignment(table.value, nExperts, numNodes))
    }

    function Owner(expert: nat): nat
      requires Valid() && expert < nExperts
    {
      match table
      case Some(t) => t[expert]
      case None => expert * numNodes / nExperts
    }

    function Owners(): seq<nat>
      requires Valid()
    {
      seq(nExperts, e requires 0 <= e < nExperts => Owner(e))
    }

    /** How many experts `node` owns. */
    function CountFor(node: nat): nat
      requires Valid()
    {
      Load(Ones(nExperts), Owners(), node)
    }

    function RangeFor(node: nat): (nat, nat)
      requires Valid() && table.None?
    {
      (DivCeil(node * nExperts, numNodes), DivCeil((node + 1) * nExperts, numNodes))
    }

    /** The loop of `node_weights`: sums of 64 bits, which wrap when a node's total does not fit. */
    method NodeWeights(weights: seq<u64>) returns (out: seq<u64>)
      requires Valid()
      ensures |out| == numNodes
      ensures forall i :: 0 <= i < numNodes ==> out[i] as nat == Load(Weights(weights, nExperts), Owners(), i) % TWO64
      ensures Total(Weights(weights, nExperts)) < TWO64 ==>
                forall i :: 0 <= i < numNodes ==> out[i] as nat == Load(Weights(weights, nExperts), Owners(), i)
    {
      ghost var w, a := Weights(weights, nExperts), Owners();
      OwnersInRange(this);
      WrappedLoadsStart(w, a, numNodes);
      out := seq(numNodes, _ => 0);
      hide Load, WrappedLoads;
      for e := 0 to nExperts
        invariant WrappedLoads(out, w[..e], a[..e], numNodes) && |out| == numNodes
      {
        var node := Owner(e);
        assert a[e] == node < numNodes && w[e] == Recorded(weights, e) as nat;
        WrappedLoadsStep(out, w, a, e, numNodes);
        out := out[node := (out[node] as nat + Recorded(weights, e) as nat) % TWO64];
      }
      WrappedLoadsDone(out, w, a, numNodes);
    }
  }

  lemma WrappedLoadsStart(w: seq<nat>, a: seq<nat>, m: nat)
    requires |w| == |a|
    ensures WrappedLoads(seq(m, _ => 0), w[..0], a[..0], m)
  {
  }

  lemma WrappedLoadsDone(out: seq<u64>, w: seq<nat>, a: seq<nat>, m: nat)
    requires |w| == |a| && WrappedLoads(out, w[..|w|], a[..|w|], m)
    ensures |out| == m && forall i :: 0 <= i < m ==> out[i] as nat == Load(w, a, i) % TWO64
    ensures Total(w) < TWO64 ==> forall i :: 0 <= i < m ==> out[i] as nat == Load(w, a, i)
  {
    assert w[..|w|] == w && a[..|w|] == a;
    hide Load;
    forall i | 0 <= i < m ensures Load(w, a, i) <= Total(w) {
      LoadAtMostTotal(w, a, |w|, i);
    }
  }

  ghost predicate WrappedLoads(out: seq<u64>, w: seq<nat>, a: seq<nat>, m: nat)
    requires |w| == |a|
  {
    |out| == m && forall i: nat :: i < m ==> out[i] as nat == Load(w, a, i) % TWO64
  }

  lemma WrappedLoadsStep(out: seq<u64>, w: seq<nat>, a: seq<nat>, e: nat, m: nat)
    requires e < |w| == |a| && a[e] < m && WrappedLoads(out, w[..e], a[..e], m)
    ensures WrappedLoads(out[a[e] := (out[a[e]] as nat + w[e]) % TWO64], w[..e + 1], a[..e + 1], m)
  {
    LoadStep(w, a[..e], e, a[e]);
    assert a[..e + 1] == a[..e] + [a[e]];
    hide Load;
    WrapsOnce(Load(w[..e], a[..e], a[e]), w[e]);
  }

  lemma WrapsOnce(x: nat, y: nat)
    ensures (x % TWO64 + y) % TWO64 == (x + y) % TWO64
  {
  }

  /** A history that is too short counts as zero for the experts it misses. */
  function Recorded(weights: seq<u64>, e: nat): u64 {
    if e < |weights| then weights[e] else 0
  }

  function WeightOf(weights: seq<u64>, e: nat): nat {
    Recorded(weights, e) as nat
  }

  function Weights(weights: seq<u64>, n: nat): (w: seq<nat>) {
    seq(n, e requires 0 <= e < n => WeightOf(weights, e))
  }

  /** Each expert weighs what the history records for it. */
  lemma RecordedWeights(weights: seq<u64>, n: nat, e: nat)
    requires e < n
    ensures |Weights(weights, n)| == n
    ensures Weights(weights, n)[e] == if e < |weights| then weights[e] as nat else 0
  {
  }

  /** The experts that a short history misses add nothing to any node. */
  lemma {:induction false} MissingWeighsNothing(weights: seq<u64>, a: seq<nat>, node: nat)
    requires |weights| <= |a|
    ensures Load(Weights(weights, |a|), a, node) == Load(Weights(weights, |weights|), a[..|weights|], node)
    decreases |a|
  {
    var n := |a|;
    if |weights| == n {
      assert a[..n] == a;
    } else {
      MissingWeighsNothing(weights, a[..n - 1], node);
      assert Weights(weights, n)[..n - 1] == Weights(weights, n - 1);
      assert a[..n - 1][..|weights|] == a[..|weights|];
      RecordedWeights(weights, n, n - 1);
    }
  }

  function Ones(n: nat): seq<nat> {
    seq(n, _ => 1)
  }

  // ---- contiguous blocks ---------------------------------------------------------

  lemma OwnersInRange(s: ExpertSharding)
    requires s.Valid()
    ensures IsAssignment(s.Owners(), s.nExperts, s.numNodes)
  {
    if s.table.None? {
      forall e | 0 <= e < s.nExperts ensures s.Owner(e) < s.numNodes {
        BlockIndex(e, s.numNodes, s.nExperts, s.numNodes);
        DivCeilExact(s.numNodes, s.nExperts);
      }
    }
  }

  /** `e * n / d` reaches `node` exactly from the rounded-up start of its block. */
  lemma BlockIndex(e: nat, n: nat, d: nat, node: nat)
    requires n > 0 && d > 0
    ensures e * n / d >= node <==> e >= DivCeil(node * d, n)
  {
    DivAtLeast(e * n, d, node);
    DivCeilAtMost(node * d, n, e);
  }

  lemma DivCeilExact(n: nat, d: nat)
    requires n > 0
    ensures DivCeil(n * d, n) == d
  {
    DivCeilAtMost(n * d, n, d);
    if d > 0 {
      DivCeilAtMost(n * d, n, d - 1);
      assert (d - 1) * n == d * n - n;
    }
  }

  /** `range_for` inverts `owner`: the half-open ranges tile the experts and each holds exactly its node's. */
  lemma RangeInvertsOwner(s: ExpertSharding, node: nat, e: nat)
    requires s.Valid() && s.table.None? && node < s.numNodes && e < s.nExperts
    ensures s.Owner(e) == node <==> s.RangeFor(node).0 <= e < s.RangeFor(node).1
    ensures s.RangeFor(node).1 == s.RangeFor(node + 1).0
    ensures s.RangeFor(0).0 == 0 && s.RangeFor(s.numNodes - 1).1 == s.nExperts
  {
    BlockIndex(e, s.numNodes, s.nExperts, node);
    BlockIndex(e, s.numNodes, s.nExperts, node + 1);
    DivCeilExact(s.numNodes, s.nExperts);
    DivCeilAtMost(0, s.numNodes, 0);
  }

  // ---- heaviest first ----------------------------------------------------------------

  /** The assignment, read in placement order, is the greedy one. */
  ghost predicate IsHeaviestFirst(table: seq<nat>, w: seq<nat>, m: nat) {
    && IsAssignment(table, |w|, m)
    && (forall k :: 0 <= k < |HeaviestFirst(w)| ==> HeaviestFirst(w)[k] < |w|)
    && Greedy(Gather(w, HeaviestFirst(w)), Gather(table, HeaviestFirst(w)), m)
  }

  /** Every node that computes the map from the same weights gets the same table. */
  lemma HeaviestFirstIsUnique(t: seq<nat>, u: seq<nat>, w: seq<nat>, m: nat)
    requires IsHeaviestFirst(t, w, m) && IsHeaviestFirst(u, w, m)
    ensures t == u
  {
    var o := HeaviestFirst(w);
    HeaviestFirstIsOrder(w);
    GreedyIsUnique(Gather(w, o), Gather(t, o), Gather(u, o), m);
    forall e | 0 <= e < |w| ensures t[e] == u[e] {
      var k := PlaceOf(o, |w|, e);
      assert Gather(t, o)[k] == Gather(u, o)[k];
    }
  }

  lemma PlaceOf(order: seq<nat>, n: nat, e: nat) returns (k: nat)
    requires IsOrder(order, n) && e < n
    ensures k < |order| && order[k] == e
  {
    IndicesCount(n, e);
    assert e in multiset(order);
    k :| 0 <= k < |order| && order[k] == e;
  }

  /** The documented guarantee: within 4/3 (exactly 4/3 - 1/(3m)) of the best possible largest load. */
  lemma BalancedIsNearOptimal(table: seq<nat>, w: seq<nat>, m: nat, other: seq<nat>)
    requires m > 0 && IsHeaviestFirst(table, w, m) && IsAssignment(other, |w|, m)
    ensures 3 * m * Makespan(w, table, m) <= (4 * m - 1) * Makespan(w, other, m)
  {
    var o := HeaviestFirst(w);
    HeaviestFirstIsOrder(w);
    GrahamBound(Gather(w, o), Gather(table, o), Gather(other, o), m);
    MakespanThroughOrder(w, table, o, m);
    MakespanThroughOrder(w, other, o, m);
  }

  /** No two nodes' traffic differs by more than the heaviest single expert. */
  lemma BalancedGap(table: seq<nat>, w: seq<nat>, m: nat, i: nat, j: nat, heaviest: nat)
    requires IsHeaviestFirst(table, w, m) && i < m && j < m
    requires forall e :: 0 <= e < |w| ==> w[e] <= heaviest
    ensures Load(w, table, i) <= Load(w, table, j) + heaviest
  {
    var o := HeaviestFirst(w);
    HeaviestFirstIsOrder(w);
    GreedyGap(Gather(w, o), Gather(table, o), m, i, j, heaviest);
    LoadThroughOrder(w, table, o, i);
    LoadThroughOrder(w, table, o, j);
  }

  lemma GreedySnoc(w: seq<nat>, a: seq<nat>, m: nat, k: nat, node: nat)
    requires k < |w| && |a| == k && Greedy(w[..k], a, m) && Lightest(w[..k], a, m, node)
    ensures Greedy(w[..k + 1], a + [node], m)
  {
    var p, q := w[..k + 1], a + [node];
    forall j | 0 <= j <= k ensures Lightest(p[..j], q[..j], m, q[j]) {
      if j < k {
        assert p[..j] == w[..k][..j] && q[..j] == a[..j];
        assert Lightest(w[..k][..j], a[..j], m, a[j]);
      } else {
        assert p[..j] == w[..k] && q[..j] == a;
      }
    }
  }

  lemma {:induction false} LoadAtMostTotal(w: seq<nat>, a: seq<nat>, k: nat, node: nat)
    requires |a| == k <= |w|
    ensures Load(w[..k], a, node) <= Total(w)
    decreases |w|
  {
    if k < |w| {
      LoadAtMostTotal(w[..|w| - 1], a, k, node);
      assert w[..|w| - 1][..k] == w[..k];
    } else if k > 0 {
      LoadAtMostTotal(w[..k - 1], a[..k - 1], k - 1, node);
      assert w[..k] == w && w[..k - 1][..k - 1] == w[..k - 1];
    }
  }

  lemma LoadStep(w: seq<nat>, a: seq<nat>, k: nat, node: nat)
    requires k < |w| && |a| == k
    ensures forall i :: Load(w[..k + 1], a + [node], i) == Load(w[..k], a, i) + if node == i then w[k] else 0
  {
    assert w[..k + 1][..k] == w[..k] && (a + [node])[..k] == a;
  }

  /** `load` holds what the first `k` placements `asg` put on each of the `m` nodes. */
  ghost predicate LoadsAre(load: seq<u64>, w: seq<nat>, asg: seq<nat>, m: nat, k: nat) {
    && k == |asg| <= |w| && |load| == m
    && forall i: nat :: i < m ==> load[i] as nat == Load(w[..k], asg, i)
  }

  lemma PlaceStep(load: seq<u64>, w: seq<nat>, asg: seq<nat>, m: nat, k: nat, node: nat)
    requires LoadsAre(load, w, asg, m, k) && k < |w| && node < m && Total(w) < TWO64
    ensures load[node] as nat + w[k] < TWO64
    ensures LoadsAre(load[node := (load[node] as nat + w[k]) as u64], w, asg + [node], m, k + 1)
  {
    LoadStep(w, asg, k, node);
    LoadAtMostTotal(w, asg + [node], k + 1, node);
  }

  lemma LightestIsLightest(load: seq<u64>, w: seq<nat>, asg: seq<nat>, m: nat, k: nat, node: nat)
    requires LoadsAre(load, w, asg, m, k) && node < m
    requires forall j :: 0 <= j < m ==> load[node] <= load[j] && (j < node ==> load[node] < load[j])
    ensures Lightest(w[..k], asg, m, node)
  {
  }

  method LightestNode(load: seq<u64>) returns (node: nat)
    requires |load| > 0
    ensures node < |load|
    ensures forall j :: 0 <= j < |load| ==> load[node] <= load[j] && (j < node ==> load[node] < load[j])
  {
    node := 0;
    for i := 1 to |load|
      invariant node < i
      invariant forall j :: 0 <= j < i ==> load[node] <= load[j] && (j < node ==> load[node] < load[j])
    {
      if load[i] < load[node] {
        node := i;
      }
    }
  }

  /** `table` holds the first placements `asg`, made in the order given. */
  ghost predicate TableHolds(table: seq<nat>, order: seq<nat>, asg: seq<nat>, m: nat) {
    && |asg| <= |order|
    && (forall e :: 0 <= e < |table| ==> table[e] < m)
    && (forall j :: 0 <= j < |asg| ==> order[j] < |table| && table[order[j]] == asg[j])
  }

  lemma TableStep(table: seq<nat>, order: seq<nat>, asg: seq<nat>, m: nat, node: nat)
    requires TableHolds(table, order, asg, m) && node < m && IsOrder(order, |table|) && |asg| < |order|
    ensures order[|asg|] < |table|
    ensures TableHolds(table[order[|asg|] := node], order, asg + [node], m)
  {
    OrderContents(order, |table|);
  }

  lemma TableDone(table: seq<nat>, order: seq<nat>, asg: seq<nat>, m: nat)
    requires TableHolds(table, order, asg, m) && IsOrder(order, |table|) && |asg| == |order|
    ensures (forall k :: 0 <= k < |order| ==> order[k] < |table|) && Gather(table, order) == asg
  {
  }

  /** What `load` and `table` say about the placements so far. */
  ghost predicate Placing(load: seq<u64>, table: seq<nat>, w: seq<nat>, order: seq<nat>, asg: seq<nat>, m: nat) {
    && |asg| <= |w| && Greedy(w[..|asg|], asg, m)
    && TableHolds(table, order, asg, m)
    && LoadsAre(load, w, asg, m, |asg|)
  }

  lemma PlacingStart(n: nat, w: seq<nat>, order: seq<nat>, m: nat)
    requires m > 0
    ensures Placing(seq(m, _ => 0), seq(n, _ => 0), w, order, [], m)
  {
  }

  lemma PlacingStep(load: seq<u64>, table: seq<nat>, w: seq<nat>, order: seq<nat>, asg: seq<nat>, m: nat, node: nat)
    requires Placing(load, table, w, order, asg, m) && |asg| < |w| == |order| && Total(w) < TWO64
    requires IsOrder(order, |table|) && node < m == |load|
    requires forall j :: 0 <= j < m ==> load[node] <= load[j] && (j < node ==> load[node] < load[j])
    ensures order[|asg|] < |table| && load[node] as nat + w[|asg|] < TWO64
    ensures Placing(load[node := (load[node] as nat + w[|asg|]) as u64], table[order[|asg|] := node], w, order,
                    asg + [node], m)
  {
    LightestIsLightest(load, w, asg, m, |asg|, node);
    hide Greedy, Lightest, TableHolds, LoadsAre;
    GreedySnoc(w, asg, m, |asg|, node);
    PlaceStep(load, w, asg, m, |asg|, node);
    TableStep(table, order, asg, m, node);
  }

  lemma PlacingDone(load: seq<u64>, table: seq<nat>, w: seq<nat>, order: seq<nat>, asg: seq<nat>, m: nat)
    requires Placing(load, table, w, order, asg, m) && IsOrder(order, |table|) && |asg| == |order| == |w|
    ensures IsAssignment(table, |table|, m) && Greedy(w, asg, m)
    ensures (forall k :: 0 <= k < |order| ==> order[k] < |table|) && Gather(table, order) == asg
  {
    TableDone(table, order, asg, m);
    assert w[..|asg|] == w;
  }

  /** The placement loop of `balanced`. */
  method PlaceAll(numNodes: nat, nExperts: nat, weights: seq<u64>, order: seq<nat>) returns (table: seq<nat>)
    requires numNodes >= 1 && IsOrder(order, nExperts) && forall k :: 0 <= k < |order| ==> order[k] < nExperts
    requires Total(Weights(weights, nExperts)) < TWO64
    ensures IsAssignment(table, nExperts, numNodes)
    ensures Greedy(Gather(Weights(weights, nExperts), order), Gather(table, order), numNodes)
  {
    OrderContents(order, nExperts);
    ghost var wo := Gather(Weights(weights, nExperts), order);
    TotalThroughOrder(Weights(weights, nExperts), order);
    var load: seq<u64> := seq(numNodes, _ => 0);
    table := seq(nExperts, _ => 0);
    ghost var asg: seq<nat> := [];
    PlacingStart(nExperts, wo, order, numNodes);
    assert forall k :: 0 <= k < nExperts ==> wo[k] == Recorded(weights, order[k]) as nat;
    hide *;
    for k := 0 to nExperts
      invariant |asg| == k && |table| == nExperts
      invariant Placing(load, table, wo, order, asg, numNodes)
    {
      load, table, asg := PlaceOne(load, table, order[k], Recorded(weights, order[k]), wo, order, asg, numNodes);
    }
    PlacingDone(load, table, wo, order, asg, numNodes);
  }

  /** One turn of the loop: the next expert goes to the lightest node. */
  method PlaceOne(load: seq<u64>, table: seq<nat>, e: nat, x: u64, ghost w: seq<nat>, ghost order: seq<nat>,
                  ghost asg: seq<nat>, ghost m: nat)
    returns (load': seq<u64>, table': seq<nat>, ghost asg': seq<nat>)
    requires Placing(load, table, w, order, asg, m) && |asg| < |w| == |order| && Total(w) < TWO64 && m > 0
    requires IsOrder(order, |table|) && e == order[|asg|] && x as nat == w[|asg|]
    ensures |asg'| == |asg| + 1 && |table'| == |table| && Placing(load', table', w, order, asg', m)
  {
    assert |load| == m;
    hide *;
    var node := LightestNode(load);
    PlacingStep(load, table, w, order, asg, m, node);
    table', load', asg' := table[e := node], load[node := load[node] + x], asg + [node];
  }

  /** `balanced`. The caller's weights must not overflow a 64-bit total. */
  method Balanced(numNodes: nat, nExperts: nat, weights: seq<u64>) returns (r: ExpertSharding)
    requires numNodes >= 1 && nExperts >= 1
    requires numNodes > 1 ==> Total(Weights(weights, nExperts)) < TWO64
    ensures r.Valid() && r.numNodes == numNodes && r.nExperts == nExperts
    ensures r.table.None? <==> numNodes == 1
    ensures IsHeaviestFirst(r.Owners(), Weights(weights, nExperts), numNodes)
  {
    HeaviestFirstIsOrder(Weights(weights, nExperts));
    if numNodes == 1 {
      r := ExpertSharding(1, nExperts, None);
      SingleNodeIsGreedy(r, Weights(weights, nExperts));
    } else {
      var table := PlaceAll(numNodes, nExperts, weights, HeaviestFirst(Weights(weights, nExperts)));
      r := ExpertSharding(numNodes, nExperts, Some(table));
      assert r.Owners() == table;
    }
  }

  lemma SingleNodeIsGreedy(r: ExpertSharding, w: seq<nat>)
    requires r.Valid() && r.numNodes == 1 && r.table.None? && |w| == r.nExperts
    ensures IsHeaviestFirst(r.Owners(), w, 1)
  {
    HeaviestFirstIsOrder(w);
    OwnersInRange(r);
    var o := HeaviestFirst(w);
    var a := Gather(r.Owners(), o);
    forall k | 0 <= k < |w| ensures Lightest(Gather(w, o)[..k], a[..k], 1, a[k]) { }
  }
}
