/** The two load-aware maps told from the finished table: who was ahead of an expert, what each node carried at its
    turn, and how many experts each node owns for its capacity. */
module SharingNumbers {
  import opened Arithmetic
  import opened Capacity
  import opened LoadBalance
  import opened Octets
  import opened Permute
  import opened Sharding

  // ---- an expert's turn ---------------------------------------------------------------------------------------------

  /** Expert `x` is placed before `e`: it is heavier, or as heavy with a lower id. */
  ghost predicate Ahead(w: seq<nat>, x: nat, e: nat) {
    x < |w| && e < |w| && (w[x] > w[e] || (w[x] == w[e] && x < e))
  }

  /** The weights of the experts ahead of `e`, and nothing for the others. */
  ghost function AheadOf(w: seq<nat>, e: nat): (v: seq<nat>)
    ensures |v| == |w|
  {
    seq(|w|, x requires 0 <= x < |w| => if Ahead(w, x, e) then w[x] else 0)
  }

  /** The weight on `node` when it was expert `e`'s turn. */
  ghost function Carried(table: seq<nat>, w: seq<nat>, e: nat, node: nat): nat
    requires |table| == |w|
  {
    Load(AheadOf(w, e), table, node)
  }

  /** The experts on `node` when it was expert `e`'s turn. */
  ghost function Held(table: seq<nat>, w: seq<nat>, e: nat, node: nat): set<nat>
    requires |table| == |w|
  {
    set x | 0 <= x < |table| && table[x] == node && Ahead(w, x, e)
  }

  /** Expert `e` is on the node that carried least at its turn, the lowest-numbered of those. */
  ghost predicate OnLightest(table: seq<nat>, w: seq<nat>, m: nat, e: nat)
    requires e < |table| == |w|
  {
    && table[e] < m
    && forall j :: 0 <= j < m ==>
         && Carried(table, w, e, table[e]) <= Carried(table, w, e, j)
         && (j < table[e] ==> Carried(table, w, e, table[e]) < Carried(table, w, e, j))
  }

  /** The same among the nodes that held fewer experts than their quota. */
  ghost predicate OnLightestOpen(table: seq<nat>, w: seq<nat>, quota: seq<nat>, e: nat)
    requires e < |table| == |w|
  {
    && table[e] < |quota| && |Held(table, w, e, table[e])| < quota[table[e]]
    && forall j :: 0 <= j < |quota| && |Held(table, w, e, j)| < quota[j] ==>
         && Carried(table, w, e, table[e]) <= Carried(table, w, e, j)
         && (j < table[e] ==> Carried(table, w, e, table[e]) < Carried(table, w, e, j))
  }

  // ---- from the placement order to the table ------------------------------------------------------------------------

  lemma {:induction false} ZerosAddNothing(v: seq<nat>, a: seq<nat>, k: nat, node: nat)
    requires |v| == |a| && k <= |v| && forall i :: k <= i < |v| ==> v[i] == 0
    ensures Load(v, a, node) == Load(v[..k], a[..k], node)
  {
    if k < |v| {
      var n := |v| - 1;
      ZerosAddNothing(v[..n], a[..n], k, node);
      assert v[..n][..k] == v[..k] && a[..n][..k] == a[..k];
    } else {
      assert v[..k] == v && a[..k] == a;
    }
  }

  /** In placement order the experts ahead of the `k`-th are the first `k`. */
  lemma FirstAreAhead(w: seq<nat>, k: nat, i: nat)
    requires k < |w| && i < |w|
    ensures |HeaviestFirst(w)| == |w| && HeaviestFirst(w)[i] < |w|
    ensures Ahead(w, HeaviestFirst(w)[i], HeaviestFirst(w)[k]) <==> i < k
  {
    HeaviestFirstIsOrder(w);
    var o := HeaviestFirst(w);
    hide HeaviestFirst;
    var g := Gather(w, o);
    assert g[i] == w[o[i]] && g[k] == w[o[k]];
  }

  /** `v` read in placement order, when only experts ahead of the `k`-th have something in it. */
  lemma LoadAtTurn(v: seq<nat>, table: seq<nat>, w: seq<nat>, k: nat, node: nat)
    requires |v| == |table| == |w| > k
    requires |HeaviestFirst(w)| == |w| && forall x :: 0 <= x < |w| && !Ahead(w, x, HeaviestFirst(w)[k]) ==> v[x] == 0
    ensures forall i :: 0 <= i < |w| ==> HeaviestFirst(w)[i] < |w|
    ensures Load(v, table, node) == Load(Gather(v, HeaviestFirst(w))[..k], Gather(table, HeaviestFirst(w))[..k], node)
  {
    var o := HeaviestFirst(w);
    HeaviestFirstIsOrder(w);
    forall i: nat | k <= i < |w| ensures Gather(v, o)[i] == 0 {
      FirstAreAhead(w, k, i);
    }
    hide HeaviestFirst, Ahead, Load;
    LoadThroughOrder(v, table, o, node);
    ZerosAddNothing(Gather(v, o), Gather(table, o), k, node);
  }

  lemma CarriedAtTurn(table: seq<nat>, w: seq<nat>, k: nat, node: nat)
    requires |table| == |w| > k
    ensures |HeaviestFirst(w)| == |w| && forall i :: 0 <= i < |w| ==> HeaviestFirst(w)[i] < |w|
    ensures Carried(table, w, HeaviestFirst(w)[k], node)
         == Load(Gather(w, HeaviestFirst(w))[..k], Gather(table, HeaviestFirst(w))[..k], node)
  {
    var o := HeaviestFirst(w);
    HeaviestFirstIsOrder(w);
    var v := AheadOf(w, o[k]);
    forall i: nat | i < k ensures Gather(v, o)[..k][i] == Gather(w, o)[..k][i] {
      FirstAreAhead(w, k, i);
    }
    hide HeaviestFirst, Ahead, Load;
    assert Gather(v, o)[..k] == Gather(w, o)[..k];
    LoadAtTurn(v, table, w, k, node);
  }

  /** A load of ones counts them. */
  lemma {:induction false} OnesAreCounted(v: seq<nat>, a: seq<nat>, node: nat)
    requires |v| == |a| && forall i :: 0 <= i < |v| ==> v[i] <= 1
    ensures Load(v, a, node) == |set x | 0 <= x < |a| && a[x] == node && v[x] == 1|
  {
    var s := set x | 0 <= x < |a| && a[x] == node && v[x] == 1;
    if v == [] {
      assert s == {};
    } else {
      var n := |v| - 1;
      OnesAreCounted(v[..n], a[..n], node);
      var t := set x | 0 <= x < n && a[..n][x] == node && v[..n][x] == 1;
      if a[n] == node && v[n] == 1 {
        assert s == t + {n};
      } else {
        assert s == t;
      }
    }
  }

  /** One for each expert ahead of `e`. */
  ghost function MarksAhead(w: seq<nat>, e: nat): (v: seq<nat>)
    ensures |v| == |w| && forall x :: 0 <= x < |w| ==> v[x] == if Ahead(w, x, e) then 1 else 0
  {
    seq(|w|, x requires 0 <= x < |w| => if Ahead(w, x, e) then 1 else 0)
  }

  lemma HeldIsLoad(table: seq<nat>, w: seq<nat>, e: nat, node: nat)
    requires |table| == |w|
    ensures |Held(table, w, e, node)| == Load(MarksAhead(w, e), table, node)
  {
    var v := MarksAhead(w, e);
    OnesAreCounted(v, table, node);
    assert Held(table, w, e, node) == set x | 0 <= x < |table| && table[x] == node && v[x] == 1;
  }

  lemma HeldAtTurn(table: seq<nat>, w: seq<nat>, k: nat, node: nat)
    requires |table| == |w| > k
    ensures |HeaviestFirst(w)| == |w| && forall i :: 0 <= i < |w| ==> HeaviestFirst(w)[i] < |w|
    ensures |Held(table, w, HeaviestFirst(w)[k], node)| == Count(Gather(table, HeaviestFirst(w))[..k], node)
  {
    var o := HeaviestFirst(w);
    HeaviestFirstIsOrder(w);
    var v := MarksAhead(w, o[k]);
    forall i: nat | i < k ensures Gather(v, o)[..k][i] == 1 {
      FirstAreAhead(w, k, i);
    }
    hide HeaviestFirst, Ahead, Load, Held;
    HeldIsLoad(table, w, o[k], node);
    assert Gather(v, o)[..k] == Ones(k);
    LoadAtTurn(v, table, w, k, node);
  }

  lemma TurnIsLightest(table: seq<nat>, w: seq<nat>, m: nat, k: nat)
    requires |table| == |w| > k
    ensures |HeaviestFirst(w)| == |w| && forall i :: 0 <= i < |w| ==> HeaviestFirst(w)[i] < |w|
    ensures OnLightest(table, w, m, HeaviestFirst(w)[k])
       <==> Lightest(Gather(w, HeaviestFirst(w))[..k], Gather(table, HeaviestFirst(w))[..k], m,
                     Gather(table, HeaviestFirst(w))[k])
  {
    HeaviestFirstIsOrder(w);
    var o := HeaviestFirst(w);
    hide HeaviestFirst, Carried, Load;
    forall node: nat
      ensures Carried(table, w, o[k], node) == Load(Gather(w, o)[..k], Gather(table, o)[..k], node)
    {
      CarriedAtTurn(table, w, k, node);
    }
  }

  lemma TurnIsLightestOpen(table: seq<nat>, w: seq<nat>, quota: seq<nat>, k: nat)
    requires |table| == |w| > k
    ensures |HeaviestFirst(w)| == |w| && forall i :: 0 <= i < |w| ==> HeaviestFirst(w)[i] < |w|
    ensures OnLightestOpen(table, w, quota, HeaviestFirst(w)[k])
       <==> LightestUnder(Gather(w, HeaviestFirst(w))[..k], Gather(table, HeaviestFirst(w))[..k], quota,
                          Gather(table, HeaviestFirst(w))[k])
  {
    HeaviestFirstIsOrder(w);
    var o := HeaviestFirst(w);
    hide HeaviestFirst, Carried, Held, Load, Count;
    forall node: nat
      ensures Carried(table, w, o[k], node) == Load(Gather(w, o)[..k], Gather(table, o)[..k], node)
      ensures |Held(table, w, o[k], node)| == Count(Gather(table, o)[..k], node)
    {
      CarriedAtTurn(table, w, k, node);
      HeldAtTurn(table, w, k, node);
    }
  }

  /** The balanced map is the one table in which every expert is where its turn puts it. */
  lemma BalancedIffInTurn(table: seq<nat>, w: seq<nat>, m: nat)
    ensures IsHeaviestFirst(table, w, m)
       <==> IsAssignment(table, |w|, m) && forall e :: 0 <= e < |w| ==> OnLightest(table, w, m, e)
  {
    var o := HeaviestFirst(w);
    HeaviestFirstIsOrder(w);
    hide HeaviestFirst, OnLightest, Lightest;
    if |table| == |w| {
      var g, t := Gather(w, o), Gather(table, o);
      forall k: nat | k < |w| ensures OnLightest(table, w, m, o[k]) <==> Lightest(g[..k], t[..k], m, t[k]) {
        TurnIsLightest(table, w, m, k);
      }
      if Greedy(g, t, m) {
        forall e: nat | e < |w| ensures OnLightest(table, w, m, e) {
          var k := PlaceOf(o, |w|, e);
        }
      }
    }
  }

  /** So is the capacity-weighted map, among the nodes still under their quota. */
  lemma CapacityWeightedIffInTurn(table: seq<nat>, w: seq<nat>, quota: seq<nat>)
    ensures IsHeaviestFirstUnder(table, w, quota)
       <==> IsAssignment(table, |w|, |quota|) && forall e :: 0 <= e < |w| ==> OnLightestOpen(table, w, quota, e)
  {
    var o := HeaviestFirst(w);
    HeaviestFirstIsOrder(w);
    hide HeaviestFirst, OnLightestOpen, LightestUnder;
    if |table| == |w| {
      var g, t := Gather(w, o), Gather(table, o);
      forall k: nat | k < |w| ensures OnLightestOpen(table, w, quota, o[k])
          <==> LightestUnder(g[..k], t[..k], quota, t[k]) {
        TurnIsLightestOpen(table, w, quota, k);
      }
      if GreedyUnder(g, t, quota) {
        forall e: nat | e < |w| ensures OnLightestOpen(table, w, quota, e) {
          var k := PlaceOf(o, |w|, e);
        }
      }
    }
  }

  // ---- shares -------------------------------------------------------------------------------------------------------

  /** The experts of a node. */
  ghost function OwnedBy(r: ExpertSharding, node: nat): set<nat>
    requires r.Valid()
  {
    set e | 0 <= e < r.nExperts && r.Owner(e) == node
  }

  lemma CountIsOwned(r: ExpertSharding, node: nat)
    requires r.Valid()
    ensures r.CountFor(node) == |OwnedBy(r, node)|
  {
    var a := r.Owners();
    OnesAreCounted(Ones(r.nExperts), a, node);
    assert OwnedBy(r, node) == set x | 0 <= x < |a| && a[x] == node && Ones(r.nExperts)[x] == 1;
  }

  /** A node's capacity, nought when none is given for it. */
  ghost function CapacityOf(capacity: seq<u64>, node: nat): nat {
    if node < |capacity| then capacity[node] else 0
  }

  ghost function AllCapacity(capacity: seq<u64>, m: nat): nat {
    if m == 0 then 0 else AllCapacity(capacity, m - 1) + CapacityOf(capacity, m - 1)
  }

  lemma {:induction false} CapacityTotal(capacity: seq<u64>, m: nat)
    ensures Total(Capacities(capacity, m)) == AllCapacity(capacity, m)
  {
    if m > 0 {
      CapacityTotal(capacity, m - 1);
      assert Capacities(capacity, m)[..m - 1] == Capacities(capacity, m - 1);
    }
  }

  /** Without any capacity, or on one node, it is the balanced map. */
  lemma NoCapacityIsBalanced(r: ExpertSharding, capacity: seq<u64>, weights: seq<u64>)
    requires r.Valid() && IsCapacityWeighted(r, capacity, weights)
    requires r.numNodes == 1 || AllCapacity(capacity, r.numNodes) == 0
    ensures IsHeaviestFirst(r.Owners(), Weights(weights, r.nExperts), r.numNodes)
  {
    CapacityTotal(capacity, r.numNodes);
  }

  lemma CapacityAt(capacity: seq<u64>, m: nat, n: nat, i: nat)
    requires i < m
    ensures |Capacities(capacity, m)| == |Scaled(Capacities(capacity, m), n)| == m
    ensures Scaled(Capacities(capacity, m), n)[i] == CapacityOf(capacity, i) * n
  {
  }

  /** Two nodes' shares of the experts by capacity, in numbers: each is the exact share rounded down or up, nothing
      without capacity; and a node rounded up had the larger fraction, or the same and a lower id, than one that was
      not. */
  lemma SharesInNumbers(r: ExpertSharding, capacity: seq<u64>, weights: seq<u64>, i: nat, j: nat)
    requires r.Valid() && IsCapacityWeighted(r, capacity, weights) && r.numNodes > 1 && i < r.numNodes && j < r.numNodes
    requires AllCapacity(capacity, r.numNodes) > 0
    ensures var t, x, q := AllCapacity(capacity, r.numNodes), CapacityOf(capacity, i) * r.nExperts, |OwnedBy(r, i)|;
            q * t < x + t && x < q * t + t && (CapacityOf(capacity, i) == 0 ==> q == 0)
    ensures var t, x, y := AllCapacity(capacity, r.numNodes), CapacityOf(capacity, i) * r.nExperts,
                           CapacityOf(capacity, j) * r.nExperts;
            |OwnedBy(r, i)| * t > x && |OwnedBy(r, j)| * t <= y ==> x % t > y % t || (x % t == y % t && i < j)
  {
    var c, w := Capacities(capacity, r.numNodes), Weights(weights, r.nExperts);
    CapacityTotal(capacity, r.numNodes);
    var quota :| SharesOut(r, quota, c, w);
    CapacityAt(capacity, r.numNodes, r.nExperts, i);
    CapacityAt(capacity, r.numNodes, r.nExperts, j);
    hide IsHeaviestFirstUnder, Total, Scaled, AllCapacity, OwnedBy, CapacityOf;
    CountIsOwned(r, i);
    CountIsOwned(r, j);
    var x := Scaled(c, r.nExperts);
    assert WithinOne(quota[i], x[i], Total(c));
  }
}
