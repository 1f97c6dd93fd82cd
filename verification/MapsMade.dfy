/** Which maps `capacity_weighted` makes: exactly one for each input, and every map for some input. */
module MapsMade {
  import opened Arithmetic
  import opened Capacity
  import opened LoadBalance
  import opened Octets
  import opened Permute
  import opened Sharding

  // ---- one map for each input -----------------------------------------------------------------------------------

  /** A quota is its share rounded up, or rounded down. */
  lemma QuotaIs(q: nat, x: nat, t: nat)
    requires t > 0 && WithinOne(q, x, t)
    ensures q == x / t + if q * t > x then 1 else 0
  {
    if q * t > x {
      assert (q - 1) * t == q * t - t;
      DivModUnique(x, t, q - 1, x - (q - 1) * t);
    } else {
      DivModUnique(x, t, q, x - q * t);
    }
  }

  lemma {:induction false} TotalMonotone(p: seq<nat>, q: seq<nat>)
    requires |p| == |q| && forall i :: 0 <= i < |p| ==> p[i] <= q[i]
    ensures Total(p) <= Total(q)
    ensures (exists i :: 0 <= i < |p| && p[i] < q[i]) ==> Total(p) < Total(q)
  {
    if p != [] {
      TotalMonotone(p[..|p| - 1], q[..|p| - 1]);
    }
  }

  /** Of two nodes, the largest-remainder rule cannot round up the one in one quota and the other in another. */
  lemma NoExchange(p: seq<nat>, q: seq<nat>, x: seq<nat>, t: nat, n: nat, i: nat, j: nat)
    requires t > 0 && IsQuota(p, x, t, n) && IsQuota(q, x, t, n) && i < |x| && j < |x|
    requires p[i] * t > x[i] && q[i] * t <= x[i] && q[j] * t > x[j]
    ensures p[j] * t > x[j]
  {
  }

  /** A node rounded up in one quota is rounded up in the other: the totals agree. */
  lemma RoundedUpInBoth(p: seq<nat>, q: seq<nat>, x: seq<nat>, t: nat, n: nat, i: nat)
    requires t > 0 && IsQuota(p, x, t, n) && IsQuota(q, x, t, n) && i < |x| && p[i] * t > x[i]
    ensures q[i] * t > x[i]
  {
    if q[i] * t <= x[i] {
      forall j | 0 <= j < |x| ensures q[j] <= p[j] && (j == i ==> q[j] < p[j]) {
        QuotaIs(p[j], x[j], t);
        QuotaIs(q[j], x[j], t);
        if q[j] * t > x[j] {
          NoExchange(p, q, x, t, n, i, j);
        }
      }
      TotalMonotone(q, p);
      assert false;
    }
  }

  /** Shares and tie-breaks determine the quotas. */
  lemma QuotaIsUnique(p: seq<nat>, q: seq<nat>, x: seq<nat>, t: nat, n: nat)
    requires t > 0 && IsQuota(p, x, t, n) && IsQuota(q, x, t, n)
    ensures p == q
  {
    forall i | 0 <= i < |x| ensures p[i] == q[i] {
      QuotaIs(p[i], x[i], t);
      QuotaIs(q[i], x[i], t);
      if p[i] * t > x[i] {
        RoundedUpInBoth(p, q, x, t, n, i);
      } else if q[i] * t > x[i] {
        RoundedUpInBoth(q, p, x, t, n, i);
      }
    }
  }

  lemma LastChoice(w: seq<nat>, a: seq<nat>, quota: seq<nat>)
    requires GreedyUnder(w, a, quota) && a != []
    ensures var n := |a| - 1; GreedyUnder(w, a[..n], quota) && n < |w| && LightestUnder(w[..n], a[..n], quota, a[n])
  {
    hide LightestUnder;
    var n := |a| - 1;
    forall j | 0 <= j < n ensures LightestUnder(w[..j], a[..n][..j], quota, a[..n][j]) {
      assert a[..n][..j] == a[..j];
    }
  }

  lemma SameChoice(w: seq<nat>, a: seq<nat>, quota: seq<nat>, i: nat, j: nat)
    requires |w| == |a| && LightestUnder(w, a, quota, i) && LightestUnder(w, a, quota, j)
    ensures i == j
  {
    hide Load, Count;
  }

  lemma {:induction false} GreedyUnderIsUnique(w: seq<nat>, a: seq<nat>, b: seq<nat>, quota: seq<nat>)
    requires GreedyUnder(w, a, quota) && GreedyUnder(w, b, quota) && |a| == |b|
    ensures a == b
  {
    hide *;
    if a != [] {
      var n := |a| - 1;
      LastChoice(w, a, quota);
      LastChoice(w, b, quota);
      GreedyUnderIsUnique(w, a[..n], b[..n], quota);
      SameChoice(w[..n], a[..n], quota, a[n], b[n]);
      assert a == a[..n] + [a[n]] && b == b[..n] + [b[n]];
    }
  }

  lemma FilledIsUnique(t: seq<nat>, u: seq<nat>, w: seq<nat>, quota: seq<nat>)
    requires IsHeaviestFirstUnder(t, w, quota) && IsHeaviestFirstUnder(u, w, quota)
    ensures t == u
  {
    var o := HeaviestFirst(w);
    HeaviestFirstIsOrder(w);
    GreedyUnderIsUnique(Gather(w, o), Gather(t, o), Gather(u, o), quota);
    forall e | 0 <= e < |w| ensures t[e] == u[e] {
      var k := PlaceOf(o, |w|, e);
      assert Gather(t, o)[k] == Gather(u, o)[k];
    }
  }

  /** Every node that computes the map from the same capacities and weights gets the same owners. */
  lemma CapacityWeightedIsUnique(r: ExpertSharding, s: ExpertSharding, capacity: seq<u64>, weights: seq<u64>)
    requires r.Valid() && s.Valid() && r.numNodes == s.numNodes && r.nExperts == s.nExperts
    requires IsCapacityWeighted(r, capacity, weights) && IsCapacityWeighted(s, capacity, weights)
    ensures r.Owners() == s.Owners()
  {
    var c, w := Capacities(capacity, r.numNodes), Weights(weights, r.nExperts);
    if r.numNodes == 1 || Total(c) == 0 {
      HeaviestFirstIsUnique(r.Owners(), s.Owners(), w, r.numNodes);
    } else {
      var p :| SharesOut(r, p, c, w);
      var q :| SharesOut(s, q, c, w);
      QuotaIsUnique(p, q, Scaled(c, r.nExperts), Total(c), r.nExperts);
      FilledIsUnique(r.Owners(), s.Owners(), w, p);
    }
  }

  // ---- every map for some input -----------------------------------------------------------------------------------

  /** The weight of node `i`'s first expert: a lower node's exceeds a higher one's by at least `b`. */
  function Big(b: nat, m: nat, i: nat): nat {
    if i < m then b * (m - i) else 0
  }

  lemma BigGap(b: nat, m: nat, j: nat, i: nat)
    requires j < i < m
    ensures Big(b, m, j) >= Big(b, m, i) + b
  {
    MulMonotone(m - i + 1, m - j, b);
  }

  lemma BigBounds(b: nat, m: nat, i: nat)
    requires i < m
    ensures b <= Big(b, m, i) <= b * m
  {
    MulMonotone(1, m - i, b);
    MulMonotone(m - i, m, b);
  }

  /** The first expert of each node is big; every other expert weighs as much as its node's number. */
  function Mark(t: seq<nat>, m: nat, b: nat, e: nat): nat
    requires e < |t|
  {
    if t[e] in t[..e] then t[e] else Big(b, m, t[e])
  }

  function Marks(t: seq<nat>, m: nat, b: nat): (w: seq<nat>)
    ensures |w| == |t|
  {
    seq(|t|, e requires 0 <= e < |t| => Mark(t, m, b, e))
  }

  ghost predicate OfMark(w: seq<nat>, a: seq<nat>, m: nat, b: nat, k: nat)
    requires k < |a| == |w|
  {
    a[k] < m && (w[k] == a[k] || w[k] == Big(b, m, a[k]))
  }

  ghost predicate BigOn(w: seq<nat>, a: seq<nat>, m: nat, b: nat, i: nat) {
    exists q: nat :: q < |a| == |w| && a[q] == i && w[q] == Big(b, m, i)
  }

  ghost predicate OneBig(w: seq<nat>, a: seq<nat>, b: nat)
    requires |w| == |a|
  {
    forall p, q :: 0 <= p < q < |a| && a[p] == a[q] ==> w[p] < b || w[q] < b
  }

  /** Seen in any order: one big expert on every node that has experts, and no load reaches the next big one. */
  ghost predicate Spread(w: seq<nat>, a: seq<nat>, m: nat, b: nat) {
    && |w| == |a| && m <= b
    && (forall k: nat :: k < |a| ==> OfMark(w, a, m, b, k))
    && (forall k: nat :: k < |a| ==> BigOn(w, a, m, b, a[k]))
    && OneBig(w, a, b)
    && (forall i: nat :: i < m ==> Load(w, a, i) < Big(b, m, i) + b)
  }

  lemma {:induction false} LoadOfAbsent(w: seq<nat>, a: seq<nat>, node: nat)
    requires |w| == |a| && node !in a
    ensures Load(w, a, node) == 0
  {
    if a != [] {
      LoadOfAbsent(w[..|a| - 1], a[..|a| - 1], node);
    }
  }

  lemma {:induction false} LoadAtLeastOne(w: seq<nat>, a: seq<nat>, q: nat)
    requires |w| == |a| && q < |a|
    ensures Load(w, a, a[q]) >= w[q]
  {
    if q < |a| - 1 {
      LoadAtLeastOne(w[..|a| - 1], a[..|a| - 1], q);
    }
  }

  lemma LoadBefore(w: seq<nat>, a: seq<nat>, k: nat, q: nat)
    requires |w| == |a| && q < k <= |a|
    ensures Load(w[..k], a[..k], a[q]) >= w[q]
  {
    LoadAtLeastOne(w[..k], a[..k], q);
  }

  lemma CountNext(a: seq<nat>, k: nat, j: nat)
    requires k < |a|
    ensures Count(a[..k + 1], j) == Count(a[..k], j) + if a[k] == j then 1 else 0
  {
    assert a[..k + 1] == a[..k] + [a[k]];
    CountStep(a[..k], a[k]);
  }

  /** A node that still lacks experts has one that is yet to come. */
  lemma {:induction false} YetToCome(a: seq<nat>, k: nat, j: nat) returns (p: nat)
    requires k <= |a| && Count(a[..k], j) < Count(a, j)
    ensures k <= p < |a| && a[p] == j
    decreases |a| - k
  {
    assert a[..|a|] == a;
    if a[k] == j {
      p := k;
    } else {
      CountNext(a, k, j);
      p := YetToCome(a, k + 1, j);
    }
  }

  lemma {:induction false} CountGrows(a: seq<nat>, k: nat, j: nat)
    requires k <= |a|
    ensures Count(a[..k], j) <= Count(a, j)
    decreases |a| - k
  {
    if k < |a| {
      CountNext(a, k, j);
      CountGrows(a, k + 1, j);
    } else {
      assert a[..k] == a;
    }
  }

  /** A heavier job comes earlier. */
  lemma ComesEarlier(w: seq<nat>, q: nat, k: nat)
    requires Descending(w) && q < |w| && k < |w| && w[q] > w[k]
    ensures q < k
  {
  }

  /** Node `j`, still to be served at turn `k`, against the node that is served. */
  ghost predicate Yields(w: seq<nat>, a: seq<nat>, k: nat, j: nat)
    requires |w| == |a| && k < |a|
  {
    && Load(w[..k], a[..k], a[k]) <= Load(w[..k], a[..k], j)
    && (j < a[k] ==> Load(w[..k], a[..k], a[k]) < Load(w[..k], a[..k], j))
  }

  /** By turn `k`, the big expert of a node has come if it is heavier than expert `k`. */
  lemma BigHasCome(w: seq<nat>, a: seq<nat>, m: nat, b: nat, k: nat, j: nat)
    requires |w| == |a| && Descending(w) && k < |a| && BigOn(w, a, m, b, j) && w[k] < Big(b, m, j)
    ensures Load(w[..k], a[..k], j) >= Big(b, m, j)
  {
    var q: nat :| q < |a| && a[q] == j && w[q] == Big(b, m, j);
    hide Big, Load;
    ComesEarlier(w, q, k);
    LoadBefore(w, a, k, q);
  }

  /** At a big expert's turn its node is still empty. */
  lemma StillEmpty(w: seq<nat>, a: seq<nat>, b: nat, k: nat)
    requires |w| == |a| && OneBig(w, a, b) && Descending(w) && k < |a| && w[k] >= b
    ensures Load(w[..k], a[..k], a[k]) == 0
  {
    LoadOfAbsent(w[..k], a[..k], a[k]);
  }

  /** Lower nodes that still lack experts are not empty then. */
  lemma BigTurn(w: seq<nat>, a: seq<nat>, m: nat, b: nat, k: nat, p: nat)
    requires |w| == |a| && Descending(w) && k <= p < |a| && w[k] >= b >= m && b > 0
    requires OfMark(w, a, m, b, k) && OfMark(w, a, m, b, p) && BigOn(w, a, m, b, a[p]) && OneBig(w, a, b)
    ensures Yields(w, a, k, a[p])
  {
    hide Big, Load, OneBig, BigOn;
    StillEmpty(w, a, b, k);
    if a[p] < a[k] {
      BigGap(b, m, a[p], a[k]);
      BigHasCome(w, a, m, b, k, a[p]);
    }
  }

  /** At a small expert's turn, a lower node that lacks experts already has its big one. */
  lemma SmallTurn(w: seq<nat>, a: seq<nat>, m: nat, b: nat, k: nat, p: nat)
    requires |w| == |a| && Descending(w) && k <= p < |a| && w[k] < b && m <= b
    requires OfMark(w, a, m, b, k) && OfMark(w, a, m, b, p) && BigOn(w, a, m, b, a[p])
    requires Load(w, a, a[k]) < Big(b, m, a[k]) + b
    ensures Yields(w, a, k, a[p])
  {
    hide Big, Load, BigOn;
    BigBounds(b, m, a[k]);
    BigBounds(b, m, a[p]);
    assert w[p] <= w[k] == a[k];
    if a[p] < a[k] {
      BigGap(b, m, a[p], a[k]);
      BigHasCome(w, a, m, b, k, a[p]);
      LoadOfPrefix(w, a, k, a[k]);
    }
  }

  lemma EachYields(w: seq<nat>, a: seq<nat>, m: nat, b: nat, k: nat, j: nat)
    requires Spread(w, a, m, b) && Descending(w) && b > 0 && k < |a| && Count(a[..k], j) < Count(a, j)
    ensures Yields(w, a, k, j)
  {
    var p := YetToCome(a, k, j);
    assert OfMark(w, a, m, b, k) && OfMark(w, a, m, b, p) && BigOn(w, a, m, b, a[p]);
    hide OfMark, BigOn, OneBig, Yields, Big, Load, Descending;
    if w[k] >= b {
      BigTurn(w, a, m, b, k, p);
    } else {
      MarkInRange(w, a, m, b, k);
      SmallTurn(w, a, m, b, k, p);
    }
  }

  lemma MarkInRange(w: seq<nat>, a: seq<nat>, m: nat, b: nat, k: nat)
    requires k < |a| == |w| && OfMark(w, a, m, b, k)
    ensures a[k] < m
  {
  }

  lemma ServedNode(w: seq<nat>, a: seq<nat>, m: nat, b: nat, quota: seq<nat>, k: nat)
    requires Spread(w, a, m, b) && Descending(w) && b > 0 && k < |a| && |quota| == m
    requires forall i: nat :: i < m ==> quota[i] == Count(a, i)
    ensures LightestUnder(w[..k], a[..k], quota, a[k])
  {
    MarkInRange(w, a, m, b, k);
    CountNext(a, k, a[k]);
    CountGrows(a, k + 1, a[k]);
    hide Spread, Descending, Count, Load;
    forall j: nat | j < |quota| && Count(a[..k], j) < quota[j] ensures Yields(w, a, k, j) {
      EachYields(w, a, m, b, k, j);
    }
  }

  /** Spread weights, heaviest first, fill exactly the assignment they were made for. */
  lemma SpreadIsGreedy(w: seq<nat>, a: seq<nat>, m: nat, b: nat, quota: seq<nat>)
    requires Spread(w, a, m, b) && Descending(w) && b > 0 && |quota| == m
    requires forall i: nat :: i < m ==> quota[i] == Count(a, i)
    ensures GreedyUnder(w, a, quota)
  {
    assert |a| == |w|;
    hide Spread, LightestUnder, Count;
    forall k | 0 <= k < |a| ensures LightestUnder(w[..k], a[..k], quota, a[k]) {
      ServedNode(w, a, m, b, quota, k);
    }
  }

  // ---- the marks are spread ----------------------------------------------------------------------------------------

  /** One big expert and at most `e` small ones. */
  lemma {:induction false} MarkedLoad(t: seq<nat>, m: nat, b: nat, e: nat, i: nat)
    requires e <= |t| && i < m
    ensures Load(Marks(t, m, b)[..e], t[..e], i) <= (if i in t[..e] then Big(b, m, i) else 0) + m * e
  {
    if e > 0 {
      var w := Marks(t, m, b);
      MarkedLoad(t, m, b, e - 1, i);
      LoadStep(w, t[..e - 1], e - 1, t[e - 1]);
      assert t[..e] == t[..e - 1] + [t[e - 1]];
      OneMore(m, e);
      hide Load, Big;
    }
  }

  lemma OneMore(m: nat, e: nat)
    requires e > 0
    ensures m * e == m * (e - 1) + m
  {
  }

  lemma FirstOf(t: seq<nat>, e: nat) returns (f: nat)
    requires e < |t|
    ensures f <= e && t[f] == t[e] && t[f] !in t[..f]
  {
    f := e;
    while t[f] in t[..f]
      invariant f <= e && t[f] == t[e]
      decreases f
    {
      var g :| 0 <= g < f && t[..f][g] == t[f];
      f := g;
    }
  }

  lemma MarkKinds(t: seq<nat>, m: nat, b: nat, e: nat)
    requires IsAssignment(t, |t|, m) && m <= b && e < |t|
    ensures var x := Marks(t, m, b)[e]; if t[e] in t[..e] then x == t[e] < b else x == Big(b, m, t[e]) >= b
  {
    BigBounds(b, m, t[e]);
  }

  ghost predicate Reorders(o: seq<nat>, t: seq<nat>) {
    IsOrder(o, |t|) && |o| == |t| && forall k :: 0 <= k < |o| ==> o[k] < |t|
  }

  lemma MarksHaveBigs(t: seq<nat>, m: nat, b: nat, o: seq<nat>, k: nat)
    requires IsAssignment(t, |t|, m) && m <= b && Reorders(o, t) && k < |o|
    ensures OfMark(Gather(Marks(t, m, b), o), Gather(t, o), m, b, k)
    ensures BigOn(Gather(Marks(t, m, b), o), Gather(t, o), m, b, t[o[k]])
  {
    hide Marks, Mark, Big;
    MarkKinds(t, m, b, o[k]);
    var f := FirstOf(t, o[k]);
    var q := PlaceOf(o, |t|, f);
    MarkKinds(t, m, b, f);
    assert Gather(t, o)[q] == t[f] && Gather(Marks(t, m, b), o)[q] == Big(b, m, t[f]);
  }

  lemma MarkedLoads(t: seq<nat>, m: nat, b: nat, o: seq<nat>, i: nat)
    requires IsAssignment(t, |t|, m) && m * |t| < b && Reorders(o, t) && i < m
    ensures Load(Gather(Marks(t, m, b), o), Gather(t, o), i) < Big(b, m, i) + b
  {
    var w := Marks(t, m, b);
    hide Marks, Big, Load;
    LoadThroughOrder(w, t, o, i);
    MarkedLoad(t, m, b, |t|, i);
    assert w[..|t|] == w && t[..|t|] == t;
  }

  lemma MarksAreSpread(t: seq<nat>, m: nat, b: nat, o: seq<nat>)
    requires IsAssignment(t, |t|, m) && m <= b && m * |t| < b && Reorders(o, t)
    ensures Spread(Gather(Marks(t, m, b), o), Gather(t, o), m, b)
  {
    var w := Marks(t, m, b);
    var wo, to := Gather(w, o), Gather(t, o);
    OrderContents(o, |t|);
    hide Marks, Big, OfMark, BigOn, Load;
    forall k: nat | k < |to| ensures OfMark(wo, to, m, b, k) && BigOn(wo, to, m, b, to[k]) {
      MarksHaveBigs(t, m, b, o, k);
    }
    forall p, q | 0 <= p < q < |to| && to[p] == to[q] ensures wo[p] < b || wo[q] < b {
      OneIsLater(t, m, b, o[p], o[q]);
    }
    forall i: nat | i < m ensures Load(wo, to, i) < Big(b, m, i) + b {
      MarkedLoads(t, m, b, o, i);
    }
  }

  lemma OneIsLater(t: seq<nat>, m: nat, b: nat, e: nat, f: nat)
    requires IsAssignment(t, |t|, m) && m <= b && e < |t| && f < |t| && e != f && t[e] == t[f]
    ensures Marks(t, m, b)[e] < b || Marks(t, m, b)[f] < b
  {
    hide Marks, Mark, Big;
    MarkKinds(t, m, b, e);
    MarkKinds(t, m, b, f);
    if e < f {
      assert t[..f][e] == t[f];
    } else {
      assert t[..e][f] == t[e];
    }
  }

  /** The capacities and weights that make `table`: what each node owns, and the marks. */
  function Owned(t: seq<nat>, m: nat): (c: seq<nat>)
    ensures |c| == m
  {
    seq(m, i requires 0 <= i < m => Count(t, i))
  }

  lemma {:induction false} TotalOwned(t: seq<nat>, m: nat)
    ensures Total(Owned(t, m)) == SumLoads(Ones(|t|), t, m)
  {
    if m > 0 {
      TotalOwned(t, m - 1);
      assert Owned(t, m)[..m - 1] == Owned(t, m - 1);
    }
  }

  lemma OwnedIsQuota(t: seq<nat>, m: nat)
    requires IsAssignment(t, |t|, m) && |t| > 0
    ensures Total(Owned(t, m)) == |t| && IsQuota(Owned(t, m), Scaled(Owned(t, m), |t|), |t|, |t|)
  {
    TotalOwned(t, m);
    LoadsPartitionTotal(Ones(|t|), t, m);
    TotalOnes(|t|);
    hide Total, Load, SumLoads;
    forall i | 0 <= i < m ensures WithinOne(Owned(t, m)[i], Scaled(Owned(t, m), |t|)[i], |t|) {
    }
  }

  lemma MarksFill(t: seq<nat>, m: nat, b: nat)
    requires IsAssignment(t, |t|, m) && m <= b && m * |t| < b
    ensures IsHeaviestFirstUnder(t, Marks(t, m, b), Owned(t, m))
  {
    var w := Marks(t, m, b);
    var o := HeaviestFirst(w);
    HeaviestFirstIsOrder(w);
    MarksAreSpread(t, m, b, o);
    forall i: nat | i < m ensures Owned(t, m)[i] == Count(Gather(t, o), i) {
      CountThroughOrder(t, o, i);
    }
    hide Spread, Marks;
    SpreadIsGreedy(Gather(w, o), Gather(t, o), m, b, Owned(t, m));
  }

  lemma TotalMarks(t: seq<nat>, m: nat, b: nat)
    requires IsAssignment(t, |t|, m) && m * |t| < b
    ensures Total(Marks(t, m, b)) <= m * (b * m + b)
  {
    var w := Marks(t, m, b);
    forall i: nat | i < m ensures Load(w, t, i) <= b * m + b {
      MarkedLoad(t, m, b, |t|, i);
      assert w[..|t|] == w && t[..|t|] == t;
      BigBounds(b, m, i);
    }
    SumLoadsBetween(w, t, m, 0, b * m + b);
    LoadsPartitionTotal(w, t, m);
  }

  /** The same weights as 64-bit numbers. */
  function Wide(w: seq<nat>): (v: seq<u64>)
    requires forall i :: 0 <= i < |w| ==> w[i] < TWO64
    ensures |v| == |w| && Weights(v, |w|) == w
  {
    seq(|w|, i requires 0 <= i < |w| => w[i] as u64)
  }

  lemma {:induction false} AtMostTotal(w: seq<nat>, i: nat)
    requires i < |w|
    ensures w[i] <= Total(w)
  {
    if i < |w| - 1 {
      AtMostTotal(w[..|w| - 1], i);
    }
  }

  /** Small enough for the marks to fit 64 bits. On two nodes: any number of experts that fits 32 bits. */
  predicate MarksFit(m: nat, n: nat) {
    m * ((m * n + 1) * m + (m * n + 1)) < TWO64
  }

  lemma AllFit(w: seq<nat>)
    requires Total(w) < TWO64
    ensures forall i :: 0 <= i < |w| ==> w[i] < TWO64
  {
    forall i | 0 <= i < |w| ensures w[i] < TWO64 {
      AtMostTotal(w, i);
    }
  }

  /** The capacities and weights for which `capacity_weighted` makes the map of `table`. */
  lemma EveryMapIsMade(s: ExpertSharding) returns (capacity: seq<u64>, weights: seq<u64>)
    requires s.Valid() && s.table.Some? && s.numNodes > 1 && MarksFit(s.numNodes, s.nExperts)
    ensures Total(Weights(weights, s.nExperts)) < TWO64
    ensures IsCapacityWeighted(s, capacity, weights)
  {
    var t, m := s.table.value, s.numNodes;
    var b := m * |t| + 1;
    assert s.Owners() == t;
    SmallMarks(m, |t|);
    OwnedIsQuota(t, m);
    MarksFill(t, m, b);
    TotalMarks(t, m, b);
    AllFit(Owned(t, m));
    AllFit(Marks(t, m, b));
    capacity, weights := Wide(Owned(t, m)), Wide(Marks(t, m, b));
    hide Marks, IsQuota, IsHeaviestFirstUnder;
    assert SharesOut(s, Owned(t, m), Capacities(capacity, m), Weights(weights, |t|));
  }

  lemma SmallMarks(m: nat, n: nat)
    requires m > 1 && n > 0 && MarksFit(m, n)
    ensures m <= m * n + 1 && n < TWO64
  {
    MulMonotone(1, n, m);
    MulMonotone(1, m, n);
    MulMonotone(1, m, (m * n + 1) * m + (m * n + 1));
  }

  lemma TwoNodesFit(n: nat)
    requires n < TWO32
    ensures MarksFit(2, n)
  {
  }
}
