/** `capacity_weighted`: largest-remainder shares of the experts, then heaviest-first placement
    among the nodes still under their share. */
module Capacity {
  import opened Arithmetic
  import opened Wrappers
  import opened LoadBalance
  import opened Octets
  import opened Permute
  import opened Sharding

  function Capacities(capacity: seq<u64>, m: nat): (c: seq<nat>) {
    Weights(capacity, m)
  }

  /** `Scaled(c, n)[i]` is node `i`'s exact share times the total capacity. */
  function Scaled(c: seq<nat>, n: nat): (s: seq<nat>) {
    seq(|c|, i requires 0 <= i < |c| => c[i] * n)
  }

  function Floors(x: seq<nat>, t: nat): (q: seq<nat>)
    requires t > 0
  {
    seq(|x|, i requires 0 <= i < |x| => x[i] / t)
  }

  function Remainders(x: seq<nat>, t: nat): (r: seq<nat>)
    requires t > 0
    ensures |r| == |x| && forall i :: 0 <= i < |r| ==> r[i] < t
  {
    seq(|x|, i requires 0 <= i < |x| => x[i] % t)
  }

  // ---- sums -----------------------------------------------------------------------

  lemma {:induction false} TotalScaled(c: seq<nat>, n: nat)
    ensures Total(Scaled(c, n)) == Total(c) * n
  {
    if c != [] {
      var k := |c| - 1;
      TotalScaled(c[..k], n);
      assert Scaled(c, n)[..k] == Scaled(c[..k], n);
      assert (Total(c[..k]) + c[k]) * n == Total(c[..k]) * n + c[k] * n;
    }
  }

  /** Pointwise `x = q * t + r` adds up. */
  lemma {:induction false} TotalDivMod(x: seq<nat>, q: seq<nat>, r: seq<nat>, t: nat)
    requires |x| == |q| == |r| && forall i :: 0 <= i < |x| ==> x[i] == q[i] * t + r[i]
    ensures Total(x) == Total(q) * t + Total(r)
  {
    if x != [] {
      var k := |x| - 1;
      TotalDivMod(x[..k], q[..k], r[..k], t);
      assert (Total(q[..k]) + q[k]) * t == Total(q[..k]) * t + q[k] * t;
    }
  }

  lemma {:induction false} TotalSum(x: seq<nat>, y: seq<nat>, z: seq<nat>)
    requires |x| == |y| == |z| && forall i :: 0 <= i < |x| ==> z[i] == x[i] + y[i]
    ensures Total(z) == Total(x) + Total(y)
  {
    if x != [] {
      var k := |x| - 1;
      TotalSum(x[..k], y[..k], z[..k]);
    }
  }

  function Rows(k: nat, b: nat): nat {
    k * b
  }

  lemma RowsNext(n: nat, k: nat, b: nat)
    requires n < k
    ensures Rows(n, b) + b <= Rows(k, b)
  {
    MulMonotone(n + 1, k, b);
  }

  /** When only the first `k` entries can be non-zero and each is at most `b`, the total is at most `k` times `b`. */
  lemma {:induction false} TotalOfLeading(v: seq<nat>, k: nat, b: nat)
    requires forall i :: 0 <= i < |v| ==> v[i] <= b && (i >= k ==> v[i] == 0)
    ensures Total(v) <= Rows(k, b)
  {
    hide Rows;
    if v != [] {
      var n := |v| - 1;
      if k <= n {
        TotalOfLeading(v[..n], k, b);
      } else {
        TotalOfLeading(v[..n], n, b);
        RowsNext(n, k, b);
      }
    }
  }

  lemma {:induction false} TotalOfFlags(v: seq<nat>, k: nat)
    requires k <= |v| && forall i :: 0 <= i < |v| ==> v[i] == if i < k then 1 else 0
    ensures Total(v) == k
  {
    if v != [] {
      var n := |v| - 1;
      TotalOfFlags(v[..n], if k <= n then k else n);
    }
  }

  // ---- quotas ---------------------------------------------------------------------

  lemma FloorsAndRemainders(x: seq<nat>, t: nat, n: nat)
    requires t > 0 && Total(x) == t * n
    ensures Total(Floors(x, t)) <= n
    ensures (n - Total(Floors(x, t))) * t == Total(Remainders(x, t))
  {
    var q, r := Floors(x, t), Remainders(x, t);
    forall i | 0 <= i < |x| ensures x[i] == q[i] * t + r[i] { }
    TotalDivMod(x, q, r, t);
    FloorsTotalSmall(Total(q), Total(r), t, n);
  }

  lemma FloorsTotalSmall(q: nat, r: nat, t: nat, n: nat)
    requires t > 0 && t * n == q * t + r
    ensures q <= n && (n - q) * t == r
  {
  }

  /** With keys in descending order below `t` that total `left * t`, at least `left` of them are positive. */
  lemma LeadingKeysPositive(g: seq<nat>, left: nat, t: nat)
    requires t > 0 && left * t == Total(g) && Descending(g)
    requires forall i :: 0 <= i < |g| ==> g[i] < t
    ensures left <= |g| && forall k :: 0 <= k < left ==> g[k] > 0
  {
    var places := |g|;
    if left > places {
      FewKeysTotalLess(g, places, left, t);
      assert false;
    }
    forall k: nat | k < left ensures g[k] > 0 {
      if g[k] == 0 {
        FewKeysTotalLess(g, k, left, t);
        assert false;
      }
    }
  }

  lemma FewKeysTotalLess(g: seq<nat>, k: nat, left: nat, t: nat)
    requires t > 0 && k < left && forall i :: 0 <= i < |g| ==> g[i] < t && (i >= k ==> g[i] == 0)
    ensures Total(g) < left * t
  {
    TotalOfLeading(g, k, t - 1);
    TooLittle(k, left, t);
  }

  lemma TooLittle(k: nat, left: nat, t: nat)
    requires t > 0 && k < left
    ensures k * (t - 1) < left * t
  {
  }

  /** The experts the floors leave over number at most the nodes, and all go to positive remainders. */
  lemma LeftoverReachesPositiveRemainders(r: seq<nat>, left: nat, t: nat)
    requires t > 0 && left * t == Total(r) && forall i :: 0 <= i < |r| ==> r[i] < t
    ensures var o := HeaviestFirst(r);
            left <= |r| == |o| && forall k :: 0 <= k < left ==> o[k] < |r| && r[o[k]] > 0
  {
    var o := HeaviestFirst(r);
    HeaviestFirstIsOrder(r);
    TotalThroughOrder(r, o);
    var g := Gather(r, o);
    LeadingKeysPositive(g, left, t);
    forall k | 0 <= k < left ensures r[o[k]] > 0 {
      assert g[k] > 0;
    }
  }

  /** The largest-remainder rule for `n` experts, where `x[i] / t` is node `i`'s exact share. */
  ghost predicate IsQuota(quota: seq<nat>, x: seq<nat>, t: nat, n: nat)
    requires t > 0
  {
    && |quota| == |x|
    && Total(quota) == n
    // each quota is the exact share rounded down or up
    && (forall i :: 0 <= i < |x| ==> WithinOne(quota[i], x[i], t))
    // a node with no share gets nothing
    && (forall i :: 0 <= i < |x| && x[i] == 0 ==> quota[i] == 0)
    // a node rounded up was short-changed more by the floor than any node that was not
    && (forall i, j :: 0 <= i < |x| && 0 <= j < |x| && quota[i] * t > x[i] && quota[j] * t <= x[j] ==>
          x[i] % t > x[j] % t || (x[i] % t == x[j] % t && i < j))
  }

  ghost predicate WithinOne(q: nat, x: nat, t: nat) {
    q * t < x + t && x < q * t + t
  }

  function Extra(order: seq<nat>, left: nat, i: nat): nat
    requires left <= |order|
  {
    if i in order[..left] then 1 else 0
  }

  /** What the two quota loops compute: the floor, and one more for the first `left` nodes of the order. */
  ghost predicate ToppedUp(quota: seq<nat>, floors: seq<nat>, order: seq<nat>, left: nat) {
    && left <= |order| && |quota| == |floors|
    && forall i :: 0 <= i < |floors| ==> quota[i] == floors[i] + Extra(order, left, i)
  }

  lemma ShareIsFloorOrCeiling(x: nat, t: nat, extra: nat)
    requires t > 0 && extra <= 1 && (extra == 1 ==> x % t > 0)
    ensures WithinOne(x / t + extra, x, t)
    ensures x == 0 ==> x / t + extra == 0
    ensures (x / t + extra) * t > x <==> extra == 1
  {
    var q, r := x / t, x % t;
    assert x == q * t + r && r < t;
    assert (q + extra) * t == q * t + extra * t;
    if q > 0 {
      MulMonotone(1, q, t);
    }
  }

  lemma QuotaIsFair(quota: seq<nat>, x: seq<nat>, t: nat, n: nat, left: nat)
    requires t > 0 && Total(Floors(x, t)) + left == n && left * t == Total(Remainders(x, t))
    requires ToppedUp(quota, Floors(x, t), HeaviestFirst(Remainders(x, t)), left)
    ensures IsQuota(quota, x, t, n)
  {
    assert |Floors(x, t)| == |x| == |quota|;
    var r := Remainders(x, t);
    var o := HeaviestFirst(r);
    hide *;
    HeaviestFirstIsOrder(r);
    QuotaTotal(quota, Floors(x, t), o, left);
    QuotasRound(quota, x, t, left);
    ServedFirst(r, left);
    QuotaFollows(quota, x, t, n, o, left);
  }

  /** The first `left` nodes of the order are rounded up, the others down. */
  ghost predicate Rounded(quota: seq<nat>, x: seq<nat>, t: nat, o: seq<nat>, left: nat) {
    && |quota| == |x| && left <= |o|
    && forall i :: 0 <= i < |x| ==>
         WithinOne(quota[i], x[i], t) && (x[i] == 0 ==> quota[i] == 0) && (quota[i] * t > x[i] <==> i in o[..left])
  }

  lemma QuotasRound(quota: seq<nat>, x: seq<nat>, t: nat, left: nat)
    requires t > 0 && left * t == Total(Remainders(x, t)) && |quota| == |x|
    requires ToppedUp(quota, Floors(x, t), HeaviestFirst(Remainders(x, t)), left)
    ensures Rounded(quota, x, t, HeaviestFirst(Remainders(x, t)), left)
  {
    assert left <= |HeaviestFirst(Remainders(x, t))|;
    hide WithinOne, ToppedUp, HeaviestFirst, Floors, Total, Remainders;
    forall i | 0 <= i < |x|
      ensures WithinOne(quota[i], x[i], t) && (x[i] == 0 ==> quota[i] == 0)
      ensures quota[i] * t > x[i] <==> i in HeaviestFirst(Remainders(x, t))[..left]
    {
      NodeQuota(quota, x, t, left, i);
    }
  }

  /** The first `left` of the order have the larger remainders. */
  ghost predicate Served(r: seq<nat>, o: seq<nat>, left: nat) {
    left <= |o| && forall i, j :: 0 <= i < |r| && 0 <= j < |r| && i in o[..left] && j !in o[..left] ==>
      r[i] > r[j] || (r[i] == r[j] && i < j)
  }

  lemma ServedFirst(r: seq<nat>, left: nat)
    requires left <= |r|
    ensures Served(r, HeaviestFirst(r), left)
  {
    HeaviestFirstIsOrder(r);
    hide HeaviestFirst;
    forall i, j | 0 <= i < |r| && 0 <= j < |r| && i in HeaviestFirst(r)[..left] && j !in HeaviestFirst(r)[..left]
      ensures r[i] > r[j] || (r[i] == r[j] && i < j)
    {
      RemainderPriority(r, left, i, j);
    }
  }

  lemma QuotaFollows(quota: seq<nat>, x: seq<nat>, t: nat, n: nat, o: seq<nat>, left: nat)
    requires t > 0 && Total(quota) == n && Rounded(quota, x, t, o, left) && Served(Remainders(x, t), o, left)
    ensures IsQuota(quota, x, t, n)
  {
    hide WithinOne, Total;
    forall i, j | 0 <= i < |x| && 0 <= j < |x| && quota[i] * t > x[i] && quota[j] * t <= x[j]
      ensures x[i] % t > x[j] % t || (x[i] % t == x[j] % t && i < j)
    {
      var r := Remainders(x, t);
      assert r[i] == x[i] % t && r[j] == x[j] % t;
      assert i in o[..left] && j !in o[..left];
    }
  }

  lemma NodeQuota(quota: seq<nat>, x: seq<nat>, t: nat, left: nat, i: nat)
    requires t > 0 && left * t == Total(Remainders(x, t)) && i < |x|
    requires ToppedUp(quota, Floors(x, t), HeaviestFirst(Remainders(x, t)), left)
    ensures WithinOne(quota[i], x[i], t) && (x[i] == 0 ==> quota[i] == 0)
    ensures quota[i] * t > x[i] <==> i in HeaviestFirst(Remainders(x, t))[..left]
  {
    var r := Remainders(x, t);
    var o := HeaviestFirst(r);
    HeaviestFirstIsOrder(r);
    LeftoverReachesPositiveRemainders(r, left, t);
    PrefixMembers(o, |x|, left);
    var k := PlaceOf(o, |x|, i);
    assert r[i] == x[i] % t && quota[i] == x[i] / t + Extra(o, left, i);
    hide WithinOne, ToppedUp, HeaviestFirst;
    ShareIsFloorOrCeiling(x[i], t, Extra(o, left, i));
  }

  lemma RemainderPriority(r: seq<nat>, left: nat, i: nat, j: nat)
    requires i < |r| && j < |r| && left <= |HeaviestFirst(r)|
    requires i in HeaviestFirst(r)[..left] && j !in HeaviestFirst(r)[..left]
    ensures r[i] > r[j] || (r[i] == r[j] && i < j)
  {
    var o := HeaviestFirst(r);
    HeaviestFirstIsOrder(r);
    PrefixMembers(o, |r|, left);
    var k := PlaceOf(o, |r|, i);
    var l := PlaceOf(o, |r|, j);
    assert Gather(r, o)[k] >= Gather(r, o)[l];
  }

  lemma QuotaTotal(quota: seq<nat>, floors: seq<nat>, o: seq<nat>, left: nat)
    requires IsOrder(o, |floors|) && ToppedUp(quota, floors, o, left)
    ensures Total(quota) == Total(floors) + left
  {
    OrderContents(o, |floors|);
    PrefixMembers(o, |floors|, left);
    var flags := seq(|floors|, i requires 0 <= i < |floors| => Extra(o, left, i));
    TotalOfFlags(Gather(flags, o), left);
    TotalThroughOrder(flags, o);
    TotalSum(floors, flags, quota);
  }

  /** First quota loop: round down, remember the remainders. */
  method FloorPass(c: seq<nat>, n: nat) returns (quota: seq<nat>, rem: seq<nat>, handedOut: nat)
    requires Total(c) > 0
    ensures quota == Floors(Scaled(c, n), Total(c)) && rem == Remainders(Scaled(c, n), Total(c))
    ensures handedOut == Total(quota)
  {
    var total := Total(c);
    ghost var floors, rems := Floors(Scaled(c, n), total), Remainders(Scaled(c, n), total);
    hide *;
    SharesShape(c, n, total);
    quota, rem, handedOut := [], [], 0;
    for i := 0 to |c|
      invariant quota == floors[..i] && rem == rems[..i] && handedOut == Total(quota)
    {
      var q, r := Share(c[i], n, total);
      ShareAt(c, n, total, i);
      TotalSnoc(quota, q);
      quota := quota + [q];
      handedOut := handedOut + q;
      rem := rem + [r];
    }
  }

  lemma SharesShape(c: seq<nat>, n: nat, t: nat)
    requires t > 0
    ensures |Floors(Scaled(c, n), t)| == |Remainders(Scaled(c, n), t)| == |c| && Total([]) == 0
  {
  }

  /** One node's exact share, rounded down, and what the rounding leaves. */
  method Share(capacity: nat, n: nat, total: nat) returns (q: nat, r: nat)
    requires total > 0
    ensures q == FloorOf(capacity, n, total) && r == RestOf(capacity, n, total)
  {
    var exact := capacity * n;
    q, r := exact / total, exact % total;
  }

  function FloorOf(capacity: nat, n: nat, total: nat): nat
    requires total > 0
  {
    capacity * n / total
  }

  function RestOf(capacity: nat, n: nat, total: nat): nat
    requires total > 0
  {
    capacity * n % total
  }

  lemma ShareAt(c: seq<nat>, n: nat, t: nat, i: nat)
    requires i < |c| && t > 0
    ensures |Floors(Scaled(c, n), t)| == |Remainders(Scaled(c, n), t)| == |c|
    ensures Floors(Scaled(c, n), t)[i] == FloorOf(c[i], n, t) && Remainders(Scaled(c, n), t)[i] == RestOf(c[i], n, t)
  {
  }

  lemma TotalSnoc(q: seq<nat>, x: nat)
    ensures Total(q + [x]) == Total(q) + x
  {
    assert (q + [x])[..|q|] == q;
  }

  /** The quota loops of `capacity_weighted`. */
  method Quotas(c: seq<nat>, n: nat) returns (quota: seq<nat>)
    requires Total(c) > 0
    ensures IsQuota(quota, Scaled(c, n), Total(c), n)
  {
    ghost var x, t := Scaled(c, n), Total(c);
    var rem, handedOut;
    quota, rem, handedOut := FloorPass(c, n);
    TotalScaled(c, n);
    FloorsAndRemainders(x, t, n);
    var order, left := HeaviestFirst(rem), n - handedOut;
    LeftoverReachesPositiveRemainders(rem, left, t);
    HeaviestFirstIsOrder(rem);
    assert ToppedUp(quota, Floors(x, t), order, 0);
    hide ToppedUp, Total, Floors;
    for k := 0 to left
      invariant |quota| == |c| && ToppedUp(quota, Floors(x, t), order, k)
    {
      TopUpOne(quota, Floors(x, t), order, |c|, k);
      quota := quota[order[k] := quota[order[k]] + 1];
    }
    QuotaIsFair(quota, x, t, n, left);
  }

  lemma TopUpOne(quota: seq<nat>, floors: seq<nat>, order: seq<nat>, m: nat, k: nat)
    requires IsOrder(order, m) && |quota| == m && k < |order| && order[k] < m && ToppedUp(quota, floors, order, k)
    ensures ToppedUp(quota[order[k] := quota[order[k]] + 1], floors, order, k + 1)
  {
    PrefixMembers(order, m, k);
    assert order[..k + 1] == order[..k] + [order[k]];
  }

  // ---- placement under quota ----------------------------------------------------------

  function Count(a: seq<nat>, node: nat): nat {
    Load(Ones(|a|), a, node)
  }

  /** `node` is the lightest (lowest-numbered on a tie) of the nodes still under quota. */
  ghost predicate LightestUnder(w: seq<nat>, a: seq<nat>, quota: seq<nat>, node: nat)
    requires |w| == |a|
  {
    && node < |quota| && Count(a, node) < quota[node]
    && forall j :: 0 <= j < |quota| && Count(a, j) < quota[j] ==>
         && Load(w, a, node) <= Load(w, a, j)
         && (j < node ==> Load(w, a, node) < Load(w, a, j))
  }

  ghost predicate GreedyUnder(w: seq<nat>, a: seq<nat>, quota: seq<nat>) {
    && |a| <= |w|
    && forall k :: 0 <= k < |a| ==> LightestUnder(w[..k], a[..k], quota, a[k])
  }

  ghost predicate CountsWithin(a: seq<nat>, quota: seq<nat>) {
    forall i: nat :: i < |quota| ==> Count(a, i) <= quota[i]
  }

  lemma {:induction false} TotalOnes(n: nat)
    ensures Total(Ones(n)) == n
  {
    if n > 0 {
      assert Ones(n)[..n - 1] == Ones(n - 1);
      TotalOnes(n - 1);
    }
  }

  lemma {:induction false} SumCountsWithin(a: seq<nat>, quota: seq<nat>, m: nat)
    requires m <= |quota| && CountsWithin(a, quota)
    ensures SumLoads(Ones(|a|), a, m) <= Total(quota[..m])
    ensures (exists i: nat :: i < m && Count(a, i) < quota[i]) ==> SumLoads(Ones(|a|), a, m) < Total(quota[..m])
  {
    if m > 0 {
      SumCountsWithin(a, quota, m - 1);
      assert quota[..m][..m - 1] == quota[..m - 1];
      assert Count(a, m - 1) <= quota[m - 1];
    }
  }

  lemma {:induction false} SumCountsFull(a: seq<nat>, quota: seq<nat>, m: nat)
    requires m <= |quota| && forall i: nat :: i < |quota| ==> Count(a, i) >= quota[i]
    ensures SumLoads(Ones(|a|), a, m) >= Total(quota[..m])
  {
    if m > 0 {
      SumCountsFull(a, quota, m - 1);
      assert quota[..m][..m - 1] == quota[..m - 1];
      assert Count(a, m - 1) >= quota[m - 1];
    }
  }

  lemma CountsSum(a: seq<nat>, quota: seq<nat>)
    requires IsAssignment(a, |a|, |quota|)
    ensures SumLoads(Ones(|a|), a, |quota|) == |a|
    ensures quota[..|quota|] == quota
  {
    LoadsPartitionTotal(Ones(|a|), a, |quota|);
    TotalOnes(|a|);
  }

  /** While experts remain, some node is under quota: the `expect` in the source cannot fail. */
  lemma SomeNodeUnderQuota(a: seq<nat>, quota: seq<nat>) returns (i: nat)
    requires IsAssignment(a, |a|, |quota|) && |a| < Total(quota)
    ensures i < |quota| && Count(a, i) < quota[i]
  {
    CountsSum(a, quota);
    if forall j: nat :: j < |quota| ==> Count(a, j) >= quota[j] {
      SumCountsFull(a, quota, |quota|);
      assert false;
    }
    i :| i < |quota| && Count(a, i) < quota[i];
  }

  /** Once every expert is placed, each node holds exactly its quota. */
  lemma AllQuotasMet(a: seq<nat>, quota: seq<nat>, i: nat)
    requires IsAssignment(a, |a|, |quota|) && |a| == Total(quota) && CountsWithin(a, quota) && i < |quota|
    ensures Count(a, i) == quota[i]
  {
    CountsSum(a, quota);
    SumCountsWithin(a, quota, |quota|);
  }

  lemma CountStep(a: seq<nat>, node: nat)
    ensures forall i :: Count(a + [node], i) == Count(a, i) + if node == i then 1 else 0
  {
    assert Ones(|a| + 1)[..|a|] == Ones(|a|);
    assert (a + [node])[..|a|] == a;
  }

  lemma GreedyUnderStep(w: seq<nat>, a: seq<nat>, quota: seq<nat>, node: nat)
    requires GreedyUnder(w, a, quota) && |a| < |w| && LightestUnder(w[..|a|], a, quota, node)
    requires CountsWithin(a, quota)
    ensures GreedyUnder(w, a + [node], quota) && CountsWithin(a + [node], quota)
  {
    CountStep(a, node);
    var b := a + [node];
    forall k | 0 <= k < |b| ensures LightestUnder(w[..k], b[..k], quota, b[k]) {
      assert b[..k] == a[..k];
      if k < |a| {
        assert LightestUnder(w[..k], a[..k], quota, a[k]);
      } else {
        assert a[..k] == a;
      }
    }
  }

  ghost predicate CountsAre(used: seq<nat>, a: seq<nat>, m: nat) {
    |used| == m && forall i: nat :: i < m ==> used[i] == Count(a, i)
  }

  method LightestUnderQuota(load: seq<u64>, used: seq<nat>, quota: seq<nat>) returns (best: Option<nat>)
    requires |load| == |used| == |quota|
    ensures best.None? ==> forall j :: 0 <= j < |quota| ==> used[j] >= quota[j]
    ensures best.Some? ==> best.value < |quota| && IsLightestUnder(load, used, quota, |quota|, best.value)
  {
    best := None;
    for i := 0 to |quota|
      invariant best.None? ==> forall j :: 0 <= j < i ==> used[j] >= quota[j]
      invariant best.Some? ==> IsLightestUnder(load, used, quota, i, best.value)
    {
      if used[i] < quota[i] && (best.None? || load[i] < load[best.value]) {
        best := Some(i);
      }
    }
  }

  ghost predicate IsLightestUnder(load: seq<u64>, used: seq<nat>, quota: seq<nat>, n: nat, node: nat)
    requires |load| == |used| == |quota| >= n
  {
    && node < n && used[node] < quota[node]
    && forall j :: 0 <= j < n && used[j] < quota[j] ==>
         load[node] <= load[j] && (j < node ==> load[node] < load[j])
  }

  lemma FoundIsLightestUnder(load: seq<u64>, used: seq<nat>, quota: seq<nat>, w: seq<nat>, a: seq<nat>, node: nat)
    requires LoadsAre(load, w, a, |quota|, |a|) && CountsAre(used, a, |quota|)
    requires IsLightestUnder(load, used, quota, |quota|, node)
    ensures LightestUnder(w[..|a|], a, quota, node)
  {
  }

  /** The loop invariant of the placement: what `load`, `used` and `table` say about the placements so far. */
  ghost predicate Placed(load: seq<u64>, used: seq<nat>, table: seq<nat>, w: seq<nat>, order: seq<nat>,
                         asg: seq<nat>, quota: seq<nat>) {
    && GreedyUnder(w, asg, quota) && CountsWithin(asg, quota)
    && TableHolds(table, order, asg, |quota|)
    && LoadsAre(load, w, asg, |quota|, |asg|) && CountsAre(used, asg, |quota|)
  }

  lemma PlacedStep(load: seq<u64>, used: seq<nat>, table: seq<nat>, w: seq<nat>, order: seq<nat>,
                   asg: seq<nat>, quota: seq<nat>, node: nat, load': seq<u64>, used': seq<nat>, table': seq<nat>)
    requires Placed(load, used, table, w, order, asg, quota) && |asg| < |w| == |order| && Total(w) < TWO64
    requires IsOrder(order, |table|) && IsLightestUnder(load, used, quota, |quota|, node)
    requires LoadsAre(load', w, asg + [node], |quota|, |asg| + 1)
    requires CountsAre(used', asg + [node], |quota|)
    requires TableHolds(table', order, asg + [node], |quota|)
    ensures Placed(load', used', table', w, order, asg + [node], quota)
  {
    hide GreedyUnder, CountsWithin, LightestUnder, TableHolds, LoadsAre, CountsAre, IsLightestUnder, IsOrder;
    FoundIsLightestUnder(load, used, quota, w, asg, node);
    GreedyUnderStep(w, asg, quota, node);
  }

  /** One turn of the loop: the next expert goes to the lightest node under quota. */
  method PlaceOneUnder(load: seq<u64>, used: seq<nat>, table: seq<nat>, e: nat, x: u64, quota: seq<nat>,
                       ghost w: seq<nat>, ghost order: seq<nat>, ghost asg: seq<nat>)
    returns (load': seq<u64>, used': seq<nat>, table': seq<nat>, ghost asg': seq<nat>)
    requires Placed(load, used, table, w, order, asg, quota) && |asg| < |w| == |order| == Total(quota)
    requires IsOrder(order, |table|) && e == order[|asg|] && x as nat == w[|asg|] && Total(w) < TWO64
    ensures |asg'| == |asg| + 1 && |table'| == |table| && Placed(load', used', table', w, order, asg', quota)
  {
    hide *;
    PlacedMeans(load, used, table, w, order, asg, quota);
    UnderQuotaExists(load, used, table, w, order, asg, quota);
    var best := LightestUnderQuota(load, used, quota);
    var node := best.value;
    asg' := asg + [node];
    PlaceStep(load, w, asg, |quota|, |asg|, node);
    TableStep(table, order, asg, |quota|, node);
    CountsAreStep(used, asg, |quota|, node);
    table', used', load' := table[e := node], used[node := used[node] + 1], load[node := load[node] + x];
    PlacedStep(load, used, table, w, order, asg, quota, node, load', used', table');
  }

  lemma PlacedMeans(load: seq<u64>, used: seq<nat>, table: seq<nat>, w: seq<nat>, order: seq<nat>, asg: seq<nat>,
                    quota: seq<nat>)
    requires Placed(load, used, table, w, order, asg, quota)
    ensures LoadsAre(load, w, asg, |quota|, |asg|) && CountsAre(used, asg, |quota|)
    ensures TableHolds(table, order, asg, |quota|)
    ensures |load| == |used| == |quota| && |asg| <= |w|
  {
    hide GreedyUnder, CountsWithin, TableHolds;
  }

  lemma CountsAreStep(used: seq<nat>, asg: seq<nat>, m: nat, node: nat)
    requires CountsAre(used, asg, m) && node < m
    ensures CountsAre(used[node := used[node] + 1], asg + [node], m)
  {
    CountStep(asg, node);
  }

  lemma PlacedStart(n: nat, w: seq<nat>, order: seq<nat>, quota: seq<nat>)
    requires |quota| > 0
    ensures Placed(seq(|quota|, _ => 0), seq(|quota|, _ => 0), seq(n, _ => 0), w, order, [], quota)
  {
  }

  /** The placement loop of `capacity_weighted`. */
  method PlaceUnderQuota(nExperts: nat, weights: seq<u64>, order: seq<nat>, quota: seq<nat>)
    returns (table: seq<nat>)
    requires IsOrder(order, nExperts) && forall k :: 0 <= k < |order| ==> order[k] < nExperts
    requires Total(quota) == nExperts >= 1 && Total(Weights(weights, nExperts)) < TWO64
    ensures IsAssignment(table, nExperts, |quota|)
    ensures GreedyUnder(Gather(Weights(weights, nExperts), order), Gather(table, order), quota)
    ensures forall i: nat :: i < |quota| ==> Count(Gather(table, order), i) == quota[i]
  {
    OrderContents(order, nExperts);
    ghost var wo := Gather(Weights(weights, nExperts), order);
    TotalThroughOrder(Weights(weights, nExperts), order);
    var first := SomeNodeUnderQuota([], quota);
    var load: seq<u64> := seq(|quota|, _ => 0);
    var used: seq<nat> := seq(|quota|, _ => 0);
    table := seq(nExperts, _ => 0);
    ghost var asg: seq<nat> := [];
    PlacedStart(nExperts, wo, order, quota);
    assert forall k :: 0 <= k < nExperts ==> wo[k] == Recorded(weights, order[k]) as nat;
    hide *;
    for k := 0 to nExperts
      invariant |asg| == k && |table| == nExperts
      invariant Placed(load, used, table, wo, order, asg, quota)
    {
      load, used, table, asg :=
        PlaceOneUnder(load, used, table, order[k], Recorded(weights, order[k]), quota, wo, order, asg);
    }
    PlacementDone(load, used, table, wo, order, asg, quota);
  }

  lemma PlacementDone(load: seq<u64>, used: seq<nat>, table: seq<nat>, w: seq<nat>, order: seq<nat>,
                      asg: seq<nat>, quota: seq<nat>)
    requires Placed(load, used, table, w, order, asg, quota) && IsOrder(order, |table|)
    requires |asg| == |order| == |table| == Total(quota)
    ensures IsAssignment(table, |table|, |quota|) && GreedyUnder(w, asg, quota)
    ensures (forall k :: 0 <= k < |order| ==> order[k] < |table|) && Gather(table, order) == asg
    ensures forall i: nat :: i < |quota| ==> Count(asg, i) == quota[i]
  {
    TableDone(table, order, asg, |quota|);
    PlacedInRange(table, order, asg, |quota|);
    forall i: nat | i < |quota| ensures Count(asg, i) == quota[i] {
      AllQuotasMet(asg, quota, i);
    }
  }

  lemma PlacedInRange(table: seq<nat>, order: seq<nat>, asg: seq<nat>, m: nat)
    requires TableHolds(table, order, asg, m)
    ensures IsAssignment(asg, |asg|, m)
  {
  }

  lemma UnderQuotaExists(load: seq<u64>, used: seq<nat>, table: seq<nat>, w: seq<nat>, order: seq<nat>,
                         asg: seq<nat>, quota: seq<nat>)
    requires Placed(load, used, table, w, order, asg, quota) && |asg| < Total(quota)
    ensures |load| == |used| == |quota| && exists j :: 0 <= j < |quota| && used[j] < quota[j]
  {
    PlacedInRange(table, order, asg, |quota|);
    var i := SomeNodeUnderQuota(asg, quota);
    assert used[i] < quota[i];
  }

  /** The experts went, heaviest first, each to the lightest node still under its quota. */
  ghost predicate IsHeaviestFirstUnder(table: seq<nat>, w: seq<nat>, quota: seq<nat>) {
    && IsAssignment(table, |w|, |quota|)
    && (forall k :: 0 <= k < |HeaviestFirst(w)| ==> HeaviestFirst(w)[k] < |w|)
    && GreedyUnder(Gather(w, HeaviestFirst(w)), Gather(table, HeaviestFirst(w)), quota)
  }

  /** Each node owns exactly its largest-remainder quota of `c`, filled heaviest first. */
  ghost predicate SharesOut(r: ExpertSharding, quota: seq<nat>, c: seq<nat>, w: seq<nat>)
    requires r.Valid()
  {
    && Total(c) > 0 && IsQuota(quota, Scaled(c, r.nExperts), Total(c), r.nExperts)
    && (forall i: nat :: i < |c| ==> r.CountFor(i) == quota[i])
    && IsHeaviestFirstUnder(r.Owners(), w, quota)
  }

  /** What `capacity_weighted` makes: shares by capacity, or the balanced map without a capacity signal. */
  ghost predicate IsCapacityWeighted(r: ExpertSharding, capacity: seq<u64>, weights: seq<u64>)
    requires r.Valid()
  {
    var c, w := Capacities(capacity, r.numNodes), Weights(weights, r.nExperts);
    if r.numNodes == 1 || Total(c) == 0 then IsHeaviestFirst(r.Owners(), w, r.numNodes)
    else exists quota :: SharesOut(r, quota, c, w)
  }

  /** `capacity_weighted`: with a capacity signal, each node owns exactly its largest-remainder quota. */
  method CapacityWeighted(numNodes: nat, nExperts: nat, capacity: seq<u64>, weights: seq<u64>)
    returns (r: ExpertSharding)
    requires numNodes >= 1 && nExperts >= 1
    requires numNodes > 1 ==> Total(Weights(weights, nExperts)) < TWO64
    ensures r.Valid() && r.numNodes == numNodes && r.nExperts == nExperts
    ensures IsCapacityWeighted(r, capacity, weights)
  {
    var c := Capacities(capacity, numNodes);
    if numNodes == 1 || Total(c) == 0 {
      r := Balanced(numNodes, nExperts, weights);
    } else {
      var w := Weights(weights, nExperts);
      HeaviestFirstIsOrder(w);
      var quota := Quotas(c, nExperts);
      var table := PlaceUnderQuota(nExperts, weights, HeaviestFirst(w), quota);
      r := ExpertSharding(numNodes, nExperts, Some(table));
      assert r.Owners() == table;
      forall i: nat | i < numNodes ensures r.CountFor(i) == quota[i] {
        CountThroughOrder(table, HeaviestFirst(w), i);
      }
      assert SharesOut(r, quota, c, w);
    }
  }

  lemma CountThroughOrder(table: seq<nat>, order: seq<nat>, i: nat)
    requires IsOrder(order, |table|) && forall k :: 0 <= k < |order| ==> order[k] < |table|
    ensures Count(Gather(table, order), i) == Count(table, i)
  {
    OrderContents(order, |table|);
    LoadThroughOrder(Ones(|table|), table, order, i);
    assert Gather(Ones(|table|), order) == Ones(|table|);
  }
}
