/** For every number of nodes, jobs on which heaviest-first greedy is as bad as Graham's bound allows. */
module GrahamTight {
  import opened LoadBalance

  function Half(k: nat): nat {
    k / 2
  }

  lemma HalfOrder(j: nat, i: nat)
    requires j < i
    ensures Half(j) <= Half(i)
    ensures i % 2 == 0 || j < i - 1 ==> Half(j) < Half(i)
    ensures i % 2 == 1 && j == i - 1 ==> Half(j) == Half(i)
  {
  }

  /** Two jobs each of `2m - 1`, `2m - 2`, .. `m`, and one more of `m`. */
  function JobWeight(m: nat, k: nat): nat
    requires k <= 2 * m
  {
    if k < 2 * m then 2 * m - 1 - Half(k) else m
  }

  /** Greedy serves the nodes in turn, then the lightest pair of nodes first, then node 0. */
  function GreedyNode(m: nat, k: nat): nat
    requires k <= 2 * m
  {
    if k < m then k
    else if k == 2 * m then 0
    else if k % 2 == 0 then 2 * m - 2 - k
    else if k == m then m - 1
    else 2 * m - k
  }

  /** The second job greedy gives to node `j`. */
  function SecondJob(m: nat, j: nat): nat
    requires j < m
  {
    if j % 2 == 1 then 2 * m - j else if j == m - 1 then m else 2 * m - 2 - j
  }

  /** The three jobs of `m` together, and every other job with the one that completes it to `3m`. */
  function PairedNode(m: nat, k: nat): nat
    requires m > 0 && k <= 2 * m
  {
    if k < m - 1 then k else if k < 2 * m - 2 then 2 * m - 3 - k else m - 1
  }

  function Jobs(m: nat): seq<nat> {
    seq(2 * m + 1, k requires 0 <= k < 2 * m + 1 => JobWeight(m, k))
  }

  function GreedyNodes(m: nat): seq<nat> {
    seq(2 * m + 1, k requires 0 <= k < 2 * m + 1 => GreedyNode(m, k))
  }

  function PairedNodes(m: nat): seq<nat>
    requires m > 0
  {
    seq(2 * m + 1, k requires 0 <= k < 2 * m + 1 => PairedNode(m, k))
  }

  // ---- loads after `k` jobs ----------------------------------------------------------------------------------------

  function GreedyLoad(m: nat, k: nat, j: nat): nat
    requires k <= 2 * m + 1 && j < m
  {
    (if j < k then 2 * m - 1 - Half(j) else 0) + (if SecondJob(m, j) < k then m + Half(j) else 0)
    + (if j == 0 && k == 2 * m + 1 then m else 0)
  }

  function PairedLoad(m: nat, k: nat, j: nat): nat
    requires k <= 2 * m + 1 && j < m
  {
    if j < m - 1 then (if j < k then 2 * m - 1 - Half(j) else 0) + (if 2 * m - 3 - j < k then m + 1 + Half(j) else 0)
    else if k <= 2 * m - 2 then 0
    else if k == 2 * m - 1 then m
    else if k == 2 * m then m + m
    else m + m + m
  }

  lemma LoadNext(w: seq<nat>, a: seq<nat>, k: nat, j: nat)
    requires k < |w| == |a|
    ensures Load(w[..k + 1], a[..k + 1], j) == Load(w[..k], a[..k], j) + if a[k] == j then w[k] else 0
  {
    assert w[..k + 1][..k] == w[..k] && a[..k + 1][..k] == a[..k];
  }

  lemma GreedyLoadNext(m: nat, k: nat, j: nat)
    requires k <= 2 * m && j < m
    ensures GreedyLoad(m, k + 1, j) == GreedyLoad(m, k, j) + if GreedyNode(m, k) == j then JobWeight(m, k) else 0
  {
    SecondJobRange(m, j);
    if m <= k < 2 * m {
      SecondJobNode(m, k, j);
    }
    hide SecondJob, Half;
  }

  /** Node `j` is served a second time at its second job, which completes it to `3m - 1`. */
  lemma SecondJobNode(m: nat, k: nat, j: nat)
    requires m <= k < 2 * m && j < m
    ensures GreedyNode(m, k) == j <==> SecondJob(m, j) == k
    ensures SecondJob(m, j) == k ==> JobWeight(m, k) == m + Half(j)
  {
    if SecondJob(m, j) == k {
      SecondJobWeight(m, j);
    }
    hide Half, JobWeight;
  }

  lemma SecondJobWeight(m: nat, j: nat)
    requires j < m
    ensures SecondJob(m, j) < 2 * m && JobWeight(m, SecondJob(m, j)) == m + Half(j)
  {
  }

  lemma PairedLoadNext(m: nat, k: nat, j: nat)
    requires k <= 2 * m && j < m
    ensures PairedLoad(m, k + 1, j) == PairedLoad(m, k, j) + if PairedNode(m, k) == j then JobWeight(m, k) else 0
  {
  }

  lemma NoLoadYet(m: nat, j: nat)
    requires j < m
    ensures Load([], [], j) == 0 && GreedyLoad(m, 0, j) == 0 && PairedLoad(m, 0, j) == 0
  {
  }

  lemma {:induction false} GreedyAfter(m: nat, k: nat, j: nat)
    requires k <= 2 * m + 1 && j < m
    ensures Load(Jobs(m)[..k], GreedyNodes(m)[..k], j) == GreedyLoad(m, k, j)
  {
    hide Load, GreedyLoad, GreedyNode, JobWeight;
    if k > 0 {
      GreedyAfter(m, k - 1, j);
      LoadNext(Jobs(m), GreedyNodes(m), k - 1, j);
      GreedyLoadNext(m, k - 1, j);
    } else {
      NoLoadYet(m, j);
    }
  }

  lemma {:induction false} PairedAfter(m: nat, k: nat, j: nat)
    requires k <= 2 * m + 1 && j < m
    ensures Load(Jobs(m)[..k], PairedNodes(m)[..k], j) == PairedLoad(m, k, j)
  {
    hide Load, PairedLoad, PairedNode, JobWeight;
    if k > 0 {
      PairedAfter(m, k - 1, j);
      LoadNext(Jobs(m), PairedNodes(m), k - 1, j);
      PairedLoadNext(m, k - 1, j);
    } else {
      NoLoadYet(m, j);
    }
  }

  // ---- the assignment is greedy ------------------------------------------------------------------------------------

  /** A node that gets its second job no earlier is no lighter, and heavier if its number is lower. */
  lemma ServedLater(m: nat, i: nat, j: nat)
    requires i < m && j < m && SecondJob(m, j) >= SecondJob(m, i)
    ensures Half(j) <= Half(i) && (j < i ==> Half(j) < Half(i))
  {
    hide Half;
    if j < i {
      HalfOrder(j, i);
    } else if i < j {
      HalfOrder(i, j);
    }
  }

  lemma SecondJobOf(m: nat, k: nat)
    requires m <= k < 2 * m
    ensures GreedyNode(m, k) < m && SecondJob(m, GreedyNode(m, k)) == k
  {
  }

  lemma SecondJobRange(m: nat, j: nat)
    requires j < m
    ensures m <= SecondJob(m, j) < 2 * m && Half(j) <= j
  {
  }

  lemma GreedyNodeIsLightest(m: nat, k: nat, j: nat)
    requires k <= 2 * m && j < m
    ensures GreedyNode(m, k) < m
    ensures GreedyLoad(m, k, GreedyNode(m, k)) <= GreedyLoad(m, k, j)
    ensures j < GreedyNode(m, k) ==> GreedyLoad(m, k, GreedyNode(m, k)) < GreedyLoad(m, k, j)
  {
    SecondJobRange(m, j);
    if m <= k < 2 * m {
      var i := GreedyNode(m, k);
      SecondJobOf(m, k);
      SecondJobRange(m, i);
      hide SecondJob, GreedyNode, Half;
      if SecondJob(m, j) >= k {
        ServedLater(m, i, j);
      }
    } else {
      SecondJobRange(m, GreedyNode(m, k));
      hide SecondJob, Half;
    }
  }

  lemma GreedyNodesAreGreedy(m: nat)
    requires m > 0
    ensures Greedy(Jobs(m), GreedyNodes(m), m)
  {
    var w, a := Jobs(m), GreedyNodes(m);
    hide Load, GreedyLoad, GreedyNode;
    forall k | 0 <= k < |w| ensures Lightest(w[..k], a[..k], m, a[k]) {
      GreedyNodeIsLightest(m, k, 0);
      GreedyAfter(m, k, a[k]);
      forall j | 0 <= j < m
        ensures Load(w[..k], a[..k], a[k]) <= Load(w[..k], a[..k], j)
        ensures j < a[k] ==> Load(w[..k], a[..k], a[k]) < Load(w[..k], a[..k], j)
      {
        GreedyNodeIsLightest(m, k, j);
        GreedyAfter(m, k, j);
      }
    }
  }

  lemma FinalLoads(m: nat, j: nat)
    requires j < m
    ensures Load(Jobs(m), GreedyNodes(m), j) == if j == 0 then 4 * m - 1 else 3 * m - 1
    ensures Load(Jobs(m), PairedNodes(m), j) == 3 * m
  {
    GreedyAfter(m, 2 * m + 1, j);
    PairedAfter(m, 2 * m + 1, j);
    var n := 2 * m + 1;
    assert Jobs(m)[..n] == Jobs(m) && GreedyNodes(m)[..n] == GreedyNodes(m) && PairedNodes(m)[..n] == PairedNodes(m);
  }

  /** The constant of Graham's bound is attained for every number of nodes: greedy's largest load is `4m - 1`, and
      another assignment's is `3m`. */
  lemma GrahamBoundIsTight(m: nat)
    requires m > 0
    ensures Descending(Jobs(m)) && Greedy(Jobs(m), GreedyNodes(m), m) && IsAssignment(PairedNodes(m), |Jobs(m)|, m)
    ensures Makespan(Jobs(m), GreedyNodes(m), m) == 4 * m - 1 && Makespan(Jobs(m), PairedNodes(m), m) == 3 * m
    ensures 3 * m * Makespan(Jobs(m), GreedyNodes(m), m) == (4 * m - 1) * Makespan(Jobs(m), PairedNodes(m), m)
  {
    GreedyNodesAreGreedy(m);
    forall j: nat | j < m
      ensures Load(Jobs(m), GreedyNodes(m), j) == if j == 0 then 4 * m - 1 else 3 * m - 1
      ensures Load(Jobs(m), PairedNodes(m), j) == 3 * m
    {
      FinalLoads(m, j);
    }
    hide Load, Greedy;
    assert Load(Jobs(m), GreedyNodes(m), 0) == 4 * m - 1 && Load(Jobs(m), PairedNodes(m), 0) == 3 * m;
  }
}
