/** Reading a sequence through a permutation of its indices leaves every load and total unchanged. */
module Permute {
  import opened Collections
  import opened LoadBalance
  import opened Sorting

  ghost predicate IsOrder(order: seq<nat>, n: nat) {
    multiset(order) == multiset(Indices(n))
  }

  function Gather(v: seq<nat>, order: seq<nat>): (r: seq<nat>)
    requires forall k :: 0 <= k < |order| ==> order[k] < |v|
  {
    seq(|order|, k requires 0 <= k < |order| => v[order[k]])
  }

  function KeyAt(w: seq<nat>, i: nat): nat {
    if i < |w| then w[i] else 0
  }

  /** Indices by decreasing key, equal keys by increasing index: the comparator of every sort in sharding.rs. */
  function HeavierThenLower(w: seq<nat>): (nat, nat) -> bool {
    (i: nat, j: nat) => KeyAt(w, j) < KeyAt(w, i) || (KeyAt(w, i) == KeyAt(w, j) && i <= j)
  }

  function HeaviestFirst(w: seq<nat>): seq<nat> {
    Sort(Indices(|w|), HeavierThenLower(w))
  }

  lemma OrderContents(order: seq<nat>, n: nat)
    requires IsOrder(order, n)
    ensures |order| == n
    ensures forall k :: 0 <= k < n ==> order[k] < n
    ensures forall j, k :: 0 <= j < k < n ==> order[j] != order[k]
  {
    assert |order| == |multiset(order)| == |multiset(Indices(n))| == n;
    forall k | 0 <= k < n ensures order[k] < n {
      assert order[k] in multiset(order);
      IndicesCount(n, order[k]);
    }
    forall j, k | 0 <= j < k < n ensures order[j] != order[k] {
      IndicesCount(n, order[j]);
      if order[j] == order[k] {
        TwiceCountsTwo(order, j, k);
        assert false;
      }
    }
  }

  lemma PrefixMembers(order: seq<nat>, n: nat, left: nat)
    requires IsOrder(order, n) && left <= |order|
    ensures forall k :: 0 <= k < |order| ==> (order[k] in order[..left] <==> k < left)
  {
    OrderContents(order, n);
    forall k | 0 <= k < |order| ensures order[k] in order[..left] <==> k < left {
      if k < left {
        assert order[..left][k] == order[k];
      } else {
        assert forall j :: 0 <= j < left ==> order[..left][j] == order[j];
      }
    }
  }

  lemma HeaviestFirstIsOrder(w: seq<nat>)
    ensures IsOrder(HeaviestFirst(w), |w|)
    ensures var o := HeaviestFirst(w);
            && |o| == |w| && (forall k :: 0 <= k < |w| ==> o[k] < |w|)
            && Descending(Gather(w, o))
            && forall j, k :: 0 <= j < k < |w| && w[o[j]] == w[o[k]] ==> o[j] < o[k]
  {
    var o := HeaviestFirst(w);
    SortPermutes(Indices(|w|), HeavierThenLower(w));
    SortSorted(Indices(|w|), HeavierThenLower(w));
    OrderContents(o, |w|);
    forall j, k | 0 <= j < k < |w| ensures w[o[j]] >= w[o[k]] && (w[o[j]] == w[o[k]] ==> o[j] < o[k]) {
      assert HeavierThenLower(w)(o[j], o[k]);
    }
  }

  // ---- loads through a permutation ----------------------------------------------

  function LoadOf(w: seq<nat>, a: seq<nat>, order: seq<nat>, node: nat): nat
    requires |w| == |a| && forall k :: 0 <= k < |order| ==> order[k] < |w|
  {
    Load(Gather(w, order), Gather(a, order), node)
  }

  lemma {:induction false} LoadWithout(w: seq<nat>, a: seq<nat>, order: seq<nat>, node: nat, p: nat)
    requires |w| == |a| && (forall k :: 0 <= k < |order| ==> order[k] < |w|) && p < |order|
    ensures LoadOf(w, a, order, node)
         == LoadOf(w, a, order[..p] + order[p + 1..], node) + if a[order[p]] == node then w[order[p]] else 0
  {
    var n := |order| - 1;
    LoadSnoc(w, a, order, node);
    if p < n {
      var rest := order[..p] + order[p + 1..];
      LoadWithout(w, a, order[..n], node, p);
      LoadSnoc(w, a, rest, node);
      assert rest[..n - 1] == order[..n][..p] + order[..n][p + 1..];
    } else {
      assert order[..p] + order[p + 1..] == order[..n];
    }
  }

  lemma LoadSnoc(w: seq<nat>, a: seq<nat>, order: seq<nat>, node: nat)
    requires |w| == |a| && (forall k :: 0 <= k < |order| ==> order[k] < |w|) && order != []
    ensures LoadOf(w, a, order, node)
         == LoadOf(w, a, order[..|order| - 1], node)
            + if a[order[|order| - 1]] == node then w[order[|order| - 1]] else 0
  {
    var n := |order| - 1;
    assert Gather(w, order)[..n] == Gather(w, order[..n]);
    assert Gather(a, order)[..n] == Gather(a, order[..n]);
  }

  lemma {:induction false} LoadPermutes(w: seq<nat>, a: seq<nat>, o: seq<nat>, q: seq<nat>, node: nat)
    requires |w| == |a| && multiset(o) == multiset(q)
    requires (forall k :: 0 <= k < |o| ==> o[k] < |w|) && (forall k :: 0 <= k < |q| ==> q[k] < |w|)
    ensures LoadOf(w, a, o, node) == LoadOf(w, a, q, node)
    decreases |o|
  {
    assert |multiset(o)| == |multiset(q)|;
    if o != [] {
      var n := |o| - 1;
      assert o == o[..n] + [o[n]];
      assert o[n] in multiset(q);
      var p :| 0 <= p < |q| && q[p] == o[n];
      RemoveOne(q, p);
      LoadSnoc(w, a, o, node);
      LoadWithout(w, a, q, node, p);
      LoadPermutes(w, a, o[..n], q[..p] + q[p + 1..], node);
    }
  }

  lemma LoadThroughOrder(w: seq<nat>, a: seq<nat>, order: seq<nat>, node: nat)
    requires |w| == |a| && IsOrder(order, |w|) && forall k :: 0 <= k < |order| ==> order[k] < |w|
    ensures LoadOf(w, a, order, node) == Load(w, a, node)
  {
    LoadPermutes(w, a, order, Indices(|w|), node);
    assert Gather(w, Indices(|w|)) == w && Gather(a, Indices(|w|)) == a;
  }

  lemma {:induction false} MakespanThroughOrder(w: seq<nat>, a: seq<nat>, order: seq<nat>, m: nat)
    requires |w| == |a| && IsOrder(order, |w|) && forall k :: 0 <= k < |order| ==> order[k] < |w|
    ensures Makespan(Gather(w, order), Gather(a, order), m) == Makespan(w, a, m)
  {
    if m > 0 {
      MakespanThroughOrder(w, a, order, m - 1);
      LoadThroughOrder(w, a, order, m - 1);
    }
  }

  lemma {:induction false} LoadOfAll(w: seq<nat>, a: seq<nat>, node: nat)
    requires |w| == |a| && forall k :: 0 <= k < |a| ==> a[k] == node
    ensures Load(w, a, node) == Total(w)
  {
    if w != [] {
      LoadOfAll(w[..|w| - 1], a[..|w| - 1], node);
    }
  }

  lemma TotalThroughOrder(w: seq<nat>, order: seq<nat>)
    requires IsOrder(order, |w|) && forall k :: 0 <= k < |order| ==> order[k] < |w|
    ensures Total(Gather(w, order)) == Total(w)
  {
    var zeros := seq(|w|, _ => 0);
    LoadThroughOrder(w, zeros, order, 0);
    LoadOfAll(w, zeros, 0);
    LoadOfAll(Gather(w, order), Gather(zeros, order), 0);
  }
}
