/** What recovering merges from a rank table yields, token by token and in rank order, for every table of distinct
    keys. */
module DerivedOrder {
  import opened Bpe
  import opened Collections
  import opened MergeRecovery

  /** Where `t` stands in `order`, or its length. */
  function Place(order: seq<Bytes>, t: Bytes): (i: nat)
    ensures i <= |order| && (t in order ==> i < |order| && order[i] == t)
    ensures i < |order| ==> t in order
  {
    if order == [] then 0
    else
      var n := |order| - 1;
      assert order == order[..n] + [order[n]];
      if t in order[..n] then Place(order[..n], t) else if order[n] == t then n else n + 1
  }

  /** The first `k` merges are those of tokens before `t`. */
  ghost predicate Divides(order: seq<Bytes>, merges: seq<Pair>, t: Bytes, k: nat) {
    && k <= |merges|
    && (forall p :: 0 <= p < k ==> Place(order, Token(merges[p])) < Place(order, t))
    && (forall p :: k <= p < |merges| ==> Place(order, Token(merges[p])) >= Place(order, t))
  }

  /** `t` splits in two under the merges before it and its two pieces are its merge, or it splits further and is
      reported. */
  ghost predicate Explained(t: Bytes, merges: seq<Pair>, unmerged: seq<Bytes>, k: nat)
    requires k <= |merges|
  {
    var parts := Encode(t, Ranks(merges[..k]));
    if |parts| == 2 then t !in unmerged && k < |merges| && merges[k] == (parts[0], parts[1])
    else |parts| >= 3 && t in unmerged && (k < |merges| ==> Token(merges[k]) != t)
  }

  ghost predicate AllExplained(order: seq<Bytes>, merges: seq<Pair>, unmerged: seq<Bytes>) {
    forall t, k :: t in order && |t| >= 2 && Divides(order, merges, t, k) ==> Explained(t, merges, unmerged, k)
  }

  /** The merged tokens and the reported ones stand in rank order, each once. */
  ghost predicate InRankOrder(order: seq<Bytes>, merges: seq<Pair>, unmerged: seq<Bytes>) {
    && (forall p :: 0 <= p < |merges| ==> Token(merges[p]) in order && |Token(merges[p])| >= 2)
    && (forall t :: t in unmerged ==> t in order && |t| >= 2)
    && (forall p, q :: 0 <= p < q < |merges| ==> Place(order, Token(merges[p])) < Place(order, Token(merges[q])))
    && (forall p, q :: 0 <= p < q < |unmerged| ==> Place(order, unmerged[p]) < Place(order, unmerged[q]))
  }

  /** Merges and reports, each in rank order and without repetition, that explain every multi-byte token. */
  ghost predicate IsDerivation(order: seq<Bytes>, merges: seq<Pair>, unmerged: seq<Bytes>) {
    InRankOrder(order, merges, unmerged) && AllExplained(order, merges, unmerged)
  }

  lemma PlaceSnoc(order: seq<Bytes>, x: Bytes, t: Bytes)
    ensures t in order ==> Place(order + [x], t) == Place(order, t)
    ensures x !in order ==> Place(order + [x], x) == |order|
  {
    assert (order + [x])[..|order|] == order;
  }

  lemma PlacesBefore(order: seq<Bytes>, x: Bytes)
    requires x !in order
    ensures Place(order + [x], x) == |order|
    ensures forall t :: t in order ==> Place(order + [x], t) == Place(order, t) < |order|
  {
    forall t | t in order ensures Place(order + [x], t) == Place(order, t) < |order| {
      PlaceSnoc(order, x, t);
    }
    PlaceSnoc(order, x, x);
  }

  // ---- a new token leaves what was said of the earlier ones --------------------------------------------------------

  lemma DividesEarlier(order: seq<Bytes>, x: Bytes, merges: seq<Pair>, more: seq<Pair>, t: Bytes, k: nat)
    requires x !in order && t in order && forall p :: 0 <= p < |merges| ==> Token(merges[p]) in order
    requires more == merges || (|more| == |merges| + 1 && more[..|merges|] == merges && Token(more[|merges|]) == x)
    requires Divides(order + [x], more, t, k)
    ensures k <= |merges| && Divides(order, merges, t, k) && more[..k] == merges[..k]
  {
    PlacesBefore(order, x);
    hide Place;
    assert forall p :: 0 <= p < |merges| ==> more[p] == merges[p];
  }

  lemma DividesLatest(order: seq<Bytes>, x: Bytes, merges: seq<Pair>, more: seq<Pair>, k: nat)
    requires x !in order && forall p :: 0 <= p < |merges| ==> Token(merges[p]) in order
    requires more == merges || (|more| == |merges| + 1 && more[..|merges|] == merges && Token(more[|merges|]) == x)
    requires Divides(order + [x], more, x, k)
    ensures k == |merges| && more[..k] == merges
  {
    PlacesBefore(order, x);
    hide Place;
    assert forall p :: 0 <= p < |merges| ==> more[p] == merges[p];
    assert k < |more| ==> Place(order + [x], Token(more[k])) >= Place(order + [x], x);
    assert |merges| < |more| ==> Token(more[|merges|]) == x;
  }

  lemma PiecesJoin(t: Bytes, mrank: MergeRanks)
    ensures |t| > 0 ==> |Encode(t, mrank)| > 0
    ensures |Encode(t, mrank)| == 2 ==> Token((Encode(t, mrank)[0], Encode(t, mrank)[1])) == t
  {
    EncodeKeeps(t, mrank);
    if |Encode(t, mrank)| == 2 {
      SplitInTwo(t, mrank);
    }
  }

  /** What is said of an earlier token stays true when `x` is merged or reported. */
  lemma StaysExplained(t: Bytes, x: Bytes, merges: seq<Pair>, more: seq<Pair>, unmerged: seq<Bytes>, k: nat)
    requires t != x && k <= |merges| && Explained(t, merges, unmerged, k)
    requires more == merges || (|more| == |merges| + 1 && more[..|merges|] == merges && Token(more[|merges|]) == x)
    requires more[..k] == merges[..k]
    ensures Explained(t, more, unmerged, k) && Explained(t, more, unmerged + [x], k)
  {
    hide Encode, Ranks;
    assert k < |merges| ==> more[k] == more[..|merges|][k];
  }

  lemma MergedInOrder(order: seq<Bytes>, x: Bytes, merges: seq<Pair>, unmerged: seq<Bytes>, p: Pair)
    requires InRankOrder(order, merges, unmerged) && x !in order && |x| >= 2 && Token(p) == x
    ensures InRankOrder(order + [x], merges + [p], unmerged)
  {
    PlacesBefore(order, x);
    hide Place, Token;
  }

  lemma ReportedInOrder(order: seq<Bytes>, x: Bytes, merges: seq<Pair>, unmerged: seq<Bytes>)
    requires InRankOrder(order, merges, unmerged) && x !in order && |x| >= 2
    ensures InRankOrder(order + [x], merges, unmerged + [x])
  {
    PlacesBefore(order, x);
    hide Place, Token;
  }

  lemma ShortInOrder(order: seq<Bytes>, x: Bytes, merges: seq<Pair>, unmerged: seq<Bytes>)
    requires InRankOrder(order, merges, unmerged) && x !in order
    ensures InRankOrder(order + [x], merges, unmerged)
  {
    PlacesBefore(order, x);
    hide Place, Token;
  }

  lemma EarlierExplained(order: seq<Bytes>, x: Bytes, merges: seq<Pair>, more: seq<Pair>, unmerged: seq<Bytes>,
                         t: Bytes, k: nat)
    requires IsDerivation(order, merges, unmerged) && x !in order && t in order && |t| >= 2
    requires more == merges || (|more| == |merges| + 1 && more[..|merges|] == merges && Token(more[|merges|]) == x)
    requires Divides(order + [x], more, t, k)
    ensures Explained(t, more, unmerged, k) && Explained(t, more, unmerged + [x], k)
  {
    DividesEarlier(order, x, merges, more, t, k);
    hide Explained, Divides, Token;
    StaysExplained(t, x, merges, more, unmerged, k);
  }

  // ---- the fold over the rank-sorted tokens ------------------------------------------------------------------------

  lemma MergeExplains(order: seq<Bytes>, x: Bytes, merges: seq<Pair>, unmerged: seq<Bytes>, p: Pair)
    requires IsDerivation(order, merges, unmerged) && x !in order && Token(p) == x
    requires Encode(x, Ranks(merges)) == [p.0, p.1]
    ensures AllExplained(order + [x], merges + [p], unmerged)
  {
    assert (merges + [p])[..|merges|] == merges && InRankOrder(order, merges, unmerged);
    hide IsDerivation, Encode, Ranks, Token, Explained, InRankOrder, Divides;
    forall t, k | t in order + [x] && |t| >= 2 && Divides(order + [x], merges + [p], t, k)
      ensures Explained(t, merges + [p], unmerged, k)
    {
      if t == x {
        JustMerged(order, x, merges, unmerged, p, k);
      } else {
        EarlierExplained(order, x, merges, merges + [p], unmerged, t, k);
      }
    }
  }

  lemma MergeStep(order: seq<Bytes>, x: Bytes, merges: seq<Pair>, unmerged: seq<Bytes>, p: Pair)
    requires IsDerivation(order, merges, unmerged) && x !in order && |x| >= 2
    requires Encode(x, Ranks(merges)) == [p.0, p.1]
    ensures IsDerivation(order + [x], merges + [p], unmerged)
  {
    hide Encode, Ranks, Token, InRankOrder, AllExplained;
    PiecesJoin(x, Ranks(merges));
    MergedInOrder(order, x, merges, unmerged, p);
    MergeExplains(order, x, merges, unmerged, p);
  }

  lemma JustMerged(order: seq<Bytes>, x: Bytes, merges: seq<Pair>, unmerged: seq<Bytes>, p: Pair, k: nat)
    requires InRankOrder(order, merges, unmerged) && x !in order && Encode(x, Ranks(merges)) == [p.0, p.1]
    requires Token(p) == x
    requires Divides(order + [x], merges + [p], x, k)
    ensures k <= |merges + [p]| && Explained(x, merges + [p], unmerged, k)
  {
    assert (merges + [p])[..|merges|] == merges;
    hide Encode, Ranks, Place;
    DividesLatest(order, x, merges, merges + [p], k);
  }

  lemma ReportStep(order: seq<Bytes>, x: Bytes, merges: seq<Pair>, unmerged: seq<Bytes>)
    requires IsDerivation(order, merges, unmerged) && x !in order && |x| >= 2
    requires |Encode(x, Ranks(merges))| >= 3
    ensures IsDerivation(order + [x], merges, unmerged + [x])
  {
    hide Encode, Ranks, Token;
    ReportedInOrder(order, x, merges, unmerged);
    forall t, k | t in order + [x] && |t| >= 2 && Divides(order + [x], merges, t, k)
      ensures Explained(t, merges, unmerged + [x], k)
    {
      if t == x {
        DividesLatest(order, x, merges, merges, k);
      } else {
        EarlierExplained(order, x, merges, merges, unmerged, t, k);
      }
    }
  }

  lemma ShortStep(order: seq<Bytes>, x: Bytes, merges: seq<Pair>, unmerged: seq<Bytes>)
    requires IsDerivation(order, merges, unmerged) && x !in order && |x| < 2
    ensures IsDerivation(order + [x], merges, unmerged)
  {
    hide Encode, Ranks, Token;
    ShortInOrder(order, x, merges, unmerged);
    forall t, k | t in order + [x] && |t| >= 2 && Divides(order + [x], merges, t, k)
      ensures Explained(t, merges, unmerged, k)
    {
      EarlierExplained(order, x, merges, merges, unmerged, t, k);
    }
  }

  /** Replaying training over distinct tokens gives each token that splits in two its merge, reports each that splits
      further, and does both in the order of the tokens. */
  lemma {:induction false} DeriveIsDerivation(order: seq<Bytes>)
    requires Distinct(order)
    ensures IsDerivation(order, Derive(order).merges, Derive(order).unmerged)
  {
    if order != [] {
      var n := |order| - 1;
      DeriveIsDerivation(order[..n]);
      NextToken(order, n);
    } else {
      assert AllExplained([], [], []);
    }
  }

  lemma StepDerives(order: seq<Bytes>, x: Bytes, d: Derived)
    requires IsDerivation(order, d.merges, d.unmerged) && x !in order
    requires |x| >= 2 ==> |Encode(x, Ranks(d.merges))| >= 2
    ensures IsDerivation(order + [x], DeriveStep(d, x).merges, DeriveStep(d, x).unmerged)
  {
    hide IsDerivation, Encode, Ranks;
    if |x| < 2 {
      ShortStep(order, x, d.merges, d.unmerged);
    } else {
      var parts := Encode(x, Ranks(d.merges));
      if |parts| == 2 {
        assert parts == [parts[0], parts[1]];
        MergeStep(order, x, d.merges, d.unmerged, (parts[0], parts[1]));
      } else {
        ReportStep(order, x, d.merges, d.unmerged);
      }
    }
  }

  lemma LastIsNew(order: seq<Bytes>, n: nat)
    requires Distinct(order) && n == |order| - 1
    ensures order == order[..n] + [order[n]] && order[n] !in order[..n]
    ensures Derive(order) == DeriveStep(Derive(order[..n]), order[n])
  {
    hide DeriveStep;
  }

  lemma NextToken(order: seq<Bytes>, n: nat)
    requires Distinct(order) && n == |order| - 1
    requires IsDerivation(order[..n], Derive(order[..n]).merges, Derive(order[..n]).unmerged)
    ensures IsDerivation(order, Derive(order).merges, Derive(order).unmerged)
  {
    hide *;
    LastIsNew(order, n);
    if |order[n]| >= 2 {
      NeverAlreadyOnePiece(order, n);
    }
    StepDerives(order[..n], order[n], Derive(order[..n]));
  }

  // ---- and nothing else does --------------------------------------------------------------------------------------

  lemma ExplainedAt(order: seq<Bytes>, merges: seq<Pair>, unmerged: seq<Bytes>, t: Bytes, k: nat)
    requires IsDerivation(order, merges, unmerged) && t in order && |t| >= 2 && Divides(order, merges, t, k)
    ensures k <= |merges| && Explained(t, merges, unmerged, k)
  {
    hide Explained;
  }

  lemma DividesAtOwn(order: seq<Bytes>, a: seq<Pair>, u: seq<Bytes>, p: nat)
    requires InRankOrder(order, a, u) && p < |a|
    ensures Divides(order, a, Token(a[p]), p) && Token(a[p]) in order && |Token(a[p])| >= 2
  {
    hide Place, Token;
  }

  lemma DividesOther(order: seq<Bytes>, a: seq<Pair>, u: seq<Bytes>, b: seq<Pair>, v: seq<Bytes>, p: nat)
    requires InRankOrder(order, a, u) && InRankOrder(order, b, v) && p < |a| && p <= |b| && a[..p] == b[..p]
    requires p < |b| ==> Place(order, Token(a[p])) <= Place(order, Token(b[p]))
    ensures Divides(order, b, Token(a[p]), p)
  {
    hide Place, Token;
    assert forall q :: 0 <= q < p ==> a[..p][q] == a[q] && b[..p][q] == b[q];
  }

  /** Where the two lists agree so far, the next merge of the one is the next merge of the other. */
  lemma SameNext(order: seq<Bytes>, a: seq<Pair>, u: seq<Bytes>, b: seq<Pair>, v: seq<Bytes>, p: nat)
    requires IsDerivation(order, a, u) && IsDerivation(order, b, v) && p < |a| && p <= |b| && a[..p] == b[..p]
    requires p < |b| ==> Place(order, Token(a[p])) <= Place(order, Token(b[p]))
    ensures p < |b| && a[p] == b[p]
  {
    assert InRankOrder(order, a, u) && InRankOrder(order, b, v);
    hide IsDerivation, InRankOrder, Place, Encode, Ranks, Divides, Token;
    DividesAtOwn(order, a, u, p);
    DividesOther(order, a, u, b, v, p);
    ExplainedAt(order, a, u, Token(a[p]), p);
    ExplainedAt(order, b, v, Token(a[p]), p);
  }

  lemma {:induction false} SameMerges(order: seq<Bytes>, a: seq<Pair>, u: seq<Bytes>, b: seq<Pair>, v: seq<Bytes>,
                                      p: nat)
    requires IsDerivation(order, a, u) && IsDerivation(order, b, v) && p <= |a| && p <= |b| && a[..p] == b[..p]
    ensures a == b
    decreases |a| - p
  {
    hide IsDerivation, Place, Token;
    if p == |a| && p == |b| {
      assert a[..p] == a && b[..p] == b;
    } else {
      if p < |a| && (p == |b| || Place(order, Token(a[p])) <= Place(order, Token(b[p]))) {
        SameNext(order, a, u, b, v, p);
      } else {
        SameNext(order, b, v, a, u, p);
      }
      assert a[..p + 1] == a[..p] + [a[p]] && b[..p + 1] == b[..p] + [b[p]];
      SameMerges(order, a, u, b, v, p + 1);
    }
  }

  /** Some number of merges stands before any token. */
  lemma {:induction false} Divided(order: seq<Bytes>, merges: seq<Pair>, unmerged: seq<Bytes>, t: Bytes, k: nat)
    returns (r: nat)
    requires InRankOrder(order, merges, unmerged) && k <= |merges|
    requires forall p :: 0 <= p < k ==> Place(order, Token(merges[p])) < Place(order, t)
    ensures Divides(order, merges, t, r)
    decreases |merges| - k
  {
    hide Place, Token;
    if k == |merges| || Place(order, Token(merges[k])) >= Place(order, t) {
      r := k;
    } else {
      r := Divided(order, merges, unmerged, t, k + 1);
    }
  }

  lemma ReportedInBoth(order: seq<Bytes>, merges: seq<Pair>, u: seq<Bytes>, v: seq<Bytes>, t: Bytes)
    requires IsDerivation(order, merges, u) && IsDerivation(order, merges, v) && t in u
    ensures t in v
  {
    var k := Divided(order, merges, u, t, 0);
    assert t in order && |t| >= 2;
    hide Place, Token, Encode, Ranks, Divides, IsDerivation;
    ExplainedAt(order, merges, u, t, k);
    ExplainedAt(order, merges, v, t, k);
  }

  /** Two lists in rank order with the same members are the same list. */
  lemma {:induction false} SameReports(order: seq<Bytes>, u: seq<Bytes>, v: seq<Bytes>)
    requires forall p, q :: 0 <= p < q < |u| ==> Place(order, u[p]) < Place(order, u[q])
    requires forall p, q :: 0 <= p < q < |v| ==> Place(order, v[p]) < Place(order, v[q])
    requires forall t :: t in u <==> t in v
    ensures u == v
  {
    hide Place;
    assert (|u| > 0 ==> u[0] in u) && (|v| > 0 ==> v[0] in v);
    if u != [] && v != [] {
      FirstIsLeast(order, u, v);
      FirstIsLeast(order, v, u);
      TailMembers(order, u);
      TailMembers(order, v);
      SameReports(order, u[1..], v[1..]);
      assert u == [u[0]] + u[1..] && v == [v[0]] + v[1..];
    }
  }

  lemma TailMembers(order: seq<Bytes>, u: seq<Bytes>)
    requires u != [] && forall p, q :: 0 <= p < q < |u| ==> Place(order, u[p]) < Place(order, u[q])
    ensures forall t :: t in u[1..] <==> t in u && t != u[0]
  {
    hide Place;
    assert u[0] !in u[1..];
    assert u == [u[0]] + u[1..];
  }

  lemma FirstIsLeast(order: seq<Bytes>, u: seq<Bytes>, v: seq<Bytes>)
    requires u != [] && v != [] && forall t :: t in u <==> t in v
    requires forall p, q :: 0 <= p < q < |u| ==> Place(order, u[p]) < Place(order, u[q])
    requires forall p, q :: 0 <= p < q < |v| ==> Place(order, v[p]) < Place(order, v[q])
    ensures u[0] == v[0]
  {
    hide Place;
    assert v[0] in u && u[0] in v;
  }

  /** The tokens and their order determine the merges and the reports. */
  lemma DerivationIsUnique(order: seq<Bytes>, a: seq<Pair>, u: seq<Bytes>, b: seq<Pair>, v: seq<Bytes>)
    requires IsDerivation(order, a, u) && IsDerivation(order, b, v)
    ensures a == b && u == v
  {
    SameMerges(order, a, u, b, v, 0);
    forall t ensures t in u <==> t in v {
      if t in u {
        ReportedInBoth(order, a, u, v, t);
      }
      if t in v {
        ReportedInBoth(order, a, v, u, t);
      }
    }
    hide AllExplained;
    SameReports(order, u, v);
  }

  /** For every table of distinct keys: what is recovered explains the tokens in rank order, and is all that does. */
  lemma RecoveredExactly(table: RankTable, merges: seq<Pair>, unmerged: seq<Bytes>)
    requires Distinct(Tokens(table))
    ensures IsDerivation(Tokens(ByRank(table)), merges, unmerged)
            <==> Derive(Tokens(ByRank(table))) == Derived(merges, unmerged)
  {
    OrderOfTable(table);
    var order := Tokens(ByRank(table));
    hide IsDerivation, Derive, ByRank;
    DeriveIsDerivation(order);
    if IsDerivation(order, merges, unmerged) {
      DerivationIsUnique(order, merges, unmerged, Derive(order).merges, Derive(order).unmerged);
    }
  }
}
