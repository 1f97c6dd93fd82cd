/** Recovering an ordered merge list from a rank table (`derive_merges`), checking it (`verify`),
    and what the two promise: replay inverts byte-pair-encoding training. */
module MergeRecovery {
  import opened Bpe
  import opened Collections
  import opened Sorting

  /** The rank table as the script's dict holds it: entries in insertion order, keys distinct. */
  type RankTable = seq<(Bytes, int)>

  datatype Derived = Derived(merges: seq<Pair>, unmerged: seq<Bytes>)

  function Tokens(table: RankTable): (tokens: seq<Bytes>) {
    seq(|table|, i requires 0 <= i < |table| => table[i].0)
  }

  function ByRank(table: RankTable): RankTable {
    Sort(table, (x: (Bytes, int), y: (Bytes, int)) => x.1 <= y.1)
  }

  function Token(p: Pair): Bytes {
    p.0 + p.1
  }

  /** The dict that ranks each pair by its place in the list; a repeated pair keeps its last place. */
  function Ranks(merges: seq<Pair>): (mrank: MergeRanks)
    ensures forall p :: p in mrank <==> p in merges
    ensures forall p :: p in mrank ==> mrank[p] < |merges| && merges[mrank[p]] == p
  {
    if merges == [] then map[]
    else
      var n := |merges| - 1;
      assert merges == merges[..n] + [merges[n]];
      Ranks(merges[..n])[merges[n] := n]
  }

  function DeriveStep(d: Derived, token: Bytes): Derived {
    if |token| < 2 then d
    else
      var parts := Encode(token, Ranks(d.merges));
      if |parts| == 2 then d.(merges := d.merges + [(parts[0], parts[1])])
      else d.(unmerged := d.unmerged + [token])
  }

  function Derive(order: seq<Bytes>): Derived {
    if order == [] then Derived([], [])
    else DeriveStep(Derive(order[..|order| - 1]), order[|order| - 1])
  }

  lemma DeriveNext(order: seq<Bytes>, i: nat)
    requires i < |order|
    ensures Derive(order[..i + 1]) == DeriveStep(Derive(order[..i]), order[i])
  {
    assert order[..i + 1][..i] == order[..i];
    hide DeriveStep;
  }

  lemma RanksNext(merges: seq<Pair>, p: Pair)
    ensures Ranks(merges + [p]) == Ranks(merges)[p := |merges|]
  {
    assert (merges + [p])[..|merges|] == merges;
  }

  method DeriveMerges(table: RankTable) returns (merges: seq<Pair>, unmerged: seq<Bytes>)
    ensures Derived(merges, unmerged) == Derive(Tokens(ByRank(table)))
  {
    merges, unmerged := [], [];
    var mrank: MergeRanks := map[];
    var sorted := ByRank(table);
    ghost var order := Tokens(sorted);
    assert order[..0] == [] && order[..|order|] == order;
    hide Derive, Ranks, Encode;
    DeriveNothing();
    for i := 0 to |sorted|
      invariant Derived(merges, unmerged) == Derive(order[..i])
      invariant mrank == Ranks(merges)
    {
      var token := sorted[i].0;
      DeriveNext(order, i);
      if |token| < 2 {
        continue;
      }
      var parts := EncodeLoop(token, mrank);
      if |parts| == 2 {
        RanksNext(merges, (parts[0], parts[1]));
        merges := merges + [(parts[0], parts[1])];
        mrank := mrank[(parts[0], parts[1]) := |merges| - 1];
      } else {
        unmerged := unmerged + [token];
      }
    }
  }

  lemma DeriveNothing()
    ensures Derive([]) == Derived([], []) && Ranks([]) == map[]
  {
  }

  predicate RoundTrips(token: Bytes, mrank: MergeRanks) {
    Encode(token, mrank) == [token]
  }

  /** What `verify` reports: every multi-byte token whose own bytes do not collapse to it. */
  function Rejected(tokens: seq<Bytes>, mrank: MergeRanks): (bad: seq<(Bytes, seq<Bytes>)>) {
    if tokens == [] then []
    else
      var n := |tokens| - 1;
      var t := tokens[n];
      Rejected(tokens[..n], mrank) + if |t| < 2 || RoundTrips(t, mrank) then [] else [(t, Encode(t, mrank))]
  }

  lemma RejectedNext(tokens: seq<Bytes>, mrank: MergeRanks, i: nat, parts: seq<Bytes>)
    requires i < |tokens| && parts == Encode(tokens[i], mrank)
    ensures Rejected(tokens[..i + 1], mrank) == Rejected(tokens[..i], mrank)
      + if |tokens[i]| >= 2 && (|parts| != 1 || parts[0] != tokens[i]) then [(tokens[i], parts)] else []
  {
    assert tokens[..i + 1][..i] == tokens[..i];
    hide Encode;
  }

  method Verify(table: RankTable, merges: seq<Pair>) returns (bad: seq<(Bytes, seq<Bytes>)>)
    ensures bad == Rejected(Tokens(table), Ranks(merges))
  {
    bad := [];
    var mrank := Ranks(merges);
    ghost var tokens := Tokens(table);
    assert tokens[..|tokens|] == tokens;
    hide Rejected, Encode, Ranks;
    RejectedNone(mrank);
    for i := 0 to |table|
      invariant bad == Rejected(tokens[..i], mrank)
    {
      var token := table[i].0;
      RejectedNext(tokens, mrank, i, Encode(token, mrank));
      if |token| < 2 {
        continue;
      }
      var parts := EncodeLoop(token, mrank);
      if |parts| != 1 || parts[0] != token {
        bad := bad + [(token, parts)];
      }
    }
  }

  lemma RejectedNone(mrank: MergeRanks)
    ensures Rejected([], mrank) == []
  {
  }

  // ---- the replay invariant --------------------------------------------------

  /** Each merge is what its own token splits into under the merges before it. */
  ghost predicate Replayed(merges: seq<Pair>) {
    forall i :: 0 <= i < |merges| ==> ReplayedAt(merges, i)
  }

  ghost predicate ReplayedAt(merges: seq<Pair>, i: nat)
    requires i < |merges|
  {
    Encode(Token(merges[i]), Ranks(merges[..i])) == [merges[i].0, merges[i].1]
  }

  lemma {:induction false} EncodeKeeps(token: Bytes, mrank: MergeRanks)
    ensures Join(Encode(token, mrank)) == token
    ensures NonEmptyPieces(Encode(token, mrank))
    ensures Stuck(Encode(token, mrank), mrank)
  {
    RunKeeps(Singletons(token), mrank);
    JoinSingletons(token);
  }

  lemma SplitInTwo(token: Bytes, mrank: MergeRanks)
    requires |Encode(token, mrank)| == 2
    ensures var p := (Encode(token, mrank)[0], Encode(token, mrank)[1]);
            && Token(p) == token && p.0 != [] && p.1 != [] && p !in mrank
  {
    EncodeKeeps(token, mrank);
    var parts := Encode(token, mrank);
    assert parts == [parts[0], parts[1]];
    JoinPair(parts[0], parts[1]);
    assert PairAt(parts, 0) !in mrank;
  }

  /** Replayed lists never record a pair twice, so ranks below `k` mean the same under any longer list. */
  lemma {:induction false} ReplayedExtends(merges: seq<Pair>, k: nat)
    requires Replayed(merges) && k <= |merges|
    ensures Extends(Ranks(merges[..k]), Ranks(merges), k)
    ensures Distinct(merges)
    decreases |merges| - k
  {
    ReplayedDistinct(merges);
    var m, r := Ranks(merges[..k]), Ranks(merges);
    forall p | p in m ensures m[p] < k && p in r && r[p] == m[p] {
      assert merges[m[p]] == p && merges[r[p]] == p;
    }
    forall p | p in r && r[p] < k ensures p in m {
      assert merges[..k][r[p]] == p;
    }
  }

  lemma ReplayedDistinct(merges: seq<Pair>)
    requires Replayed(merges)
    ensures Distinct(merges)
  {
    forall i, j | 0 <= i < j < |merges| ensures merges[i] != merges[j] {
      assert ReplayedAt(merges, j);
      SplitInTwo(Token(merges[j]), Ranks(merges[..j]));
      assert merges[j] !in merges[..j];
      assert merges[i] == merges[..j][i];
    }
  }

  /** Every token that has a merge collapses to itself under the whole list: lower ranks run in
      lockstep with the run that found the merge, then the merge itself fires. */
  lemma MergedTokenRoundTrips(merges: seq<Pair>, i: nat)
    requires Replayed(merges) && i < |merges|
    ensures RoundTrips(Token(merges[i]), Ranks(merges))
  {
    var t, m, r := Token(merges[i]), Ranks(merges[..i]), Ranks(merges);
    assert ReplayedAt(merges, i);
    ReplayedExtends(merges, i);
    RunUnderExtension(Singletons(t), m, r, i);
    var two := [merges[i].0, merges[i].1];
    assert PairAt(two, 0) == merges[i] && merges[i] in r;
    assert BestPair(two, r) == 0;
    assert MergeAt(two, 0) == [t];
    assert Run([t], r) == [t];
  }

  /** Conversely nothing multi-byte collapses to one piece unless some merge makes exactly it. */
  lemma RoundTripNeedsItsMerge(token: Bytes, merges: seq<Pair>) returns (i: nat)
    requires |token| >= 2 && |Encode(token, Ranks(merges))| == 1
    ensures i < |merges| && Token(merges[i]) == token
  {
    var p := LastMerge(Singletons(token), Ranks(merges));
    EncodeKeeps(token, Ranks(merges));
    assert [Token(p)][1..] == [] && Join([Token(p)]) == Token(p) + Join([Token(p)][1..]);
    i := Ranks(merges)[p];
  }

  // ---- what derive_merges builds ---------------------------------------------

  /** A token of the table is either merged exactly once, or reported unmergeable. */
  ghost predicate Accounts(d: Derived, order: seq<Bytes>) {
    && Replayed(d.merges)
    && (forall i :: 0 <= i < |d.merges| ==> Token(d.merges[i]) in order)
    && (forall t :: t in d.unmerged ==> t in order && |t| >= 2)
    && (forall t :: t in order && |t| >= 2 ==> (t in d.unmerged <==> !HasMerge(d.merges, t)))
  }

  ghost predicate HasMerge(merges: seq<Pair>, token: Bytes) {
    exists i :: 0 <= i < |merges| && Token(merges[i]) == token
  }

  lemma {:induction false} DeriveAccounts(order: seq<Bytes>)
    requires Distinct(order)
    ensures Accounts(Derive(order), order)
  {
    if order != [] {
      var n := |order| - 1;
      var before, t := order[..n], order[n];
      DeriveAccounts(before);
      assert order == before + [t] && t !in before;
      var d := Derive(before);
      DeriveStepAccounts(d, before, t);
    }
  }

  lemma ReplayedSnoc(merges: seq<Pair>, p: Pair)
    requires Replayed(merges) && Encode(Token(p), Ranks(merges)) == [p.0, p.1]
    ensures Replayed(merges + [p])
  {
    hide Encode, Ranks;
    var longer := merges + [p];
    forall i | 0 <= i < |longer| ensures ReplayedAt(longer, i) {
      assert longer[..i] == merges[..i];
      if i < |merges| {
        assert ReplayedAt(merges, i);
      } else {
        assert merges[..i] == merges;
      }
    }
  }

  /** The token splits in two: its merge is recorded. */
  lemma RecordedAccounts(d: Derived, before: seq<Bytes>, t: Bytes, p: Pair)
    requires Accounts(d, before) && t !in before && |t| >= 2 && Token(p) == t && Replayed(d.merges + [p])
    ensures Accounts(d.(merges := d.merges + [p]), before + [t])
  {
    hide Replayed, Token, HasMerge;
    var d', order := d.(merges := d.merges + [p]), before + [t];
    forall u | u in order && |u| >= 2 ensures u in d'.unmerged <==> !HasMerge(d'.merges, u) {
      if u in before {
        MergeOfOther(d.merges, p, u);
      } else {
        MergeOfOwn(d.merges, p);
      }
    }
  }

  lemma MergeOfOwn(merges: seq<Pair>, p: Pair)
    ensures HasMerge(merges + [p], Token(p))
  {
    assert (merges + [p])[|merges|] == p;
  }

  /** It does not: the token is reported. */
  lemma ReportedAccounts(d: Derived, before: seq<Bytes>, t: Bytes)
    requires Accounts(d, before) && t !in before && |t| >= 2
    ensures Accounts(d.(unmerged := d.unmerged + [t]), before + [t])
  {
    hide Replayed, Token;
    assert !HasMerge(d.merges, t);
    hide HasMerge;
  }

  lemma ShortAccounts(d: Derived, before: seq<Bytes>, t: Bytes)
    requires Accounts(d, before) && |t| < 2
    ensures Accounts(d, before + [t])
  {
    hide Replayed, Token, HasMerge;
  }

  lemma DeriveStepAccounts(d: Derived, before: seq<Bytes>, t: Bytes)
    requires Accounts(d, before) && t !in before
    ensures Accounts(DeriveStep(d, t), before + [t])
  {
    assert Replayed(d.merges);
    hide Accounts, Replayed, Encode, Ranks;
    if |t| < 2 {
      ShortAccounts(d, before, t);
    } else {
      var parts := Encode(t, Ranks(d.merges));
      if |parts| == 2 {
        var p := (parts[0], parts[1]);
        SplitInTwo(t, Ranks(d.merges));
        assert parts == [p.0, p.1];
        ReplayedSnoc(d.merges, p);
        RecordedAccounts(d, before, t, p);
      } else {
        ReportedAccounts(d, before, t);
      }
    }
  }

  lemma MergeOfOther(merges: seq<Pair>, p: Pair, u: Bytes)
    requires Token(p) != u
    ensures HasMerge(merges + [p], u) <==> HasMerge(merges, u)
  {
    if HasMerge(merges, u) {
      var i :| 0 <= i < |merges| && Token(merges[i]) == u;
      assert (merges + [p])[i] == merges[i];
    }
  }

  /** No multi-byte token is already one piece when its turn comes: the case the script's comment
      calls "already reachable" cannot occur. */
  lemma NeverAlreadyOnePiece(order: seq<Bytes>, n: nat)
    requires Distinct(order) && n < |order| && |order[n]| >= 2
    ensures |Encode(order[n], Ranks(Derive(order[..n]).merges))| >= 2
  {
    var before, t := order[..n], order[n];
    DeriveAccounts(before);
    var merges := Derive(before).merges;
    EncodeKeeps(t, Ranks(merges));
    var parts := Encode(t, Ranks(merges));
    if |parts| == 1 {
      var i := RoundTripNeedsItsMerge(t, merges);
      assert false;
    }
  }

  // ---- verify rejects exactly the unmerged tokens -----------------------------

  lemma {:induction false} RejectedContents(tokens: seq<Bytes>, mrank: MergeRanks, t: Bytes, parts: seq<Bytes>)
    ensures (t, parts) in Rejected(tokens, mrank)
       <==> t in tokens && |t| >= 2 && !RoundTrips(t, mrank) && parts == Encode(t, mrank)
  {
    if tokens != [] {
      var n := |tokens| - 1;
      assert tokens == tokens[..n] + [tokens[n]];
      RejectedContents(tokens[..n], mrank, t, parts);
    }
  }

  lemma OrderOfTable(table: RankTable)
    requires Distinct(Tokens(table))
    ensures Distinct(Tokens(ByRank(table)))
    ensures forall t :: t in Tokens(ByRank(table)) <==> t in Tokens(table)
    ensures forall i, j :: 0 <= i < j < |table| ==>
            |ByRank(table)| == |table| && ByRank(table)[i].1 <= ByRank(table)[j].1
  {
    var le := (x: (Bytes, int), y: (Bytes, int)) => x.1 <= y.1;
    SortPermutes(table, le);
    SortSorted(table, le);
    var s := ByRank(table);
    PermutedKeys(table, s);
    PermutedKeys(s, table);
    DistinctKeysPermute(table, s);
  }

  lemma PermutedKeys(a: RankTable, b: RankTable)
    requires multiset(a) == multiset(b)
    ensures forall t :: t in Tokens(a) ==> t in Tokens(b)
  {
    forall t | t in Tokens(a) ensures t in Tokens(b) {
      var i :| 0 <= i < |a| && a[i].0 == t;
      assert a[i] in multiset(b);
      var j :| 0 <= j < |b| && b[j] == a[i];
      assert Tokens(b)[j] == t;
    }
  }

  lemma TwoOf(b: RankTable, i: nat, j: nat)
    requires i < j < |b|
    ensures multiset{b[i], b[j]} <= multiset(b)
  {
    assert b == b[..i] + [b[i]] + b[i + 1..j] + [b[j]] + b[j + 1..];
  }

  lemma DistinctKeysPermute(a: RankTable, b: RankTable)
    requires multiset(a) == multiset(b) && Distinct(Tokens(a))
    ensures Distinct(Tokens(b))
  {
    forall i, j | 0 <= i < j < |b| ensures Tokens(b)[i] != Tokens(b)[j] {
      if b[i].0 == b[j].0 {
        TwoOf(b, i, j);
        TwoPlaces(a, b[i], b[j]);
        assert false;
      }
    }
  }

  lemma TakeOut(a: RankTable, x: (Bytes, int)) returns (i: nat, rest: RankTable)
    requires x in multiset(a)
    ensures i < |a| && a[i] == x && rest == a[..i] + a[i + 1..]
    ensures multiset(rest) == multiset(a) - multiset{x}
  {
    i :| 0 <= i < |a| && a[i] == x;
    rest := a[..i] + a[i + 1..];
    assert a == a[..i] + [x] + a[i + 1..];
  }

  lemma TwoPlaces(a: RankTable, x: (Bytes, int), y: (Bytes, int))
    requires multiset{x, y} <= multiset(a) && x.0 == y.0
    ensures !Distinct(Tokens(a))
  {
    var i, rest := TakeOut(a, x);
    assert multiset{x, y} - multiset{x} == multiset{y};
    assert y in multiset(rest);
    var j :| 0 <= j < |rest| && rest[j] == y;
    SamePlace(a, i, if j < i then j else j + 1);
  }

  lemma SamePlace(a: RankTable, i: nat, j: nat)
    requires i < |a| && j < |a| && i != j && a[i].0 == a[j].0
    ensures !Distinct(Tokens(a))
  {
    assert Tokens(a)[i] == Tokens(a)[j];
  }

  /** The tokens `verify` rejects are exactly those `derive_merges` reported as unmergeable. */
  lemma VerifyRejectsExactlyUnmerged(table: RankTable, t: Bytes)
    requires Distinct(Tokens(table))
    ensures var d := Derive(Tokens(ByRank(table)));
            (exists parts :: (t, parts) in Rejected(Tokens(table), Ranks(d.merges))) <==> t in d.unmerged
  {
    var order := Tokens(ByRank(table));
    var d := Derive(order);
    OrderOfTable(table);
    DeriveAccounts(order);
    var r := Ranks(d.merges);
    RejectedContents(Tokens(table), r, t, Encode(t, r));
    forall parts ensures (t, parts) in Rejected(Tokens(table), r) ==> parts == Encode(t, r) {
      RejectedContents(Tokens(table), r, t, parts);
    }
    if t in order && |t| >= 2 {
      if RoundTrips(t, r) {
        var i := RoundTripNeedsItsMerge(t, d.merges);
        assert HasMerge(d.merges, t);
      } else if HasMerge(d.merges, t) {
        var i :| 0 <= i < |d.merges| && Token(d.merges[i]) == t;
        MergedTokenRoundTrips(d.merges, i);
      }
    }
  }
}
