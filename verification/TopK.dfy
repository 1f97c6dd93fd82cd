/** `select_topk`: a threshold found by sorting, two scans in position order, and a final sort give exactly the
    positions of rank below `index_topk`. Scores are totally ordered (no NaN). */
module TopK {
  import opened Collections
  import opened Sorting
  import opened Wrappers

  // ---- the per-query definition ------------------------------------------------------------------

  /** Position `u` comes before `t`: a larger score, or an equal score at an earlier position. */
  predicate Beats(scores: seq<real>, u: nat, t: nat)
    requires u < |scores| && t < |scores|
  {
    scores[u] > scores[t] || (scores[u] == scores[t] && u < t)
  }

  function Beaters(scores: seq<real>, t: nat): set<nat>
    requires t < |scores|
  {
    set u: nat | u < |scores| && Beats(scores, u, t)
  }

  function Rank(scores: seq<real>, t: nat): nat
    requires t < |scores|
  {
    |Beaters(scores, t)|
  }

  /** The positions below `n` where `f` holds, in ascending order. */
  function Where(n: nat, f: nat -> bool): seq<nat> {
    if n == 0 then [] else Where(n - 1, f) + (if f(n - 1) then [n - 1] else [])
  }

  function InTop(scores: seq<real>, k: nat): nat -> bool {
    (t: nat) => t < |scores| && Rank(scores, t) < k
  }

  /** The positions of the `k` first in the order by score descending, position ascending. */
  function Selected(scores: seq<real>, k: nat): seq<nat> {
    Where(|scores|, InTop(scores, k))
  }

  ghost predicate Rising(s: seq<nat>) {
    forall i, j :: 0 <= i < j < |s| ==> s[i] < s[j]
  }

  function Those(n: nat, f: nat -> bool): set<nat> {
    set t: nat | t < n && f(t)
  }

  lemma {:induction false} WhereMembers(n: nat, f: nat -> bool)
    ensures forall t: nat :: t in Where(n, f) <==> t < n && f(t)
  {
    if n > 0 {
      WhereMembers(n - 1, f);
      assert f(n - 1) ==> Where(n, f)[|Where(n, f)| - 1] == n - 1;
    }
  }

  lemma {:induction false} WhereRises(n: nat, f: nat -> bool)
    ensures Rising(Where(n, f))
  {
    if n > 0 {
      var w := Where(n - 1, f);
      WhereRises(n - 1, f);
      WhereMembers(n - 1, f);
      forall i | 0 <= i < |w| ensures w[i] < n - 1 {
        assert w[i] in w;
      }
    }
  }

  lemma {:induction false} WhereSize(n: nat, f: nat -> bool)
    ensures |Where(n, f)| == |Those(n, f)|
  {
    if n > 0 {
      WhereSize(n - 1, f);
      assert Those(n, f) == Those(n - 1, f) + (if f(n - 1) then {n - 1} else {});
    } else {
      assert Those(n, f) == {};
    }
  }

  lemma WhereContents(n: nat, f: nat -> bool)
    ensures Rising(Where(n, f))
    ensures forall t: nat :: t in Where(n, f) <==> t < n && f(t)
    ensures |Where(n, f)| == |Those(n, f)|
  {
    WhereMembers(n, f);
    WhereRises(n, f);
    WhereSize(n, f);
  }

  lemma Member(s: seq<nat>, i: nat)
    requires i < |s|
    ensures s[i] in s
  {
  }

  lemma LastOfRising(s: seq<nat>, n: nat)
    requires Rising(s) && n in s && forall t :: t in s ==> t <= n
    ensures s != [] && s[|s| - 1] == n && s == s[..|s| - 1] + [n]
  {
    var k :| 0 <= k < |s| && s[k] == n;
    if k + 1 < |s| {
      Member(s, k + 1);
      assert false;
    }
  }

  /** A rising sequence is determined by its contents. */
  lemma {:induction false} RisingIsWhere(s: seq<nat>, n: nat, f: nat -> bool)
    requires Rising(s) && forall t: nat :: t in s <==> t < n && f(t)
    ensures s == Where(n, f)
  {
    if n == 0 {
      if |s| > 0 {
        Member(s, 0);
        assert false;
      }
    } else if f(n - 1) {
      LastOfRising(s, n - 1);
      RisingFront(s);
      hide Rising;
      RisingIsWhere(s[..|s| - 1], n - 1, f);
    } else {
      hide Rising;
      RisingIsWhere(s, n - 1, f);
    }
  }

  lemma RisingFront(s: seq<nat>)
    requires Rising(s) && s != []
    ensures Rising(s[..|s| - 1])
    ensures forall t: nat :: t in s[..|s| - 1] <==> t in s && t < s[|s| - 1]
  {
  }

  /** A position is among the first `k` where `f` holds exactly when fewer than `k` such positions precede it. */
  lemma {:induction false} PrefixOfWhere(n: nat, f: nat -> bool, k: nat, t: nat)
    requires k <= |Where(n, f)|
    ensures t in Where(n, f)[..k] <==> t < n && f(t) && |Where(t, f)| < k
  {
    if n > 0 {
      var w := Where(n - 1, f);
      WhereNext(n, f);
      WhereMembers(n - 1, f);
      hide Where;
      if k <= |w| {
        PrefixOfWhere(n - 1, f, k, t);
      } else {
        assert Where(n, f)[..k] == Where(n, f);
        if t < n - 1 {
          WhereGrows(t, n - 1, f);
        }
      }
    } else {
      assert Where(n, f) == [];
    }
  }

  lemma WhereNext(n: nat, f: nat -> bool)
    requires n > 0
    ensures Where(n, f) == Where(n - 1, f) + if f(n - 1) then [n - 1] else []
    ensures forall k :: 0 <= k <= |Where(n - 1, f)| ==> Where(n, f)[..k] == Where(n - 1, f)[..k]
  {
  }

  lemma {:induction false} WhereGrows(m: nat, n: nat, f: nat -> bool)
    requires m <= n
    ensures |Where(m, f)| <= |Where(n, f)|
  {
    if m < n {
      WhereGrows(m, n - 1, f);
    }
  }

  // ---- ranks against a threshold -------------------------------------------------------------------

  function Above(scores: seq<real>, thr: real): nat -> bool {
    (t: nat) => t < |scores| && scores[t] > thr
  }

  function Level(scores: seq<real>, thr: real): nat -> bool {
    (t: nat) => t < |scores| && scores[t] == thr
  }

  /** Fewer than `keep` scores exceed the threshold, and at least `keep` reach it. */
  ghost predicate IsThreshold(scores: seq<real>, keep: nat, thr: real) {
    var n := |scores|;
    |Where(n, Above(scores, thr))| < keep <= |Where(n, Above(scores, thr))| + |Where(n, Level(scores, thr))|
  }

  lemma RankAbove(scores: seq<real>, keep: nat, thr: real, t: nat)
    requires IsThreshold(scores, keep, thr) && t < |scores| && scores[t] > thr
    ensures Rank(scores, t) < keep
  {
    WhereContents(|scores|, Above(scores, thr));
    SubsetSize(Beaters(scores, t), Those(|scores|, Above(scores, thr)));
  }

  lemma BeatersOfLevel(scores: seq<real>, thr: real, t: nat)
    requires t < |scores| && scores[t] == thr
    ensures Beaters(scores, t) == Those(|scores|, Above(scores, thr)) + Those(t, Level(scores, thr))
    ensures Those(|scores|, Above(scores, thr)) !! Those(t, Level(scores, thr))
  {
  }

  lemma RankLevel(scores: seq<real>, thr: real, t: nat)
    requires t < |scores| && scores[t] == thr
    ensures Rank(scores, t) == |Where(|scores|, Above(scores, thr))| + |Where(t, Level(scores, thr))|
  {
    hide Where, Those, Beaters;
    WhereSize(|scores|, Above(scores, thr));
    WhereSize(t, Level(scores, thr));
    BeatersOfLevel(scores, thr, t);
  }

  lemma RankBelow(scores: seq<real>, keep: nat, thr: real, t: nat)
    requires IsThreshold(scores, keep, thr) && t < |scores| && scores[t] < thr
    ensures Rank(scores, t) >= keep
  {
    WhereContents(|scores|, Above(scores, thr));
    WhereContents(|scores|, Level(scores, thr));
    var a, l := Those(|scores|, Above(scores, thr)), Those(|scores|, Level(scores, thr));
    assert a !! l;
    SubsetSize(a + l, Beaters(scores, t));
  }

  /** The positions the two scans push. */
  ghost predicate Pushed(scores: seq<real>, keep: nat, thr: real, sel: seq<nat>) {
    var n := |scores|;
    var above, level := Where(n, Above(scores, thr)), Where(n, Level(scores, thr));
    |above| <= keep <= |above| + |level| && sel == above + level[..keep - |above|]
  }

  /** The scans push exactly the positions of rank below `keep`. */
  lemma PushedAreTop(scores: seq<real>, keep: nat, thr: real, sel: seq<nat>, t: nat)
    requires IsThreshold(scores, keep, thr) && Pushed(scores, keep, thr, sel)
    ensures t in sel <==> t < |scores| && Rank(scores, t) < keep
  {
    var n := |scores|;
    WhereContents(n, Above(scores, thr));
    PrefixOfWhere(n, Level(scores, thr), keep - |Where(n, Above(scores, thr))|, t);
    if t < n {
      if scores[t] > thr {
        RankAbove(scores, keep, thr, t);
      } else if scores[t] == thr {
        RankLevel(scores, thr, t);
      } else {
        RankBelow(scores, keep, thr, t);
      }
    }
  }

  // ---- the threshold found by sorting -------------------------------------------------------------

  function Descending(): (real, real) -> bool {
    (a: real, b: real) => a >= b
  }

  /** How many elements exceed `thr`, or reach it when `orEqual`. */
  function Count(s: seq<real>, thr: real, orEqual: bool): nat {
    if s == [] then 0
    else Count(s[..|s| - 1], thr, orEqual) + (if s[|s| - 1] > thr || (orEqual && s[|s| - 1] == thr) then 1 else 0)
  }

  lemma {:induction false} CountConcat(s: seq<real>, t: seq<real>, thr: real, orEqual: bool)
    ensures Count(s + t, thr, orEqual) == Count(s, thr, orEqual) + Count(t, thr, orEqual)
  {
    if t == [] {
      assert s + t == s;
    } else {
      CountConcat(s, t[..|t| - 1], thr, orEqual);
      assert (s + t)[..|s + t| - 1] == s + t[..|t| - 1];
    }
  }

  lemma CountWithout(t: seq<real>, i: nat, thr: real, orEqual: bool)
    requires i < |t|
    ensures Count(t, thr, orEqual) == Count(t[..i] + t[i + 1..], thr, orEqual) + Count([t[i]], thr, orEqual)
  {
    CountConcat(t[..i], t[i + 1..], thr, orEqual);
    CountConcat(t[..i], [t[i]], thr, orEqual);
    CountConcat(t[..i] + [t[i]], t[i + 1..], thr, orEqual);
    assert (t[..i] + [t[i]]) + t[i + 1..] == t;
  }

  lemma TakeAway(t: seq<real>, x: real, thr: real, orEqual: bool) returns (r: seq<real>)
    requires x in multiset(t)
    ensures multiset(r) == multiset(t) - multiset{x} && |r| < |t|
    ensures Count(t, thr, orEqual) == Count(r, thr, orEqual) + Count([x], thr, orEqual)
  {
    var i :| 0 <= i < |t| && t[i] == x;
    RemoveOne(t, i);
    CountWithout(t, i, thr, orEqual);
    r := t[..i] + t[i + 1..];
  }

  lemma {:induction false} CountPermutes(s: seq<real>, t: seq<real>, thr: real, orEqual: bool)
    requires multiset(s) == multiset(t)
    ensures Count(s, thr, orEqual) == Count(t, thr, orEqual)
    decreases |s|
  {
    if s == [] {
      assert |multiset(t)| == 0;
    } else {
      hide Count;
      var x := s[0];
      assert x in multiset(s);
      var q := TakeAway(s, x, thr, orEqual);
      var r := TakeAway(t, x, thr, orEqual);
      CountPermutes(q, r, thr, orEqual);
    }
  }

  lemma {:induction false} CountWhere(scores: seq<real>, thr: real, n: nat)
    requires n <= |scores|
    ensures |Where(n, Above(scores, thr))| == Count(scores[..n], thr, false)
    ensures |Where(n, Above(scores, thr))| + |Where(n, Level(scores, thr))| == Count(scores[..n], thr, true)
  {
    if n > 0 {
      CountWhere(scores, thr, n - 1);
      assert scores[..n][..n - 1] == scores[..n - 1];
    }
  }

  lemma {:induction false} CountSorted(s: seq<real>, k: nat, thr: real)
    requires k <= |s|
    requires forall i :: 0 <= i < k ==> s[i] >= thr
    requires forall i :: k <= i < |s| ==> s[i] <= thr
    ensures Count(s, thr, false) <= k <= Count(s, thr, true)
    ensures k > 0 && s[k - 1] == thr ==> Count(s, thr, false) < k
    decreases |s|
  {
    if s != [] {
      var t := s[..|s| - 1];
      if k == |s| {
        CountSorted(t, k - 1, thr);
      } else {
        CountSorted(t, k, thr);
      }
    }
  }

  lemma AroundThreshold(s: seq<real>, keep: nat)
    requires 0 < keep <= |s| && SortedBy(s, Descending())
    ensures Count(s, s[keep - 1], false) < keep <= Count(s, s[keep - 1], true)
  {
    var thr := s[keep - 1];
    forall i | 0 <= i < |s| ensures i < keep ==> s[i] >= thr
                            ensures i >= keep ==> s[i] <= thr {
      assert i < keep - 1 ==> Descending()(s[i], s[keep - 1]);
      assert i >= keep ==> Descending()(s[keep - 1], s[i]);
    }
    CountSorted(s, keep, thr);
  }

  /** The `keep`-th largest value of a descending copy is a threshold. */
  lemma SortGivesThreshold(scores: seq<real>, keep: nat)
    requires 0 < keep <= |scores|
    ensures |Sort(scores, Descending())| == |scores|
    ensures IsThreshold(scores, keep, Sort(scores, Descending())[keep - 1])
  {
    var s := Sort(scores, Descending());
    SortPermutes(scores, Descending());
    SortSorted(scores, Descending());
    hide Sort, SortedBy, Count, Where;
    AroundThreshold(s, keep);
    var thr := s[keep - 1];
    CountPermutes(s, scores, thr, false);
    CountPermutes(s, scores, thr, true);
    assert scores[..|scores|] == scores;
    CountWhere(scores, thr, |scores|);
  }

  // ---- the final sort -------------------------------------------------------------------------------

  function Increasing(): (nat, nat) -> bool {
    (a: nat, b: nat) => a <= b
  }

  lemma {:induction false} DistinctOnce(s: seq<nat>, x: nat)
    requires forall i, j :: 0 <= i < j < |s| ==> s[i] != s[j]
    ensures multiset(s)[x] <= 1
  {
    if s != [] {
      assert s == [s[0]] + s[1..];
      DistinctOnce(s[1..], x);
      if x == s[0] {
        assert x !in s[1..];
      }
    }
  }

  /** Sorting a sequence without repetition makes it rising, with the same contents. */
  lemma SortRises(s: seq<nat>)
    requires forall i, j :: 0 <= i < j < |s| ==> s[i] != s[j]
    ensures Rising(Sort(s, Increasing())) && |Sort(s, Increasing())| == |s|
    ensures forall t :: t in Sort(s, Increasing()) <==> t in s
  {
    var r := Sort(s, Increasing());
    SortPermutes(s, Increasing());
    SortSorted(s, Increasing());
    forall i, j | 0 <= i < j < |r| ensures r[i] < r[j] {
      assert Increasing()(r[i], r[j]);
      if r[i] == r[j] {
        TwiceCountsTwo(r, i, j);
        DistinctOnce(s, r[i]);
        assert false;
      }
    }
    forall t ensures t in r <==> t in s {
      assert t in r <==> t in multiset(r);
      assert t in s <==> t in multiset(s);
    }
  }

  lemma PushedSorted(scores: seq<real>, keep: nat, thr: real, sel: seq<nat>)
    requires IsThreshold(scores, keep, thr) && Pushed(scores, keep, thr, sel)
    ensures Sort(sel, Increasing()) == Selected(scores, keep) && |Selected(scores, keep)| == keep
  {
    var n := |scores|;
    WhereContents(n, Above(scores, thr));
    WhereContents(n, Level(scores, thr));
    PushedDistinct(scores, keep, thr, sel);
    SortRises(sel);
    forall t: nat ensures t in Sort(sel, Increasing()) <==> t < n && InTop(scores, keep)(t) {
      PushedAreTop(scores, keep, thr, sel, t);
    }
    RisingIsWhere(Sort(sel, Increasing()), n, InTop(scores, keep));
  }

  lemma PushedDistinct(scores: seq<real>, keep: nat, thr: real, sel: seq<nat>)
    requires Pushed(scores, keep, thr, sel)
    ensures forall i, j :: 0 <= i < j < |sel| ==> sel[i] != sel[j]
  {
    var n := |scores|;
    WhereContents(n, Above(scores, thr));
    WhereContents(n, Level(scores, thr));
    var above, level := Where(n, Above(scores, thr)), Where(n, Level(scores, thr));
    forall i, j | 0 <= i < j < |sel| ensures sel[i] != sel[j] {
      if i < |above| <= j {
        assert sel[i] in above && sel[j] == level[j - |above|] && sel[j] in level;
        assert Above(scores, thr)(sel[i]) && Level(scores, thr)(sel[j]);
      }
    }
  }

  // ---- the implementation ---------------------------------------------------------------------------

  lemma DenseIsAll(scores: seq<real>, k: nat, all: seq<nat>)
    requires |scores| <= k && |all| == |scores| && forall t :: 0 <= t < |scores| ==> all[t] == t
    ensures all == Selected(scores, k)
  {
    forall t: nat ensures t in all <==> t < |scores| && InTop(scores, k)(t) {
      if t < |scores| {
        assert all[t] == t;
        EveryPosition(|scores|);
        SubsetSize(Beaters(scores, t), Those(|scores|, Every()) - {t});
      }
    }
    RisingIsWhere(all, |scores|, InTop(scores, k));
  }

  function Every(): nat -> bool {
    (t: nat) => true
  }

  lemma {:induction false} EveryPosition(n: nat)
    ensures |Those(n, Every())| == n
  {
    if n > 0 {
      EveryPosition(n - 1);
      assert Those(n, Every()) == Those(n - 1, Every()) + {n - 1};
    } else {
      assert Those(n, Every()) == {};
    }
  }

  /** The first scan: strictly greater than the threshold, stopping once `keep` are chosen. */
  method ScanAbove(scores: seq<real>, keep: nat, thr: real) returns (sel: seq<nat>)
    requires IsThreshold(scores, keep, thr)
    ensures sel == Where(|scores|, Above(scores, thr))
  {
    sel := [];
    var t := 0;
    while t < |scores|
      invariant 0 <= t <= |scores| && sel == Where(t, Above(scores, thr))
    {
      WhereGrows(t, |scores|, Above(scores, thr));
      if |sel| >= keep {
        break;
      }
      if scores[t] > thr {
        sel := sel + [t];
      }
      t := t + 1;
    }
  }

  /** The second scan: equal to the threshold, until `keep` are chosen. */
  method ScanLevel(scores: seq<real>, keep: nat, thr: real, above: seq<nat>) returns (sel: seq<nat>)
    requires IsThreshold(scores, keep, thr) && above == Where(|scores|, Above(scores, thr))
    ensures Pushed(scores, keep, thr, sel)
  {
    var f := Level(scores, thr);
    sel := above;
    var t := 0;
    while t < |scores|
      invariant 0 <= t <= |scores| && sel == above + Where(t, f) && |sel| <= keep
    {
      if |sel| >= keep {
        break;
      }
      if scores[t] == thr {
        sel := sel + [t];
      }
      t := t + 1;
    }
    WherePrefix(t, |scores|, f);
    assert Where(|scores|, f)[..|Where(t, f)|] == Where(t, f);
  }

  lemma {:induction false} WherePrefix(m: nat, n: nat, f: nat -> bool)
    requires m <= n
    ensures Where(m, f) <= Where(n, f)
  {
    if m < n {
      WherePrefix(m, n - 1, f);
    }
  }

  /** `None` is the panic of `sorted[keep - 1]` when `index_topk` is zero and there is a key. */
  method SelectTopK(scores: seq<real>, indexTopK: nat) returns (r: Option<seq<nat>>)
    ensures r == if scores != [] && indexTopK == 0 then None else Some(Selected(scores, indexTopK))
  {
    var nk := |scores|;
    if nk == 0 {
      return Some([]);
    }
    var keep := if nk < indexTopK then nk else indexTopK;
    if keep == nk {
      var all := seq(nk, i requires 0 <= i < nk => i);
      DenseIsAll(scores, indexTopK, all);
      return Some(all);
    }
    if keep == 0 {
      return None;
    }
    SortGivesThreshold(scores, keep);
    var thr := Sort(scores, Descending())[keep - 1];
    var above := ScanAbove(scores, keep, thr);
    var sel := ScanLevel(scores, keep, thr, above);
    PushedSorted(scores, keep, thr, sel);
    r := Some(Sort(sel, Increasing()));
  }

  // ---- what the selection is -------------------------------------------------------------------------

  /** Exactly `min(nk, k)` strictly ascending positions; every one comes before every position left out. */
  lemma SelectedIsTopK(scores: seq<real>, k: nat)
    ensures Rising(Selected(scores, k))
    ensures |Selected(scores, k)| == if |scores| < k then |scores| else k
    ensures Leads(scores, Elems(Selected(scores, k)))
  {
    WhereContents(|scores|, InTop(scores, k));
    if |scores| <= k {
      var all: seq<nat> := seq(|scores|, i requires 0 <= i < |scores| => i);
      DenseIsAll(scores, k, all);
    } else if k > 0 {
      SortGivesThreshold(scores, k);
      var thr := Sort(scores, Descending())[k - 1];
      var above, level := Where(|scores|, Above(scores, thr)), Where(|scores|, Level(scores, thr));
      PushedSorted(scores, k, thr, above + level[..k - |above|]);
    } else {
      assert forall t: nat :: !InTop(scores, 0)(t);
      RisingIsWhere([], |scores|, InTop(scores, 0));
    }
    SelectedLeads(scores, k);
  }

  lemma SelectedLeads(scores: seq<real>, k: nat)
    ensures Leads(scores, Elems(Selected(scores, k)))
  {
    WhereMembers(|scores|, InTop(scores, k));
    hide Where, Beats, Beaters;
    forall s, t: nat | s in Selected(scores, k) && t < |scores| && t !in Selected(scores, k)
      ensures Beats(scores, s, t)
    {
      assert InTop(scores, k)(s) && !InTop(scores, k)(t);
      if !Beats(scores, s, t) {
        AtLeastAsBeaten(scores, s, t);
        assert false;
      }
    }
  }

  lemma AtLeastAsBeaten(scores: seq<real>, s: nat, t: nat)
    requires s < |scores| && t < |scores| && !Beats(scores, s, t)
    ensures Rank(scores, t) <= Rank(scores, s)
  {
    SubsetSize(Beaters(scores, t), Beaters(scores, s));
  }

  lemma {:induction false} RisingSize(s: seq<nat>)
    requires Rising(s)
    ensures |Elems(s)| == |s|
  {
    if s != [] {
      var r, a := s[..|s| - 1], s[|s| - 1];
      RisingFront(s);
      RisingSize(r);
      hide Rising;
      assert s == r + [a];
      assert Elems(s) == Elems(r) + {a} && a !in r;
    }
  }

  /** `chosen` is a set of positions that beats every position outside it. */
  ghost predicate Leads(scores: seq<real>, chosen: set<nat>) {
    && (forall s :: s in chosen ==> s < |scores|)
    && forall s, u: nat :: s in chosen && u < |scores| && u !in chosen ==> Beats(scores, s, u)
  }

  lemma LeaderRank(scores: seq<real>, chosen: set<nat>, t: nat)
    requires Leads(scores, chosen) && t < |scores|
    ensures Rank(scores, t) < |chosen| <==> t in chosen
  {
    if t in chosen {
      forall u | u in Beaters(scores, t) ensures u in chosen - {t} {
        assert u !in chosen ==> Beats(scores, t, u);
      }
      SubsetSize(Beaters(scores, t), chosen - {t});
    } else {
      SubsetSize(chosen, Beaters(scores, t));
    }
  }

  lemma LeaderCount(scores: seq<real>, chosen: set<nat>, t: nat)
    requires Leads(scores, chosen) && |chosen| == |scores| && t < |scores|
    ensures t in chosen
  {
    if t !in chosen {
      EveryPosition(|scores|);
      SubsetSize(chosen + {t}, Those(|scores|, Every()));
      assert false;
    }
  }

  /** Any rising list that beats every position it leaves out, of the right length, is the selection. */
  lemma TopKIsUnique(scores: seq<real>, k: nat, sel: seq<nat>)
    requires Rising(sel) && |sel| == (if |scores| < k then |scores| else k)
    requires Leads(scores, Elems(sel))
    ensures sel == Selected(scores, k)
  {
    RisingSize(sel);
    hide Leads, Rank;
    forall t: nat ensures t in sel <==> t < |scores| && InTop(scores, k)(t) {
      assert t in sel <==> t in Elems(sel);
      if t < |scores| {
        LeaderRank(scores, Elems(sel), t);
        if |scores| < k {
          LeaderCount(scores, Elems(sel), t);
        }
      } else if t in sel {
        OnlyPositions(scores, Elems(sel), t);
      }
    }
    RisingIsWhere(sel, |scores|, InTop(scores, k));
  }

  lemma OnlyPositions(scores: seq<real>, chosen: set<nat>, t: nat)
    requires Leads(scores, chosen) && t in chosen
    ensures t < |scores|
  {
  }
}
