/** The expert cache of the prefetch analysis: an ordered dictionary used as an LRU list, replayed over a
    routing log. Its contents are characterised by stack distance, which gives the inclusion property. */
module Lru {
  import opened Collections

  /** One cached expert of one layer. */
  datatype Item = Item(layer: int, expert: int)

  // ---- recency, without a cache ----------------------------------------------------------------

  /** The items touched since the last touch of `x`: those at positions from which on `x` does not occur. */
  function Since(trace: seq<Item>, x: Item): set<Item> {
    set i | 0 <= i < |trace| && x !in trace[i..] :: trace[i]
  }

  /** `x` was touched, and fewer than `capacity` other items have been touched since. */
  predicate WithinReach(trace: seq<Item>, capacity: int, x: Item) {
    x in trace && |Since(trace, x)| < capacity
  }

  lemma SinceSnoc(trace: seq<Item>, y: Item, x: Item)
    ensures Since(trace + [y], x) == if x == y then {} else Since(trace, x) + {y}
  {
    var t := trace + [y];
    forall i | 0 <= i < |t| ensures x in t[i..] <==> x == y || (i < |trace| && x in trace[i..]) {
      if i < |trace| {
        assert t[i..] == trace[i..] + [y];
      }
    }
    forall z ensures z in Since(t, x) <==> z in (if x == y then {} else Since(trace, x) + {y}) {
      if x != y && z == y {
        assert t[|trace|] == y && x !in t[|trace|..];
      }
      if x != y && z in Since(trace, x) {
        var i :| 0 <= i < |trace| && x !in trace[i..] && trace[i] == z;
        assert t[i] == z && x !in t[i..];
      }
    }
  }

  // ---- the recency list --------------------------------------------------------------------------

  /** `s` without the occurrences of `x`. */
  function Without(s: seq<Item>, x: Item): seq<Item> {
    if s == [] then []
    else
      var r := Without(s[..|s| - 1], x);
      if s[|s| - 1] == x then r else r + [s[|s| - 1]]
  }

  /** The distinct items of a trace, least recently touched first. */
  function Recent(trace: seq<Item>): seq<Item> {
    if trace == [] then []
    else Without(Recent(trace[..|trace| - 1]), trace[|trace| - 1]) + [trace[|trace| - 1]]
  }

  /** The last `c` elements of `s`, all of it when it is shorter, none for a capacity of zero or less. */
  function Last(s: seq<Item>, c: int): seq<Item> {
    if c <= 0 then [] else if |s| <= c then s else s[|s| - c..]
  }

  lemma DistinctSnoc(s: seq<Item>, a: Item)
    ensures Distinct(s + [a]) <==> Distinct(s) && a !in s
  {
    var t := s + [a];
    assert t[|s|] == a;
    if Distinct(t) {
      forall i, j | 0 <= i < j < |s| ensures s[i] != s[j] {
        assert t[i] != t[j];
      }
      forall i | 0 <= i < |s| ensures s[i] != a {
        assert t[i] != t[|s|];
      }
    }
  }

  lemma WithoutSnoc(t: seq<Item>, a: Item, x: Item)
    ensures Without(t + [a], x) == if a == x then Without(t, x) else Without(t, x) + [a]
  {
    assert (t + [a])[..|t|] == t;
  }

  lemma {:induction false} WithoutContents(s: seq<Item>, x: Item)
    ensures forall y :: y in Without(s, x) <==> y in s && y != x
    ensures Distinct(s) ==> Distinct(Without(s, x))
    ensures x !in s ==> Without(s, x) == s
    ensures Distinct(s) && x in s ==> |Without(s, x)| == |s| - 1
  {
    if s != [] {
      var t, a := s[..|s| - 1], s[|s| - 1];
      WithoutContents(t, x);
      assert s == t + [a];
      WithoutSnoc(t, a, x);
      DistinctSnoc(t, a);
      DistinctSnoc(Without(t, x), a);
      hide Without, Distinct;
    }
  }

  lemma {:induction false} WithoutConcat(s: seq<Item>, t: seq<Item>, x: Item)
    ensures Without(s + t, x) == Without(s, x) + Without(t, x)
  {
    if t == [] {
      assert s + t == s;
    } else {
      WithoutConcat(s, t[..|t| - 1], x);
      assert (s + t)[..|s + t| - 1] == s + t[..|t| - 1];
    }
  }

  /** Taking `y` out of a list takes it out of what follows any other item. */
  lemma {:induction false} SinceWithout(s: seq<Item>, y: Item, x: Item)
    requires x != y
    ensures Since(Without(s, y), x) == Since(s, x) - {y}
  {
    if s != [] {
      var t, a := s[..|s| - 1], s[|s| - 1];
      SinceWithout(t, y, x);
      assert s == t + [a];
      SinceSnoc(t, a, x);
      SinceSnoc(Without(t, y), a, x);
    }
  }

  /** The recency list holds each touched item once, and what follows an item there is what was touched since. */
  lemma {:induction false} RecentIsByRecency(trace: seq<Item>, x: Item)
    ensures Distinct(Recent(trace))
    ensures x in Recent(trace) <==> x in trace
    ensures Since(Recent(trace), x) == Since(trace, x)
  {
    if trace != [] {
      var t, y := trace[..|trace| - 1], trace[|trace| - 1];
      RecentIsByRecency(t, x);
      WithoutContents(Recent(t), y);
      assert trace == t + [y];
      SinceSnoc(t, y, x);
      SinceSnoc(Without(Recent(t), y), y, x);
      if x != y {
        SinceWithout(Recent(t), y, x);
      }
    }
  }

  lemma LastSnoc(t: seq<Item>, a: Item, c: int)
    requires c > 0
    ensures Last(t + [a], c) == Last(t, c - 1) + [a]
  {
  }

  lemma SinceWithin(trace: seq<Item>, x: Item)
    ensures forall y :: y in Since(trace, x) ==> y in trace
  {
  }

  /** In a list without repetition, the last `c` items are those followed by fewer than `c` others. */
  lemma {:induction false} LastByCount(s: seq<Item>, c: int, x: Item)
    requires Distinct(s)
    ensures x in Last(s, c) <==> x in s && |Since(s, x)| < c
  {
    if s != [] && c > 0 {
      var t, a := s[..|s| - 1], s[|s| - 1];
      assert s == t + [a];
      DistinctSnoc(t, a);
      LastByCount(t, c - 1, x);
      hide Last, Since, Distinct;
      SinceSnoc(t, a, x);
      SinceWithin(t, x);
      LastSnoc(t, a, c);
    }
  }

  // ---- one touch -----------------------------------------------------------------------------------

  /** `touch` on the ordered dictionary: move to the end, or append and evict the oldest when over capacity. */
  function Touched(order: seq<Item>, capacity: int, x: Item): seq<Item> {
    if x in order then Without(order, x) + [x]
    else if |order| + 1 > capacity then (order + [x])[1..]
    else order + [x]
  }

  lemma LastOfConcat(front: seq<Item>, tail: seq<Item>, c: int)
    requires |tail| == c || (front == [] && |tail| <= c)
    ensures Last(front + tail, c) == tail
  {
  }

  lemma TouchCached(front: seq<Item>, tail: seq<Item>, capacity: int, x: Item)
    requires Distinct(front + tail) && x in tail && (|tail| == capacity || (front == [] && |tail| <= capacity))
    ensures Touched(tail, capacity, x) == Last(Without(front + tail, x) + [x], capacity)
  {
    DistinctParts(front, tail, x);
    WithoutConcat(front, tail, x);
    WithoutContents(front, x);
    WithoutContents(tail, x);
    hide Since, Without, Recent, Distinct;
    LastOfConcat(front, Without(tail, x) + [x], capacity);
    assert (front + Without(tail, x)) + [x] == front + (Without(tail, x) + [x]);
  }

  lemma TouchUncached(front: seq<Item>, tail: seq<Item>, capacity: int, x: Item)
    requires x !in tail && capacity > 0 && (|tail| == capacity || (front == [] && |tail| <= capacity))
    ensures Touched(tail, capacity, x) == Last(Without(front + tail, x) + [x], capacity)
  {
    WithoutConcat(front, tail, x);
    WithoutContents(front, x);
    WithoutContents(tail, x);
    hide Since, Without, Recent, Distinct;
    var f := Without(front, x);
    if |tail| < capacity {
      LastOfConcat(f, tail + [x], capacity);
      assert (f + tail) + [x] == f + (tail + [x]);
    } else {
      LastOfConcat(f + [tail[0]], tail[1..] + [x], capacity);
      assert (f + tail) + [x] == (f + [tail[0]]) + (tail[1..] + [x]);
      assert (tail + [x])[1..] == tail[1..] + [x];
    }
  }

  lemma DistinctParts(front: seq<Item>, tail: seq<Item>, x: Item)
    requires Distinct(front + tail) && x in tail
    ensures x !in front && Distinct(tail)
  {
    var s := front + tail;
    var k :| 0 <= k < |tail| && tail[k] == x;
    forall i | 0 <= i < |front| ensures front[i] != x {
      assert s[i] != s[|front| + k];
    }
    forall i, j | 0 <= i < j < |tail| ensures tail[i] != tail[j] {
      assert s[|front| + i] != s[|front| + j];
    }
  }

  lemma TouchKeepsTail(s: seq<Item>, capacity: int, x: Item)
    requires Distinct(s)
    ensures Touched(Last(s, capacity), capacity, x) == Last(Without(s, x) + [x], capacity)
  {
    if capacity > 0 {
      var tail := Last(s, capacity);
      var front := s[..|s| - |tail|];
      assert s == front + tail;
      hide Since, Without, Recent, Distinct, Touched;
      if x in tail {
        TouchCached(front, tail, capacity, x);
      } else {
        TouchUncached(front, tail, capacity, x);
      }
    }
  }

  /** The cache contents after a trace: the `capacity` most recently touched distinct items. */
  function Contents(trace: seq<Item>, capacity: int): seq<Item> {
    Last(Recent(trace), capacity)
  }

  /** An item is cached exactly when it is within reach: the cache is the stack-distance one at every capacity. */
  lemma CachedIffWithinReach(trace: seq<Item>, capacity: int, x: Item)
    ensures x in Contents(trace, capacity) <==> WithinReach(trace, capacity, x)
  {
    RecentIsByRecency(trace, x);
    LastByCount(Recent(trace), capacity, x);
  }

  /** Inclusion: whatever a cache holds, a larger cache fed the same touches holds too. */
  lemma LargerCacheHoldsMore(trace: seq<Item>, small: int, large: int, x: Item)
    requires small <= large && x in Contents(trace, small)
    ensures x in Contents(trace, large)
  {
  }

  class LruCache {
    const capacity: int
    var order: seq<Item>
    ghost var trace: seq<Item>

    /** The dictionary's order is what the touches so far leave of their recency list. */
    ghost predicate Valid()
      reads this
    {
      order == Contents(trace, capacity)
    }

    constructor (capacity: int)
      ensures Valid() && this.capacity == capacity && order == [] && trace == []
    {
      this.capacity := capacity;
      order := [];
      trace := [];
    }

    method Resident(x: Item) returns (b: bool)
      requires Valid()
      ensures b <==> WithinReach(trace, capacity, x)
    {
      CachedIffWithinReach(trace, capacity, x);
      b := x in order;
    }

    method Touch(x: Item)
      requires Valid()
      modifies this
      ensures Valid() && trace == old(trace) + [x]
    {
      RecentIsByRecency(trace, x);
      TouchKeepsTail(Recent(trace), capacity, x);
      assert (trace + [x])[..|trace|] == trace;
      hide Last, Recent, Since;
      if x in order {
        order := Without(order, x) + [x];
      } else {
        order := order + [x];
        if |order| > capacity {
          order := order[1..];
        }
      }
      trace := trace + [x];
    }
  }

  // ---- the replay ------------------------------------------------------------------------------------

  lemma {:induction false} LeastExists(s: set<int>)
    requires s != {}
    ensures exists m :: m in s && forall k :: k in s ==> m <= k
    decreases |s|
  {
    if forall x :: x !in s {
      assert false;
    }
    var x :| x in s;
    var rest := s - {x};
    if rest != {} {
      LeastExists(rest);
      var m :| m in rest && forall k :: k in rest ==> m <= k;
      var least := if x < m then x else m;
      forall k | k in s ensures least <= k {
        assert k == x || k in rest;
      }
      assert least in s;
    } else {
      assert s == {x};
    }
  }

  /** The layers of a token in increasing order. */
  function Ascending(s: set<int>): (r: seq<int>)
    ensures forall k :: k in r <==> k in s
    decreases |s|
  {
    if s == {} then []
    else
      LeastExists(s);
      var m :| m in s && forall k :: k in s ==> m <= k;
      [m] + Ascending(s - {m})
  }

  lemma AscendingCons(s: set<int>) returns (m: int)
    requires s != {}
    ensures m in s && (forall k :: k in s ==> m <= k) && Ascending(s) == [m] + Ascending(s - {m})
  {
    m := Ascending(s)[0];
  }

  lemma {:induction false} AscendingAscends(s: set<int>)
    ensures forall i, j :: 0 <= i < j < |Ascending(s)| ==> Ascending(s)[i] < Ascending(s)[j]
    decreases |s|
  {
    if s != {} {
      var m := AscendingCons(s);
      var rest := Ascending(s - {m});
      AscendingAscends(s - {m});
      hide Ascending;
      forall j | 0 <= j < |rest| ensures m < rest[j] {
        assert rest[j] in s - {m};
      }
      LeastInFront(m, rest);
    }
  }

  lemma LeastInFront(m: int, rest: seq<int>)
    requires forall j :: 0 <= j < |rest| ==> m < rest[j]
    requires forall i, j :: 0 <= i < j < |rest| ==> rest[i] < rest[j]
    ensures var r := [m] + rest; forall i, j :: 0 <= i < j < |r| ==> r[i] < r[j]
  {
  }

  function Items(layer: int, experts: seq<int>): seq<Item> {
    seq(|experts|, i requires 0 <= i < |experts| => Item(layer, experts[i]))
  }

  /** One access per layer of the token, in layer order. */
  function TokenAccesses(token: map<int, seq<int>>): seq<seq<Item>> {
    var layers := Ascending(token.Keys);
    seq(|layers|, i requires 0 <= i < |layers| => Items(layers[i], token[layers[i]]))
  }

  function Accesses(tokens: seq<map<int, seq<int>>>): seq<seq<Item>> {
    if tokens == [] then [] else Accesses(tokens[..|tokens| - 1]) + TokenAccesses(tokens[|tokens| - 1])
  }

  function Trace(accesses: seq<seq<Item>>): seq<Item> {
    if accesses == [] then [] else Trace(accesses[..|accesses| - 1]) + accesses[|accesses| - 1]
  }

  /** The items of an access that are out of reach just before it. */
  function Misses(before: seq<Item>, capacity: int, access: seq<Item>): set<Item> {
    set x | x in access && !WithinReach(before, capacity, x)
  }

  function ActualCount(accesses: seq<seq<Item>>): nat {
    if accesses == [] then 0
    else ActualCount(accesses[..|accesses| - 1]) + |Elems(accesses[|accesses| - 1])|
  }

  function MissCount(accesses: seq<seq<Item>>, capacity: int): nat {
    if accesses == [] then 0
    else
      var before := accesses[..|accesses| - 1];
      MissCount(before, capacity) + |Misses(Trace(before), capacity, accesses[|accesses| - 1])|
  }

  lemma SnocCounts(accesses: seq<seq<Item>>, access: seq<Item>, capacity: int)
    ensures Trace(accesses + [access]) == Trace(accesses) + access
    ensures MissCount(accesses + [access], capacity)
            == MissCount(accesses, capacity) + |Misses(Trace(accesses), capacity, access)|
    ensures ActualCount(accesses + [access]) == ActualCount(accesses) + |Elems(access)|
  {
  }

  /** One access: the misses are counted before any of its items is touched. */
  method Access(cache: LruCache, access: seq<Item>) returns (distinct: nat, missed: nat)
    requires cache.Valid()
    modifies cache
    ensures cache.Valid() && cache.trace == old(cache.trace) + access
    ensures distinct == |Elems(access)| && missed == |Misses(old(cache.trace), cache.capacity, access)|
  {
    forall x | x in access ensures x in cache.order <==> WithinReach(cache.trace, cache.capacity, x) {
      CachedIffWithinReach(cache.trace, cache.capacity, x);
    }
    hide WithinReach, Contents;
    var actual := set x | x in access;
    var misses := set x | x in actual && x !in cache.order;
    assert misses == Misses(cache.trace, cache.capacity, access);
    distinct, missed := |actual|, |misses|;
    var i := 0;
    while i < |access|
      invariant 0 <= i <= |access|
      invariant cache.Valid() && cache.trace == old(cache.trace) + access[..i]
    {
      cache.Touch(access[i]);
      assert access[..i + 1] == access[..i] + [access[i]];
      i := i + 1;
    }
  }

  ghost predicate Replayed(cache: LruCache, done: seq<seq<Item>>, nActual: nat, nMiss: nat, nAccess: nat)
    reads cache
  {
    && cache.Valid() && cache.trace == Trace(done)
    && nActual == ActualCount(done) && nMiss == MissCount(done, cache.capacity) && nAccess == |done|
  }

  method ReplayAccess(cache: LruCache, access: seq<Item>, ghost done: seq<seq<Item>>, a: nat, m: nat, n: nat)
      returns (nActual: nat, nMiss: nat, nAccess: nat)
    requires Replayed(cache, done, a, m, n)
    modifies cache
    ensures Replayed(cache, done + [access], nActual, nMiss, nAccess)
  {
    SnocCounts(done, access, cache.capacity);
    hide Trace, MissCount, ActualCount, Misses, Elems, Contents;
    var distinct, missed := Access(cache, access);
    nActual, nMiss, nAccess := a + distinct, m + missed, n + 1;
  }

  /** The accesses of one token, added to the running counts. */
  method ReplayToken(cache: LruCache, token: map<int, seq<int>>, ghost done: seq<seq<Item>>, a: nat, m: nat, n: nat)
      returns (nActual: nat, nMiss: nat, nAccess: nat)
    requires Replayed(cache, done, a, m, n)
    modifies cache
    ensures Replayed(cache, done + TokenAccesses(token), nActual, nMiss, nAccess)
  {
    hide Replayed, Ascending;
    var layers := Ascending(token.Keys);
    ghost var accesses := TokenAccesses(token);
    nActual, nMiss, nAccess := a, m, n;
    var i := 0;
    assert done + accesses[..0] == done;
    while i < |layers|
      invariant 0 <= i <= |layers| == |accesses|
      invariant Replayed(cache, done + accesses[..i], nActual, nMiss, nAccess)
    {
      var access := Items(layers[i], token[layers[i]]);
      nActual, nMiss, nAccess := ReplayAccess(cache, access, done + accesses[..i], nActual, nMiss, nAccess);
      assert done + accesses[..i + 1] == (done + accesses[..i]) + [access];
      i := i + 1;
    }
    assert accesses[..i] == accesses;
  }

  /** The replay of `evaluate`: experts asked for, misses among them, accesses. */
  method Evaluate(tokens: seq<map<int, seq<int>>>, cacheExperts: int) returns (nActual: nat, nMiss: nat, nAccess: nat)
    ensures nActual == ActualCount(Accesses(tokens)) && nAccess == |Accesses(tokens)|
    ensures nMiss == MissCount(Accesses(tokens), cacheExperts)
  {
    var cache := new LruCache(cacheExperts);
    nActual, nMiss, nAccess := 0, 0, 0;
    var t := 0;
    while t < |tokens|
      invariant 0 <= t <= |tokens| && fresh(cache)
      invariant Replayed(cache, Accesses(tokens[..t]), nActual, nMiss, nAccess)
    {
      nActual, nMiss, nAccess := ReplayToken(cache, tokens[t], Accesses(tokens[..t]), nActual, nMiss, nAccess);
      assert tokens[..t + 1][..t] == tokens[..t];
      t := t + 1;
    }
    assert tokens[..t] == tokens;
  }

  // ---- how the miss count depends on the capacity -----------------------------------------------------

  /** A larger cache never misses more often. */
  lemma {:induction false} MissesNeverRise(accesses: seq<seq<Item>>, small: int, large: int)
    requires small <= large
    ensures MissCount(accesses, large) <= MissCount(accesses, small)
  {
    if accesses != [] {
      var before, access := accesses[..|accesses| - 1], accesses[|accesses| - 1];
      MissesNeverRise(before, small, large);
      SubsetSize(Misses(Trace(before), large, access), Misses(Trace(before), small, access));
    }
  }

  /** A cache of capacity zero or less never hits. */
  lemma {:induction false} NoCacheMissesAll(accesses: seq<seq<Item>>, capacity: int)
    requires capacity <= 0
    ensures MissCount(accesses, capacity) == ActualCount(accesses)
  {
    if accesses != [] {
      var before, access := accesses[..|accesses| - 1], accesses[|accesses| - 1];
      NoCacheMissesAll(before, capacity);
      assert Misses(Trace(before), capacity, access) == Elems(access);
    }
  }

  lemma SinceIsOthers(trace: seq<Item>, x: Item)
    requires x in trace
    ensures Since(trace, x) <= Elems(trace) - {x} && |Since(trace, x)| < |Elems(trace)|
  {
    assert x !in Since(trace, x);
    SubsetSize(Since(trace, x), Elems(trace) - {x});
  }

  lemma {:induction false} ColdMisses(accesses: seq<seq<Item>>, capacity: int)
    requires |Elems(Trace(accesses))| <= capacity
    ensures MissCount(accesses, capacity) == |Elems(Trace(accesses))|
  {
    if accesses != [] {
      var before, access := accesses[..|accesses| - 1], accesses[|accesses| - 1];
      var seen := Elems(Trace(before));
      assert Elems(Trace(accesses)) == seen + Elems(access);
      SubsetSize(seen, seen + Elems(access));
      ColdMisses(before, capacity);
      forall x | x in access ensures x in seen <==> WithinReach(Trace(before), capacity, x) {
        if x in seen {
          SinceIsOthers(Trace(before), x);
        }
      }
      assert Misses(Trace(before), capacity, access) == Elems(access) - seen;
      assert seen + Elems(access) == seen + (Elems(access) - seen);
    }
  }

  /** The miss count lies between the number of distinct items, reached once the capacity covers them all,
      and the number of items asked for, reached without a cache. */
  lemma MissBounds(accesses: seq<seq<Item>>, capacity: int)
    ensures |Elems(Trace(accesses))| <= MissCount(accesses, capacity) <= ActualCount(accesses)
    ensures |Elems(Trace(accesses))| <= capacity ==> MissCount(accesses, capacity) == |Elems(Trace(accesses))|
    ensures capacity <= 0 ==> MissCount(accesses, capacity) == ActualCount(accesses)
  {
    var all := |Elems(Trace(accesses))|;
    var most := if capacity < all then all else capacity;
    ColdMisses(accesses, most);
    MissesNeverRise(accesses, capacity, most);
    NoCacheMissesAll(accesses, if capacity < 0 then capacity else 0);
    MissesNeverRise(accesses, if capacity < 0 then capacity else 0, capacity);
  }
}
