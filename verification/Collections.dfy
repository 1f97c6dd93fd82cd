/** Facts about finite sets and sequences without repetition that several modules need. */
module Collections {

  ghost predicate Distinct<T>(s: seq<T>) {
    forall i, j :: 0 <= i < j < |s| ==> s[i] != s[j]
  }

  function Elems<T(==)>(s: seq<T>): set<T> {
    set x | x in s
  }

  lemma SubsetSize<T>(a: set<T>, b: set<T>)
    requires a <= b
    ensures |a| <= |b|
  {
    assert b == a + (b - a);
  }

  lemma {:induction false} DistinctSize<T>(s: seq<T>)
    requires Distinct(s)
    ensures |Elems(s)| == |s|
  {
    if s != [] {
      var front, x := s[..|s| - 1], s[|s| - 1];
      DistinctSize(front);
      assert s == front + [x];
      assert Elems(s) == Elems(front) + {x};
    }
  }

  /** The numbers below `n`. */
  function Below(n: nat): (s: set<nat>)
    ensures |s| == n && forall e: nat :: e in s <==> e < n
  {
    if n == 0 then {} else Below(n - 1) + {n - 1}
  }

  /** `0, 1, .. n - 1` */
  function Indices(n: nat): (s: seq<nat>) {
    seq(n, i requires 0 <= i < n => i)
  }

  lemma {:induction false} IndicesCount(n: nat, e: nat)
    ensures multiset(Indices(n))[e] == if e < n then 1 else 0
  {
    if n > 0 {
      assert Indices(n) == Indices(n - 1) + [n - 1];
      IndicesCount(n - 1, e);
    }
  }
}
