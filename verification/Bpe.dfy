/** Byte-pair encoding as `scripts/tiktoken_to_tokenizer_json.py` runs it: repeatedly join the
    leftmost adjacent pair of lowest merge rank until no pair has a rank. */
module Bpe {

  newtype byte = b: int | 0 <= b < 256

  type Bytes = seq<byte>
  type Pair = (Bytes, Bytes)
  type MergeRanks = map<Pair, nat>

  function Join(parts: seq<Bytes>): Bytes {
    if parts == [] then [] else parts[0] + Join(parts[1..])
  }

  function Singletons(token: Bytes): (parts: seq<Bytes>) {
    seq(|token|, i requires 0 <= i < |token| => [token[i]])
  }

  function PairAt(parts: seq<Bytes>, i: nat): Pair
    requires i + 1 < |parts|
  {
    (parts[i], parts[i + 1])
  }

  function MergeAt(parts: seq<Bytes>, at: nat): (merged: seq<Bytes>)
    requires at + 1 < |parts|
    ensures |merged| == |parts| - 1
    ensures merged[at] == parts[at] + parts[at + 1]
    ensures forall k :: 0 <= k < at ==> merged[k] == parts[k]
    ensures forall k :: at < k < |merged| ==> merged[k] == parts[k + 1]
  {
    parts[..at] + [parts[at] + parts[at + 1]] + parts[at + 2..]
  }

  /** `at` is the leftmost pair of lowest rank among the first `n` adjacent pairs, or -1 if none has a rank. */
  ghost predicate IsBest(parts: seq<Bytes>, mrank: MergeRanks, n: nat, at: int)
    requires n == 0 || n < |parts|
  {
    && -1 <= at < n
    && (at >= 0 ==> PairAt(parts, at) in mrank)
    && forall i :: 0 <= i < n && PairAt(parts, i) in mrank ==>
         && at >= 0
         && mrank[PairAt(parts, at)] <= mrank[PairAt(parts, i)]
         && (i < at ==> mrank[PairAt(parts, at)] < mrank[PairAt(parts, i)])
  }

  function Best(parts: seq<Bytes>, mrank: MergeRanks, n: nat): (at: int)
    requires n == 0 || n < |parts|
    ensures IsBest(parts, mrank, n, at)
  {
    if n == 0 then -1
    else
      var prev := Best(parts, mrank, n - 1);
      var p := PairAt(parts, n - 1);
      if p in mrank && (prev < 0 || mrank[p] < mrank[PairAt(parts, prev)]) then n - 1 else prev
  }

  function BestPair(parts: seq<Bytes>, mrank: MergeRanks): (at: int)
    ensures at < 0 || at + 1 < |parts|
  {
    if |parts| < 2 then -1 else Best(parts, mrank, |parts| - 1)
  }

  /** The pieces left when no adjacent pair has a rank any more. */
  function Run(parts: seq<Bytes>, mrank: MergeRanks): seq<Bytes>
    decreases |parts|
  {
    var at := BestPair(parts, mrank);
    if at < 0 then parts else Run(MergeAt(parts, at), mrank)
  }

  function Encode(token: Bytes, mrank: MergeRanks): seq<Bytes> {
    Run(Singletons(token), mrank)
  }

  /** The inner loop: the leftmost adjacent pair of lowest rank, or -1. */
  method ScanPairs(parts: seq<Bytes>, mrank: MergeRanks) returns (at: int)
    requires |parts| > 1
    ensures at == BestPair(parts, mrank)
  {
    var best := 0;
    at := -1;
    for i := 0 to |parts| - 1
      invariant at == Best(parts, mrank, i)
      invariant at >= 0 ==> best == mrank[PairAt(parts, at)]
    {
      var p := (parts[i], parts[i + 1]);
      if p in mrank && (at < 0 || mrank[p] < best) {
        best, at := mrank[p], i;
      }
    }
  }

  /** The loop of `bpe`: one scan for the best pair, one splice, until the scan finds none. */
  method EncodeLoop(token: Bytes, mrank: MergeRanks) returns (parts: seq<Bytes>)
    ensures parts == Encode(token, mrank)
  {
    parts := Singletons(token);
    while |parts| > 1
      invariant Run(parts, mrank) == Encode(token, mrank)
      decreases |parts|
    {
      var at := ScanPairs(parts, mrank);
      if at < 0 {
        break;
      }
      parts := parts[..at] + [parts[at] + parts[at + 1]] + parts[at + 2..];
    }
  }

  // ---- what a run keeps ------------------------------------------------------

  ghost predicate Stuck(parts: seq<Bytes>, mrank: MergeRanks) {
    forall i :: 0 <= i < |parts| - 1 ==> PairAt(parts, i) !in mrank
  }

  ghost predicate NonEmptyPieces(parts: seq<Bytes>) {
    forall i :: 0 <= i < |parts| ==> parts[i] != []
  }

  lemma {:induction false} JoinSingletons(token: Bytes)
    ensures Join(Singletons(token)) == token
  {
    if token != [] {
      assert Singletons(token)[1..] == Singletons(token[1..]);
      JoinSingletons(token[1..]);
    }
  }

  lemma JoinPair(x: Bytes, y: Bytes)
    ensures Join([x, y]) == x + y == Join([x + y])
  {
    assert [x, y][1..] == [y] && [y][1..] == [] && [x + y][1..] == [];
    assert Join([]) == [] && y + [] == y && (x + y) + [] == x + y;
    assert Join([y]) == y + Join([y][1..]);
    assert Join([x, y]) == x + Join([x, y][1..]);
    assert Join([x + y]) == (x + y) + Join([x + y][1..]);
  }

  lemma SingletonsWindow(token: Bytes, lo: nat, hi: nat)
    requires lo <= hi <= |token|
    ensures Singletons(token)[lo..hi] == Singletons(token[lo..hi])
  {
  }

  lemma {:induction false} JoinMergeAt(parts: seq<Bytes>, at: nat)
    requires at + 1 < |parts|
    ensures Join(MergeAt(parts, at)) == Join(parts)
  {
    var merged, x, rest := MergeAt(parts, at), parts[0], parts[1..];
    if at == 0 {
      assert merged[1..] == rest[1..];
      assert Join(merged) == (x + rest[0]) + Join(rest[1..]);
      assert (x + rest[0]) + Join(rest[1..]) == x + (rest[0] + Join(rest[1..]));
    } else {
      assert merged[1..] == MergeAt(rest, at - 1);
      JoinMergeAt(rest, at - 1);
    }
  }

  /** Encoding loses no byte, makes no empty piece, and stops only where nothing can merge. */
  lemma {:induction false} RunKeeps(parts: seq<Bytes>, mrank: MergeRanks)
    requires NonEmptyPieces(parts)
    ensures Join(Run(parts, mrank)) == Join(parts)
    ensures NonEmptyPieces(Run(parts, mrank))
    ensures Stuck(Run(parts, mrank), mrank)
    decreases |parts|
  {
    var at := BestPair(parts, mrank);
    if at >= 0 {
      JoinMergeAt(parts, at);
      RunKeeps(MergeAt(parts, at), mrank);
    }
  }

  /** `more` agrees with `mrank` below rank `k` and only adds pairs of rank `k` or above. */
  ghost predicate Extends(mrank: MergeRanks, more: MergeRanks, k: nat) {
    && (forall p :: p in mrank ==> mrank[p] < k && p in more && more[p] == mrank[p])
    && (forall p :: p in more && p !in mrank ==> more[p] >= k)
  }

  /** Lockstep: a run under the longer table first makes exactly the run under the shorter one. */
  lemma {:induction false} RunUnderExtension(parts: seq<Bytes>, mrank: MergeRanks, more: MergeRanks, k: nat)
    requires Extends(mrank, more, k)
    ensures Run(parts, more) == Run(Run(parts, mrank), more)
    decreases |parts|
  {
    var at := BestPair(parts, mrank);
    if at >= 0 {
      var at' := BestPair(parts, more);
      assert PairAt(parts, at) in more;
      assert at' >= 0 && PairAt(parts, at') in mrank;
      assert at' == at;
      RunUnderExtension(MergeAt(parts, at), mrank, more, k);
    }
  }

  /** A run that ends in a single piece ended by joining a ranked pair. */
  lemma {:induction false} LastMerge(parts: seq<Bytes>, mrank: MergeRanks) returns (p: Pair)
    requires |parts| > 1 && |Run(parts, mrank)| == 1
    ensures p in mrank && Run(parts, mrank) == [p.0 + p.1]
    decreases |parts|
  {
    var at := BestPair(parts, mrank);
    if |parts| == 2 {
      p := PairAt(parts, at);
      assert MergeAt(parts, at) == [p.0 + p.1];
    } else {
      p := LastMerge(MergeAt(parts, at), mrank);
    }
  }

  // ---- locality --------------------------------------------------------------

  lemma BestIsUnique(parts: seq<Bytes>, mrank: MergeRanks, n: nat, at: int, at': int)
    requires n == 0 || n < |parts|
    requires IsBest(parts, mrank, n, at) && IsBest(parts, mrank, n, at')
    ensures at == at'
  {
  }

  lemma MergeInWindow(parts: seq<Bytes>, lo: nat, hi: nat, at: nat)
    requires lo <= at && at + 1 < hi <= |parts|
    ensures MergeAt(parts, at)[lo..hi - 1] == MergeAt(parts[lo..hi], at - lo)
  {
  }

  lemma MergeOutsideWindow(parts: seq<Bytes>, lo: nat, hi: nat, at: nat)
    requires lo <= hi < |parts| && at + 1 < |parts|
    ensures hi <= at ==> MergeAt(parts, at)[lo..hi] == parts[lo..hi]
    ensures at < lo ==> MergeAt(parts, at)[lo..hi] == parts[lo + 1..hi + 1]
  {
  }

  /** If the globally best merge lies inside a window, it is the best merge of that window alone. */
  lemma BestInWindow(parts: seq<Bytes>, mrank: MergeRanks, lo: nat, hi: nat)
    requires lo <= hi <= |parts|
    requires BestPair(parts, mrank) >= lo && BestPair(parts, mrank) + 1 < hi
    ensures BestPair(parts[lo..hi], mrank) == BestPair(parts, mrank) - lo
    ensures MergeAt(parts, BestPair(parts, mrank))[lo..hi - 1]
         == MergeAt(parts[lo..hi], BestPair(parts, mrank) - lo)
  {
    var at := BestPair(parts, mrank);
    var w := parts[lo..hi];
    MergeInWindow(parts, lo, hi, at);
    forall i | 0 <= i < |w| - 1 ensures PairAt(w, i) == PairAt(parts, i + lo) { }
    assert IsBest(w, mrank, |w| - 1, at - lo);
    BestIsUnique(w, mrank, |w| - 1, at - lo, BestPair(w, mrank));
  }

  /** A window of the pieces after one merge pulls back to a window before it with the same outcome. */
  lemma PullBack(parts: seq<Bytes>, mrank: MergeRanks, lo': nat, hi': nat) returns (lo: nat, hi: nat)
    requires BestPair(parts, mrank) >= 0 && lo' <= hi' < |parts|
    ensures lo <= hi <= |parts|
    ensures Run(parts[lo..hi], mrank) == Run(MergeAt(parts, BestPair(parts, mrank))[lo'..hi'], mrank)
  {
    hide *;
    var at := BestPair(parts, mrank);
    lo := if lo' <= at then lo' else lo' + 1;
    hi := if hi' <= at then hi' else hi' + 1;
    if lo' <= at < hi' {
      RunOfWindow(parts, mrank, lo, hi);
    } else {
      MergeOutsideWindow(parts, lo', hi', at);
    }
  }

  /** A window around the best merge goes through that merge first. */
  lemma RunOfWindow(parts: seq<Bytes>, mrank: MergeRanks, lo: nat, hi: nat)
    requires lo <= hi <= |parts| && BestPair(parts, mrank) >= lo && BestPair(parts, mrank) + 1 < hi
    ensures Run(parts[lo..hi], mrank) == Run(MergeAt(parts, BestPair(parts, mrank))[lo..hi - 1], mrank)
  {
    BestInWindow(parts, mrank, lo, hi);
    hide BestPair, MergeAt;
  }

  /** Any window of the final pieces is what encoding the bytes below it, alone, produces. */
  lemma {:induction false} Locality(parts: seq<Bytes>, mrank: MergeRanks, i: nat, j: nat) returns (lo: nat, hi: nat)
    requires i <= j <= |Run(parts, mrank)|
    ensures lo <= hi <= |parts|
    ensures Run(parts[lo..hi], mrank) == Run(parts, mrank)[i..j]
    decreases |parts|
  {
    var at := BestPair(parts, mrank);
    if at < 0 {
      lo, hi := i, j;
      StuckRun(parts, mrank, i, j);
    } else {
      var next := MergeAt(parts, at);
      assert Run(parts, mrank) == Run(next, mrank);
      lo, hi := Locality(next, mrank, i, j);
      lo, hi := PullBack(parts, mrank, lo, hi);
    }
  }

  lemma StuckRun(parts: seq<Bytes>, mrank: MergeRanks, i: nat, j: nat)
    requires BestPair(parts, mrank) < 0 && i <= j <= |parts|
    ensures Run(parts[i..j], mrank) == parts[i..j]
  {
    var w := parts[i..j];
    forall k | 0 <= k < |w| - 1 ensures PairAt(w, k) !in mrank {
      assert PairAt(w, k) == PairAt(parts, k + i);
    }
  }
}
