/** Byte-pair-encoding training, and the theorem that replaying it from the rank table alone
    (`derive_merges`) gives back the trained merge list exactly. */
module Training {
  import opened Bpe
  import opened Collections
  import opened MergeRecovery

  /** One training step on one word: the chosen pair is joined everywhere, left to right. */
  function ReplacePair(parts: seq<Bytes>, p: Pair): (r: seq<Bytes>)
  {
    if |parts| < 2 then parts
    else if PairAt(parts, 0) == p then [Token(p)] + ReplacePair(parts[2..], p)
    else [parts[0]] + ReplacePair(parts[1..], p)
  }

  /** A word's pieces after all the merges chosen so far. */
  function Segment(word: Bytes, merges: seq<Pair>): seq<Bytes> {
    if merges == [] then Singletons(word)
    else ReplacePair(Segment(word, merges[..|merges| - 1]), merges[|merges| - 1])
  }

  /** Each merge joins two pieces adjacent in some word of the corpus at that moment (how the trainer
      chooses among them is immaterial), and no byte string is made twice. */
  ghost predicate Trained(words: set<Bytes>, merges: seq<Pair>) {
    && (forall i :: 0 <= i < |merges| ==> Chosen(words, merges, i))
    && Distinct(Made(merges))
  }

  ghost predicate Chosen(words: set<Bytes>, merges: seq<Pair>, i: nat)
    requires i < |merges|
  {
    exists w, k: nat :: w in words && ChosenFrom(w, merges, i, k)
  }

  ghost predicate ChosenFrom(word: Bytes, merges: seq<Pair>, i: nat, k: nat)
    requires i < |merges|
  {
    var parts := Segment(word, merges[..i]);
    k + 1 < |parts| && PairAt(parts, k) == merges[i]
  }

  function Made(merges: seq<Pair>): seq<Bytes> {
    seq(|merges|, i requires 0 <= i < |merges| => Token(merges[i]))
  }

  function MultiByte(tokens: seq<Bytes>): seq<Bytes> {
    if tokens == [] then []
    else
      var n := |tokens| - 1;
      MultiByte(tokens[..n]) + if |tokens[n]| < 2 then [] else [tokens[n]]
  }

  ghost predicate Known(piece: Bytes, merges: seq<Pair>) {
    |piece| == 1 || piece in Made(merges)
  }

  lemma TrainedPrefix(words: set<Bytes>, merges: seq<Pair>, n: nat)
    requires Trained(words, merges) && n <= |merges|
    ensures Trained(words, merges[..n])
  {
    var pre := merges[..n];
    forall i | 0 <= i < n ensures Chosen(words, pre, i) {
      assert Chosen(words, merges, i);
      var w, k: nat :| w in words && ChosenFrom(w, merges, i, k);
      assert pre[..i] == merges[..i];
      assert ChosenFrom(w, pre, i, k);
    }
    forall i, j | 0 <= i < j < n ensures Made(pre)[i] != Made(pre)[j] {
      assert Made(pre)[i] == Made(merges)[i] && Made(pre)[j] == Made(merges)[j];
      assert Made(merges)[i] != Made(merges)[j];
    }
  }

  lemma {:induction false} ReplaceKnown(parts: seq<Bytes>, p: Pair, merges: seq<Pair>)
    requires forall i :: 0 <= i < |parts| ==> Known(parts[i], merges)
    ensures forall i :: 0 <= i < |ReplacePair(parts, p)| ==> Known(ReplacePair(parts, p)[i], merges + [p])
  {
    assert Made(merges + [p]) == Made(merges) + [Token(p)];
    if |parts| >= 2 {
      ReplaceKnown(if PairAt(parts, 0) == p then parts[2..] else parts[1..], p, merges);
    }
  }

  lemma {:induction false} SegmentKnown(word: Bytes, merges: seq<Pair>)
    ensures forall i :: 0 <= i < |Segment(word, merges)| ==> Known(Segment(word, merges)[i], merges)
  {
    if merges != [] {
      var n := |merges| - 1;
      SegmentKnown(word, merges[..n]);
      ReplaceKnown(Segment(word, merges[..n]), merges[n], merges[..n]);
      assert merges[..n] + [merges[n]] == merges;
    }
  }

  // ---- one training step is what the encoder does with one more merge ---------

  ghost predicate NoPair(parts: seq<Bytes>, p: Pair) {
    forall i :: 0 <= i < |parts| - 1 ==> PairAt(parts, i) != p
  }

  lemma {:induction false} ReplaceSkips(pre: seq<Bytes>, rest: seq<Bytes>, p: Pair)
    requires NoPair(pre + rest[..if rest == [] then 0 else 1], p)
    ensures ReplacePair(pre + rest, p) == pre + ReplacePair(rest, p)
  {
    var next := rest[..if rest == [] then 0 else 1];
    if pre == [] {
      assert pre + rest == rest;
    } else if |pre + rest| >= 2 {
      FirstStays(pre, rest, next, p);
      hide ReplacePair, NoPair;
      ReplaceSkips(pre[1..], rest, p);
      assert [pre[0]] + (pre[1..] + ReplacePair(rest, p)) == pre + ReplacePair(rest, p);
    }
  }

  /** The first of several pieces stays when it does not start the pair. */
  lemma FirstStays(pre: seq<Bytes>, rest: seq<Bytes>, next: seq<Bytes>, p: Pair)
    requires pre != [] && |pre + rest| >= 2 && next == rest[..if rest == [] then 0 else 1] && NoPair(pre + next, p)
    ensures ReplacePair(pre + rest, p) == [pre[0]] + ReplacePair(pre[1..] + rest, p)
    ensures NoPair(pre[1..] + next, p)
  {
    var parts, head := pre + rest, pre + next;
    assert PairAt(parts, 0) == PairAt(head, 0);
    assert parts[1..] == pre[1..] + rest && parts[0] == pre[0];
    NoPairTail(head, p);
    assert head[1..] == pre[1..] + next;
  }

  lemma NoPairTail(head: seq<Bytes>, p: Pair)
    requires head != [] && NoPair(head, p)
    ensures NoPair(head[1..], p)
  {
    forall i | 0 <= i < |head| - 2 ensures PairAt(head[1..], i) != p {
      assert PairAt(head[1..], i) == PairAt(head, i + 1);
    }
  }

  lemma ReplaceNothing(parts: seq<Bytes>, p: Pair)
    requires NoPair(parts, p)
    ensures ReplacePair(parts, p) == parts
  {
    assert parts + [] == parts;
    ReplaceSkips(parts, [], p);
  }

  lemma ReplaceAtFirst(parts: seq<Bytes>, p: Pair, at: nat)
    requires at + 1 < |parts| && PairAt(parts, at) == p
    requires forall i :: 0 <= i < at ==> PairAt(parts, i) != p
    ensures ReplacePair(parts, p) == parts[..at] + [Token(p)] + ReplacePair(parts[at + 2..], p)
  {
    var rest := parts[at..];
    assert parts == parts[..at] + rest;
    var head := parts[..at] + rest[..1];
    forall i | 0 <= i < |head| - 1 ensures PairAt(head, i) != p {
      assert PairAt(head, i) == PairAt(parts, i);
    }
    ReplaceSkips(parts[..at], rest, p);
    assert rest[2..] == parts[at + 2..];
    assert PairAt(rest, 0) == p;
  }

  lemma ReplaceAfterFirst(parts: seq<Bytes>, p: Pair, at: nat)
    requires at + 1 < |parts| && PairAt(parts, at) == p && p.0 != [] && p.1 != []
    requires forall i :: 0 <= i < at ==> PairAt(parts, i) != p
    ensures ReplacePair(MergeAt(parts, at), p) == parts[..at] + [Token(p)] + ReplacePair(parts[at + 2..], p)
  {
    var pre, post, t := parts[..at] + [Token(p)], parts[at + 2..], Token(p);
    assert MergeAt(parts, at) == pre + post;
    assert |t| > |p.0| && |t| > |p.1|;
    var head := pre + post[..if post == [] then 0 else 1];
    forall i | 0 <= i < |head| - 1 ensures PairAt(head, i) != p {
      if i + 1 < at {
        assert PairAt(head, i) == PairAt(parts, i);
      } else if i + 1 == at {
        assert head[i + 1] == t;
      } else {
        assert head[i] == t;
      }
    }
    ReplaceSkips(pre, post, p);
  }

  ghost predicate Fresh(token: Bytes, mrank: MergeRanks) {
    forall q :: q in mrank ==> q.0 != token && q.1 != token
  }

  lemma StuckAfterMerge(parts: seq<Bytes>, mrank: MergeRanks, at: nat)
    requires at + 1 < |parts| && Stuck(parts, mrank) && Fresh(parts[at] + parts[at + 1], mrank)
    ensures Stuck(MergeAt(parts, at), mrank)
  {
    var m := MergeAt(parts, at);
    forall i | 0 <= i < |m| - 1 ensures PairAt(m, i) !in mrank {
      if i + 1 < at {
        assert PairAt(m, i) == PairAt(parts, i);
      } else if i > at {
        assert PairAt(m, i) == PairAt(parts, i + 1);
      }
    }
  }

  lemma {:induction false} RunWithOneMoreMerge(parts: seq<Bytes>, mrank: MergeRanks, p: Pair, n: nat)
    requires Stuck(parts, mrank) && Fresh(Token(p), mrank) && p.0 != [] && p.1 != []
    ensures Run(parts, mrank[p := n]) == ReplacePair(parts, p)
    decreases |parts|
  {
    var more := mrank[p := n];
    var at := BestPair(parts, more);
    if at < 0 {
      forall i | 0 <= i < |parts| - 1 ensures PairAt(parts, i) != p {
        assert IsBest(parts, more, |parts| - 1, at);
      }
      ReplaceNothing(parts, p);
    } else {
      assert PairAt(parts, at) !in mrank && PairAt(parts, at) in more;
      forall i | 0 <= i < at ensures PairAt(parts, i) != p {
        assert IsBest(parts, more, |parts| - 1, at);
      }
      StuckAfterMerge(parts, mrank, at);
      RunWithOneMoreMerge(MergeAt(parts, at), mrank, p, n);
      ReplaceAtFirst(parts, p, at);
      ReplaceAfterFirst(parts, p, at);
    }
  }

  lemma TrainedPairs(words: set<Bytes>, merges: seq<Pair>)
    requires Trained(words, merges)
    ensures forall i :: 0 <= i < |merges| ==> Known(merges[i].0, merges[..i]) && Known(merges[i].1, merges[..i])
    ensures forall i :: 0 <= i < |merges| ==> merges[i].0 != [] && merges[i].1 != []
  {
    forall i | 0 <= i < |merges|
      ensures Known(merges[i].0, merges[..i]) && Known(merges[i].1, merges[..i])
      ensures merges[i].0 != [] && merges[i].1 != []
    {
      assert Chosen(words, merges, i);
      var w, k: nat :| w in words && ChosenFrom(w, merges, i, k);
      SegmentKnown(w, merges[..i]);
      SegmentNonEmpty(w, merges[..i]);
    }
  }

  lemma {:induction false} SegmentNonEmpty(word: Bytes, merges: seq<Pair>)
    ensures NonEmptyPieces(Segment(word, merges))
  {
    if merges != [] {
      var n := |merges| - 1;
      SegmentNonEmpty(word, merges[..n]);
      ReplaceNonEmpty(Segment(word, merges[..n]), merges[n]);
    }
  }

  lemma {:induction false} ReplaceNonEmpty(parts: seq<Bytes>, p: Pair)
    requires NonEmptyPieces(parts)
    ensures NonEmptyPieces(ReplacePair(parts, p))
  {
    if |parts| >= 2 {
      ReplaceNonEmpty(if PairAt(parts, 0) == p then parts[2..] else parts[1..], p);
    }
  }

  lemma LastTokenFresh(words: set<Bytes>, merges: seq<Pair>)
    requires merges != [] && Trained(words, merges)
    ensures Fresh(Token(merges[|merges| - 1]), Ranks(merges[..|merges| - 1]))
    ensures merges[|merges| - 1] !in merges[..|merges| - 1]
  {
    var n := |merges| - 1;
    TrainedPairs(words, merges);
    forall i | 0 <= i < n
      ensures merges[i] != merges[n]
      ensures merges[i].0 != Token(merges[n]) && merges[i].1 != Token(merges[n])
    {
      assert Made(merges)[i] != Made(merges)[n];
      NotMadeBefore(merges, i, n);
      assert |Token(merges[n])| >= 2;
    }
    forall q | q in Ranks(merges[..n]) ensures q.0 != Token(merges[n]) && q.1 != Token(merges[n]) {
      assert q in merges[..n];
    }
  }

  lemma NotMadeBefore(merges: seq<Pair>, i: nat, n: nat)
    requires Distinct(Made(merges)) && i <= n < |merges|
    ensures Token(merges[n]) !in Made(merges[..i])
  {
    forall j | 0 <= j < i ensures Made(merges[..i])[j] != Token(merges[n]) {
      assert Made(merges)[j] != Made(merges)[n];
    }
  }

  /** The trainer's incremental segmentation is what the rank-driven encoder computes from scratch. */
  lemma {:induction false} SegmentIsEncode(words: set<Bytes>, word: Bytes, merges: seq<Pair>)
    requires Trained(words, merges)
    ensures Segment(word, merges) == Encode(word, Ranks(merges))
  {
    if merges == [] {
      NothingToMerge(Singletons(word));
    } else {
      var n := |merges| - 1;
      var pre, p := merges[..n], merges[n];
      TrainedPrefix(words, merges, n);
      SegmentIsEncode(words, word, pre);
      LastTokenFresh(words, merges);
      TrainedPairs(words, merges);
      EncodeKeeps(word, Ranks(pre));
      RunWithOneMoreMerge(Segment(word, pre), Ranks(pre), p, n);
      assert Ranks(merges) == Ranks(pre)[p := n];
      RunUnderExtension(Singletons(word), Ranks(pre), Ranks(merges), n);
    }
  }

  lemma NothingToMerge(parts: seq<Bytes>)
    ensures Run(parts, map[]) == parts
  {
  }

  // ---- replay recovers training -------------------------------------------------

  lemma AdjacentPiecesEncodeAlone(word: Bytes, mrank: MergeRanks, k: nat)
    requires k + 1 < |Encode(word, mrank)|
    ensures var a, b := Encode(word, mrank)[k], Encode(word, mrank)[k + 1]; Encode(a + b, mrank) == [a, b]
  {
    var parts := Encode(word, mrank);
    assert Run(Singletons(word), mrank) == parts;
    hide *;
    var lo, hi := Locality(Singletons(word), mrank, k, k + 2);
    SingletonsWindow(word, lo, hi);
    TwoPieces(parts, k);
    EncodesAs(word[lo..hi], mrank);
    EncodesToPair(word[lo..hi], mrank, parts[k], parts[k + 1]);
  }

  lemma TwoPieces(parts: seq<Bytes>, k: nat)
    requires k + 1 < |parts|
    ensures parts[k..k + 2] == [parts[k], parts[k + 1]]
  {
  }

  lemma EncodesAs(token: Bytes, mrank: MergeRanks)
    ensures Encode(token, mrank) == Run(Singletons(token), mrank)
  {
  }

  lemma EncodesToPair(token: Bytes, mrank: MergeRanks, a: Bytes, b: Bytes)
    requires Encode(token, mrank) == [a, b]
    ensures token == a + b
  {
    EncodeKeeps(token, mrank);
    JoinPair(a, b);
  }

  /** A trained pair is exactly what its own bytes split into under the merges before it. */
  lemma TrainedIsReplayed(words: set<Bytes>, merges: seq<Pair>)
    requires Trained(words, merges)
    ensures Replayed(merges)
  {
    forall i | 0 <= i < |merges| ensures ReplayedAt(merges, i) {
      assert Chosen(words, merges, i);
      var w, k: nat :| w in words && ChosenFrom(w, merges, i, k);
      TrainedPrefix(words, merges, i);
      SegmentIsEncode(words, w, merges[..i]);
      AdjacentPiecesEncodeAlone(w, Ranks(merges[..i]), k);
    }
  }

  lemma {:induction false} ReplayDerives(order: seq<Bytes>, merges: seq<Pair>)
    requires Replayed(merges) && MultiByte(order) == Made(merges)
    ensures Derive(order) == Derived(merges, [])
  {
    if order != [] {
      var n := |order| - 1;
      var t := order[n];
      if |t| < 2 {
        ReplayDerives(order[..n], merges);
      } else {
        var k := |merges| - 1;
        var pre := merges[..k];
        assert Made(pre) == Made(merges)[..k];
        assert MultiByte(order[..n]) == MultiByte(order)[..k];
        assert t == Made(merges)[k];
        forall i | 0 <= i < k ensures ReplayedAt(pre, i) {
          assert ReplayedAt(merges, i) && pre[..i] == merges[..i];
        }
        ReplayDerives(order[..n], pre);
        assert ReplayedAt(merges, k);
        assert merges == pre + [(merges[k].0, merges[k].1)];
      }
    }
  }

  /** From the rank table alone, `derive_merges` returns the trained list in training order and
      reports nothing unmergeable; `verify` then rejects nothing. */
  lemma TrainingIsRecovered(words: set<Bytes>, merges: seq<Pair>, table: RankTable)
    requires Trained(words, merges) && Distinct(Tokens(table))
    requires MultiByte(Tokens(ByRank(table))) == Made(merges)
    ensures Derive(Tokens(ByRank(table))) == Derived(merges, [])
    ensures Rejected(Tokens(table), Ranks(merges)) == []
  {
    TrainedIsReplayed(words, merges);
    ReplayDerives(Tokens(ByRank(table)), merges);
    var bad := Rejected(Tokens(table), Ranks(merges));
    if bad != [] {
      var (t, parts) := bad[0];
      assert (t, parts) in bad;
      VerifyRejectsExactlyUnmerged(table, t);
      assert false;
    }
  }
}
