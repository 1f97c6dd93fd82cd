/** What the compressor's windows hold, number by number, whether prefilled or decoded. */
module WindowNumbers {
  import opened Arithmetic
  import opened Compressor
  import opened Wrappers

  /** `d` numbers of a token's row, from the `lo`-th on: its values, and its scores with the positional bias added. */
  ghost predicate RowHolds(kv: Vec, score: Scores, t: Token, ape: Vec, lo: nat, d: nat) {
    && |kv| == |score| == d && lo + d <= |t.kv| && lo + d <= |t.score| && lo + d <= |ape|
    && forall x :: 0 <= x < d ==> kv[x] == t.kv[lo + x] && score[x] == Num(t.score[lo + x] + ape[lo + x])
  }

  ghost predicate RowIsFill(kv: Vec, score: Scores, d: nat) {
    |kv| == |score| == d && forall x :: 0 <= x < d ==> kv[x] == 0.0 && score[x] == NegInf
  }

  /** Place `j` of a window without overlap: row `j` of the block. */
  ghost predicate PlainRow(c: Config, tokens: seq<Token>, start: nat, w: Window, j: nat)
    requires start + c.ratio <= |tokens| && j < c.ratio == |c.ape| == |w.kv| == |w.score|
  {
    RowHolds(w.kv[j], w.score[j], tokens[start + j], c.ape[j], 0, c.d)
  }

  /** Places `j` and `4 + j` of a window with overlap: the low half of row `j` of the block before, or the fill if
      there is none, and the high half of row `j` of the block. */
  ghost predicate OverlapRow(c: Config, tokens: seq<Token>, start: nat, w: Window, j: nat)
    requires start + 4 <= |tokens| && j < 4 == |c.ape| && |w.kv| == |w.score| == 8
  {
    && (if start < 4 then RowIsFill(w.kv[j], w.score[j], c.d)
        else RowHolds(w.kv[j], w.score[j], tokens[start - 4 + j], c.ape[j], 0, c.d))
    && RowHolds(w.kv[4 + j], w.score[4 + j], tokens[start + j], c.ape[j], c.d, c.d)
  }

  /** `w` is what the block that starts at `start` pools over. */
  ghost predicate HoldsBlockAt(c: Config, tokens: seq<Token>, start: nat, w: Window) {
    && start + c.ratio <= |tokens| && |c.ape| == c.ratio
    && if c.ratio == 4 then
         |w.kv| == |w.score| == 8 && forall j: nat :: j < 4 ==> OverlapRow(c, tokens, start, w, j)
       else
         |w.kv| == |w.score| == c.ratio && forall j: nat :: j < c.ratio ==> PlainRow(c, tokens, start, w, j)
  }

  /** `w` is what the `b`-th block pools over. */
  ghost predicate HoldsBlock(c: Config, tokens: seq<Token>, b: nat, w: Window) {
    HoldsBlockAt(c, tokens, b * c.ratio, w)
  }

  /** Where block `b` starts. */
  function StartOf(b: nat, r: nat): nat {
    b * r
  }

  // ---- one window ------------------------------------------------------------------------------------------------

  lemma BlockPhase(b: nat, r: nat, start: nat, j: nat)
    requires r > 0 && start == b * r && j < r
    ensures Phase(start + j, r) == j
  {
    DivModUnique(start + j, r, b, j);
  }

  lemma RowNumbers(c: Config, tokens: seq<Token>, b: nat, start: nat, j: nat)
    requires c.Valid() && c.Fits(tokens) && start == b * c.ratio && j < c.ratio && start + j < |tokens|
    ensures var t, w := tokens[start + j], c.Width();
            && |t.kv| == |t.score| == |c.ape[j]| == w && RowKv(c, tokens, start + j) == t.kv
            && forall x :: 0 <= x < w ==> RowScore(c, tokens, start + j)[x] == Num(t.score[x] + c.ape[j][x])
  {
    BlockPhase(b, c.ratio, start, j);
    assert c.FitsOne(tokens[start + j]);
    hide Phase;
  }

  lemma PlainNumbers(c: Config, tokens: seq<Token>, b: nat, start: nat)
    requires c.Valid() && c.Fits(tokens) && !c.Overlap() && start == b * c.ratio && start + c.ratio <= |tokens|
    ensures HoldsBlockAt(c, tokens, start, WindowAt(c, tokens, start))
  {
    var w := WindowAt(c, tokens, start);
    forall j: nat | j < c.ratio ensures PlainRow(c, tokens, start, w, j) {
      RowNumbers(c, tokens, b, start, j);
      hide RowKv, RowScore;
    }
  }

  lemma OverlapRows(c: Config, tokens: seq<Token>, start: nat, j: nat)
    requires c.Valid() && c.Fits(tokens) && c.Overlap() && start + 4 <= |tokens| && j < 4
    ensures var w := WindowAt(c, tokens, start);
            && |w.kv| == |w.score| == 8
            && w.kv[j] == RowKv(c, tokens, start - 4 + j)[..c.d]
                && w.score[j] == RowScore(c, tokens, start - 4 + j)[..c.d]
            && w.kv[4 + j] == RowKv(c, tokens, start + j)[c.d..]
                && w.score[4 + j] == RowScore(c, tokens, start + j)[c.d..]
  {
    hide RowKv, RowScore;
    assert start - 4 + (4 + j) == start + j;
  }

  lemma FillRow(c: Config, tokens: seq<Token>, at: int)
    requires c.Valid() && c.Fits(tokens) && c.Overlap() && at < 0
    ensures RowIsFill(RowKv(c, tokens, at)[..c.d], RowScore(c, tokens, at)[..c.d], c.d)
  {
  }

  lemma HighRow(c: Config, tokens: seq<Token>, b: nat, start: nat, j: nat)
    requires c.Valid() && c.Fits(tokens) && c.Overlap() && start == b * c.ratio && start + 4 <= |tokens| && j < 4
    ensures RowHolds(RowKv(c, tokens, start + j)[c.d..], RowScore(c, tokens, start + j)[c.d..], tokens[start + j],
            c.ape[j], c.d, c.d)
  {
    RowNumbers(c, tokens, b, start, j);
    hide RowKv, RowScore;
  }

  lemma LowRow(c: Config, tokens: seq<Token>, b: nat, start: nat, j: nat)
    requires c.Valid() && c.Fits(tokens) && c.Overlap() && start == b * c.ratio && start + 4 <= |tokens| && j < 4
    ensures RowHolds(RowKv(c, tokens, start + j)[..c.d], RowScore(c, tokens, start + j)[..c.d], tokens[start + j],
            c.ape[j], 0, c.d)
  {
    RowNumbers(c, tokens, b, start, j);
    hide RowKv, RowScore;
  }

  lemma OverlapNumbersAt(c: Config, tokens: seq<Token>, b: nat, start: nat, j: nat)
    requires c.Valid() && c.Fits(tokens) && c.Overlap() && start == b * c.ratio && start + 4 <= |tokens| && j < 4
    ensures |WindowAt(c, tokens, start).kv| == |WindowAt(c, tokens, start).score| == 8
    ensures OverlapRow(c, tokens, start, WindowAt(c, tokens, start), j)
  {
    OverlapRows(c, tokens, start, j);
    HighRow(c, tokens, b, start, j);
    BlockEarlier(b, start);
    hide WindowAt, RowKv, RowScore, RowHolds, RowIsFill;
    if start < 4 {
      FillRow(c, tokens, start - 4 + j);
    } else {
      LowRow(c, tokens, b - 1, start - 4, j);
    }
  }

  lemma BlockEarlier(b: nat, start: nat)
    requires start == b * 4
    ensures start < 4 ==> start == 0
    ensures start >= 4 ==> b >= 1 && start - 4 == (b - 1) * 4
  {
  }

  lemma BlockNumbers(c: Config, tokens: seq<Token>, b: nat, start: nat)
    requires c.Valid() && c.Fits(tokens) && start == b * c.ratio && start + c.ratio <= |tokens|
    ensures HoldsBlockAt(c, tokens, start, WindowAt(c, tokens, start))
  {
    if c.Overlap() {
      OverlapRows(c, tokens, start, 0);
      hide WindowAt, OverlapRow, RowKv, RowScore;
      forall j: nat | j < 4 ensures OverlapRow(c, tokens, start, WindowAt(c, tokens, start), j) {
        OverlapNumbersAt(c, tokens, b, start, j);
      }
    } else {
      PlainNumbers(c, tokens, b, start);
    }
  }

  // ---- all windows of a stream -----------------------------------------------------------------------------------

  lemma EarlierRows(c: Config, tokens: seq<Token>, n: nat, at: int)
    requires c.Valid() && c.Fits(tokens) && at < n <= |tokens|
    ensures c.Fits(tokens[..n])
    ensures RowKv(c, tokens[..n], at) == RowKv(c, tokens, at) && RowScore(c, tokens[..n], at) == RowScore(c, tokens, at)
  {
  }

  lemma EarlierRowRanges(c: Config, tokens: seq<Token>, n: nat, lo: int, k: nat)
    requires c.Valid() && c.Fits(tokens) && lo + k <= n <= |tokens|
    ensures c.Fits(tokens[..n])
    ensures RowsKv(c, tokens[..n], lo, k) == RowsKv(c, tokens, lo, k)
    ensures RowsScore(c, tokens[..n], lo, k) == RowsScore(c, tokens, lo, k)
  {
    FitsPrefix(c, tokens, n);
    forall at: int | at < n
      ensures RowKv(c, tokens[..n], at) == RowKv(c, tokens, at)
      ensures RowScore(c, tokens[..n], at) == RowScore(c, tokens, at)
    {
      EarlierRows(c, tokens, n, at);
    }
    hide RowKv, RowScore;
  }

  /** A window depends on the tokens up to its block's end only. */
  lemma WindowOfPrefix(c: Config, tokens: seq<Token>, n: nat, start: nat)
    requires c.Valid() && c.Fits(tokens) && start + c.ratio <= n <= |tokens|
    ensures c.Fits(tokens[..n]) && WindowAt(c, tokens[..n], start) == WindowAt(c, tokens, start)
  {
    FitsPrefix(c, tokens, n);
    hide RowKv, RowScore, Halves;
    if c.Overlap() {
      EarlierRowRanges(c, tokens, n, start - c.ratio, 2 * c.ratio);
    } else {
      EarlierRowRanges(c, tokens, n, start, c.ratio);
    }
  }

  /** One window per whole block: `q` of them when the stream is `q` blocks and `m` tokens long. */
  ghost predicate WindowPerBlock(c: Config, tokens: seq<Token>, windows: seq<Window>, q: nat)
    requires c.Valid() && c.Fits(tokens)
  {
    && |windows| == q
    && forall b :: 0 <= b < q ==>
         StartOf(b, c.ratio) + c.ratio <= |tokens| && windows[b] == WindowAt(c, tokens, StartOf(b, c.ratio))
  }

  lemma LastBlockStart(q: nat, r: nat)
    requires q > 0
    ensures StartOf(q - 1, r) + r == StartOf(q, r)
  {
  }

  lemma {:induction false} WindowsPerBlock(c: Config, tokens: seq<Token>, q: nat, m: nat)
    requires c.Valid() && c.Fits(tokens) && |tokens| == StartOf(q, c.ratio) + m && m < c.ratio
    ensures WindowPerBlock(c, tokens, Windows(c, tokens), q)
    decreases |tokens|
  {
    hide StartOf;
    NoBlocks(q, c.ratio);
    if tokens != [] {
      if m > 0 {
        WindowsPerBlock(c, tokens[..|tokens| - 1], q, m - 1);
        InsideBlock(c, tokens, q, m);
      } else {
        LastBlockStart(q, c.ratio);
        WindowsPerBlock(c, tokens[..|tokens| - 1], q - 1, c.ratio - 1);
        CompletesBlock(c, tokens, q);
      }
    }
  }

  lemma InsideBlock(c: Config, tokens: seq<Token>, q: nat, m: nat)
    requires c.Valid() && c.Fits(tokens) && |tokens| == StartOf(q, c.ratio) + m && 0 < m < c.ratio
    requires c.Fits(tokens[..|tokens| - 1])
    requires WindowPerBlock(c, tokens[..|tokens| - 1], Windows(c, tokens[..|tokens| - 1]), q)
    ensures WindowPerBlock(c, tokens, Windows(c, tokens), q)
  {
    WindowsLast(c, tokens);
    DivModUnique(|tokens|, c.ratio, q, m);
    hide Windows, WindowAt, WindowPerBlock;
    SameWindows(c, tokens, Windows(c, tokens[..|tokens| - 1]), q);
  }

  lemma CompletesBlock(c: Config, tokens: seq<Token>, q: nat)
    requires c.Valid() && c.Fits(tokens) && |tokens| == StartOf(q, c.ratio) && q > 0 && |tokens| >= c.ratio
    requires c.Fits(tokens[..|tokens| - 1])
    requires WindowPerBlock(c, tokens[..|tokens| - 1], Windows(c, tokens[..|tokens| - 1]), q - 1)
    ensures WindowPerBlock(c, tokens, Windows(c, tokens), q)
  {
    WindowsLast(c, tokens);
    DivModUnique(|tokens|, c.ratio, q, 0);
    hide Windows, WindowAt, WindowPerBlock;
    SameWindows(c, tokens, Windows(c, tokens[..|tokens| - 1]), q - 1);
    OneMoreWindow(c, tokens, Windows(c, tokens[..|tokens| - 1]), q - 1);
  }

  lemma NoBlocks(q: nat, r: nat)
    requires r > 0
    ensures StartOf(q, r) == 0 <==> q == 0
  {
  }

  lemma SameWindows(c: Config, tokens: seq<Token>, windows: seq<Window>, q: nat)
    requires c.Valid() && c.Fits(tokens) && tokens != [] && c.Fits(tokens[..|tokens| - 1])
    requires WindowPerBlock(c, tokens[..|tokens| - 1], windows, q)
    ensures WindowPerBlock(c, tokens, windows, q)
  {
    hide WindowAt, StartOf;
    forall b | 0 <= b < q
      ensures StartOf(b, c.ratio) + c.ratio <= |tokens| && windows[b] == WindowAt(c, tokens, StartOf(b, c.ratio))
    {
      WindowOfPrefix(c, tokens, |tokens| - 1, StartOf(b, c.ratio));
    }
  }

  lemma OneMoreWindow(c: Config, tokens: seq<Token>, windows: seq<Window>, q: nat)
    requires c.Valid() && c.Fits(tokens) && |tokens| == StartOf(q + 1, c.ratio) && |tokens| >= c.ratio
    requires WindowPerBlock(c, tokens, windows, q)
    ensures WindowPerBlock(c, tokens, windows + [WindowAt(c, tokens, |tokens| - c.ratio)], q + 1)
  {
    LastBlockStart(q + 1, c.ratio);
    hide WindowAt, StartOf;
  }

  /** Every window of a stream, block by block, in numbers. */
  ghost predicate BlockByBlock(c: Config, tokens: seq<Token>, windows: seq<Window>, q: nat) {
    && |windows| == q
    && forall b :: 0 <= b < q ==> HoldsBlock(c, tokens, b, windows[b])
  }

  lemma BlockHolds(c: Config, tokens: seq<Token>, b: nat)
    requires c.Valid() && c.Fits(tokens) && StartOf(b, c.ratio) + c.ratio <= |tokens|
    ensures HoldsBlock(c, tokens, b, WindowAt(c, tokens, StartOf(b, c.ratio)))
  {
    hide WindowAt, HoldsBlockAt;
    BlockNumbers(c, tokens, b, StartOf(b, c.ratio));
  }

  lemma WindowsInNumbers(c: Config, tokens: seq<Token>, q: nat, m: nat)
    requires c.Valid() && c.Fits(tokens) && |tokens| == StartOf(q, c.ratio) + m && m < c.ratio
    ensures BlockByBlock(c, tokens, Windows(c, tokens), q)
  {
    WindowsPerBlock(c, tokens, q, m);
    hide Windows, WindowAt, HoldsBlock, StartOf;
    forall b | 0 <= b < q ensures HoldsBlock(c, tokens, b, Windows(c, tokens)[b]) {
      BlockHolds(c, tokens, b);
    }
  }

  /** What a prefill pools: one window per whole block, each holding the numbers of its block. */
  lemma PrefillInNumbers(c: Config, tokens: seq<Token>, q: nat, m: nat)
    requires c.Valid() && c.Fits(tokens) && |tokens| == StartOf(q, c.ratio) + m && m < c.ratio
    ensures PrefillOut(c, tokens).Some? <==> q > 0
    ensures q > 0 ==> BlockByBlock(c, tokens, PrefillOut(c, tokens).value, q)
  {
    WindowsInNumbers(c, tokens, q, m);
    PrefillEmitsWindows(c, tokens);
    SomeBlocks(q, c.ratio, m);
    hide PooledBlocks, Windows, BlockByBlock, Phase, StartOf;
  }

  lemma SomeBlocks(q: nat, r: nat, m: nat)
    requires m < r
    ensures StartOf(q, r) + m < r <==> q == 0
  {
    if q > 0 {
      MulMonotone(1, q, r);
    }
  }

  // ---- decoding ----------------------------------------------------------------------------------------------------

  /** The state after a prefill of the first `n` tokens and one decode for each up to the `i`-th. */
  function StateAt(c: Config, tokens: seq<Token>, n: nat, i: nat): (st: State)
    requires c.Valid() && c.Fits(tokens) && n <= i <= |tokens|
    ensures Shaped(c, st)
  {
    if i == n then
      FitsPrefix(c, tokens, n);
      PrefillState(c, Fresh(c), tokens[..n])
    else
      assert c.FitsOne(tokens[i - 1]);
      DecodeState(c, StateAt(c, tokens, n, i - 1), tokens[i - 1], i - 1)
  }

  lemma {:induction false} StateAtCarries(c: Config, tokens: seq<Token>, n: nat, i: nat)
    requires c.Valid() && c.Fits(tokens) && n <= i <= |tokens|
    ensures c.Fits(tokens[..i]) && Carries(c, StateAt(c, tokens, n, i), tokens[..i])
  {
    FitsPrefix(c, tokens, i);
    hide Carries, Fresh, PrefillState, DecodeState, Shaped;
    if i == n {
      PrefillStarts(c, tokens, n);
    } else {
      StateAtCarries(c, tokens, n, i - 1);
      StateNext(c, tokens, n, i - 1);
      hide StateAt;
      DecodeStepEmits(c, StateAt(c, tokens, n, i - 1), tokens, i - 1);
    }
  }

  lemma StateNext(c: Config, tokens: seq<Token>, n: nat, i: nat)
    requires c.Valid() && c.Fits(tokens) && n <= i < |tokens|
    ensures c.FitsOne(tokens[i]) && StateAt(c, tokens, n, i + 1) == DecodeState(c, StateAt(c, tokens, n, i), tokens[i], i)
  {
    hide DecodeState, PrefillState;
  }

  /** Decoding token `i` after any prefill and the decodes before it emits a window exactly when the token completes a
      block, and that window holds the numbers of the block. */
  lemma DecodeInNumbers(c: Config, tokens: seq<Token>, n: nat, i: nat, q: nat, m: nat)
    requires c.Valid() && c.Fits(tokens) && n <= i < |tokens| && i == StartOf(q, c.ratio) + m && m < c.ratio
    ensures c.FitsOne(tokens[i])
    ensures DecodeOut(c, StateAt(c, tokens, n, i), tokens[i], i).Some? <==> m + 1 == c.ratio
    ensures m + 1 == c.ratio ==> HoldsBlock(c, tokens, q, DecodeOut(c, StateAt(c, tokens, n, i), tokens[i], i).value)
  {
    hide StateAt, Carries, DecodeOut, WindowAt, HoldsBlock, StartOf;
    StateAtCarries(c, tokens, n, i);
    FitsPrefix(c, tokens, i + 1);
    PhaseHere(i, c.ratio, q, m);
    DecodedIsEmitted(c, StateAt(c, tokens, n, i), tokens, i);
    if m + 1 == c.ratio {
      WindowOfPrefix(c, tokens, i + 1, StartOf(q, c.ratio));
      BlockHolds(c, tokens, q);
    }
  }

  lemma PhaseHere(i: nat, r: nat, q: nat, m: nat)
    requires r > 0 && i == StartOf(q, r) + m && m < r
    ensures Phase(i + 1, r) == 0 <==> m + 1 == r
  {
    DivModUnique(i, r, q, m);
    PhaseStep(i, r);
  }

  lemma DecodedIsEmitted(c: Config, st: State, tokens: seq<Token>, i: nat)
    requires c.Valid() && c.Fits(tokens) && i < |tokens| && c.Fits(tokens[..i]) && c.Fits(tokens[..i + 1])
    requires Carries(c, st, tokens[..i])
    ensures c.FitsOne(tokens[i]) && Shaped(c, st)
    ensures Listed(DecodeOut(c, st, tokens[i], i)) == Emitted(c, tokens[..i + 1])
  {
    assert c.FitsOne(tokens[i]);
    CarriesShaped(c, st, tokens[..i]);
    hide *;
    assert tokens[..i + 1] == tokens[..i] + [tokens[i]];
    DecodeCarries(c, st, tokens[..i], tokens[i]);
  }
}
