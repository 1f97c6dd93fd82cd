/** The streaming compressor of `scripts/dsv4_ref_vectors.py`: which rows each pooled output is taken
    over. Pooling itself (a per-dimension softmax) is a function of the window and stays uninterpreted. */
module Compressor {
  import opened Arithmetic
  import opened Wrappers

  type Vec = seq<real>

  /** A position's place within its block. */
  function Phase(pos: nat, ratio: nat): (p: nat)
    requires ratio > 0
    ensures p < ratio && p <= pos
  {
    pos % ratio
  }

  /** A score, or the minus infinity the state starts with. */
  datatype Score = NegInf | Num(r: real)

  type Scores = seq<Score>

  datatype Token = Token(kv: Vec, score: Vec)

  /** What one output pools over: value rows and the biased scores that weigh them. */
  datatype Window = Window(kv: seq<Vec>, score: seq<Scores>)

  datatype Config = Config(ratio: nat, d: nat, ape: seq<Vec>) {

    predicate Overlap() {
      ratio == 4
    }

    function Width(): nat {
      if Overlap() then 2 * d else d
    }

    function Slots(): nat {
      if Overlap() then 2 * ratio else ratio
    }

    /** Where the rows of the current block start in the state. */
    function Offset(): nat {
      if Overlap() then ratio else 0
    }

    ghost predicate Valid() {
      && ratio >= 1 && |ape| == ratio
      && forall i :: 0 <= i < ratio ==> |ape[i]| == Width()
    }

    ghost predicate FitsOne(token: Token) {
      |token.kv| == |token.score| == Width()
    }

    ghost predicate Fits(tokens: seq<Token>) {
      forall i :: 0 <= i < |tokens| ==> FitsOne(tokens[i])
    }

    /** `score + ape[i]`. */
    function Biased(score: Vec, i: nat): (s: Scores)
      requires Valid() && |score| == Width() && i < ratio
      ensures |s| == Width()
    {
      seq(Width(), j requires 0 <= j < Width() => Num(score[j] + ape[i][j]))
    }
  }

  datatype State = State(kv: seq<Vec>, score: seq<Scores>)

  function Fresh(c: Config): State {
    State(seq(c.Slots(), _ => Zeros(c.Width())), seq(c.Slots(), _ => NegInfs(c.Width())))
  }

  function Zeros(n: nat): Vec {
    seq(n, _ => 0.0)
  }

  function NegInfs(n: nat): Scores {
    seq(n, _ => NegInf)
  }

  ghost predicate Shaped(c: Config, st: State) {
    && |st.kv| == |st.score| == c.Slots()
    && forall i :: 0 <= i < c.Slots() ==> |st.kv[i]| == |st.score[i]| == c.Width()
  }

  // ---- what should be emitted -------------------------------------------------------

  /** Row `at` of the stream; positions before the stream hold the fill values. */
  function RowKv(c: Config, tokens: seq<Token>, at: int): (v: Vec)
    requires c.Fits(tokens) && at < |tokens|
    ensures |v| == c.Width()
  {
    if at < 0 then Zeros(c.Width()) else tokens[at].kv
  }

  function RowScore(c: Config, tokens: seq<Token>, at: int): (s: Scores)
    requires c.Valid() && c.Fits(tokens) && at < |tokens|
    ensures |s| == c.Width()
  {
    if at < 0 then NegInfs(c.Width()) else c.Biased(tokens[at].score, Phase(at, c.ratio))
  }

  /** The low halves of the first `r` rows and the high halves of the rest. */
  function Halves<T>(rows: seq<seq<T>>, r: nat, d: nat): seq<seq<T>>
    requires forall i :: 0 <= i < |rows| ==> |rows[i]| == 2 * d
  {
    seq(|rows|, i requires 0 <= i < |rows| => if i < r then rows[i][..d] else rows[i][d..])
  }

  ghost function RowsKv(c: Config, tokens: seq<Token>, lo: int, n: nat): (rows: seq<Vec>)
    requires c.Fits(tokens) && lo + n <= |tokens|
    ensures |rows| == n && forall i :: 0 <= i < n ==> rows[i] == RowKv(c, tokens, lo + i)
  {
    seq(n, i requires 0 <= i < n => RowKv(c, tokens, lo + i))
  }

  ghost function RowsScore(c: Config, tokens: seq<Token>, lo: int, n: nat): (rows: seq<Scores>)
    requires c.Valid() && c.Fits(tokens) && lo + n <= |tokens|
    ensures |rows| == n && forall i :: 0 <= i < n ==> rows[i] == RowScore(c, tokens, lo + i)
  {
    seq(n, i requires 0 <= i < n => RowScore(c, tokens, lo + i))
  }

  /** The window of the block that starts at `start`: with overlap, the low halves of the block before
      it and the high halves of the block itself; without, just the block. */
  ghost function WindowAt(c: Config, tokens: seq<Token>, start: nat): Window
    requires c.Valid() && c.Fits(tokens) && start + c.ratio <= |tokens|
  {
    var r := c.ratio;
    if c.Overlap() then
      Window(Halves(RowsKv(c, tokens, start - r, 2 * r), r, c.d),
             Halves(RowsScore(c, tokens, start - r, 2 * r), r, c.d))
    else
      Window(RowsKv(c, tokens, start, r), RowsScore(c, tokens, start, r))
  }

  /** One window for every complete block, in order. */
  ghost function Windows(c: Config, tokens: seq<Token>): seq<Window>
    requires c.Valid() && c.Fits(tokens)
  {
    if |tokens| == 0 then []
    else Windows(c, tokens[..|tokens| - 1]) + Emitted(c, tokens)
  }

  /** What the arrival of the last token completes. */
  ghost function Emitted(c: Config, tokens: seq<Token>): seq<Window>
    requires c.Valid() && c.Fits(tokens) && |tokens| > 0
  {
    if Phase(|tokens|, c.ratio) == 0 then [WindowAt(c, tokens, |tokens| - c.ratio)] else []
  }

  // ---- prefill and decode as functions of the state ------------------------------------

  /** The state with an arriving row stored at phase `m` of the current block. */
  function Written(c: Config, st: State, token: Token, m: nat): (w: State)
    requires c.Valid() && Shaped(c, st) && c.FitsOne(token) && m < c.ratio
    ensures Shaped(c, w)
  {
    var slot := c.Offset() + m;
    State(st.kv[slot := token.kv], st.score[slot := c.Biased(token.score, m)])
  }

  /** With overlap, a finished block becomes the block before the next one. */
  function Shifted(c: Config, w: State): (st: State)
    requires Shaped(c, w)
    ensures Shaped(c, st)
  {
    if c.Overlap() then State(w.kv[c.ratio..] + w.kv[c.ratio..], w.score[c.ratio..] + w.score[c.ratio..]) else w
  }

  function DecodeState(c: Config, st: State, token: Token, pos: nat): (after: State)
    requires c.Valid() && Shaped(c, st) && c.FitsOne(token)
    ensures Shaped(c, after)
  {
    var r := c.ratio;
    var w := Written(c, st, token, Phase(pos, r));
    if Phase(pos + 1, r) == 0 then Shifted(c, w) else w
  }

  function DecodeOut(c: Config, st: State, token: Token, pos: nat): Option<Window>
    requires c.Valid() && Shaped(c, st) && c.FitsOne(token)
  {
    var r := c.ratio;
    var w := Written(c, st, token, Phase(pos, r));
    if Phase(pos + 1, r) != 0 then None
    else if c.Overlap() then Some(Window(Halves(w.kv, r, c.d), Halves(w.score, r, c.d)))
    else Some(Window(w.kv, w.score))
  }

  /** Which row slot `i` holds after a prefill, if the prefill writes it. */
  function PrefillSource(c: Config, n: nat, i: nat): (at: Option<nat>)
    requires c.Valid() && i < c.Slots()
    ensures at.Some? ==> at.value < n
  {
    var rem := Phase(n, c.ratio);
    var cut := n - rem;
    if c.Overlap() && cut >= c.ratio && i < c.ratio then Some(cut - c.ratio + i)
    else if c.Offset() <= i < c.Offset() + rem then Some(cut + (i - c.Offset()))
    else None
  }

  function PrefillKv(c: Config, st: State, tokens: seq<Token>, i: nat): (v: Vec)
    requires c.Valid() && Shaped(c, st) && c.Fits(tokens) && i < c.Slots()
    ensures |v| == c.Width()
  {
    match PrefillSource(c, |tokens|, i)
    case Some(at) => assert c.FitsOne(tokens[at]); tokens[at].kv
    case None => st.kv[i]
  }

  /** `ape` is added by the slot's place in its block, as the slice assignments do. */
  function PrefillScore(c: Config, st: State, tokens: seq<Token>, i: nat): (s: Scores)
    requires c.Valid() && Shaped(c, st) && c.Fits(tokens) && i < c.Slots()
    ensures |s| == c.Width()
  {
    match PrefillSource(c, |tokens|, i)
    case Some(at) => assert c.FitsOne(tokens[at]); c.Biased(tokens[at].score, if i < c.ratio then i else i - c.ratio)
    case None => st.score[i]
  }

  function PrefillState(c: Config, st: State, tokens: seq<Token>): (after: State)
    requires c.Valid() && Shaped(c, st) && c.Fits(tokens)
    ensures Shaped(c, after)
  {
    State(seq(c.Slots(), i requires 0 <= i < c.Slots() => PrefillKv(c, st, tokens, i)),
          seq(c.Slots(), i requires 0 <= i < c.Slots() => PrefillScore(c, st, tokens, i)))
  }

  function BlockCount(n: nat, r: nat): nat
    requires r >= 1
  {
    if n < r then 0 else BlockCount(n - r, r) + 1
  }

  /** `unflatten(0, (-1, r))`. */
  function Unflatten<T>(rows: seq<T>, r: nat): (blocks: seq<seq<T>>)
    requires r >= 1
    ensures |blocks| == BlockCount(|rows|, r)
    ensures forall b :: 0 <= b < |blocks| ==> |blocks[b]| == r && forall i :: 0 <= i < r ==> blocks[b][i] in rows
  {
    if |rows| < r then []
    else Unflatten(rows[..|rows| - r], r) + [rows[|rows| - r..]]
  }

  /** `overlap_transform`: each block's high halves, after the low halves of the block before (or the fill). */
  function OverlapTransform<T>(blocks: seq<seq<seq<T>>>, r: nat, d: nat, fill: seq<T>): (out: seq<seq<seq<T>>>)
    requires |fill| == d
    requires forall b :: 0 <= b < |blocks| ==> |blocks[b]| == r && forall i :: 0 <= i < r ==> |blocks[b][i]| == 2 * d
    ensures |out| == |blocks|
  {
    seq(|blocks|, b requires 0 <= b < |blocks| =>
      seq(2 * r, i requires 0 <= i < 2 * r =>
        if i >= r then blocks[b][i - r][d..]
        else if b > 0 then blocks[b - 1][i][..d]
        else fill))
  }

  /** The windows `prefill` pools from whole blocks, computed by its reshapes. */
  function PooledBlocks(c: Config, tokens: seq<Token>): seq<Window>
    requires c.Valid() && c.Fits(tokens)
  {
    var kv := Unflatten(KvOf(tokens), c.ratio);
    var score := Unflatten(BiasedOf(c, tokens), c.ratio);
    if c.Overlap() then
      Zip(OverlapTransform(kv, c.ratio, c.d, Zeros(c.d)), OverlapTransform(score, c.ratio, c.d, NegInfs(c.d)))
    else
      Zip(kv, score)
  }

  function PrefillOut(c: Config, tokens: seq<Token>): Option<seq<Window>>
    requires c.Valid() && c.Fits(tokens)
  {
    if |tokens| < c.ratio then None
    else Some(PooledBlocks(c, tokens[..|tokens| - Phase(|tokens|, c.ratio)]))
  }

  function KvOf(tokens: seq<Token>): (kv: seq<Vec>) {
    seq(|tokens|, i requires 0 <= i < |tokens| => tokens[i].kv)
  }

  function BiasedOf(c: Config, tokens: seq<Token>): (s: seq<Scores>)
    requires c.Valid() && c.Fits(tokens)
  {
    seq(|tokens|, i requires 0 <= i < |tokens| => c.Biased(tokens[i].score, Phase(i, c.ratio)))
  }

  function Zip(kv: seq<seq<Vec>>, score: seq<seq<Scores>>): (w: seq<Window>)
    requires |kv| == |score|
  {
    seq(|kv|, b requires 0 <= b < |kv| => Window(kv[b], score[b]))
  }

  // ---- arithmetic of block positions ------------------------------------------------------

  /** One more token advances the phase, or completes a block. */
  lemma PhaseStep(n: nat, r: nat)
    requires r > 0
    ensures Phase(n + 1, r) == if Phase(n, r) + 1 == r then 0 else Phase(n, r) + 1
  {
    var q, m := n / r, n % r;
    if m + 1 == r {
      assert (q + 1) * r == q * r + r;
      DivModUnique(n + 1, r, q + 1, 0);
    } else {
      DivModUnique(n + 1, r, q, m + 1);
    }
  }

  lemma {:induction false} PhaseAfter(start: nat, j: nat, r: nat)
    requires r > 0 && Phase(start, r) == 0 && j < r
    ensures Phase(start + j, r) == j
  {
    if j > 0 {
      PhaseAfter(start, j - 1, r);
      PhaseStep(start + j - 1, r);
    }
  }

  lemma BlockStart(n: nat, r: nat)
    requires r > 0
    ensures Phase(n - Phase(n, r), r) == 0 && (n >= r ==> n - Phase(n, r) >= r)
  {
    var q := n / r;
    assert n - n % r == q * r;
    DivModUnique(q * r, r, q, 0);
    if n >= r {
      DivAtLeast(n, r, 1);
      MulMonotone(1, q, r);
    }
  }

  lemma BlockBefore(n: nat, r: nat)
    requires r > 0 && n >= r && Phase(n, r) == 0
    ensures Phase(n - r, r) == 0
  {
    DivAtLeast(n, r, 1);
    var q := n / r;
    assert n == q * r && (q - 1) * r == q * r - r;
    DivModUnique(n - r, r, q - 1, 0);
  }

  // ---- the state carries exactly the rows still needed ---------------------------------------

  /** Rows `lo..hi` of the state are the stream's rows from `at` on. */
  ghost predicate Holds(c: Config, st: State, lo: nat, hi: nat, tokens: seq<Token>, at: int)
    requires c.Valid() && c.Fits(tokens) && hi <= |st.kv| == |st.score| && at + hi <= |tokens| + lo
  {
    forall j :: lo <= j < hi ==>
      st.kv[j] == RowKv(c, tokens, at + (j - lo)) && st.score[j] == RowScore(c, tokens, at + (j - lo))
  }

  /** The state after a stream: the unfinished block's rows and, with overlap, the block before it. */
  ghost predicate Carries(c: Config, st: State, tokens: seq<Token>)
    requires c.Valid() && c.Fits(tokens)
  {
    var m := Phase(|tokens|, c.ratio);
    var q := |tokens| - m;
    && Shaped(c, st)
    && (c.Overlap() ==> Holds(c, st, 0, c.ratio, tokens, q - c.ratio))
    && Holds(c, st, c.Offset(), c.Offset() + m, tokens, q)
  }

  lemma FreshCarries(c: Config)
    requires c.Valid()
    ensures Carries(c, Fresh(c), [])
  {
  }

  /** Writing the arriving row extends what the state holds by that row. */
  lemma WriteHolds(c: Config, st: State, tokens: seq<Token>, token: Token, q: nat, m: nat)
    requires c.Valid() && c.Fits(tokens) && c.FitsOne(token) && Shaped(c, st)
    requires |tokens| == q + m && m < c.ratio && Phase(q, c.ratio) == 0
    requires c.Overlap() ==> Holds(c, st, 0, c.ratio, tokens, q - c.ratio)
    requires Holds(c, st, c.Offset(), c.Offset() + m, tokens, q)
    ensures c.Fits(tokens + [token]) && Shaped(c, Written(c, st, token, m))
    ensures c.Overlap() ==> Holds(c, Written(c, st, token, m), 0, c.ratio, tokens + [token], q - c.ratio)
    ensures Holds(c, Written(c, st, token, m), c.Offset(), c.Offset() + m + 1, tokens + [token], q)
  {
    PhaseAfter(q, m, c.ratio);
    hide Phase;
  }

  lemma HoldsAll(c: Config, st: State, tokens: seq<Token>, at: int, n: nat)
    requires c.Valid() && c.Fits(tokens) && n == |st.kv| == |st.score| && at + n <= |tokens|
    requires Holds(c, st, 0, n, tokens, at)
    ensures st.kv == RowsKv(c, tokens, at, n) && st.score == RowsScore(c, tokens, at, n)
  {
  }

  lemma WholeWindow(c: Config, w: State, all: seq<Token>, q: nat)
    requires c.Valid() && c.Fits(all) && Shaped(c, w) && |all| == q + c.ratio && c.Overlap()
    requires Holds(c, w, 0, c.ratio, all, q - c.ratio) && Holds(c, w, c.ratio, 2 * c.ratio, all, q)
    ensures w.kv == RowsKv(c, all, q - c.ratio, 2 * c.ratio) && w.score == RowsScore(c, all, q - c.ratio, 2 * c.ratio)
  {
    hide RowKv, RowScore;
    assert Holds(c, w, 0, 2 * c.ratio, all, q - c.ratio) by {
      forall j | c.ratio <= j < 2 * c.ratio
        ensures w.kv[j] == RowKv(c, all, q - c.ratio + (j - 0)) && w.score[j] == RowScore(c, all, q - c.ratio + (j - 0))
      {
        assert w.kv[j] == RowKv(c, all, q + (j - c.ratio)) && w.score[j] == RowScore(c, all, q + (j - c.ratio));
      }
    }
    hide Holds, Shaped;
    HoldsAll(c, w, all, q - c.ratio, 2 * c.ratio);
  }

  lemma ShiftedHolds(c: Config, w: State, all: seq<Token>, q: nat)
    requires c.Valid() && c.Fits(all) && Shaped(c, w) && |all| == q + c.ratio && c.Overlap()
    requires Holds(c, w, c.ratio, 2 * c.ratio, all, q)
    ensures Shaped(c, Shifted(c, w)) && Holds(c, Shifted(c, w), 0, c.ratio, all, q)
  {
    hide RowKv, RowScore;
  }

  lemma HoldsNothing(c: Config, st: State, all: seq<Token>)
    requires c.Valid() && c.Fits(all) && Shaped(c, st)
    ensures Holds(c, st, c.Offset(), c.Offset(), all, |all|)
  {
  }

  /** When the arriving row completes its block, the state holds the whole window. */
  lemma BlockComplete(c: Config, w: State, all: seq<Token>, q: nat)
    requires c.Valid() && c.Fits(all) && Shaped(c, w) && |all| == q + c.ratio
    requires c.Overlap() ==> Holds(c, w, 0, c.ratio, all, q - c.ratio)
    requires Holds(c, w, c.Offset(), c.Offset() + c.ratio, all, q)
    ensures WindowAt(c, all, q) ==
      if c.Overlap() then Window(Halves(w.kv, c.ratio, c.d), Halves(w.score, c.ratio, c.d)) else Window(w.kv, w.score)
    ensures Shaped(c, Shifted(c, w)) && Holds(c, Shifted(c, w), c.Offset(), c.Offset(), all, |all|)
    ensures c.Overlap() ==> Holds(c, Shifted(c, w), 0, c.ratio, all, q)
  {
    hide Holds, Shaped, Shifted, WindowAt, Halves;
    if c.Overlap() {
      OverlapComplete(c, w, all, q);
      ShiftedHolds(c, w, all, q);
    } else {
      PlainComplete(c, w, all, q);
    }
    HoldsNothing(c, Shifted(c, w), all);
  }

  lemma OverlapComplete(c: Config, w: State, all: seq<Token>, q: nat)
    requires c.Valid() && c.Fits(all) && Shaped(c, w) && |all| == q + c.ratio && c.Overlap()
    requires Holds(c, w, 0, c.ratio, all, q - c.ratio) && Holds(c, w, c.ratio, 2 * c.ratio, all, q)
    ensures WindowAt(c, all, q) == Window(Halves(w.kv, c.ratio, c.d), Halves(w.score, c.ratio, c.d))
  {
    WholeWindow(c, w, all, q);
    hide Holds, Shaped, Halves, RowsKv, RowsScore;
  }

  lemma PlainComplete(c: Config, w: State, all: seq<Token>, q: nat)
    requires c.Valid() && c.Fits(all) && Shaped(c, w) && |all| == q + c.ratio && !c.Overlap()
    requires Holds(c, w, 0, c.ratio, all, q)
    ensures WindowAt(c, all, q) == Window(w.kv, w.score) && Shifted(c, w) == w
  {
    hide Holds;
    HoldsAll(c, w, all, q, c.ratio);
  }

  /** What the rows held say about the carry, once the phase of the stream is known. */
  lemma HoldsCarries(c: Config, st: State, all: seq<Token>, q: nat, m: nat)
    requires c.Valid() && c.Fits(all) && Shaped(c, st) && |all| == q + m && m == Phase(|all|, c.ratio)
    requires c.Overlap() ==> Holds(c, st, 0, c.ratio, all, q - c.ratio)
    requires Holds(c, st, c.Offset(), c.Offset() + m, all, q)
    ensures Carries(c, st, all)
  {
    hide Holds, Shaped, Phase;
  }

  lemma BlockCompleteCarries(c: Config, w: State, all: seq<Token>, q: nat)
    requires c.Valid() && c.Fits(all) && Shaped(c, w) && |all| == q + c.ratio && Phase(|all|, c.ratio) == 0
    requires c.Overlap() ==> Holds(c, w, 0, c.ratio, all, q - c.ratio)
    requires Holds(c, w, c.Offset(), c.Offset() + c.ratio, all, q)
    ensures Carries(c, Shifted(c, w), all)
  {
    hide Holds, Carries, Phase, Shifted, Shaped, WindowAt, Halves;
    BlockComplete(c, w, all, q);
    HoldsCarries(c, Shifted(c, w), all, |all|, 0);
  }

  /** The decode step whose token completes its block. */
  lemma DecodeCompletes(c: Config, st: State, tokens: seq<Token>, token: Token, q: nat, m: nat, w: State)
    requires c.Valid() && c.Fits(tokens) && c.FitsOne(token) && c.Fits(tokens + [token]) && Shaped(c, st)
    requires m == Phase(|tokens|, c.ratio) && |tokens| == q + m && m + 1 == c.ratio && Phase(|tokens| + 1, c.ratio) == 0
    requires w == Written(c, st, token, m) && Shaped(c, w)
    requires c.Overlap() ==> Holds(c, w, 0, c.ratio, tokens + [token], q - c.ratio)
    requires Holds(c, w, c.Offset(), c.Offset() + m + 1, tokens + [token], q)
    ensures Carries(c, DecodeState(c, st, token, |tokens|), tokens + [token])
    ensures Listed(DecodeOut(c, st, token, |tokens|)) == Emitted(c, tokens + [token])
  {
    hide Phase, Holds, Halves, WindowAt, Written, Carries, Shifted, Shaped;
    BlockComplete(c, w, tokens + [token], q);
    BlockCompleteCarries(c, w, tokens + [token], q);
  }

  /** A decode step inside a block. */
  lemma DecodeStores(c: Config, st: State, tokens: seq<Token>, token: Token, q: nat, m: nat, w: State)
    requires c.Valid() && c.Fits(tokens) && c.FitsOne(token) && c.Fits(tokens + [token]) && Shaped(c, st)
    requires m == Phase(|tokens|, c.ratio) && |tokens| == q + m && m + 1 < c.ratio
    requires Phase(|tokens| + 1, c.ratio) == m + 1
    requires w == Written(c, st, token, m) && Shaped(c, w)
    requires c.Overlap() ==> Holds(c, w, 0, c.ratio, tokens + [token], q - c.ratio)
    requires Holds(c, w, c.Offset(), c.Offset() + m + 1, tokens + [token], q)
    ensures Carries(c, DecodeState(c, st, token, |tokens|), tokens + [token])
    ensures Listed(DecodeOut(c, st, token, |tokens|)) == Emitted(c, tokens + [token])
  {
    hide Phase, Holds, Halves, WindowAt, Written, Carries, Shifted, Shaped;
    HoldsCarries(c, w, tokens + [token], q, m + 1);
  }

  lemma CarriesMeans(c: Config, st: State, tokens: seq<Token>)
    requires c.Valid() && c.Fits(tokens) && Carries(c, st, tokens)
    ensures c.ratio >= 1 && Shaped(c, st) && |st.kv| == |st.score| == c.Slots() && c.Offset() + c.ratio <= c.Slots()
    ensures var m := Phase(|tokens|, c.ratio); var q := |tokens| - m;
            && (c.Overlap() ==> Holds(c, st, 0, c.ratio, tokens, q - c.ratio))
            && Holds(c, st, c.Offset(), c.Offset() + m, tokens, q)
  {
    hide Phase, Holds;
  }

  /** One decode step keeps the carry and emits exactly the window its token completes. */
  lemma DecodeCarries(c: Config, st: State, tokens: seq<Token>, token: Token)
    requires c.Valid() && c.Fits(tokens) && c.FitsOne(token) && Carries(c, st, tokens)
    ensures c.Fits(tokens + [token])
    ensures Carries(c, DecodeState(c, st, token, |tokens|), tokens + [token])
    ensures Listed(DecodeOut(c, st, token, |tokens|)) == Emitted(c, tokens + [token])
  {
    hide *;
    CarriesMeans(c, st, tokens);
    var m := Phase(|tokens|, c.ratio);
    var q := |tokens| - m;
    var w := Written(c, st, token, m);
    PhaseStep(|tokens|, c.ratio);
    BlockStart(|tokens|, c.ratio);
    WriteHolds(c, st, tokens, token, q, m);
    if m + 1 == c.ratio {
      DecodeCompletes(c, st, tokens, token, q, m, w);
    } else {
      DecodeStores(c, st, tokens, token, q, m, w);
    }
  }

  function Listed<T>(o: Option<T>): seq<T> {
    if o.Some? then [o.value] else []
  }

  // ---- prefill ------------------------------------------------------------------------------

  /** After a prefill the state carries exactly what decoding needs. What the state held before matters
      only with overlap and less than one block, where the rows before the stream must still be the fill. */
  lemma PrefillCarries(c: Config, st: State, tokens: seq<Token>)
    requires c.Valid() && c.Fits(tokens) && Shaped(c, st)
    requires c.Overlap() && |tokens| < c.ratio ==> Carries(c, st, [])
    ensures Carries(c, PrefillState(c, st, tokens), tokens)
  {
    var m := Phase(|tokens|, c.ratio);
    var q := |tokens| - m;
    BlockStart(|tokens|, c.ratio);
    PrefillStoresRemainder(c, st, tokens, q, m);
    if c.Overlap() {
      PrefillStoresLastBlock(c, st, tokens, q, m);
    }
    HoldsCarries(c, PrefillState(c, st, tokens), tokens, q, m);
  }

  lemma PrefillStoresLastBlock(c: Config, st: State, tokens: seq<Token>, q: nat, m: nat)
    requires c.Valid() && c.Fits(tokens) && Shaped(c, st) && c.Overlap()
    requires m == Phase(|tokens|, c.ratio) && |tokens| == q + m && Phase(q, c.ratio) == 0
    requires |tokens| >= c.ratio ==> q >= c.ratio
    requires |tokens| < c.ratio ==> Carries(c, st, [])
    ensures Holds(c, PrefillState(c, st, tokens), 0, c.ratio, tokens, q - c.ratio)
  {
    var r, after := c.ratio, PrefillState(c, st, tokens);
    hide PrefillState, Phase, Shaped, Carries;
    forall j | 0 <= j < r
      ensures after.kv[j] == RowKv(c, tokens, q - r + (j - 0)) && after.score[j] == RowScore(c, tokens, q - r + (j - 0))
    {
      if q >= r {
        LastBlockRow(c, st, tokens, q, m, j);
      } else {
        PhaseOfSmall(q, r);
        RowBeforeStream(c, st, tokens, j);
      }
    }
  }

  lemma PhaseOfSmall(q: nat, r: nat)
    requires q < r && Phase(q, r) == 0
    ensures q == 0
  {
    DivModUnique(q, r, 0, q);
  }

  lemma LastBlockRow(c: Config, st: State, tokens: seq<Token>, q: nat, m: nat, j: nat)
    requires c.Valid() && c.Fits(tokens) && Shaped(c, st) && c.Overlap() && j < c.ratio <= q
    requires m == Phase(|tokens|, c.ratio) && |tokens| == q + m && Phase(q, c.ratio) == 0
    ensures PrefillState(c, st, tokens).kv[j] == RowKv(c, tokens, q - c.ratio + j)
    ensures PrefillState(c, st, tokens).score[j] == RowScore(c, tokens, q - c.ratio + j)
  {
    var after := PrefillState(c, st, tokens);
    BlockBefore(q, c.ratio);
    PhaseAfter(q - c.ratio, j, c.ratio);
    hide Phase;
    assert after.kv[j] == PrefillKv(c, st, tokens, j) && after.score[j] == PrefillScore(c, st, tokens, j);
  }

  lemma RowBeforeStream(c: Config, st: State, tokens: seq<Token>, j: nat)
    requires c.Valid() && c.Fits(tokens) && Shaped(c, st) && c.Overlap() && |tokens| < c.ratio && j < c.ratio
    requires Carries(c, st, []) && Phase(|tokens|, c.ratio) == |tokens|
    ensures PrefillState(c, st, tokens).kv[j] == RowKv(c, tokens, j - c.ratio)
    ensures PrefillState(c, st, tokens).score[j] == RowScore(c, tokens, j - c.ratio)
  {
    var after := PrefillState(c, st, tokens);
    assert after.kv[j] == PrefillKv(c, st, tokens, j) && after.score[j] == PrefillScore(c, st, tokens, j);
    var origin: int := -(c.ratio as int);
    assert Holds(c, st, 0, c.ratio, [], origin);
    assert st.kv[j] == RowKv(c, [], origin + (j - 0)) && st.score[j] == RowScore(c, [], origin + (j - 0));
  }

  lemma PrefillStoresRemainder(c: Config, st: State, tokens: seq<Token>, q: nat, m: nat)
    requires c.Valid() && c.Fits(tokens) && Shaped(c, st)
    requires m == Phase(|tokens|, c.ratio) && |tokens| == q + m && Phase(q, c.ratio) == 0
    ensures Holds(c, PrefillState(c, st, tokens), c.Offset(), c.Offset() + m, tokens, q)
  {
    var after := PrefillState(c, st, tokens);
    hide Phase, PrefillState, Shaped;
    forall j | c.Offset() <= j < c.Offset() + m
      ensures after.kv[j] == RowKv(c, tokens, q + (j - c.Offset()))
      ensures after.score[j] == RowScore(c, tokens, q + (j - c.Offset()))
    {
      RemainderRow(c, st, tokens, q, m, j);
    }
  }

  lemma RemainderRow(c: Config, st: State, tokens: seq<Token>, q: nat, m: nat, j: nat)
    requires c.Valid() && c.Fits(tokens) && Shaped(c, st) && c.Offset() <= j < c.Offset() + m
    requires m == Phase(|tokens|, c.ratio) && |tokens| == q + m && Phase(q, c.ratio) == 0
    ensures PrefillState(c, st, tokens).kv[j] == RowKv(c, tokens, q + (j - c.Offset()))
    ensures PrefillState(c, st, tokens).score[j] == RowScore(c, tokens, q + (j - c.Offset()))
  {
    var after := PrefillState(c, st, tokens);
    PhaseAfter(q, j - c.Offset(), c.ratio);
    hide Phase;
    assert after.kv[j] == PrefillKv(c, st, tokens, j) && after.score[j] == PrefillScore(c, st, tokens, j);
  }

  lemma UnflattenLast<T>(rows: seq<T>, r: nat)
    requires r >= 1 && |rows| >= r
    ensures Unflatten(rows, r) == Unflatten(rows[..|rows| - r], r) + [rows[|rows| - r..]]
  {
  }

  lemma UnflattenLastButOne<T>(rows: seq<T>, r: nat)
    requires r >= 1 && |rows| >= r
    ensures var pre := Unflatten(rows[..|rows| - r], r);
            if |rows| >= 2 * r then pre != [] && pre[|pre| - 1] == rows[|rows| - 2 * r..|rows| - r] else pre == []
  {
  }

  /** The last window `overlap_transform` builds, read off the rows directly. */
  function LastOverlap<T>(rows: seq<seq<T>>, r: nat, d: nat, fill: seq<T>): seq<seq<T>>
    requires |rows| >= r && forall i :: 0 <= i < |rows| ==> |rows[i]| == 2 * d
  {
    var n := |rows|;
    seq(2 * r, i requires 0 <= i < 2 * r =>
      if i >= r then rows[n - 2 * r + i][d..]
      else if n >= 2 * r then rows[n - 2 * r + i][..d]
      else fill)
  }

  lemma OverlapPrefix<T>(blocks: seq<seq<seq<T>>>, last: seq<seq<T>>, r: nat, d: nat, fill: seq<T>)
    requires |fill| == d && |last| == r && forall i :: 0 <= i < r ==> |last[i]| == 2 * d
    requires forall b :: 0 <= b < |blocks| ==> |blocks[b]| == r && forall i :: 0 <= i < r ==> |blocks[b][i]| == 2 * d
    ensures OverlapTransform(blocks + [last], r, d, fill)
         == OverlapTransform(blocks, r, d, fill) + [OverlapTransform(blocks + [last], r, d, fill)[|blocks|]]
  {
    var all := OverlapTransform(blocks + [last], r, d, fill);
    assert forall b :: 0 <= b < |blocks| ==> all[b] == OverlapTransform(blocks, r, d, fill)[b];
  }

  lemma OverlapLastOne<T>(blocks: seq<seq<seq<T>>>, rows: seq<seq<T>>, r: nat, d: nat, fill: seq<T>)
    requires r >= 1 && |rows| >= r && |fill| == d && forall i :: 0 <= i < |rows| ==> |rows[i]| == 2 * d
    requires forall b :: 0 <= b < |blocks| ==> |blocks[b]| == r && forall i :: 0 <= i < r ==> |blocks[b][i]| == 2 * d
    requires if |rows| >= 2 * r then blocks != [] && blocks[|blocks| - 1] == rows[|rows| - 2 * r..|rows| - r]
            else blocks == []
    ensures OverlapTransform(blocks + [rows[|rows| - r..]], r, d, fill)[|blocks|] == LastOverlap(rows, r, d, fill)
  {
  }

  lemma OverlapLast<T>(rows: seq<seq<T>>, r: nat, d: nat, fill: seq<T>)
    requires r >= 1 && |rows| >= r && |fill| == d && forall i :: 0 <= i < |rows| ==> |rows[i]| == 2 * d
    ensures OverlapTransform(Unflatten(rows, r), r, d, fill)
         == OverlapTransform(Unflatten(rows[..|rows| - r], r), r, d, fill) + [LastOverlap(rows, r, d, fill)]
  {
    hide Unflatten, LastOverlap, OverlapTransform;
    UnflattenLast(rows, r);
    UnflattenLastButOne(rows, r);
    var blocks := Unflatten(rows[..|rows| - r], r);
    OverlapPrefix(blocks, rows[|rows| - r..], r, d, fill);
    OverlapLastOne(blocks, rows, r, d, fill);
  }

  lemma HalvesOfLastRows<T>(ext: seq<seq<T>>, rows: seq<seq<T>>, r: nat, d: nat, fill: seq<T>)
    requires |rows| == r || |rows| >= 2 * r
    requires |ext| == 2 * r && |fill| == 2 * d && forall i :: 0 <= i < |rows| ==> |rows[i]| == 2 * d
    requires forall i :: 0 <= i < 2 * r ==>
      ext[i] == if |rows| - 2 * r + i < 0 then fill else rows[|rows| - 2 * r + i]
    ensures Halves(ext, r, d) == LastOverlap(rows, r, d, fill[..d])
  {
  }

  lemma LastWindow(c: Config, tokens: seq<Token>)
    requires c.Valid() && c.Fits(tokens) && c.Overlap() && |tokens| >= c.ratio
    requires |tokens| == c.ratio || |tokens| >= 2 * c.ratio
    ensures WindowAt(c, tokens, |tokens| - c.ratio)
         == Window(LastOverlap(KvOf(tokens), c.ratio, c.d, Zeros(c.d)),
                   LastOverlap(BiasedOf(c, tokens), c.ratio, c.d, NegInfs(c.d)))
  {
    LastRowsKv(c, tokens);
    LastRowsScore(c, tokens);
    hide Phase, Halves, LastOverlap, RowsKv, RowsScore;
  }

  lemma LastRowsKv(c: Config, tokens: seq<Token>)
    requires c.Valid() && c.Fits(tokens) && c.Overlap()
    requires |tokens| == c.ratio || |tokens| >= 2 * c.ratio
    ensures Halves(RowsKv(c, tokens, |tokens| - 2 * c.ratio, 2 * c.ratio), c.ratio, c.d)
         == LastOverlap(KvOf(tokens), c.ratio, c.d, Zeros(c.d))
  {
    assert Zeros(2 * c.d)[..c.d] == Zeros(c.d);
    hide Phase, Halves, LastOverlap;
    HalvesOfLastRows(RowsKv(c, tokens, |tokens| - 2 * c.ratio, 2 * c.ratio), KvOf(tokens), c.ratio, c.d,
        Zeros(2 * c.d));
  }

  lemma LastRowsScore(c: Config, tokens: seq<Token>)
    requires c.Valid() && c.Fits(tokens) && c.Overlap()
    requires |tokens| == c.ratio || |tokens| >= 2 * c.ratio
    ensures Halves(RowsScore(c, tokens, |tokens| - 2 * c.ratio, 2 * c.ratio), c.ratio, c.d)
         == LastOverlap(BiasedOf(c, tokens), c.ratio, c.d, NegInfs(c.d))
  {
    assert NegInfs(2 * c.d)[..c.d] == NegInfs(c.d);
    hide Phase, Halves, LastOverlap;
    HalvesOfLastRows(RowsScore(c, tokens, |tokens| - 2 * c.ratio, 2 * c.ratio), BiasedOf(c, tokens), c.ratio, c.d,
        NegInfs(2 * c.d));
  }

  /** Tokens after the last complete block complete nothing. */
  lemma {:induction false} WindowsWithinBlock(c: Config, tokens: seq<Token>, q: nat, m: nat)
    requires c.Valid() && c.Fits(tokens) && |tokens| == q + m && m < c.ratio && Phase(q, c.ratio) == 0
    ensures Windows(c, tokens) == Windows(c, tokens[..q])
    decreases m
  {
    if m == 0 {
      assert tokens[..q] == tokens;
    } else {
      var pre := tokens[..|tokens| - 1];
      PhaseAfter(q, m, c.ratio);
      WindowsWithinBlock(c, pre, q, m - 1);
      assert pre[..q] == tokens[..q];
    }
  }

  lemma WindowsLast(c: Config, tokens: seq<Token>)
    requires c.Valid() && c.Fits(tokens) && tokens != []
    ensures c.Fits(tokens[..|tokens| - 1])
    ensures Windows(c, tokens) == Windows(c, tokens[..|tokens| - 1]) + Emitted(c, tokens)
  {
    hide Emitted;
  }

  lemma WindowsOfWholeBlocks(c: Config, tokens: seq<Token>)
    requires c.Valid() && c.Fits(tokens) && |tokens| >= c.ratio && Phase(|tokens|, c.ratio) == 0
    ensures Windows(c, tokens) == Windows(c, tokens[..|tokens| - c.ratio]) + [WindowAt(c, tokens, |tokens| - c.ratio)]
  {
    hide Phase, Windows, WindowAt;
    var pre := tokens[..|tokens| - 1];
    BlockBefore(|tokens|, c.ratio);
    WindowsLast(c, tokens);
    WindowsWithinBlock(c, pre, |tokens| - c.ratio, c.ratio - 1);
    assert pre[..|tokens| - c.ratio] == tokens[..|tokens| - c.ratio];
  }

  lemma PooledBlocksSnoc(c: Config, tokens: seq<Token>)
    requires c.Valid() && c.Fits(tokens) && |tokens| >= c.ratio && Phase(|tokens|, c.ratio) == 0
    ensures PooledBlocks(c, tokens)
         == PooledBlocks(c, tokens[..|tokens| - c.ratio]) + [WindowAt(c, tokens, |tokens| - c.ratio)]
  {
    var r, n := c.ratio, |tokens|;
    assert KvOf(tokens)[..n - r] == KvOf(tokens[..n - r]);
    assert BiasedOf(c, tokens)[..n - r] == BiasedOf(c, tokens[..n - r]);
    if c.Overlap() {
      BlockBefore(n, r);
      if n < 2 * r {
        DivModUnique(n - r, r, 0, n - r);
      }
      hide Unflatten, WindowAt, KvOf, BiasedOf, Phase;
      OverlapSnoc(c, tokens);
    } else {
      hide Unflatten, WindowAt, KvOf, BiasedOf, Phase;
      UnflattenLast(KvOf(tokens), r);
      UnflattenLast(BiasedOf(c, tokens), r);
      LastBlock(c, tokens);
    }
  }

  lemma OverlapSnoc(c: Config, tokens: seq<Token>)
    requires c.Valid() && c.Fits(tokens) && c.Overlap()
    requires |tokens| == c.ratio || |tokens| >= 2 * c.ratio
    requires KvOf(tokens)[..|tokens| - c.ratio] == KvOf(tokens[..|tokens| - c.ratio])
    requires BiasedOf(c, tokens)[..|tokens| - c.ratio] == BiasedOf(c, tokens[..|tokens| - c.ratio])
    ensures PooledBlocks(c, tokens)
         == PooledBlocks(c, tokens[..|tokens| - c.ratio]) + [WindowAt(c, tokens, |tokens| - c.ratio)]
  {
    hide Unflatten, OverlapTransform, LastOverlap, WindowAt, Phase;
    OverlapLast(KvOf(tokens), c.ratio, c.d, Zeros(c.d));
    OverlapLast(BiasedOf(c, tokens), c.ratio, c.d, NegInfs(c.d));
    LastWindow(c, tokens);
  }

  lemma LastBlock(c: Config, tokens: seq<Token>)
    requires c.Valid() && c.Fits(tokens) && !c.Overlap() && |tokens| >= c.ratio
    ensures var q := |tokens| - c.ratio;
            WindowAt(c, tokens, q) == Window(KvOf(tokens)[q..], BiasedOf(c, tokens)[q..])
  {
  }

  lemma {:induction false} PooledBlocksAreWindows(c: Config, tokens: seq<Token>)
    requires c.Valid() && c.Fits(tokens) && Phase(|tokens|, c.ratio) == 0
    ensures PooledBlocks(c, tokens) == Windows(c, tokens)
    decreases |tokens|
  {
    var r, n := c.ratio, |tokens|;
    if n == 0 {
      assert PooledBlocks(c, tokens) == [];
    } else {
      if n < r {
        DivModUnique(n, r, 0, n);
      }
      BlockBefore(n, r);
      PooledBlocksSnoc(c, tokens);
      WindowsOfWholeBlocks(c, tokens);
      PooledBlocksAreWindows(c, tokens[..n - r]);
    }
  }

  lemma NoWindowYet(c: Config, tokens: seq<Token>)
    requires c.Valid() && c.Fits(tokens) && |tokens| < c.ratio
    ensures Windows(c, tokens) == []
  {
    BlockStart(0, c.ratio);
    WindowsWithinBlock(c, tokens, 0, |tokens|);
    assert tokens[..0] == [];
  }

  /** A prefill of the whole stream emits one window per complete block. */
  lemma PrefillEmitsWindows(c: Config, tokens: seq<Token>)
    requires c.Valid() && c.Fits(tokens)
    ensures AllListed(PrefillOut(c, tokens)) == Windows(c, tokens)
  {
    hide Windows, PooledBlocks, Phase;
    if |tokens| < c.ratio {
      NoWindowYet(c, tokens);
    } else {
      var m := Phase(|tokens|, c.ratio);
      var q := |tokens| - m;
      BlockStart(|tokens|, c.ratio);
      WindowsWithinBlock(c, tokens, q, m);
      PooledBlocksAreWindows(c, tokens[..q]);
    }
  }

  function AllListed<T>(o: Option<seq<T>>): seq<T> {
    if o.Some? then o.value else []
  }

  // ---- any split of the stream emits the same windows -----------------------------------------

  /** One decode per token, in order, from position `pos`. */
  function DecodeAll(c: Config, st: State, rest: seq<Token>, pos: nat): seq<Window>
    requires c.Valid() && Shaped(c, st) && c.Fits(rest)
    decreases |rest|
  {
    if rest == [] then []
    else
      assert c.FitsOne(rest[0]);
      Listed(DecodeOut(c, st, rest[0], pos)) + DecodeAll(c, DecodeState(c, st, rest[0], pos), rest[1..], pos + 1)
  }

  lemma DecodeAllCons(c: Config, st: State, rest: seq<Token>, pos: nat)
    requires c.Valid() && Shaped(c, st) && c.Fits(rest) && rest != []
    ensures c.FitsOne(rest[0]) && c.Fits(rest[1..])
    ensures DecodeAll(c, st, rest, pos)
         == Listed(DecodeOut(c, st, rest[0], pos)) + DecodeAll(c, DecodeState(c, st, rest[0], pos), rest[1..], pos + 1)
  {
    hide DecodeState, DecodeOut, Shaped;
  }

  lemma WindowsSnoc(c: Config, seen: seq<Token>, t: Token)
    requires c.Valid() && c.Fits(seen) && c.FitsOne(t)
    ensures c.Fits(seen + [t]) && Windows(c, seen + [t]) == Windows(c, seen) + Emitted(c, seen + [t])
  {
    hide Windows, Emitted;
    WindowsLast(c, seen + [t]);
    assert (seen + [t])[..|seen|] == seen;
  }

  lemma Regroup<T>(a: seq<T>, b: seq<T>, d: seq<T>)
    ensures a + (b + d) == (a + b) + d
  {
  }

  lemma NextToken(seen: seq<Token>, rest: seq<Token>)
    requires rest != []
    ensures (seen + [rest[0]]) + rest[1..] == seen + rest
  {
  }

  lemma CarriesShaped(c: Config, st: State, tokens: seq<Token>)
    requires c.Valid() && c.Fits(tokens) && Carries(c, st, tokens)
    ensures Shaped(c, st)
  {
  }

  lemma DecodedNothing(c: Config, st: State, seen: seq<Token>)
    requires c.Valid() && Shaped(c, st) && c.Fits(seen)
    ensures seen + [] == seen && c.Fits([]) && Windows(c, seen) + DecodeAll(c, st, [], |seen|) == Windows(c, seen)
  {
    hide Windows;
  }

  lemma {:induction false} DecodeAllEmits(c: Config, st: State, seen: seq<Token>, rest: seq<Token>)
    requires c.Valid() && c.Fits(seen) && c.Fits(rest) && Carries(c, st, seen)
    ensures c.Fits(seen + rest)
    ensures Windows(c, seen) + DecodeAll(c, st, rest, |seen|) == Windows(c, seen + rest)
    decreases |rest|
  {
    hide *;
    CarriesShaped(c, st, seen);
    if rest == [] {
      DecodedNothing(c, st, seen);
    } else {
      var t := rest[0];
      DecodeAllCons(c, st, rest, |seen|);
      DecodeCarries(c, st, seen, t);
      WindowsSnoc(c, seen, t);
      DecodeAllEmits(c, DecodeState(c, st, t, |seen|), seen + [t], rest[1..]);
      NextToken(seen, rest);
      Regroup(Windows(c, seen), Listed(DecodeOut(c, st, t, |seen|)),
          DecodeAll(c, DecodeState(c, st, t, |seen|), rest[1..], |seen| + 1));
    }
  }

  /** A prefill of the first `n` tokens on a fresh state. */
  lemma PrefillStarts(c: Config, tokens: seq<Token>, n: nat)
    requires c.Valid() && c.Fits(tokens) && n <= |tokens|
    ensures c.Fits(tokens[..n]) && c.Fits(tokens[n..]) && Shaped(c, Fresh(c))
    ensures Carries(c, PrefillState(c, Fresh(c), tokens[..n]), tokens[..n])
    ensures AllListed(PrefillOut(c, tokens[..n])) == Windows(c, tokens[..n])
  {
    FreshCarries(c);
    hide Windows, PrefillOut, PrefillState, Fresh, Carries;
    CarriesShaped(c, Fresh(c), []);
    PrefillCarries(c, Fresh(c), tokens[..n]);
    PrefillEmitsWindows(c, tokens[..n]);
  }

  /** Prefilling any first part and decoding the rest token by token emits exactly the windows of one
      prefill of the whole stream, in the same order. */
  lemma SplitAnywhere(c: Config, tokens: seq<Token>, n: nat)
    requires c.Valid() && c.Fits(tokens) && n <= |tokens|
    ensures AllListed(PrefillOut(c, tokens[..n])) + DecodeAll(c, PrefillState(c, Fresh(c), tokens[..n]), tokens[n..], n)
         == AllListed(PrefillOut(c, tokens))
  {
    hide *;
    PrefillStarts(c, tokens, n);
    PrefillEmitsWindows(c, tokens);
    DecodeAllEmits(c, PrefillState(c, Fresh(c), tokens[..n]), tokens[..n], tokens[n..]);
    assert tokens[..n] + tokens[n..] == tokens;
  }

  function BiasedAt(c: Config, tokens: seq<Token>, at: nat, i: nat): (s: Scores)
    requires c.Valid() && c.Fits(tokens) && at < |tokens| && i < c.ratio
    ensures |s| == c.Width()
  {
    assert c.FitsOne(tokens[at]);
    c.Biased(tokens[at].score, i)
  }

  ghost predicate Stored(c: Config, before: State, after: State, tokens: seq<Token>, at: int, lo: nat, count: nat)
    requires c.Valid() && c.Fits(tokens) && Shaped(c, before)
    requires count <= c.ratio && (count > 0 ==> 0 <= at && at + count <= |tokens|)
  {
    && |after.kv| == |after.score| == c.Slots()
    && (forall j :: 0 <= j < c.Slots() ==>
          after.kv[j] == if lo <= j < lo + count then tokens[at + (j - lo)].kv else before.kv[j])
    && (forall j :: 0 <= j < c.Slots() ==>
          after.score[j] == if lo <= j < lo + count then BiasedAt(c, tokens, at + (j - lo), j - lo)
                            else before.score[j])
  }

  lemma StoredShaped(c: Config, before: State, after: State, tokens: seq<Token>, at: int, lo: nat, count: nat)
    requires c.Valid() && c.Fits(tokens) && Shaped(c, before)
    requires count <= c.ratio && (count > 0 ==> 0 <= at && at + count <= |tokens|)
    requires Stored(c, before, after, tokens, at, lo, count)
    ensures Shaped(c, after)
  {
  }

  lemma StoredNothing(c: Config, st: State, tokens: seq<Token>, at: int)
    requires c.Valid() && c.Fits(tokens) && Shaped(c, st)
    ensures Stored(c, st, st, tokens, at, 0, 0) && Stored(c, st, st, tokens, at, c.Offset(), 0)
  {
  }

  lemma PrefillIsTwoStores(c: Config, before: State, middle: State, after: State, tokens: seq<Token>, cut: nat,
                           rem: nat)
    requires c.Valid() && c.Fits(tokens) && Shaped(c, before) && Shaped(c, middle)
    requires rem == Phase(|tokens|, c.ratio) && |tokens| == cut + rem
    requires Stored(c, before, middle, tokens, cut - c.ratio, 0, if c.Overlap() && cut >= c.ratio then c.ratio else 0)
    requires Stored(c, middle, after, tokens, cut, c.Offset(), rem)
    ensures after == PrefillState(c, before, tokens)
  {
    var want := PrefillState(c, before, tokens);
    forall j | 0 <= j < c.Slots() ensures after.kv[j] == want.kv[j] && after.score[j] == want.score[j] {
      PrefillSlot(c, before, middle, after, tokens, cut, rem, j);
    }
    hide Stored, PrefillKv, PrefillScore, Phase;
    assert after.kv == want.kv && after.score == want.score;
  }

  lemma PrefillSlot(c: Config, before: State, middle: State, after: State, tokens: seq<Token>, cut: nat, rem: nat,
                    j: nat)
    requires c.Valid() && c.Fits(tokens) && Shaped(c, before) && Shaped(c, middle) && j < c.Slots()
    requires rem == Phase(|tokens|, c.ratio) && |tokens| == cut + rem
    requires Stored(c, before, middle, tokens, cut - c.ratio, 0, if c.Overlap() && cut >= c.ratio then c.ratio else 0)
    requires Stored(c, middle, after, tokens, cut, c.Offset(), rem)
    ensures |after.kv| == |after.score| == c.Slots()
    ensures after.kv[j] == PrefillKv(c, before, tokens, j) && after.score[j] == PrefillScore(c, before, tokens, j)
  {
    hide Phase;
    assert middle.kv[j] == middle.kv[j] && middle.score[j] == middle.score[j];
  }

  lemma DecodeStepEmits(c: Config, st: State, tokens: seq<Token>, i: nat)
    requires c.Valid() && c.Fits(tokens) && i < |tokens| && Carries(c, st, tokens[..i])
    ensures c.FitsOne(tokens[i]) && Carries(c, DecodeState(c, st, tokens[i], i), tokens[..i + 1])
    ensures Windows(c, tokens[..i]) + Listed(DecodeOut(c, st, tokens[i], i)) == Windows(c, tokens[..i + 1])
  {
    assert c.FitsOne(tokens[i]) && c.Fits(tokens[..i]);
    hide *;
    assert tokens[..i + 1] == tokens[..i] + [tokens[i]];
    DecodeCarries(c, st, tokens[..i], tokens[i]);
    WindowsSnoc(c, tokens[..i], tokens[i]);
  }

  lemma SlotsSuffice(c: Config, count: nat)
    requires count <= c.ratio
    ensures count <= c.Offset() + count <= c.Slots()
  {
  }

  class RefCompressor {
    const c: Config
    const kvState: array<Vec>
    const scoreState: array<Scores>

    ghost predicate Valid()
      reads kvState, scoreState
    {
      c.Valid() && Shaped(c, Now())
    }

    ghost function Now(): State
      reads kvState, scoreState
    {
      State(kvState[..], scoreState[..])
    }

    constructor (config: Config)
      requires config.Valid()
      ensures Valid() && c == config && Now() == Fresh(c)
      ensures fresh(kvState) && fresh(scoreState)
    {
      c := config;
      kvState := new Vec[config.Slots()](_ => Zeros(config.Width()));
      scoreState := new Scores[config.Slots()](_ => NegInfs(config.Width()));
    }

    /** One pair of slice assignments: `count` rows of the stream into the slots from `lo` on. */
    method Store(tokens: seq<Token>, at: nat, lo: nat, count: nat)
      requires Valid() && c.Fits(tokens) && at + count <= |tokens| && lo + count <= c.Slots() && count <= c.ratio
      modifies kvState, scoreState
      ensures Valid() && Stored(c, old(Now()), Now(), tokens, at, lo, count)
    {
      ghost var before := Now();
      forall j | lo <= j < lo + count { kvState[j] := tokens[at + (j - lo)].kv; }
      forall j | lo <= j < lo + count { scoreState[j] := BiasedAt(c, tokens, at + (j - lo), j - lo); }
      StoredShaped(c, before, Now(), tokens, at, lo, count);
    }

    /** With overlap, the last whole block becomes the block before the next one. */
    method StoreLastBlock(tokens: seq<Token>, cutoff: nat)
      requires Valid() && c.Fits(tokens) && cutoff <= |tokens|
      modifies kvState, scoreState
      ensures Valid()
      ensures Stored(c, old(Now()), Now(), tokens, cutoff - c.ratio, 0,
                     if c.Overlap() && cutoff >= c.ratio then c.ratio else 0)
    {
      StoredNothing(c, Now(), tokens, cutoff - c.ratio);
      hide *;
      SlotsSuffice(c, c.ratio);
      if c.Overlap() && cutoff >= c.ratio {
        Store(tokens, cutoff - c.ratio, 0, c.ratio);
      }
    }

    /** The rows after the last whole block go to the slots of the current one. */
    method StoreRemainder(tokens: seq<Token>, cutoff: nat, remainder: nat)
      requires Valid() && c.Fits(tokens) && cutoff + remainder == |tokens| && remainder < c.ratio
      modifies kvState, scoreState
      ensures Valid() && Stored(c, old(Now()), Now(), tokens, cutoff, c.Offset(), remainder)
    {
      StoredNothing(c, Now(), tokens, cutoff);
      hide *;
      SlotsSuffice(c, remainder);
      if remainder > 0 {
        Store(tokens, cutoff, c.Offset(), remainder);
      }
    }

    /** The state update of a prefill: the last whole block if rows overlap, then the remainder. */
    method StoreTail(tokens: seq<Token>)
      requires Valid() && c.Fits(tokens)
      modifies kvState, scoreState
      ensures Valid() && Now() == PrefillState(c, old(Now()), tokens)
    {
      var remainder := Phase(|tokens|, c.ratio);
      var cutoff := |tokens| - remainder;
      hide *;
      ghost var before := Now();
      StoreLastBlock(tokens, cutoff);
      ghost var middle := Now();
      StoreRemainder(tokens, cutoff, remainder);
      PrefillIsTwoStores(c, before, middle, Now(), tokens, cutoff, remainder);
    }

    method Prefill(tokens: seq<Token>) returns (out: Option<seq<Window>>)
      requires Valid() && c.Fits(tokens)
      modifies kvState, scoreState
      ensures Valid() && Now() == PrefillState(c, old(Now()), tokens)
      ensures out == PrefillOut(c, tokens)
    {
      StoreTail(tokens);
      hide PrefillState, PooledBlocks, Shaped, Phase;
      if |tokens| < c.ratio {
        return None;
      }
      out := Some(PooledBlocks(c, tokens[..|tokens| - Phase(|tokens|, c.ratio)]));
    }

    /** The arriving row goes to its slot of the current block. */
    method WriteRow(token: Token, m: nat)
      requires Valid() && c.FitsOne(token) && m < c.ratio
      modifies kvState, scoreState
      ensures Valid() && Now() == Written(c, old(Now()), token, m)
    {
      kvState[c.Offset() + m] := token.kv;
      scoreState[c.Offset() + m] := c.Biased(token.score, m);
    }

    /** The finished block becomes the block before the next one. */
    method ShiftBlock()
      requires Valid() && c.Overlap()
      modifies kvState, scoreState
      ensures Valid() && Now() == Shifted(c, old(Now()))
    {
      var r := c.ratio;
      ghost var w := Now();
      forall i | 0 <= i < r { kvState[i] := kvState[r + i]; }
      assert kvState[..] == w.kv[r..] + w.kv[r..];
      forall i | 0 <= i < r { scoreState[i] := scoreState[r + i]; }
      assert scoreState[..] == w.score[r..] + w.score[r..];
    }

    method Decode(token: Token, pos: nat) returns (out: Option<Window>)
      requires Valid() && c.FitsOne(token)
      modifies kvState, scoreState
      ensures Valid() && Now() == DecodeState(c, old(Now()), token, pos)
      ensures out == DecodeOut(c, old(Now()), token, pos)
    {
      hide Phase, Written, Shifted, Halves;
      WriteRow(token, Phase(pos, c.ratio));
      if Phase(pos + 1, c.ratio) != 0 {
        return None;
      }
      if c.Overlap() {
        out := Some(Window(Halves(kvState[..], c.ratio, c.d), Halves(scoreState[..], c.ratio, c.d)));
        ShiftBlock();
      } else {
        out := Some(Window(kvState[..], scoreState[..]));
        NothingToShift(c, Now());
      }
    }
  }

  lemma NothingToShift(c: Config, w: State)
    requires Shaped(c, w) && !c.Overlap()
    ensures Shifted(c, w) == w
  {
  }

  /** The driver at the end of the script: prefill `n` tokens, decode the others, collect what is emitted. */
  method PrefillThenDecode(c: Config, tokens: seq<Token>, n: nat) returns (emitted: seq<Window>)
    requires c.Valid() && c.Fits(tokens) && n <= |tokens|
    ensures emitted == Windows(c, tokens) == AllListed(PrefillOut(c, tokens))
  {
    hide *;
    PrefillStarts(c, tokens, n);
    PrefillEmitsWindows(c, tokens);
    var compressor := new RefCompressor(c);
    var pre := compressor.Prefill(tokens[..n]);
    emitted := AllListed(pre);
    for i := n to |tokens|
      invariant compressor.Valid() && compressor.c == c && c.Fits(tokens[..i])
      invariant Carries(c, compressor.Now(), tokens[..i])
      invariant emitted == Windows(c, tokens[..i])
    {
      DecodeStepEmits(c, compressor.Now(), tokens, i);
      FitsPrefix(c, tokens, i + 1);
      var out := compressor.Decode(tokens[i], i);
      emitted := emitted + Listed(out);
    }
    assert tokens[..|tokens|] == tokens;
  }

  lemma FitsPrefix(c: Config, tokens: seq<Token>, n: nat)
    requires c.Fits(tokens) && n <= |tokens|
    ensures c.Fits(tokens[..n])
  {
  }
}
