/** The lightning indexer: per-head scores, batched projections, and a chunked selection loop that must agree
    with the plain per-query definition. Projections (a matrix product, a layer norm, a rotary embedding per
    row) are functions of the row and its position. */
module Indexer {
  import opened Hadamard
  import opened TopK
  import opened Arithmetic
  import opened Collections
  import opened Wrappers

  type Row = seq<real>

  /** One indexer layer: how a row becomes a key, per-head queries and head weights, and the two scales. */
  datatype Layer = Layer(
    nh: nat, hd: nat, key: (Row, nat) -> Row, query: (Row, nat) -> seq<Row>, headWeights: Row -> Row,
    rs: real, wsc: real)

  // ---- scores ---------------------------------------------------------------------------------------

  ghost predicate Shaped(q: seq<Row>, key: Row, w: Row) {
    |w| == |q| && forall h :: 0 <= h < |q| ==> |q[h]| == |key|
  }

  function Relu(d: real): real {
    if d > 0.0 then d else 0.0
  }

  /** The weighted sum over heads of the clipped, scaled dot products. */
  function HeadSum(q: seq<Row>, key: Row, w: Row, rs: real): real
    requires Shaped(q, key, w)
  {
    if q == [] then 0.0
    else
      var h := |q| - 1;
      HeadSum(q[..h], key, w[..h], rs) + Times(w[h], Relu(Times(Dot(q[h], key), rs)))
  }

  function Score(q: seq<Row>, key: Row, w: Row, rs: real, wsc: real): real
    requires Shaped(q, key, w)
  {
    Times(HeadSum(q, key, w, rs), wsc)
  }

  lemma DotSnoc(x: Row, y: Row, i: nat)
    requires |x| == |y| && i < |x|
    ensures Dot(x[..i + 1], y[..i + 1]) == Dot(x[..i], y[..i]) + Times(x[i], y[i])
  {
    DotConcat(x[..i], [x[i]], y[..i], [y[i]]);
    assert x[..i] + [x[i]] == x[..i + 1] && y[..i] + [y[i]] == y[..i + 1];
    assert Dot([x[i]], [y[i]]) == Times(x[i], y[i]);
  }

  method HeadDot(x: Row, y: Row) returns (d: real)
    requires |x| == |y|
    ensures d == Dot(x, y)
  {
    d := 0.0;
    var i := 0;
    while i < |x|
      invariant 0 <= i <= |x| && d == Dot(x[..i], y[..i])
    {
      DotSnoc(x, y, i);
      d := d + Times(x[i], y[i]);
      i := i + 1;
    }
    assert x[..i] == x && y[..i] == y;
  }

  /** `indexer_score`: clip each head's scaled dot product, then weight it. */
  method IndexerScore(q: seq<Row>, key: Row, w: Row, rs: real, wsc: real) returns (score: real)
    requires Shaped(q, key, w)
    ensures score == Score(q, key, w, rs, wsc)
  {
    var a := 0.0;
    var h := 0;
    while h < |q|
      invariant 0 <= h <= |q| && a == HeadSum(q[..h], key, w[..h], rs)
    {
      var d := HeadDot(q[h], key);
      d := Times(d, rs);
      assert q[..h + 1][..h] == q[..h] && w[..h + 1][..h] == w[..h];
      if d > 0.0 {
        a := a + Times(w[h], d);
      }
      h := h + 1;
    }
    assert q[..h] == q && w[..h] == w;
    score := Times(a, wsc);
  }

  // ---- what one head contributes ------------------------------------------------------------------------

  lemma ShapedParts(p: seq<Row>, q: seq<Row>, key: Row, v: Row, w: Row)
    requires Shaped(p, key, v) && Shaped(q, key, w)
    ensures Shaped(p + q, key, v + w)
  {
  }

  lemma {:induction false} HeadSumConcat(p: seq<Row>, q: seq<Row>, key: Row, v: Row, w: Row, rs: real)
    requires Shaped(p, key, v) && Shaped(q, key, w)
    ensures Shaped(p + q, key, v + w)
    ensures HeadSum(p + q, key, v + w, rs) == HeadSum(p, key, v, rs) + HeadSum(q, key, w, rs)
  {
    ShapedParts(p, q, key, v, w);
    if q == [] {
      assert p + q == p && v + w == v;
    } else {
      var h := |q| - 1;
      HeadSumConcat(p, q[..h], key, v, w[..h], rs);
      assert (p + q)[..|p + q| - 1] == p + q[..h] && (v + w)[..|p + q| - 1] == v + w[..h];
      hide Dot, Relu, Times;
    }
  }

  /** The heads but `h`. */
  function Without<T>(s: seq<T>, h: nat): seq<T>
    requires h < |s|
  {
    s[..h] + s[h + 1..]
  }

  lemma HeadApart(q: seq<Row>, key: Row, w: Row, rs: real, h: nat)
    requires Shaped(q, key, w) && h < |q|
    ensures Shaped(Without(q, h), key, Without(w, h))
    ensures HeadSum(q, key, w, rs) == HeadSum(Without(q, h), key, Without(w, h), rs) + HeadSum([q[h]], key, [w[h]], rs)
  {
    hide HeadSum;
    HeadSumConcat(q[..h], q[h + 1..], key, w[..h], w[h + 1..], rs);
    HeadSumConcat([q[h]], q[h + 1..], key, [w[h]], w[h + 1..], rs);
    HeadSumConcat(q[..h], [q[h]] + q[h + 1..], key, w[..h], [w[h]] + w[h + 1..], rs);
    assert q[..h] + ([q[h]] + q[h + 1..]) == q && w[..h] + ([w[h]] + w[h + 1..]) == w;
  }

  lemma OneHead(x: Row, key: Row, v: real, rs: real)
    requires |x| == |key|
    ensures Shaped([x], key, [v])
    ensures HeadSum([x], key, [v], rs) == if Dot(x, key) * rs > 0.0 then v * (Dot(x, key) * rs) else 0.0
  {
    hide Dot;
    assert [x][..0] == [] && [v][..0] == [];
    assert HeadSum([], key, [], rs) == 0.0;
  }

  lemma Spread(a: real, b: real, c: real)
    ensures Times(a + b, c) - Times(a, c) == Times(b, c)
  {
  }

  lemma ScoreApart(q: seq<Row>, key: Row, w: Row, rs: real, wsc: real, h: nat)
    requires Shaped(q, key, w) && h < |q|
    ensures Shaped(Without(q, h), key, Without(w, h)) && Shaped([q[h]], key, [w[h]])
    ensures Score(q, key, w, rs, wsc) - Score(Without(q, h), key, Without(w, h), rs, wsc)
         == Times(HeadSum([q[h]], key, [w[h]], rs), wsc)
  {
    HeadApart(q, key, w, rs, h);
    OneHead(q[h], key, w[h], rs);
    hide HeadSum, Dot, Shaped, Times, Without;
    Spread(HeadSum(Without(q, h), key, Without(w, h), rs), HeadSum([q[h]], key, [w[h]], rs), wsc);
  }

  lemma Weighed(p: real, v: real, c: real, sum: real)
    requires sum == if p > 0.0 then v * p else 0.0
    ensures Times(sum, c) == if p > 0.0 then v * p * c else 0.0
  {
  }

  /** One head adds its weighted product, scaled, when the product is positive, and nothing otherwise. */
  lemma HeadContributes(q: seq<Row>, key: Row, w: Row, rs: real, wsc: real, h: nat)
    requires Shaped(q, key, w) && h < |q|
    ensures Shaped(Without(q, h), key, Without(w, h))
    ensures Score(q, key, w, rs, wsc) - Score(Without(q, h), key, Without(w, h), rs, wsc)
         == if Dot(q[h], key) * rs > 0.0 then w[h] * (Dot(q[h], key) * rs) * wsc else 0.0
  {
    OneHead(q[h], key, w[h], rs);
    ScoreApart(q, key, w, rs, wsc, h);
    hide HeadSum, Dot, Shaped, Times, Without, Score;
    Weighed(Dot(q[h], key) * rs, w[h], wsc, HeadSum([q[h]], key, [w[h]], rs));
  }

  /** Without heads the score is nought, so the score is the sum of what its heads contribute. */
  lemma NoHeads(key: Row, rs: real, wsc: real)
    ensures Score([], key, [], rs, wsc) == 0.0
  {
    assert HeadSum([], key, [], rs) == 0.0;
  }

  /** A head whose product is not positive may have any weight. */
  lemma ClippedHeadIsIgnored(q: seq<Row>, key: Row, w: Row, rs: real, wsc: real, h: nat, v: real)
    requires Shaped(q, key, w) && h < |q| && Dot(q[h], key) * rs <= 0.0
    ensures Shaped(q, key, w[h := v]) && Score(q, key, w[h := v], rs, wsc) == Score(q, key, w, rs, wsc)
  {
    assert Without(w[h := v], h) == Without(w, h);
    hide Score, Dot, Without;
    HeadContributes(q, key, w, rs, wsc, h);
    HeadContributes(q, key, w[h := v], rs, wsc, h);
  }

  // ---- the per-query definition -----------------------------------------------------------------------

  /** A prefill batch: the new rows, their query latents, and where the batch starts. */
  datatype Batch = Batch(layer: Layer, x: seq<Row>, qLora: seq<Row>, topK: nat, posBase: nat)

  /** Projections have the layer's head count and width. */
  ghost predicate Fits(l: Layer) {
    && (forall r, p :: |l.key(r, p)| == l.hd)
    && (forall r, p :: |l.query(r, p)| == l.nh)
    && (forall r, p, h :: 0 <= h < l.nh ==> |l.query(r, p)[h]| == l.hd)
    && (forall r :: |l.headWeights(r)| == l.nh)
  }

  ghost predicate Valid(b: Batch) {
    Fits(b.layer) && |b.x| == |b.qLora|
  }

  lemma FitsShaped(l: Layer, q: Row, qPos: nat, k: Row, kPos: nat, w: Row)
    requires Fits(l)
    ensures Shaped(l.query(q, qPos), l.key(k, kPos), l.headWeights(w))
  {
  }

  /** The score of query `s` against key `t`. */
  ghost function PairScore(b: Batch, s: nat, t: nat): real
    requires Valid(b) && s < |b.x| && t < |b.x|
  {
    FitsShaped(b.layer, b.qLora[s], b.posBase + s, b.x[t], b.posBase + t, b.x[s]);
    Score(b.layer.query(b.qLora[s], b.posBase + s), b.layer.key(b.x[t], b.posBase + t), b.layer.headWeights(b.x[s]),
          b.layer.rs, b.layer.wsc)
  }

  ghost function PlainScores(b: Batch, s: nat, nk: nat): seq<real>
    requires Valid(b) && s < |b.x| && nk <= |b.x|
  {
    seq(nk, t requires 0 <= t < nk => PairScore(b, s, t))
  }

  /** What query `s` selects: nothing when every key fits (dense), otherwise its top keys. `None` is a panic:
      a key row past the batch, or the threshold of an empty selection. */
  ghost function Outcome(b: Batch, s: nat): Option<seq<nat>>
    requires Valid(b) && s < |b.x|
  {
    var nk := b.posBase + s + 1;
    if nk <= b.topK then Some([])
    else if nk > |b.x| || b.topK == 0 then None
    else Some(Selected(PlainScores(b, s, nk), b.topK))
  }

  lemma BeatersByScore(b: Batch, s: nat, nk: nat, t: nat)
    requires Valid(b) && s < |b.x| && t < nk <= |b.x|
    ensures |PlainScores(b, s, nk)| == nk
    ensures Beaters(PlainScores(b, s, nk), t)
         == set u: nat | u < nk && (PairScore(b, s, u) > PairScore(b, s, t)
                                    || (PairScore(b, s, u) == PairScore(b, s, t) && u < t))
  {
    hide PairScore, Fits;
  }

  /** A selecting query takes key `t` exactly when fewer than `topK` keys come before it: a larger score, or an equal
      one at an earlier position. */
  lemma SelectsByScore(b: Batch, s: nat, t: nat)
    requires Valid(b) && s < |b.x| && b.topK > 0 && b.topK < b.posBase + s + 1 <= |b.x| && t < b.posBase + s + 1
    ensures Outcome(b, s).Some?
    ensures t in Outcome(b, s).value <==>
            |set u: nat | u < b.posBase + s + 1 && (PairScore(b, s, u) > PairScore(b, s, t)
                                                    || (PairScore(b, s, u) == PairScore(b, s, t) && u < t))| < b.topK
  {
    var nk := b.posBase + s + 1;
    hide Fits, PairScore;
    WhereMembers(nk, InTop(PlainScores(b, s, nk), b.topK));
    hide PlainScores, Beaters;
    BeatersByScore(b, s, nk, t);
  }

  /** A score pairs the query's heads at its position and its row's head weights with the key at its own position: of a
      one-head query whose product is positive it is the weighted product, scaled. */
  lemma OneHeadPairScore(b: Batch, s: nat, t: nat)
    requires Valid(b) && s < |b.x| && t < |b.x| && b.layer.nh == 1
    requires Dot(b.layer.query(b.qLora[s], b.posBase + s)[0], b.layer.key(b.x[t], b.posBase + t)) * b.layer.rs > 0.0
    ensures PairScore(b, s, t)
         == b.layer.headWeights(b.x[s])[0]
            * (Dot(b.layer.query(b.qLora[s], b.posBase + s)[0], b.layer.key(b.x[t], b.posBase + t)) * b.layer.rs)
            * b.layer.wsc
  {
    var q, k, w := b.layer.query(b.qLora[s], b.posBase + s), b.layer.key(b.x[t], b.posBase + t),
        b.layer.headWeights(b.x[s]);
    FitsShaped(b.layer, b.qLora[s], b.posBase + s, b.x[t], b.posBase + t, b.x[s]);
    assert q == [q[0]] && w == [w[0]];
    hide Dot, Score, Fits;
    OneHeadScore(q[0], k, w[0], b.layer.rs, b.layer.wsc);
  }

  lemma OneHeadScore(x: Row, key: Row, v: real, rs: real, wsc: real)
    requires |x| == |key| && Dot(x, key) * rs > 0.0
    ensures Shaped([x], key, [v]) && Score([x], key, [v], rs, wsc) == v * (Dot(x, key) * rs) * wsc
  {
    hide Dot;
    OneHead(x, key, v, rs);
  }

  // ---- the batched implementation -----------------------------------------------------------------------

  /** The first query that needs a projection. */
  function FirstSelecting(topK: nat, posBase: nat, sLen: nat): nat {
    var need := if topK < posBase then 0 else topK - posBase;
    if need < sLen then need else sLen
  }

  /** Projecting from there on covers exactly the queries that select. */
  lemma FirstSelectingIsExact(topK: nat, posBase: nat, sLen: nat, s: nat)
    requires s < sLen
    ensures s >= FirstSelecting(topK, posBase, sLen) <==> posBase + s + 1 > topK
  {
  }

  /** The batched projections: all keys, and queries and head weights from row `s0` on. */
  datatype Projections = Projections(s0: nat, keys: seq<Row>, queries: seq<seq<Row>>, weights: seq<Row>)

  ghost predicate Projected(b: Batch, p: Projections) {
    && p.s0 == FirstSelecting(b.topK, b.posBase, |b.x|) <= |b.x| == |b.qLora|
    && |p.keys| == |b.x| && |p.queries| == |b.x| - p.s0 && |p.weights| == |b.x| - p.s0
    && (forall t :: 0 <= t < |b.x| ==> p.keys[t] == b.layer.key(b.x[t], b.posBase + t))
    && (forall i :: 0 <= i < |p.queries| ==> p.queries[i] == b.layer.query(b.qLora[p.s0 + i], b.posBase + p.s0 + i))
    && (forall i :: 0 <= i < |p.weights| ==> p.weights[i] == b.layer.headWeights(b.x[p.s0 + i]))
  }

  method Project(b: Batch) returns (p: Projections)
    requires |b.x| == |b.qLora|
    ensures Projected(b, p)
  {
    var s0 := FirstSelecting(b.topK, b.posBase, |b.x|);
    p := Projections(s0, KeyRows(b.layer, b.x, b.posBase), QueryRows(b.layer, b.qLora[s0..], b.posBase + s0),
                     WeightRows(b.layer, b.x[s0..]));
    SlicesProject(b, p);
  }

  lemma SlicesProject(b: Batch, p: Projections)
    requires |b.x| == |b.qLora| && p.s0 == FirstSelecting(b.topK, b.posBase, |b.x|) <= |b.x|
    requires p.keys == KeyRows(b.layer, b.x, b.posBase)
    requires p.queries == QueryRows(b.layer, b.qLora[p.s0..], b.posBase + p.s0)
    requires p.weights == WeightRows(b.layer, b.x[p.s0..])
    ensures Projected(b, p)
  {
    hide FirstSelecting;
    forall i | 0 <= i < |p.queries| ensures p.queries[i] == b.layer.query(b.qLora[p.s0 + i], b.posBase + p.s0 + i) {
      assert b.posBase + p.s0 + i == (b.posBase + p.s0) + i;
    }
  }

  function KeyRows(l: Layer, x: seq<Row>, pos: nat): (r: seq<Row>) {
    seq(|x|, t requires 0 <= t < |x| => l.key(x[t], pos + t))
  }

  function QueryRows(l: Layer, q: seq<Row>, pos: nat): (r: seq<seq<Row>>) {
    seq(|q|, i requires 0 <= i < |q| => l.query(q[i], pos + i))
  }

  function WeightRows(l: Layer, x: seq<Row>): (r: seq<Row>) {
    seq(|x|, i requires 0 <= i < |x| => l.headWeights(x[i]))
  }

  lemma ProjectedScore(b: Batch, p: Projections, s: nat, t: nat)
    requires Valid(b) && Projected(b, p) && p.s0 <= s < |b.x| && t < |b.x|
    ensures |p.queries| == |p.weights| > s - p.s0 && |p.keys| > t
    ensures Shaped(p.queries[s - p.s0], p.keys[t], p.weights[s - p.s0])
    ensures PairScore(b, s, t) == Score(p.queries[s - p.s0], p.keys[t], p.weights[s - p.s0], b.layer.rs, b.layer.wsc)
  {
    FitsShaped(b.layer, b.qLora[s], b.posBase + s, b.x[t], b.posBase + t, b.x[s]);
    hide Score, Fits, Shaped;
    assert p.queries[s - p.s0] == b.layer.query(b.qLora[p.s0 + (s - p.s0)], b.posBase + p.s0 + (s - p.s0));
    assert p.weights[s - p.s0] == b.layer.headWeights(b.x[p.s0 + (s - p.s0)]);
  }

  method ScoreRow(b: Batch, p: Projections, s: nat, nk: nat) returns (scores: seq<real>)
    requires Valid(b) && Projected(b, p) && p.s0 <= s < |b.x| && nk <= |b.x|
    ensures scores == PlainScores(b, s, nk)
  {
    hide Score, Shaped, Fits, Projected, PairScore;
    ghost var all := PlainScores(b, s, nk);
    scores := [];
    for t := 0 to nk
      invariant |scores| == t && forall u :: 0 <= u < t ==> scores[u] == all[u]
    {
      ProjectedScore(b, p, s, t);
      var sc := ScoreAt(p, s - p.s0, t, b.layer.rs, b.layer.wsc);
      scores := scores + [sc];
    }
  }

  method ScoreAt(p: Projections, si: nat, t: nat, rs: real, wsc: real) returns (sc: real)
    requires si < |p.queries| && si < |p.weights| && t < |p.keys| && Shaped(p.queries[si], p.keys[t], p.weights[si])
    ensures sc == Score(p.queries[si], p.keys[t], p.weights[si], rs, wsc)
  {
    sc := IndexerScore(p.queries[si], p.keys[t], p.weights[si], rs, wsc);
  }

  /** The body of the selection loop for one query. */
  lemma ProjectedFrom(b: Batch, p: Projections, s: nat)
    requires Projected(b, p) && s < |b.x| && b.posBase + s + 1 > b.topK
    ensures p.s0 <= s
  {
    FirstSelectingIsExact(b.topK, b.posBase, |b.x|, s);
  }

  method SelectQuery(b: Batch, p: Projections, s: nat) returns (r: Option<seq<nat>>)
    requires Valid(b) && Projected(b, p) && s < |b.x|
    ensures r == Outcome(b, s)
  {
    var nk := b.posBase + s + 1;
    if nk <= b.topK {
      return Some([]);
    }
    ProjectedFrom(b, p, s);
    if nk > |b.x| {
      return None;
    }
    hide Projected, PlainScores, Selected, Fits;
    var scores := ScoreRow(b, p, s, nk);
    r := SelectTopK(scores, b.topK);
  }

  // ---- the chunked loop ---------------------------------------------------------------------------------

  /** What is known of one query's slot: written as its outcome says, and a panic is noted. */
  ghost predicate Right(b: Batch, sel: seq<seq<nat>>, panicked: bool, s: nat)
    requires Valid(b) && s < |b.x| == |sel|
  {
    match Outcome(b, s)
    case None => panicked
    case Some(chosen) => sel[s] == chosen
  }

  ghost predicate SomePanic(b: Batch)
    requires Valid(b)
  {
    exists s :: 0 <= s < |b.x| && Outcome(b, s).None?
  }

  /** Queries for which `done` holds are right, the others still empty, and a noted panic is real. */
  ghost predicate Filled(b: Batch, sel: seq<seq<nat>>, panicked: bool, done: nat -> bool)
    requires Valid(b)
  {
    && |sel| == |b.x|
    && (forall s: nat :: s < |b.x| && done(s) ==> Right(b, sel, panicked, s))
    && (forall s: nat :: s < |b.x| && !done(s) ==> sel[s] == [])
    && (panicked ==> SomePanic(b))
  }

  function And(done: nat -> bool, lo: nat, hi: nat): nat -> bool {
    (s: nat) => done(s) || lo <= s < hi
  }

  /** One thread: the slots of its own chunk, in order. A dense query leaves its slot as it was. */
  method FillChunk(b: Batch, p: Projections, before: seq<seq<nat>>, wasPanicked: bool, lo: nat, hi: nat,
                   ghost done: nat -> bool)
      returns (sel: seq<seq<nat>>, panicked: bool)
    requires Valid(b) && Projected(b, p) && lo <= hi <= |b.x|
    requires Filled(b, before, wasPanicked, done) && forall s :: lo <= s < hi ==> !done(s)
    ensures Filled(b, sel, panicked, And(done, lo, hi))
  {
    sel, panicked := before, wasPanicked;
    var s := lo;
    while s < hi
      invariant lo <= s <= hi && Filled(b, sel, panicked, And(done, lo, s))
    {
      var r := SelectQuery(b, p, s);
      FillStep(b, sel, panicked, And(done, lo, s), And(done, lo, s + 1), s, r);
      hide Filled;
      match r {
        case None => panicked := true;
        case Some(chosen) => if chosen != [] { sel := sel[s := chosen]; }
      }
      s := s + 1;
    }
  }

  lemma FillStep(b: Batch, sel: seq<seq<nat>>, panicked: bool, done: nat -> bool, next: nat -> bool, s: nat,
                 r: Option<seq<nat>>)
    requires Valid(b) && Filled(b, sel, panicked, done) && s < |b.x| && !done(s) && r == Outcome(b, s)
    requires forall u: nat :: next(u) <==> done(u) || u == s
    ensures r.None? ==> Filled(b, sel, true, next)
    ensures r.Some? ==> Filled(b, sel[s := r.value], panicked, next)
    ensures r.Some? && r.value == [] ==> sel[s := r.value] == sel
  {
    hide Outcome;
    if r.None? {
      assert SomePanic(b);
      assert forall u: nat :: u < |b.x| && done(u) ==> Right(b, sel, panicked, u);
    } else {
      var t := sel[s := r.value];
      forall u: nat | u < |b.x| && next(u) ensures Right(b, t, panicked, u) {
        assert u != s ==> Right(b, sel, panicked, u);
      }
    }
  }

  /** Start of chunk `c`. */
  function Start(c: nat, chunk: nat): nat {
    c * chunk
  }

  lemma ChunkOf(s: nat, chunk: nat, c: nat)
    requires chunk > 0
    ensures s / chunk == c <==> Start(c, chunk) <= s < Start(c + 1, chunk)
    ensures Start(c + 1, chunk) == Start(c, chunk) + chunk
  {
    DivAtLeast(s, chunk, c);
    DivAtLeast(s, chunk, c + 1);
  }

  function OutOf(pending: set<nat>, chunk: nat): nat -> bool
    requires chunk > 0
  {
    (s: nat) => s / chunk !in pending
  }

  lemma ChunkBounds(n: nat, chunk: nat, c: nat)
    requires chunk > 0
    ensures c < DivCeil(n, chunk) <==> Start(c, chunk) < n
  {
    DivAtLeast(n + chunk - 1, chunk, c + 1);
    ChunkOf(0, chunk, c);
  }

  lemma FilledAs(b: Batch, sel: seq<seq<nat>>, panicked: bool, f: nat -> bool, g: nat -> bool)
    requires Valid(b) && Filled(b, sel, panicked, f) && forall s: nat :: s < |b.x| ==> f(s) == g(s)
    ensures Filled(b, sel, panicked, g)
  {
    hide Right, SomePanic;
  }

  lemma NoneDone(n: nat, chunk: nat, pending: set<nat>, s: nat)
    requires chunk > 0 && s < n && forall c: nat :: c < DivCeil(n, chunk) ==> c in pending
    ensures !OutOf(pending, chunk)(s)
  {
    ChunkOf(s, chunk, s / chunk);
    ChunkBounds(n, chunk, s / chunk);
  }

  lemma FilledAtStart(b: Batch, sel: seq<seq<nat>>, chunk: nat, pending: set<nat>)
    requires Valid(b) && chunk > 0 && |sel| == |b.x| && forall s :: 0 <= s < |sel| ==> sel[s] == []
    requires forall c: nat :: c < DivCeil(|b.x|, chunk) ==> c in pending
    ensures Filled(b, sel, false, OutOf(pending, chunk))
  {
    hide Right, SomePanic, OutOf, DivCeil;
    forall s: nat | s < |b.x| ensures !OutOf(pending, chunk)(s) {
      NoneDone(|b.x|, chunk, pending, s);
    }
  }

  /** Chunk `c` of the pending ones is filled by its thread. */
  method RunThread(b: Batch, p: Projections, before: seq<seq<nat>>, wasPanicked: bool, chunk: nat, c: nat,
                   ghost pending: set<nat>)
      returns (sel: seq<seq<nat>>, panicked: bool)
    requires Valid(b) && Projected(b, p) && chunk > 0 && c in pending && Start(c, chunk) < |b.x|
    requires Filled(b, before, wasPanicked, OutOf(pending, chunk))
    ensures Filled(b, sel, panicked, OutOf(pending - {c}, chunk))
  {
    var lo := Start(c, chunk);
    var hi := if lo + chunk < |b.x| then lo + chunk else |b.x|;
    forall s: nat | s < |b.x| ensures lo <= s < hi <==> s / chunk == c {
      ChunkOf(s, chunk, c);
    }
    hide Filled, Projected, Valid, Start;
    ghost var done := OutOf(pending, chunk);
    sel, panicked := FillChunk(b, p, before, wasPanicked, lo, hi, done);
    forall s: nat | s < |b.x| ensures And(done, lo, hi)(s) == OutOf(pending - {c}, chunk)(s) {
    }
    FilledAs(b, sel, panicked, And(done, lo, hi), OutOf(pending - {c}, chunk));
  }

  lemma AllRight(b: Batch, sel: seq<seq<nat>>, panicked: bool, done: nat -> bool)
    requires Valid(b) && Filled(b, sel, panicked, done) && forall s: nat :: s < |b.x| ==> done(s)
    ensures |sel| == |b.x| && (panicked <==> SomePanic(b))
    ensures !panicked ==> forall s :: 0 <= s < |b.x| ==> Outcome(b, s) == Some(sel[s])
  {
    hide Outcome;
    forall s: nat | s < |b.x| ensures Right(b, sel, panicked, s) {
      assert done(s);
    }
    if !panicked {
      forall s: nat | s < |b.x| ensures Outcome(b, s) == Some(sel[s]) {
        assert Right(b, sel, panicked, s);
      }
    }
  }

  /** All chunks, in whatever order the threads get to them. */
  method RunThreads(b: Batch, p: Projections, chunk: nat) returns (sel: seq<seq<nat>>, panicked: bool)
    requires Valid(b) && Projected(b, p) && chunk > 0
    ensures |sel| == |b.x| && (panicked <==> SomePanic(b))
    ensures !panicked ==> forall s :: 0 <= s < |b.x| ==> Outcome(b, s) == Some(sel[s])
  {
    hide Valid, Filled, SomePanic, Projected, Outcome, DivCeil;
    var chunks := DivCeil(|b.x|, chunk);
    var pending := Below(chunks);
    sel, panicked := seq(|b.x|, _ => []), false;
    FilledAtStart(b, sel, chunk, pending);
    while pending != {}
      invariant forall c :: c in pending ==> c < chunks
      invariant Filled(b, sel, panicked, OutOf(pending, chunk))
      decreases pending
    {
      var c :| c in pending;
      ChunkBounds(|b.x|, chunk, c);
      sel, panicked := RunThread(b, p, sel, panicked, chunk, c, pending);
      pending := pending - {c};
    }
    AllRight(b, sel, panicked, OutOf(pending, chunk));
  }

  /** `indexer_forward`, on any number of threads. `None` is a panic. */
  method IndexerForward(b: Batch, threads: nat) returns (r: Option<seq<seq<nat>>>)
    requires Valid(b) && threads > 0
    ensures r.None? <==> SomePanic(b)
    ensures r.Some? ==> |r.value| == |b.x| && forall s :: 0 <= s < |b.x| ==> Outcome(b, s) == Some(r.value[s])
  {
    var p := Project(b);
    hide Projected, Outcome;
    var chunk := DivCeil(|b.x|, threads);
    if chunk < 1 {
      chunk := 1;
    }
    var sel, panicked := RunThreads(b, p, chunk);
    r := if panicked then None else Some(sel);
  }

  // ---- what the batch computes ----------------------------------------------------------------------------

  /** The batched run fails exactly when some query selects and either a key row is missing (the batch does
      not start at position 0) or nothing may be kept. */
  lemma PanicsExactlyWhen(b: Batch)
    requires Valid(b)
    ensures SomePanic(b) <==> b.x != [] && b.posBase + |b.x| > b.topK && (b.posBase > 0 || b.topK == 0)
  {
    if b.x != [] {
      var last := |b.x| - 1;
      assert Outcome(b, last).None? <==> b.posBase + |b.x| > b.topK && (b.posBase > 0 || b.topK == 0);
    }
  }

  /** From position 0, every selected key is at or before its query, and exactly `topK` are selected once the
      context is longer than that. */
  lemma SelectionIsCausal(b: Batch, s: nat)
    requires Valid(b) && b.posBase == 0 && b.topK > 0 && s < |b.x|
    ensures Outcome(b, s).Some? && forall t :: t in Outcome(b, s).value ==> t <= s
    ensures |Outcome(b, s).value| == if s < b.topK then 0 else b.topK
  {
    if s >= b.topK {
      var scores := PlainScores(b, s, s + 1);
      WhereMembers(s + 1, InTop(scores, b.topK));
      SelectedIsTopK(scores, b.topK);
    }
  }

  ghost function Prefix(b: Batch, m: nat): Batch
    requires Valid(b) && m <= |b.x|
  {
    b.(x := b.x[..m], qLora := b.qLora[..m])
  }

  /** Later tokens of the batch do not change an earlier query's selection. */
  lemma PrefixSelectsTheSame(b: Batch, m: nat, s: nat)
    requires Valid(b) && b.posBase == 0 && s < m <= |b.x|
    ensures Valid(Prefix(b, m)) && Outcome(Prefix(b, m), s) == Outcome(b, s)
  {
    hide Score, Fits;
    assert PlainScores(Prefix(b, m), s, s + 1) == PlainScores(b, s, s + 1);
  }

  // ---- what the scales and a common rotation do ------------------------------------------------------------

  /** Scores in the same order select the same positions. */
  lemma SameOrderSelectsTheSame(a: seq<real>, b: seq<real>, k: nat)
    requires |a| == |b| && forall i, j :: 0 <= i < |a| && 0 <= j < |a| ==> (a[i] > a[j] <==> b[i] > b[j])
    ensures Selected(a, k) == Selected(b, k)
  {
    WhereContents(|a|, InTop(a, k));
    forall t: nat ensures t in Selected(a, k) <==> t < |b| && InTop(b, k)(t) {
      if t < |a| {
        forall u: nat | u < |a| ensures Beats(a, u, t) <==> Beats(b, u, t) {
          assert (a[u] > a[t] <==> b[u] > b[t]) && (a[t] > a[u] <==> b[t] > b[u]);
        }
        assert Beaters(a, t) == Beaters(b, t);
      }
    }
    RisingIsWhere(Selected(a, k), |b|, InTop(b, k));
  }

  lemma ScaledRelu(d: real, rs: real, w: real)
    requires rs > 0.0
    ensures Times(w, Relu(Times(d, rs))) == Times(Times(w, Relu(Times(d, 1.0))), rs)
  {
    if d > 0.0 {
      assert d * rs > 0.0;
      assert w * (d * rs) == (w * d) * rs;
    } else {
      assert d * rs <= 0.0;
    }
  }

  lemma {:induction false} HeadSumScales(q: seq<Row>, key: Row, w: Row, rs: real)
    requires Shaped(q, key, w) && rs > 0.0
    ensures HeadSum(q, key, w, rs) == Times(HeadSum(q, key, w, 1.0), rs)
  {
    if q != [] {
      var h := |q| - 1;
      HeadSumScales(q[..h], key, w[..h], rs);
      ScaledRelu(Dot(q[h], key), rs, w[h]);
      TimesAdds(HeadSum(q[..h], key, w[..h], 1.0), Times(w[h], Relu(Times(Dot(q[h], key), 1.0))), rs);
    }
  }

  lemma TimesAdds(a: real, b: real, c: real)
    ensures Times(a + b, c) == Times(a, c) + Times(b, c)
  {
  }

  ghost function Unscaled(b: Batch): Batch {
    b.(layer := b.layer.(rs := 1.0, wsc := 1.0))
  }

  /** The two positive scale factors never change which keys are selected. */
  lemma ScalesDoNotMatter(b: Batch, s: nat)
    requires Valid(b) && s < |b.x| && b.layer.rs > 0.0 && b.layer.wsc > 0.0
    ensures Valid(Unscaled(b)) && Outcome(Unscaled(b), s) == Outcome(b, s)
  {
    var nk := b.posBase + s + 1;
    hide PlainScores, Selected;
    if b.topK < nk <= |b.x| {
      ScaledScores(b, s, nk);
      SameOrderSelectsTheSame(PlainScores(b, s, nk), PlainScores(Unscaled(b), s, nk), b.topK);
    }
  }

  lemma ScaledScores(b: Batch, s: nat, nk: nat)
    requires Valid(b) && s < |b.x| && nk <= |b.x| && b.layer.rs > 0.0 && b.layer.wsc > 0.0
    ensures Valid(Unscaled(b))
    ensures var p, u := PlainScores(b, s, nk), PlainScores(Unscaled(b), s, nk);
            |p| == |u| && forall i, j :: 0 <= i < |p| && 0 <= j < |p| ==> (p[i] > p[j] <==> u[i] > u[j])
  {
    hide PairScore;
    forall i: nat, j: nat | i < nk && j < nk
      ensures PairScore(b, s, i) > PairScore(b, s, j) <==> PairScore(Unscaled(b), s, i) > PairScore(Unscaled(b), s, j)
    {
      ScaledOrder(b, s, i, j);
    }
  }

  lemma ScaledOrder(b: Batch, s: nat, i: nat, j: nat)
    requires Valid(b) && s < |b.x| && i < |b.x| && j < |b.x| && b.layer.rs > 0.0 && b.layer.wsc > 0.0
    ensures Valid(Unscaled(b))
    ensures PairScore(b, s, i) > PairScore(b, s, j) <==> PairScore(Unscaled(b), s, i) > PairScore(Unscaled(b), s, j)
  {
    PairScales(b, s, i);
    PairScales(b, s, j);
    hide PairScore, Times;
    var u, v := PairScore(Unscaled(b), s, i), PairScore(Unscaled(b), s, j);
    PositiveTimes(u, v, b.layer.rs);
    PositiveTimes(Times(u, b.layer.rs), Times(v, b.layer.rs), b.layer.wsc);
  }

  lemma PairScales(b: Batch, s: nat, t: nat)
    requires Valid(b) && s < |b.x| && t < |b.x| && b.layer.rs > 0.0
    ensures PairScore(b, s, t) == Times(Times(PairScore(Unscaled(b), s, t), b.layer.rs), b.layer.wsc)
  {
    FitsShaped(b.layer, b.qLora[s], b.posBase + s, b.x[t], b.posBase + t, b.x[s]);
    var q, k, w := b.layer.query(b.qLora[s], b.posBase + s), b.layer.key(b.x[t], b.posBase + t),
        b.layer.headWeights(b.x[s]);
    HeadSumScales(q, k, w, b.layer.rs);
  }

  lemma PositiveTimes(x: real, y: real, c: real)
    requires c > 0.0
    ensures Times(x, c) > Times(y, c) <==> x > y
  {
    var d := x - y;
    assert x * c - y * c == d * c;
    assert d > 0.0 ==> d * c > 0.0;
    assert d <= 0.0 ==> d * c <= 0.0;
  }

  /** Rotating every query head and the key by the same scaled transform leaves the score as it was: the
      reason both sides of the index product are rotated before they are quantised. */
  lemma {:induction false} RotationKeepsHeadSum(q: seq<Row>, key: Row, w: Row, rs: real, k: nat, c: real)
    requires Shaped(q, key, w) && |key| == Power2(k) && IsInverseRoot(c, |key|)
    ensures Shaped(RotatedHeads(q, k, c), Rotation(key, k, c), w)
    ensures HeadSum(RotatedHeads(q, k, c), Rotation(key, k, c), w, rs) == HeadSum(q, key, w, rs)
  {
    var r := RotatedHeads(q, k, c);
    if q != [] {
      var h := |q| - 1;
      RotationKeepsHeadSum(q[..h], key, w[..h], rs, k, c);
      RotationIsOrthogonal(q[h], key, k, c);
      assert r[..h] == RotatedHeads(q[..h], k, c);
    }
  }

  function RotatedHeads(q: seq<Row>, k: nat, c: real): (r: seq<Row>)
    requires forall h :: 0 <= h < |q| ==> |q[h]| == Power2(k)
    ensures |r| == |q| && forall h :: 0 <= h < |q| ==> |r[h]| == Power2(k)
  {
    seq(|q|, h requires 0 <= h < |q| => Rotation(q[h], k, c))
  }
}
