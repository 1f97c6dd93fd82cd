/** The wire format of the expert transport: six message kinds, each opened by its own magic, and
    length-prefixed frames (`crates/colibri-cluster/src/net.rs`). Floats travel as their 32 bits. */
module Codec {
  import opened Arithmetic
  import opened Octets

  const REQ_MAGIC: u32 := 0x4352_4551
  const RSP_MAGIC: u32 := 0x4352_5350
  const AREQ_MAGIC: u32 := 0x4341_5251
  const ARSP_MAGIC: u32 := 0x4341_5250
  const HELLO_MAGIC: u32 := 0x4348_454c
  const HACK_MAGIC: u32 := 0x4348_4143
  const MAX_FRAME: nat := 0x4000_0000

  type f32 = u32

  datatype Message =
    | Hello(node: u32, fingerprint: u64)
    | HelloAck(ok: bool, fingerprint: u64)
    | ExpertRequest(experts: seq<u32>, weights: seq<f32>, activations: seq<f32>, nTokens: u64, hidden: u64, layer: u32)
    | ExpertResponse(outputs: seq<f32>, nTokens: u64, hidden: u64)
    | AttnRequest(activations: seq<f32>, sel: seq<seq<u32>>, nTokens: u64, hidden: u64, posBase: u32, hStart: u32,
                  hCount: u32, layer: u32)
    | AttnResponse(outputs: seq<f32>, nTokens: u64, hidden: u64)

  function Magic(m: Message): u32 {
    match m
    case Hello(_, _) => HELLO_MAGIC
    case HelloAck(_, _) => HACK_MAGIC
    case ExpertRequest(_, _, _, _, _, _) => REQ_MAGIC
    case ExpertResponse(_, _, _) => RSP_MAGIC
    case AttnRequest(_, _, _, _, _, _, _, _) => AREQ_MAGIC
    case AttnResponse(_, _, _) => ARSP_MAGIC
  }

  // ---- writing -----------------------------------------------------------------------

  /** `put_u32(v as u32)`: a wider value is truncated. */
  function U32(v: nat): Octets {
    ToLe(v % TWO32, 4)
  }

  function U64(v: u64): Octets {
    ToLe(v, 8)
  }

  function U32s(v: seq<u32>): Octets {
    if v == [] then [] else U32(v[0]) + U32s(v[1..])
  }

  function Selection(sel: seq<seq<u32>>): Octets {
    if sel == [] then [] else U32(|sel[0]|) + U32s(sel[0]) + Selection(sel[1..])
  }

  /** The encoding of `m` followed by `rest`. */
  function EncodeThen(m: Message, rest: Octets): Octets {
    match m
    case Hello(node, fp) => U32(HELLO_MAGIC) + (U32(node) + (U64(fp) + rest))
    case HelloAck(ok, fp) => U32(HACK_MAGIC) + (U32(if ok then 1 else 0) + (U64(fp) + rest))
    case ExpertRequest(experts, weights, activations, nTokens, hidden, layer) =>
      U32(REQ_MAGIC) + (U32(layer) + (U32(nTokens) + (U32(hidden) + (U32(|experts|) + (U32(|weights|)
        + (U32s(experts) + (U32s(weights) + (U32s(activations) + rest))))))))
    case ExpertResponse(outputs, nTokens, hidden) =>
      U32(RSP_MAGIC) + (U32(nTokens) + (U32(hidden) + (U32s(outputs) + rest)))
    case AttnRequest(activations, sel, nTokens, hidden, posBase, hStart, hCount, layer) =>
      U32(AREQ_MAGIC) + (U32(layer) + (U32(nTokens) + (U32(hidden) + (U32(posBase) + (U32(hStart) + (U32(hCount)
        + (U32(|sel|) + (Selection(sel) + (U32s(activations) + rest)))))))))
    case AttnResponse(outputs, nTokens, hidden) =>
      U32(ARSP_MAGIC) + (U32(nTokens) + (U32(hidden) + (U32s(outputs) + rest)))
  }

  function Encode(m: Message): Octets {
    EncodeThen(m, [])
  }

  // ---- reading -----------------------------------------------------------------------

  /** A read from the front of the bytes that are left. */
  datatype Read<+T> = Failed | Got(value: T, rest: Octets) {
    predicate IsFailure() { Failed? }
    function PropagateFailure<U>(): Read<U> requires Failed? { Failed }
    function Extract(): (T, Octets) requires Got? { (value, rest) }
  }

  function ReadU32(b: Octets): (r: Read<u32>)
  {
    if |b| < 4 then Failed
    else
      FromLeBound(b[..4]);
      Powers();
      Got(FromLe(b[..4]), b[4..])
  }

  function ReadU64(b: Octets): (r: Read<u64>)
  {
    if |b| < 8 then Failed
    else
      FromLeBound(b[..8]);
      Powers();
      Got(FromLe(b[..8]), b[8..])
  }

  /** The byte count `n * 4`, computed in 64 bits, where it may wrap. */
  function ByteCount(n: u64): (k: nat)
    ensures k % 4 == 0
  {
    n * 4 % TWO64
  }

  lemma ByteCountSmall(n: u32)
    ensures ByteCount(n) == 4 * n
  {
  }

  function ReadU32s(b: Octets, n: u64): (r: Read<seq<u32>>)
  {
    var k := ByteCount(n);
    if |b| < k then Failed else Got(Words(b[..k]), b[k..])
  }

  /** The four-byte chunks of `b`. */
  function Words(b: Octets): seq<u32>
    decreases |b|
  {
    if |b| < 4 then []
    else
      FromLeBound(b[..4]);
      Powers();
      [FromLe(b[..4])] + Words(b[4..])
  }

  function ReadSelection(b: Octets, n: nat): (r: Read<seq<seq<u32>>>)
    decreases n
  {
    if n == 0 then Got([], b)
    else
      var (len, b1) :- ReadU32(b);
      var (q, b2) :- ReadU32s(b1, len);
      var (rest, b3) :- ReadSelection(b2, n - 1);
      Got([q] + rest, b3)
  }

  lemma ProductFits(x: u32, y: u32)
    ensures x * y < TWO64
  {
    MulMonotone(x, TWO32 - 1, y);
    MulMonotone(y, TWO32 - 1, TWO32 - 1);
  }

  function ReadMagic(b: Octets, magic: u32): (r: Read<()>)
  {
    var (m, rest) :- ReadU32(b);
    if m == magic then Got((), rest) else Failed
  }

  /** The tail shared by the four data messages: a `nTokens * hidden` block of floats. */
  function ReadBlock(b: Octets, nTokens: u32, hidden: u32): Read<seq<f32>> {
    ProductFits(nTokens, hidden);
    ReadU32s(b, nTokens * hidden)
  }

  function DecodeHello(b: Octets): Read<Message> {
    var (_, b0) :- ReadMagic(b, HELLO_MAGIC);
    var (node, b1) :- ReadU32(b0);
    var (fp, b2) :- ReadU64(b1);
    Got(Hello(node, fp), b2)
  }

  function DecodeHelloAck(b: Octets): Read<Message> {
    var (_, b0) :- ReadMagic(b, HACK_MAGIC);
    var (ok, b1) :- ReadU32(b0);
    var (fp, b2) :- ReadU64(b1);
    Got(HelloAck(ok != 0, fp), b2)
  }

  function DecodeRequest(b: Octets): Read<Message> {
    var (_, b0) :- ReadMagic(b, REQ_MAGIC);
    var (layer, b1) :- ReadU32(b0);
    var (nTokens, b2) :- ReadU32(b1);
    var (hidden, b3) :- ReadU32(b2);
    var (nExperts, b4) :- ReadU32(b3);
    var (nWeights, b5) :- ReadU32(b4);
    var (experts, b6) :- ReadU32s(b5, nExperts);
    var (weights, b7) :- ReadU32s(b6, nWeights);
    var (activations, b8) :- ReadBlock(b7, nTokens, hidden);
    Got(ExpertRequest(experts, weights, activations, nTokens, hidden, layer), b8)
  }

  function DecodeResponse(b: Octets): Read<Message> {
    var (_, b0) :- ReadMagic(b, RSP_MAGIC);
    var (nTokens, b1) :- ReadU32(b0);
    var (hidden, b2) :- ReadU32(b1);
    var (outputs, b3) :- ReadBlock(b2, nTokens, hidden);
    Got(ExpertResponse(outputs, nTokens, hidden), b3)
  }

  function DecodeAttnRequest(b: Octets): Read<Message> {
    var (_, b0) :- ReadMagic(b, AREQ_MAGIC);
    var (layer, b1) :- ReadU32(b0);
    var (nTokens, b2) :- ReadU32(b1);
    var (hidden, b3) :- ReadU32(b2);
    var (posBase, b4) :- ReadU32(b3);
    var (hStart, b5) :- ReadU32(b4);
    var (hCount, b6) :- ReadU32(b5);
    var (nSel, b7) :- ReadU32(b6);
    var (sel, b8) :- ReadSelection(b7, nSel);
    var (activations, b9) :- ReadBlock(b8, nTokens, hidden);
    Got(AttnRequest(activations, sel, nTokens, hidden, posBase, hStart, hCount, layer), b9)
  }

  function DecodeAttnResponse(b: Octets): Read<Message> {
    var (_, b0) :- ReadMagic(b, ARSP_MAGIC);
    var (nTokens, b1) :- ReadU32(b0);
    var (hidden, b2) :- ReadU32(b1);
    var (outputs, b3) :- ReadBlock(b2, nTokens, hidden);
    Got(AttnResponse(outputs, nTokens, hidden), b3)
  }

  /** The decoder for messages of `m`'s kind. */
  function DecodeLike(m: Message, b: Octets): Read<Message> {
    match m
    case Hello(_, _) => DecodeHello(b)
    case HelloAck(_, _) => DecodeHelloAck(b)
    case ExpertRequest(_, _, _, _, _, _) => DecodeRequest(b)
    case ExpertResponse(_, _, _) => DecodeResponse(b)
    case AttnRequest(_, _, _, _, _, _, _, _) => DecodeAttnRequest(b)
    case AttnResponse(_, _, _) => DecodeAttnResponse(b)
  }

  // ---- round trips -------------------------------------------------------------------

  lemma ReadsU32(v: u32, rest: Octets)
    ensures ReadU32(U32(v) + rest) == Got(v, rest)
  {
    Powers();
    LeRoundTrip(v, 4);
    assert (U32(v) + rest)[..4] == U32(v) && (U32(v) + rest)[4..] == rest;
  }

  lemma ReadsU64(v: u64, rest: Octets)
    ensures ReadU64(U64(v) + rest) == Got(v, rest)
  {
    Powers();
    LeRoundTrip(v, 8);
    assert (U64(v) + rest)[..8] == U64(v) && (U64(v) + rest)[8..] == rest;
  }

  lemma {:induction false} WordsOfU32s(v: seq<u32>)
    ensures |U32s(v)| == 4 * |v| && Words(U32s(v)) == v
  {
    if v != [] {
      var b := U32s(v);
      ReadsU32(v[0], U32s(v[1..]));
      WordsOfU32s(v[1..]);
      assert b[..4] == U32(v[0]) && b[4..] == U32s(v[1..]);
      assert v == [v[0]] + v[1..];
    }
  }

  lemma ReadsU32s(v: seq<u32>, n: u64, rest: Octets)
    requires ByteCount(n) == 4 * |v|
    ensures ReadU32s(U32s(v) + rest, n) == Got(v, rest)
  {
    WordsOfU32s(v);
    assert (U32s(v) + rest)[..4 * |v|] == U32s(v) && (U32s(v) + rest)[4 * |v|..] == rest;
  }

  lemma ReadsCounted(v: seq<u32>, rest: Octets)
    requires |v| < TWO32
    ensures ReadU32s(U32s(v) + rest, |v|) == Got(v, rest)
  {
    ByteCountSmall(|v|);
    ReadsU32s(v, |v|, rest);
  }

  lemma {:induction false} ReadsSelection(sel: seq<seq<u32>>, rest: Octets)
    requires forall i :: 0 <= i < |sel| ==> |sel[i]| < TWO32
    ensures ReadSelection(Selection(sel) + rest, |sel|) == Got(sel, rest)
  {
    if sel == [] {
      assert Selection(sel) + rest == rest;
    } else {
      var q, tail := sel[0], Selection(sel[1..]) + rest;
      SelectionCons(q, sel[1..], rest);
      assert sel == [q] + sel[1..];
      hide U32, U32s, ReadU32, ReadU32s;
      ReadsU32(|q|, U32s(q) + tail);
      ReadsCounted(q, tail);
      ReadsSelection(sel[1..], rest);
    }
  }

  /** What a message must satisfy for its length fields to describe it: the source's own `as u32` casts
      and its one unchecked 64-bit multiplication by four. */
  predicate Describable(m: Message) {
    match m
    case Hello(_, _) => true
    case HelloAck(_, _) => true
    case ExpertRequest(experts, weights, activations, nTokens, hidden, _) =>
      |experts| < TWO32 && |weights| < TWO32 && BlockMatches(activations, nTokens, hidden)
    case ExpertResponse(outputs, nTokens, hidden) => BlockMatches(outputs, nTokens, hidden)
    case AttnRequest(activations, sel, nTokens, hidden, _, _, _, _) =>
      |sel| < TWO32 && (forall i :: 0 <= i < |sel| ==> |sel[i]| < TWO32) && BlockMatches(activations, nTokens, hidden)
    case AttnResponse(outputs, nTokens, hidden) => BlockMatches(outputs, nTokens, hidden)
  }

  predicate BlockMatches(block: seq<f32>, nTokens: nat, hidden: nat) {
    && nTokens < TWO32 && hidden < TWO32
    && (ProductFits(nTokens, hidden); ByteCount(nTokens * hidden) == 4 * |block|)
  }

  lemma BlockIsSmall(block: seq<f32>, nTokens: nat, hidden: nat)
    requires BlockMatches(block, nTokens, hidden)
    ensures nTokens < TWO32 && hidden < TWO32
  {
  }

  lemma ReadsBlock(block: seq<f32>, nTokens: u32, hidden: u32, rest: Octets)
    requires BlockMatches(block, nTokens, hidden)
    ensures ReadBlock(U32s(block) + rest, nTokens, hidden) == Got(block, rest)
  {
    ProductFits(nTokens, hidden);
    ReadsU32s(block, nTokens * hidden, rest);
  }

  lemma ReadsMagic(magic: u32, rest: Octets)
    ensures ReadMagic(U32(magic) + rest, magic) == Got((), rest)
  {
    ReadsU32(magic, rest);
  }

  /** A describable message decodes to itself, whatever follows it. */
  lemma DecodesToItself(m: Message, rest: Octets)
    requires Describable(m)
    ensures DecodeLike(m, EncodeThen(m, rest)) == Got(m, rest)
  {
    hide U32, U64, U32s, ReadU32, ReadU64, ReadU32s, ReadMagic, ReadBlock, ReadSelection, Selection, BlockMatches;
    match m
    case Hello(node, fp) =>
      ReadsMagic(HELLO_MAGIC, U32(node) + (U64(fp) + rest));
      ReadsU32(node, U64(fp) + rest);
      ReadsU64(fp, rest);
    case HelloAck(ok, fp) =>
      var flag := if ok then 1 else 0;
      ReadsMagic(HACK_MAGIC, U32(flag) + (U64(fp) + rest));
      ReadsU32(flag, U64(fp) + rest);
      ReadsU64(fp, rest);
    case ExpertRequest(_, _, _, _, _, _) => RequestDecodes(m, rest);
    case ExpertResponse(outputs, nTokens, hidden) => ResponseDecodes(RSP_MAGIC, outputs, nTokens, hidden, rest);
    case AttnRequest(_, _, _, _, _, _, _, _) => AttnRequestDecodes(m, rest);
    case AttnResponse(outputs, nTokens, hidden) => ResponseDecodes(ARSP_MAGIC, outputs, nTokens, hidden, rest);
  }

  lemma ResponseDecodes(magic: u32, outputs: seq<f32>, nTokens: u64, hidden: u64, rest: Octets)
    requires BlockMatches(outputs, nTokens, hidden)
    ensures var b := U32s(outputs) + rest;
            && nTokens < TWO32 && hidden < TWO32
            && ReadMagic(U32(magic) + (U32(nTokens) + (U32(hidden) + b)), magic)
                == Got((), U32(nTokens) + (U32(hidden) + b))
            && ReadU32(U32(nTokens) + (U32(hidden) + b)) == Got(nTokens, U32(hidden) + b)
            && ReadU32(U32(hidden) + b) == Got(hidden, b)
            && ReadBlock(b, nTokens, hidden) == Got(outputs, rest)
  {
    var b := U32s(outputs) + rest;
    ReadsMagic(magic, U32(nTokens) + (U32(hidden) + b));
    ReadsU32(nTokens, U32(hidden) + b);
    ReadsU32(hidden, b);
    ReadsBlock(outputs, nTokens, hidden, rest);
  }

  lemma RequestDecodes(m: Message, rest: Octets)
    requires m.ExpertRequest? && Describable(m)
    ensures DecodeRequest(EncodeThen(m, rest)) == Got(m, rest)
  {
    var b7 := U32s(m.activations) + rest;
    var b6 := U32s(m.weights) + b7;
    var b5 := U32s(m.experts) + b6;
    var b4 := U32(|m.weights|) + b5;
    var b3 := U32(|m.experts|) + b4;
    var b2 := U32(m.hidden) + b3;
    var b1 := U32(m.nTokens) + b2;
    var b0 := U32(m.layer) + b1;
    hide U32, U32s, ReadU32, ReadU32s, ReadMagic, ReadBlock, BlockMatches;
    assert m.nTokens < TWO32 && m.hidden < TWO32 by { BlockIsSmall(m.activations, m.nTokens, m.hidden); }
    ReadsMagic(REQ_MAGIC, b0);
    ReadsU32(m.layer, b1);
    ReadsU32(m.nTokens, b2);
    ReadsU32(m.hidden, b3);
    ReadsU32(|m.experts|, b4);
    ReadsU32(|m.weights|, b5);
    ReadsCounted(m.experts, b6);
    ReadsCounted(m.weights, b7);
    ReadsBlock(m.activations, m.nTokens, m.hidden, rest);
  }

  lemma AttnRequestDecodes(m: Message, rest: Octets)
    requires m.AttnRequest? && Describable(m)
    ensures DecodeAttnRequest(EncodeThen(m, rest)) == Got(m, rest)
  {
    var b8 := U32s(m.activations) + rest;
    var b7 := Selection(m.sel) + b8;
    var b6 := U32(|m.sel|) + b7;
    var b5 := U32(m.hCount) + b6;
    var b4 := U32(m.hStart) + b5;
    var b3 := U32(m.posBase) + b4;
    var b2 := U32(m.hidden) + b3;
    var b1 := U32(m.nTokens) + b2;
    var b0 := U32(m.layer) + b1;
    hide U32, U32s, Selection, ReadU32, ReadU32s, ReadMagic, ReadBlock, ReadSelection, BlockMatches;
    assert m.nTokens < TWO32 && m.hidden < TWO32 by { BlockIsSmall(m.activations, m.nTokens, m.hidden); }
    ReadsMagic(AREQ_MAGIC, b0);
    ReadsU32(m.layer, b1);
    ReadsU32(m.nTokens, b2);
    ReadsU32(m.hidden, b3);
    ReadsU32(m.posBase, b4);
    ReadsU32(m.hStart, b5);
    ReadsU32(m.hCount, b6);
    ReadsU32(|m.sel|, b7);
    ReadsSelection(m.sel, b8);
    ReadsBlock(m.activations, m.nTokens, m.hidden, rest);
  }

  // ---- the bytes a decoder accepts are the encoding of what it returns ---------------------------

  lemma FieldOfBytes(front: Octets)
    requires |front| == 4 || |front| == 8
    ensures |front| == 4 ==> FromLe(front) < TWO32 && U32(FromLe(front)) == front
    ensures |front| == 8 ==> FromLe(front) < TWO64 && U64(FromLe(front)) == front
  {
    hide FromLe, ToLe, Power256;
    Powers();
    FromLeBound(front);
    ToLeOfFromLe(front);
  }

  lemma U32WasRead(b: Octets)
    requires ReadU32(b).Got?
    ensures b == U32(ReadU32(b).value) + ReadU32(b).rest
  {
    hide FromLe, ToLe, U32;
    FieldOfBytes(b[..4]);
    assert b == b[..4] + b[4..];
  }

  lemma U64WasRead(b: Octets)
    requires ReadU64(b).Got?
    ensures b == U64(ReadU64(b).value) + ReadU64(b).rest
  {
    hide FromLe, ToLe, U64;
    FieldOfBytes(b[..8]);
    assert b == b[..8] + b[8..];
  }

  lemma {:induction false} U32sOfWords(b: Octets)
    requires |b| % 4 == 0
    ensures U32s(Words(b)) == b && 4 * |Words(b)| == |b|
    decreases |b|
  {
    if |b| >= 4 {
      U32WasRead(b);
      U32sOfWords(b[4..]);
      assert Words(b)[1..] == Words(b[4..]);
    }
  }

  lemma U32sWereRead(b: Octets, n: u64)
    requires ReadU32s(b, n).Got?
    ensures b == U32s(ReadU32s(b, n).value) + ReadU32s(b, n).rest
    ensures ByteCount(n) == 4 * |ReadU32s(b, n).value|
  {
    var k := ByteCount(n);
    U32sOfWords(b[..k]);
    assert b == b[..k] + b[k..];
  }

  lemma CountedWereRead(b: Octets, n: u32)
    requires ReadU32s(b, n).Got?
    ensures b == U32s(ReadU32s(b, n).value) + ReadU32s(b, n).rest
    ensures |ReadU32s(b, n).value| == n
  {
    ByteCountSmall(n);
    U32sWereRead(b, n);
  }

  /** `r` is what reading `n` counted lists from `b` gave. */
  ghost predicate SelectionFrom(b: Octets, n: nat, r: Read<seq<seq<u32>>>) {
    r.Got? ==>
      && b == Selection(r.value) + r.rest && |r.value| == n
      && forall i :: 0 <= i < n ==> |r.value[i]| < TWO32
  }

  lemma SelectionFromCons(b: Octets, len: Read<u32>, q: Read<seq<u32>>, n: nat, more: Read<seq<seq<u32>>>)
    requires len.Got? && q.Got? && more.Got? && |q.value| == len.value
    requires b == U32(len.value) + len.rest && len.rest == U32s(q.value) + q.rest && SelectionFrom(q.rest, n, more)
    ensures SelectionFrom(b, n + 1, Got([q.value] + more.value, more.rest))
  {
    hide U32, U32s, Selection;
    SelectionCons(q.value, more.value, more.rest);
  }

  lemma {:induction false} SelectionWasRead(b: Octets, n: nat)
    ensures SelectionFrom(b, n, ReadSelection(b, n))
    decreases n
  {
    hide U32, U32s, ReadU32, ReadU32s;
    if n > 0 && ReadSelection(b, n).Got? {
      var len := ReadU32(b);
      var q := ReadU32s(len.rest, len.value);
      hide SelectionFrom, Selection;
      U32WasRead(b);
      CountedWereRead(len.rest, len.value);
      SelectionWasRead(q.rest, n - 1);
      SelectionFromCons(b, len, q, n - 1, ReadSelection(q.rest, n - 1));
    }
  }

  lemma SelectionCons(q: seq<u32>, more: seq<seq<u32>>, rest: Octets)
    ensures Selection([q] + more) + rest == U32(|q|) + (U32s(q) + (Selection(more) + rest))
  {
  }

  lemma BlockWasRead(b: Octets, nTokens: u32, hidden: u32)
    requires ReadBlock(b, nTokens, hidden).Got?
    ensures b == U32s(ReadBlock(b, nTokens, hidden).value) + ReadBlock(b, nTokens, hidden).rest
    ensures BlockMatches(ReadBlock(b, nTokens, hidden).value, nTokens, hidden)
  {
    ProductFits(nTokens, hidden);
    U32sWereRead(b, nTokens * hidden);
  }

  lemma MagicWasRead(b: Octets, magic: u32)
    requires ReadMagic(b, magic).Got?
    ensures b == U32(magic) + ReadMagic(b, magic).rest
  {
    U32WasRead(b);
  }

  lemma RequestWasRead(b: Octets)
    requires DecodeRequest(b).Got?
    ensures var r := DecodeRequest(b);
            r.value.ExpertRequest? && Describable(r.value) && b == EncodeThen(r.value, r.rest)
  {
    hide U32, U32s, ReadU32, ReadU32s, ReadMagic, ReadBlock, BlockMatches;
    var b0 := ReadMagic(b, REQ_MAGIC);
    var layer := ReadU32(b0.rest);
    var nTokens := ReadU32(layer.rest);
    var hidden := ReadU32(nTokens.rest);
    var nExperts := ReadU32(hidden.rest);
    var nWeights := ReadU32(nExperts.rest);
    var experts := ReadU32s(nWeights.rest, nExperts.value);
    var weights := ReadU32s(experts.rest, nWeights.value);
    MagicWasRead(b, REQ_MAGIC);
    U32WasRead(b0.rest);
    U32WasRead(layer.rest);
    U32WasRead(nTokens.rest);
    U32WasRead(hidden.rest);
    U32WasRead(nExperts.rest);
    CountedWereRead(nWeights.rest, nExperts.value);
    CountedWereRead(experts.rest, nWeights.value);
    BlockWasRead(weights.rest, nTokens.value, hidden.value);
  }

  lemma AttnRequestWasRead(b: Octets)
    requires DecodeAttnRequest(b).Got?
    ensures var r := DecodeAttnRequest(b);
            r.value.AttnRequest? && Describable(r.value) && b == EncodeThen(r.value, r.rest)
  {
    hide U32, U32s, ReadU32, ReadU32s, ReadMagic, ReadBlock, BlockMatches, ReadSelection, Selection;
    var b0 := ReadMagic(b, AREQ_MAGIC);
    var layer := ReadU32(b0.rest);
    var nTokens := ReadU32(layer.rest);
    var hidden := ReadU32(nTokens.rest);
    var posBase := ReadU32(hidden.rest);
    var hStart := ReadU32(posBase.rest);
    var hCount := ReadU32(hStart.rest);
    var nSel := ReadU32(hCount.rest);
    var sel := ReadSelection(nSel.rest, nSel.value);
    MagicWasRead(b, AREQ_MAGIC);
    U32WasRead(b0.rest);
    U32WasRead(layer.rest);
    U32WasRead(nTokens.rest);
    U32WasRead(hidden.rest);
    U32WasRead(posBase.rest);
    U32WasRead(hStart.rest);
    U32WasRead(hCount.rest);
    SelectionWasRead(nSel.rest, nSel.value);
    BlockWasRead(sel.rest, nTokens.value, hidden.value);
  }

  lemma OtherWasRead(m: Message, b: Octets)
    requires (m.Hello? || m.ExpertResponse? || m.AttnResponse?) && DecodeLike(m, b).Got?
    ensures var r := DecodeLike(m, b);
            Magic(r.value) == Magic(m) && Describable(r.value) && b == EncodeThen(r.value, r.rest)
  {
    hide U32, U64, U32s, ReadU32, ReadU64, ReadU32s, ReadMagic, ReadBlock, BlockMatches;
    MagicWasRead(b, Magic(m));
    var b0 := ReadMagic(b, Magic(m));
    var first := ReadU32(b0.rest);
    U32WasRead(b0.rest);
    if m.Hello? {
      U64WasRead(first.rest);
    } else {
      var second := ReadU32(first.rest);
      U32WasRead(first.rest);
      BlockWasRead(second.rest, first.value, second.value);
    }
  }

  /** Every decoder but the ack's (which reads any non-zero word as `true`) is the exact inverse of its
      encoder: what it returns, encoded, is byte for byte what it consumed. */
  lemma DecodedWasEncoded(m: Message, b: Octets)
    requires !m.HelloAck? && DecodeLike(m, b).Got?
    ensures var r := DecodeLike(m, b);
            Magic(r.value) == Magic(m) && Describable(r.value) && b == EncodeThen(r.value, r.rest)
  {
    hide *;
    match m
    case ExpertRequest(_, _, _, _, _, _) => RequestBranch(m, b);
    case AttnRequest(_, _, _, _, _, _, _, _) => AttnRequestBranch(m, b);
    case Hello(_, _) => OtherWasRead(m, b);
    case ExpertResponse(_, _, _) => OtherWasRead(m, b);
    case AttnResponse(_, _, _) => OtherWasRead(m, b);
  }

  lemma RequestBranch(m: Message, b: Octets)
    requires m.ExpertRequest? && DecodeLike(m, b).Got?
    ensures var r := DecodeLike(m, b);
            Magic(r.value) == Magic(m) && Describable(r.value) && b == EncodeThen(r.value, r.rest)
  {
    hide DecodeRequest, Describable, EncodeThen;
    RequestWasRead(b);
  }

  lemma AttnRequestBranch(m: Message, b: Octets)
    requires m.AttnRequest? && DecodeLike(m, b).Got?
    ensures var r := DecodeLike(m, b);
            Magic(r.value) == Magic(m) && Describable(r.value) && b == EncodeThen(r.value, r.rest)
  {
    hide DecodeAttnRequest, Describable, EncodeThen;
    AttnRequestWasRead(b);
  }

  /** A message survives the wire exactly when its length fields describe it. */
  lemma RoundTripIffDescribable(m: Message)
    ensures DecodeLike(m, Encode(m)) == Got(m, []) <==> Describable(m)
  {
    hide *;
    EncodeIsEncodeThen(m);
    if Describable(m) {
      DecodesToItself(m, []);
    }
    if DecodeLike(m, Encode(m)) == Got(m, []) {
      if m.HelloAck? {
        AckDescribable(m);
      } else {
        DecodedWasEncoded(m, Encode(m));
      }
    }
  }

  lemma EncodeIsEncodeThen(m: Message)
    ensures Encode(m) == EncodeThen(m, [])
  {
  }

  lemma AckDescribable(m: Message)
    requires m.HelloAck?
    ensures Describable(m)
  {
  }

  // ---- how many values a message carries ---------------------------------------------------------

  /** The source's `n * 4` is exact below this many values. */
  const TWO62: nat := 0x4000_0000_0000_0000

  predicate CarriesBlock(m: Message) {
    !m.Hello? && !m.HelloAck?
  }

  function Block(m: Message): seq<f32>
    requires CarriesBlock(m)
  {
    match m
    case ExpertRequest(_, _, activations, _, _, _) => activations
    case AttnRequest(activations, _, _, _, _, _, _, _) => activations
    case ExpertResponse(outputs, _, _) => outputs
    case AttnResponse(outputs, _, _) => outputs
  }

  /** The number of values the length fields speak of. */
  function Values(m: Message): nat
    requires CarriesBlock(m)
  {
    m.nTokens * m.hidden
  }

  /** Every count fits its 32-bit field. */
  predicate CountsFit(m: Message)
    requires CarriesBlock(m)
  {
    && m.nTokens < TWO32 && m.hidden < TWO32
    && (m.ExpertRequest? ==> |m.experts| < TWO32 && |m.weights| < TWO32)
    && (m.AttnRequest? ==> |m.sel| < TWO32 && forall i :: 0 <= i < |m.sel| ==> |m.sel[i]| < TWO32)
  }

  lemma ByteCountIsExactIff(n: u64)
    ensures ByteCount(n) == 4 * n <==> n < TWO62
  {
  }

  lemma DescribableIs(m: Message)
    requires CarriesBlock(m)
    ensures Describable(m)
            <==> CountsFit(m) && (ProductFits(m.nTokens, m.hidden); ByteCount(Values(m)) == 4 * |Block(m)|)
  {
    hide ByteCount;
  }

  /** A message that carries exactly the values its fields speak of survives the wire if and only if the
      byte count of those values does not wrap. */
  lemma ExactBlockSurvivesIff(m: Message)
    requires CarriesBlock(m) && CountsFit(m) && |Block(m)| == Values(m)
    ensures DecodeLike(m, Encode(m)) == Got(m, []) <==> Values(m) < TWO62
  {
    hide DecodeLike, Encode, Describable, ByteCount;
    RoundTripIffDescribable(m);
    DescribableIs(m);
    ProductFits(m.nTokens, m.hidden);
    ByteCountIsExactIff(Values(m));
  }

  lemma SameKind(m: Message, v: Message)
    requires Magic(m) == Magic(v)
    ensures CarriesBlock(m) <==> CarriesBlock(v)
  {
  }

  /** A decoder checks nothing else: an accepted message carries the values its fields speak of if and only if
      their byte count does not wrap. */
  lemma AcceptedBlockIsExactIff(m: Message, b: Octets)
    requires CarriesBlock(m) && DecodeLike(m, b).Got?
    ensures var v := DecodeLike(m, b).value; CarriesBlock(v) && (|Block(v)| == Values(v) <==> Values(v) < TWO62)
  {
    DecodedWasEncoded(m, b);
    var v := DecodeLike(m, b).value;
    SameKind(m, v);
    hide DecodeLike, EncodeThen, Describable, ByteCount, Magic, CountsFit, Block;
    DescribableIs(v);
    ProductFits(v.nTokens, v.hidden);
    ByteCountIsExactIff(Values(v));
  }

  /** Twelve bytes that speak of 2^62 values are accepted as carrying none. */
  lemma WrappedBlockIsAccepted()
    ensures var b := U32(RSP_MAGIC) + (U32(0x8000_0000) + U32(0x8000_0000));
            |b| == 12 && DecodeResponse(b) == Got(ExpertResponse([], 0x8000_0000, 0x8000_0000), [])
  {
    var m := ExpertResponse([], 0x8000_0000, 0x8000_0000);
    assert Describable(m);
    DecodesToItself(m, []);
    var two := U32(0x8000_0000);
    hide U32, DecodeResponse;
    assert U32s([]) + [] == [] && two + [] == two;
  }

  /** No decoder accepts another kind's encoding, whatever follows it. */
  lemma NoCrossDecoding(m: Message, other: Message, rest: Octets)
    requires Magic(m) != Magic(other)
    ensures DecodeLike(other, EncodeThen(m, rest)) == Failed
  {
    hide U32s, Selection, U64;
    var b := EncodeThen(m, rest);
    StartsWithMagic(m, rest);
    hide EncodeThen, U32, ReadU32, ReadU64, ReadU32s, ReadBlock, ReadSelection;
    assert ReadMagic(b, Magic(other)) == Failed;
  }

  lemma StartsWithMagic(m: Message, rest: Octets)
    ensures ReadU32(EncodeThen(m, rest)).Got? && ReadU32(EncodeThen(m, rest)).value == Magic(m)
  {
    hide U32, U32s, Selection, U64, ReadU32;
    var tail: Octets :| EncodeThen(m, rest) == U32(Magic(m)) + tail;
    ReadsU32(Magic(m), tail);
  }
}
