/** Length-prefixed frames on a byte stream, and the two loops that build and take apart the largest message. */
module Frames {
  import opened Octets
  import opened Wrappers
  import opened Codec

  datatype FrameRead = Frame(payload: Octets, rest: Octets) | TooLarge | UnexpectedEof

  function WriteFrame(payload: Octets): Octets {
    U32(|payload|) + payload
  }

  function ReadFrame(stream: Octets): FrameRead {
    match ReadU32(stream)
    case Failed => UnexpectedEof
    case Got(n, body) =>
      if n > MAX_FRAME then TooLarge
      else if |body| < n then UnexpectedEof
      else Frame(body[..n], body[n..])
  }

  /** A frame reads back exactly when it is within the size limit. */
  lemma FrameReadsBackIffSmall(payload: Octets, rest: Octets)
    ensures ReadFrame(WriteFrame(payload) + rest) == Frame(payload, rest) <==> |payload| <= 0x4000_0000
  {
    var n := |payload| % TWO32;
    hide ReadU32, U32;
    ReadsU32(n, payload + rest);
    assert U32(|payload|) == U32(n) by { TruncatesOnce(|payload|); }
    assert WriteFrame(payload) + rest == U32(n) + (payload + rest);
    if |payload| <= MAX_FRAME {
      assert (payload + rest)[..n] == payload && (payload + rest)[n..] == rest;
    }
  }

  lemma TruncatesOnce(v: nat)
    ensures U32(v) == U32(v % TWO32)
  {
    hide ToLe;
    assert v % TWO32 % TWO32 == v % TWO32;
  }

  function WriteFrames(payloads: seq<Octets>): Octets {
    if payloads == [] then [] else WriteFrame(payloads[0]) + WriteFrames(payloads[1..])
  }

  /** What a reader gets before the first error or the end of the stream. */
  function ReadFrames(stream: Octets): seq<Octets>
    decreases |stream|
  {
    match ReadFrame(stream)
    case Frame(payload, rest) => [payload] + ReadFrames(rest)
    case TooLarge => []
    case UnexpectedEof => []
  }

  /** Any list of frames within the limit reads back as the same list. */
  lemma {:induction false} FramesReadBack(payloads: seq<Octets>)
    requires forall i :: 0 <= i < |payloads| ==> |payloads[i]| <= MAX_FRAME
    ensures ReadFrames(WriteFrames(payloads)) == payloads
  {
    if payloads != [] {
      FrameReadsBackIffSmall(payloads[0], WriteFrames(payloads[1..]));
      FramesReadBack(payloads[1..]);
      hide ReadFrame, WriteFrame;
      assert payloads == [payloads[0]] + payloads[1..];
    }
  }

  // ---- the cursor and the loops over it -------------------------------------------------

  /** A cursor over received bytes. A buffer never exceeds half the address space. */
  class Cur {
    const b: Octets
    var i: nat

    ghost predicate Valid()
      reads this
    {
      i <= |b| < TWO64 / 2
    }

    ghost function Left(): Octets
      requires Valid()
      reads this
    {
      b[i..]
    }

    constructor (bytes: Octets)
      requires |bytes| < TWO64 / 2
      ensures Valid() && b == bytes && Left() == bytes
    {
      b, i := bytes, 0;
    }

    method TakeU32() returns (r: Option<u32>)
      requires Valid()
      modifies this
      ensures Valid() && Took(r, ReadU32(old(Left())), Left())
    {
      var e := i + 4;
      if e > |b| {
        return None;
      }
      FromLeBound(b[i..e]);
      Powers();
      assert b[i..][..4] == b[i..e] && b[i..][4..] == b[e..];
      r := Some(FromLe(b[i..e]));
      i := e;
    }

    /** The end index is a 64-bit sum of the index and the wrapped byte count. */
    method TakeU32s(n: u64) returns (r: Option<seq<u32>>)
      requires Valid()
      modifies this
      ensures Valid() && Took(r, ReadU32s(old(Left()), n), Left())
    {
      var e := (i + ByteCount(n)) % TWO64;
      if e < i || e > |b| {
        return None;
      }
      assert e == i + ByteCount(n);
      assert b[i..][..ByteCount(n)] == b[i..e] && b[i..][ByteCount(n)..] == b[e..];
      r := Some(Words(b[i..e]));
      i := e;
    }
  }

  /** A cursor operation returned what the specification reads and left the rest. */
  ghost predicate Took<T>(r: Option<T>, spec: Read<T>, left: Octets) {
    match spec
    case Failed => r.None?
    case Got(value, rest) => r == Some(value) && left == rest
  }

  ghost function Prepend(sel: seq<seq<u32>>, r: Read<seq<seq<u32>>>): Read<seq<seq<u32>>> {
    match r
    case Failed => Failed
    case Got(more, rest) => Got(sel + more, rest)
  }

  ghost function UnfoldedSelection(b: Octets, n: nat): Read<seq<seq<u32>>> {
    if n == 0 then Got([], b)
    else
      match ReadU32(b)
      case Failed => Failed
      case Got(len, b1) =>
        match ReadU32s(b1, len)
        case Failed => Failed
        case Got(q, b2) => Prepend([q], ReadSelection(b2, n - 1))
  }

  lemma SelectionUnfolds(b: Octets, n: nat)
    ensures ReadSelection(b, n) == UnfoldedSelection(b, n)
  {
  }

  lemma PrependNothing(r: Read<seq<seq<u32>>>)
    ensures Prepend([], r) == r
  {
    assert r.Got? ==> [] + r.value == r.value;
  }

  lemma PrependOneMore(sel: seq<seq<u32>>, q: seq<u32>, r: Read<seq<seq<u32>>>)
    ensures Prepend(sel + [q], r) == Prepend(sel, Prepend([q], r))
  {
    assert r.Got? ==> sel + [q] + r.value == sel + ([q] + r.value);
  }

  /** The per-query loop of `decode_attn_request`. */
  method TakeSelection(c: Cur, n: u32) returns (r: Option<seq<seq<u32>>>)
    requires c.Valid()
    modifies c
    ensures c.Valid() && Took(r, ReadSelection(old(c.Left()), n), c.Left())
  {
    ghost var want := ReadSelection(c.Left(), n);
    var sel: seq<seq<u32>> := [];
    hide ReadU32, ReadU32s, ReadSelection;
    PrependNothing(want);
    for k := 0 to n
      invariant c.Valid() && Prepend(sel, ReadSelection(c.Left(), n - k)) == want
    {
      SelectionUnfolds(c.Left(), n - k);
      var len := c.TakeU32();
      if len.None? {
        return None;
      }
      var q := c.TakeU32s(len.value);
      if q.None? {
        return None;
      }
      PrependOneMore(sel, q.value, ReadSelection(c.Left(), n - k - 1));
      sel := sel + [q.value];
    }
    SelectionUnfolds(c.Left(), 0);
    assert sel + [] == sel;
    r := Some(sel);
  }

  method PutU32s(b0: Octets, v: seq<u32>) returns (b: Octets)
    ensures b == b0 + U32s(v)
  {
    b := b0;
    hide U32;
    for i := 0 to |v|
      invariant b + U32s(v[i..]) == b0 + U32s(v)
    {
      assert v[i..][1..] == v[i + 1..];
      b := b + U32(v[i]);
    }
  }

  function AttnHeader(m: Message): Octets
    requires m.AttnRequest?
  {
    U32(AREQ_MAGIC) + U32(m.layer) + U32(m.nTokens) + U32(m.hidden) + U32(m.posBase) + U32(m.hStart) + U32(m.hCount)
      + U32(|m.sel|)
  }

  lemma AttnEncoding(m: Message)
    requires m.AttnRequest?
    ensures AttnHeader(m) + Selection(m.sel) + U32s(m.activations) == Encode(m)
  {
    hide U32, U32s, Selection;
    var h0, h1, h2, h3 := U32(AREQ_MAGIC), U32(m.layer), U32(m.nTokens), U32(m.hidden);
    var h4, h5, h6, h7 := U32(m.posBase), U32(m.hStart), U32(m.hCount), U32(|m.sel|);
    var body := Selection(m.sel) + (U32s(m.activations) + []);
    assert U32s(m.activations) + [] == U32s(m.activations);
    Associate(h0, h1, h2 + (h3 + (h4 + (h5 + (h6 + (h7 + body))))));
    Associate(h0 + h1, h2, h3 + (h4 + (h5 + (h6 + (h7 + body)))));
    Associate(h0 + h1 + h2, h3, h4 + (h5 + (h6 + (h7 + body))));
    Associate(h0 + h1 + h2 + h3, h4, h5 + (h6 + (h7 + body)));
    Associate(h0 + h1 + h2 + h3 + h4, h5, h6 + (h7 + body));
    Associate(h0 + h1 + h2 + h3 + h4 + h5, h6, h7 + body);
    Associate(h0 + h1 + h2 + h3 + h4 + h5 + h6, h7, body);
    Associate(AttnHeader(m), Selection(m.sel), U32s(m.activations));
  }

  lemma SelectionStep(b: Octets, q: seq<u32>, more: seq<seq<u32>>)
    ensures b + Selection([q] + more) == (b + U32(|q|)) + U32s(q) + Selection(more)
  {
  }

  /** The per-query loop of `encode_attn_request`: a count, then the positions. */
  method PutSelection(b0: Octets, sel: seq<seq<u32>>) returns (b: Octets)
    ensures b == b0 + Selection(sel)
  {
    b := b0;
    for k := 0 to |sel|
      invariant b + Selection(sel[k..]) == b0 + Selection(sel)
    {
      hide *;
      SelectionStep(b, sel[k], sel[k + 1..]);
      assert sel[k..] == [sel[k]] + sel[k + 1..];
      b := b + U32(|sel[k]|);
      b := PutU32s(b, sel[k]);
    }
  }

  /** `encode_attn_request`: header, then the selection, then the activations. */
  method PutAttnRequest(m: Message) returns (b: Octets)
    requires m.AttnRequest?
    ensures b == Encode(m)
  {
    b := AttnHeader(m);
    AttnEncoding(m);
    b := PutSelection(b, m.sel);
    b := PutU32s(b, m.activations);
  }
}
