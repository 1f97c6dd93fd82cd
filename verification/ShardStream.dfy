/** Shipping a shard: tensors are packed into files of bounded size, each file is announced with its length and
    streamed, and the receiver writes exactly the files that were streamed or fails. */
module ShardStream {
  import opened Codec
  import opened Octets
  import opened ShardSelect

  /** A tensor of the source snapshot: what its header entry says, and its bytes. */
  datatype Tensor = Tensor(name: Octets, dtype: Octets, shape: seq<nat>, data: Octets)

  datatype File = File(path: Octets, content: Octets)

  // ---- packing ------------------------------------------------------------------------------------------------

  datatype Range = Range(lo: nat, hi: nat)

  /** The server's limit on the payload of one packed file. */
  const MAX_FILE: nat := 5_000_000_000

  function Sum(sizes: seq<nat>, lo: nat, hi: nat): nat
    requires hi <= |sizes|
  {
    if lo >= hi then 0 else Sum(sizes, lo, hi - 1) + sizes[hi - 1]
  }

  /** A file's tensors: not empty, within the limit or a single one, and not extendable. */
  ghost predicate IsGroup(sizes: seq<nat>, maxFile: nat, g: Range) {
    && g.lo < g.hi <= |sizes|
    && (Sum(sizes, g.lo, g.hi) <= maxFile || g.hi == g.lo + 1)
    && (g.hi < |sizes| ==> Sum(sizes, g.lo, g.hi) + sizes[g.hi] > maxFile)
  }

  /** The ranges follow each other from 0 to `n` without gap or overlap. */
  ghost predicate Tiles(groups: seq<Range>, n: nat) {
    if groups == [] then n == 0
    else groups[|groups| - 1].hi == n && Tiles(groups[..|groups| - 1], groups[|groups| - 1].lo)
  }

  /** The packing of `cmd_shard_serve`. */
  method PackForPeer(items: seq<Tensor>) returns (groups: seq<Range>)
    ensures Tiles(groups, |items|)
    ensures forall k :: 0 <= k < |groups| ==> IsGroup(Sizes(items), 5_000_000_000, groups[k])
  {
    groups := GroupTensors(Sizes(items), MAX_FILE);
  }

  function Sizes(items: seq<Tensor>): (s: seq<nat>)
    ensures |s| == |items|
  {
    seq(|items|, i requires 0 <= i < |items| => |items[i].data|)
  }

  /** The inner loop: takes tensors while they fit, and at least one. */
  method TakeGroup(sizes: seq<nat>, maxFile: nat, start: nat) returns (g: Range)
    requires start < |sizes|
    ensures IsGroup(sizes, maxFile, g) && g.lo == start
  {
    var i, acc := start, 0;
    while i < |sizes| && (i == start || acc + sizes[i] <= maxFile)
      invariant start <= i <= |sizes| && acc == Sum(sizes, start, i)
      invariant i > start ==> acc <= maxFile || i == start + 1
      decreases |sizes| - i
    {
      acc := acc + sizes[i];
      i := i + 1;
    }
    g := Range(start, i);
  }

  method GroupTensors(sizes: seq<nat>, maxFile: nat) returns (groups: seq<Range>)
    ensures Tiles(groups, |sizes|)
    ensures forall k :: 0 <= k < |groups| ==> IsGroup(sizes, maxFile, groups[k])
  {
    groups := [];
    var i := 0;
    while i < |sizes|
      invariant 0 <= i <= |sizes| && Tiles(groups, i)
      invariant forall k :: 0 <= k < |groups| ==> IsGroup(sizes, maxFile, groups[k])
      decreases |sizes| - i
    {
      var g := TakeGroup(sizes, maxFile, i);
      assert (groups + [g])[..|groups|] == groups;
      groups := groups + [g];
      i := g.hi;
    }
  }

  /** The packing is determined by the sizes and the limit. */
  lemma {:induction false} PackingIsUnique(sizes: seq<nat>, maxFile: nat, a: seq<Range>, b: seq<Range>, n: nat, k: nat)
    requires Tiles(a, n) && Tiles(b, n) && k < |a| && k < |b|
    requires forall j :: 0 <= j < |a| ==> IsGroup(sizes, maxFile, a[j])
    requires forall j :: 0 <= j < |b| ==> IsGroup(sizes, maxFile, b[j])
    ensures a[k] == b[k]
    decreases k
  {
    TilesFollow(a, n, k);
    TilesFollow(b, n, k);
    if k > 0 {
      PackingIsUnique(sizes, maxFile, a, b, n, k - 1);
    }
    SameStartSameGroup(sizes, maxFile, a[k], b[k]);
  }

  lemma {:induction false} TilesFollow(groups: seq<Range>, n: nat, k: nat)
    requires Tiles(groups, n) && k < |groups|
    ensures groups[k].lo == if k == 0 then 0 else groups[k - 1].hi
    decreases |groups|
  {
    var last := |groups| - 1;
    if k < last {
      TilesFollow(groups[..last], groups[last].lo, k);
    }
  }

  lemma {:induction false} SumGrows(sizes: seq<nat>, lo: nat, mid: nat, hi: nat)
    requires lo <= mid <= hi <= |sizes|
    ensures Sum(sizes, lo, mid) <= Sum(sizes, lo, hi)
  {
    if mid < hi {
      SumGrows(sizes, lo, mid, hi - 1);
    }
  }

  lemma SameStartSameGroup(sizes: seq<nat>, maxFile: nat, g: Range, h: Range)
    requires IsGroup(sizes, maxFile, g) && IsGroup(sizes, maxFile, h) && g.lo == h.lo
    ensures g == h
  {
    if g.hi < h.hi {
      SumGrows(sizes, g.lo, g.hi + 1, h.hi);
    } else if h.hi < g.hi {
      SumGrows(sizes, h.lo, h.hi + 1, g.hi);
    }
  }

  // ---- one packed file ------------------------------------------------------------------------------------------

  function Payload(ts: seq<Tensor>): Octets {
    if ts == [] then [] else Payload(ts[..|ts| - 1]) + ts[|ts| - 1].data
  }

  /** The decimal dimensions, separated by commas. */
  function ShapeBytes(shape: seq<nat>): Octets {
    if shape == [] then []
    else ShapeBytes(shape[..|shape| - 1]) + (if |shape| > 1 then [44] else []) + Decimal(shape[|shape| - 1])
  }

  /** `"name":{"dtype":"D","shape":[S],"data_offsets":[lo,hi]}` */
  function EntryBytes(t: Tensor, lo: nat): Octets {
    [34] + t.name + [34, 58, 123, 34, 100, 116, 121, 112, 101, 34, 58, 34] + t.dtype
    + [34, 44, 34, 115, 104, 97, 112, 101, 34, 58, 91] + ShapeBytes(t.shape)
    + [93, 44, 34, 100, 97, 116, 97, 95, 111, 102, 102, 115, 101, 116, 115, 34, 58, 91]
    + Decimal(lo) + [44] + Decimal(lo + |t.data|) + [93, 125]
  }

  function EntriesBytes(ts: seq<Tensor>): Octets {
    if ts == [] then []
    else
      var front := ts[..|ts| - 1];
      EntriesBytes(front) + (if |ts| > 1 then [44] else []) + EntryBytes(ts[|ts| - 1], |Payload(front)|)
  }

  function Header(ts: seq<Tensor>): Octets {
    [123] + EntriesBytes(ts) + [125]
  }

  /** `out-`, the index in at least five digits, `.safetensors` */
  function OutPath(fi: nat): Octets {
    var d := Decimal(fi);
    [111, 117, 116, 45] + Zeros(if |d| < 5 then 5 - |d| else 0) + d
        + [46, 115, 97, 102, 101, 116, 101, 110, 115, 111, 114, 115]
  }

  function Zeros(n: nat): (b: Octets)
    ensures |b| == n
  {
    if n == 0 then [] else Zeros(n - 1) + [ZERO]
  }

  ghost predicate SmallHeader(ts: seq<Tensor>) {
    8 + |Header(ts)| + |Payload(ts)| < TWO64
  }

  function Content(ts: seq<Tensor>): Octets
    requires SmallHeader(ts)
  {
    U64(|Header(ts)|) + Header(ts) + Payload(ts)
  }

  lemma U64Length(v: u64)
    ensures |U64(v)| == 8
  {
  }

  lemma EntriesNext(ts: seq<Tensor>, gi: nat)
    requires gi < |ts|
    ensures EntriesBytes(ts[..gi + 1])
         == EntriesBytes(ts[..gi]) + (if gi > 0 then [44] else []) + EntryBytes(ts[gi], |Payload(ts[..gi])|)
    ensures |Payload(ts[..gi + 1])| == |Payload(ts[..gi])| + |ts[gi].data|
  {
    assert ts[..gi + 1][..gi] == ts[..gi];
  }

  /** The header written entry by entry, with a running offset. */
  method BuildHeader(ts: seq<Tensor>) returns (header: Octets, payloadBytes: nat)
    ensures header == Header(ts) && payloadBytes == |Payload(ts)|
  {
    var entries: Octets := [];
    var rel := 0;
    assert ts[..|ts|] == ts;
    assert EntriesBytes([]) == [] && Payload([]) == [];
    hide EntryBytes, EntriesBytes, Payload;
    for gi := 0 to |ts|
      invariant entries == EntriesBytes(ts[..gi]) && rel == |Payload(ts[..gi])|
    {
      EntriesNext(ts, gi);
      if gi > 0 {
        entries := entries + [44];
      }
      entries := entries + EntryBytes(ts[gi], rel);
      rel := rel + |ts[gi].data|;
    }
    header := [123] + entries + [125];
    payloadBytes := rel;
  }

  lemma PayloadSnoc(ts: seq<Tensor>, t: Tensor)
    ensures Payload(ts + [t]) == Payload(ts) + t.data
  {
    assert (ts + [t])[..|ts|] == ts;
  }

  lemma LastApart(a: seq<Tensor>, b: seq<Tensor>)
    requires b != []
    ensures var front, t := b[..|b| - 1], b[|b| - 1]; b == front + [t] && a + b == (a + front) + [t]
  {
  }

  lemma {:induction false} PayloadConcat(a: seq<Tensor>, b: seq<Tensor>)
    ensures Payload(a + b) == Payload(a) + Payload(b)
  {
    if b == [] {
      assert a + b == a;
    } else {
      var front, t := b[..|b| - 1], b[|b| - 1];
      hide Payload;
      PayloadConcat(a, front);
      PayloadSnoc(a + front, t);
      PayloadSnoc(front, t);
      LastApart(a, b);
    }
  }

  /** Each tensor's bytes are at the offsets its header entry names, counted from the end of the header. */
  lemma TensorAtItsOffsets(ts: seq<Tensor>, i: nat)
    requires SmallHeader(ts) && i < |ts|
    ensures var base, lo := 8 + |Header(ts)|, |Payload(ts[..i])|;
            base + lo + |ts[i].data| <= |Content(ts)| && Content(ts)[base + lo..base + lo + |ts[i].data|] == ts[i].data
  {
    PayloadSplits(ts, i);
    hide Header, Payload, U64;
    SliceOf(U64(|Header(ts)|) + Header(ts), Payload(ts[..i]), ts[i].data, Payload(ts[i + 1..]), Content(ts));
  }

  lemma PayloadSplits(ts: seq<Tensor>, i: nat)
    requires i < |ts|
    ensures Payload(ts) == Payload(ts[..i]) + ts[i].data + Payload(ts[i + 1..])
  {
    hide Payload;
    PayloadConcat(ts[..i] + [ts[i]], ts[i + 1..]);
    PayloadSnoc(ts[..i], ts[i]);
    Pieces(ts, i);
  }

  lemma Pieces(ts: seq<Tensor>, i: nat)
    requires i < |ts|
    ensures ts == (ts[..i] + [ts[i]]) + ts[i + 1..]
  {
  }

  lemma SliceOf(head: Octets, front: Octets, data: Octets, rest: Octets, all: Octets)
    requires all == head + (front + data + rest)
    ensures |head| + |front| + |data| <= |all| && all[|head| + |front|..|head| + |front| + |data|] == data
  {
  }
}
