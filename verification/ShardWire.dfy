/** The shard stream on the wire: a file count, then per file its path, announced size and bytes. */
module ShardWire {
  import opened Codec
  import opened Octets
  import opened ShardStream
  import opened Wrappers

  // ---- what is sent ---------------------------------------------------------------------------------------------

  /** Lengths fit their fields. */
  ghost predicate Sendable(f: File) {
    |f.path| < TWO32 && |f.content| < TWO64
  }

  function FileFrame(f: File): Octets
    requires |f.content| < TWO64
  {
    U32(|f.path|) + (f.path + (U64(|f.content|) + f.content))
  }

  ghost predicate AllSendable(files: seq<File>) {
    |files| < TWO64 && forall i :: 0 <= i < |files| ==> Sendable(files[i])
  }

  ghost function FileFrames(files: seq<File>): Octets
    requires forall i :: 0 <= i < |files| ==> Sendable(files[i])
  {
    if files == [] then []
    else
      assert Sendable(files[0]);
      FileFrame(files[0]) + FileFrames(files[1..])
  }

  ghost function Stream(files: seq<File>): Octets
    requires AllSendable(files)
  {
    U64(|files|) + FileFrames(files)
  }

  // ---- what is received -------------------------------------------------------------------------------------------

  function ReadFile(b: Octets): Read<File> {
    var (n, b1) :- ReadU32(b);
    if |b1| < n then Failed
    else
      var (size, b2) :- ReadU64(b1[n..]);
      if |b2| < size then Failed else Got(File(b1[..n], b2[..size]), b2[size..])
  }

  function ReadFiles(b: Octets, n: nat): Option<seq<File>> {
    if n == 0 then Some([])
    else
      match ReadFile(b)
      case Failed => None
      case Got(f, rest) =>
        match ReadFiles(rest, n - 1)
        case None => None
        case Some(files) => Some([f] + files)
  }

  /** The files written by a pull that ends well; `None` when the stream ends early. */
  function Pull(b: Octets): Option<seq<File>> {
    match ReadU64(b)
    case Failed => None
    case Got(n, rest) => ReadFiles(rest, n)
  }

  // ---- reading back -------------------------------------------------------------------------------------------------

  lemma SplitAt(a: Octets, b: Octets)
    ensures (a + b)[..|a|] == a && (a + b)[|a|..] == b
  {
  }

  lemma FileReadsBack(f: File, rest: Octets)
    requires Sendable(f)
    ensures ReadFile(FileFrame(f) + rest) == Got(f, rest)
  {
    hide ReadU32, ReadU64, U32, U64;
    var tail := U64(|f.content|) + (f.content + rest);
    ReadsU32(|f.path|, f.path + tail);
    ReadsU64(|f.content|, f.content + rest);
    assert FileFrame(f) + rest == U32(|f.path|) + (f.path + tail);
    SplitAt(f.path, tail);
    SplitAt(f.content, rest);
  }

  lemma ReadFilesStep(b: Octets, n: nat, f: File, rest: Octets, files: seq<File>)
    requires n > 0 && ReadFile(b) == Got(f, rest) && ReadFiles(rest, n - 1) == Some(files)
    ensures ReadFiles(b, n) == Some([f] + files)
  {
  }

  lemma FramesCons(files: seq<File>)
    requires files != [] && forall i :: 0 <= i < |files| ==> Sendable(files[i])
    ensures Sendable(files[0]) && FileFrames(files) == FileFrame(files[0]) + FileFrames(files[1..])
  {
    assert Sendable(files[0]);
  }

  lemma {:induction false} FilesReadBack(files: seq<File>, rest: Octets)
    requires forall i :: 0 <= i < |files| ==> Sendable(files[i])
    ensures ReadFiles(FileFrames(files) + rest, |files|) == Some(files)
  {
    if files != [] {
      hide FileFrames, ReadFiles, FileFrame, ReadFile;
      FramesCons(files);
      var frame, more := FileFrame(files[0]), FileFrames(files[1..]);
      FilesReadBack(files[1..], rest);
      FileReadsBack(files[0], more + rest);
      Associate(frame, more, rest);
      ReadFilesStep((frame + more) + rest, |files|, files[0], more + rest, files[1..]);
      assert files == [files[0]] + files[1..];
    }
  }

  /** A pull writes exactly the files that were streamed. */
  lemma PullReadsBack(files: seq<File>, rest: Octets)
    requires AllSendable(files)
    ensures Pull(Stream(files) + rest) == Some(files)
  {
    hide ReadU64, U64, ReadFiles, FileFrames;
    ReadsU64(|files|, FileFrames(files) + rest);
    FilesReadBack(files, rest);
    Associate(U64(|files|), FileFrames(files), rest);
  }

  // ---- a stream cut short -------------------------------------------------------------------------------------------

  /** A prefix of `a + b` either stops inside `a` or is `a` and a prefix of `b`. */
  lemma PrefixOfConcat(p: Octets, a: Octets, b: Octets)
    requires p <= a + b
    ensures |p| < |a| ==> p <= a
    ensures |p| >= |a| ==> p == a + p[|a|..] && p[|a|..] <= b
  {
  }

  lemma FixedLengths(v: nat, w: u64)
    ensures |U32(v)| == 4 && |U64(w)| == 8
  {
  }

  /** A file cut short is never taken for a whole one. */
  lemma CutFileFails(f: File, p: Octets)
    requires Sendable(f) && p <= FileFrame(f) && p != FileFrame(f)
    ensures ReadFile(p) == Failed
  {
    var tail := U64(|f.content|) + f.content;
    FixedLengths(|f.path|, |f.content|);
    PrefixOfConcat(p, U32(|f.path|), f.path + tail);
    if |p| >= 4 {
      var q := p[4..];
      ReadsU32(|f.path|, q);
      PrefixOfConcat(q, f.path, tail);
      if |q| >= |f.path| {
        CutAfterPath(f, q[|f.path|..], q);
      }
    }
  }

  lemma CutAfterPath(f: File, r: Octets, q: Octets)
    requires Sendable(f) && q == f.path + r && r <= U64(|f.content|) + f.content && r != U64(|f.content|) + f.content
    ensures q[|f.path|..] == r
    ensures ReadU64(r).Failed? || (ReadU64(r).value == |f.content| && |ReadU64(r).rest| < |f.content|)
  {
    FixedLengths(0, |f.content|);
    PrefixOfConcat(r, U64(|f.content|), f.content);
    if |r| >= 8 {
      ReadsU64(|f.content|, r[8..]);
    }
  }

  lemma {:induction false} CutFilesFail(files: seq<File>, p: Octets)
    requires forall i :: 0 <= i < |files| ==> Sendable(files[i])
    requires p <= FileFrames(files) && p != FileFrames(files)
    ensures ReadFiles(p, |files|) == None
  {
    var frame, tail := FileFrame(files[0]), FileFrames(files[1..]);
    PrefixOfConcat(p, frame, tail);
    if |p| < |frame| {
      CutFileFails(files[0], p);
    } else {
      var q := p[|frame|..];
      FileReadsBack(files[0], q);
      CutFilesFail(files[1..], q);
    }
  }

  /** A stream cut anywhere makes the pull fail: a server that stops half-way never looks like success. */
  lemma CutStreamFails(files: seq<File>, p: Octets)
    requires AllSendable(files) && p <= Stream(files) && p != Stream(files)
    ensures Pull(p) == None
  {
    FixedLengths(0, |files|);
    PrefixOfConcat(p, U64(|files|), FileFrames(files));
    if |p| >= 8 {
      ReadsU64(|files|, p[8..]);
      hide FileFrames, U64, ReadFiles;
      CutFilesFail(files, p[8..]);
    }
  }

  // ---- the sending loops --------------------------------------------------------------------------------------------

  /** The buffers of a group's tensors, in whatever order the reader threads delivered them; a failed read
      delivers nothing. */
  method Collect(ts: seq<Tensor>, arrivals: seq<nat>) returns (bufs: seq<Option<Octets>>)
    requires forall k :: 0 <= k < |arrivals| ==> arrivals[k] < |ts|
    ensures |bufs| == |ts| && forall i :: 0 <= i < |ts| ==> bufs[i] == if i in arrivals then Some(ts[i].data) else None
  {
    bufs := seq(|ts|, _ => None);
    for k := 0 to |arrivals|
      invariant |bufs| == |ts|
      invariant forall i :: 0 <= i < |ts| ==> bufs[i] == if i in arrivals[..k] then Some(ts[i].data) else None
    {
      assert arrivals[..k + 1] == arrivals[..k] + [arrivals[k]];
      bufs := bufs[arrivals[k] := Some(ts[arrivals[k]].data)];
    }
    assert arrivals[..|arrivals|] == arrivals;
  }

  /** Sends the buffers in tensor order, stopping at the first one that is missing. */
  method SendBuffers(ts: seq<Tensor>, bufs: seq<Option<Octets>>) returns (sent: Octets, ok: bool)
    requires |bufs| == |ts| && forall i :: 0 <= i < |ts| ==> bufs[i].None? || bufs[i] == Some(ts[i].data)
    ensures ok ==> sent == Payload(ts)
    ensures !ok ==> sent <= Payload(ts)
    ensures ok <==> forall i :: 0 <= i < |bufs| ==> bufs[i].Some?
  {
    sent := [];
    var i := 0;
    while i < |ts|
      invariant 0 <= i <= |ts| && sent == Payload(ts[..i])
      invariant forall k :: 0 <= k < i ==> bufs[k].Some?
    {
      if bufs[i].None? {
        PayloadPrefix(ts, i);
        return sent, false;
      }
      assert ts[..i + 1][..i] == ts[..i];
      sent := sent + bufs[i].value;
      i := i + 1;
    }
    assert ts[..i] == ts;
    ok := true;
  }

  lemma PayloadPrefix(ts: seq<Tensor>, i: nat)
    requires i <= |ts|
    ensures Payload(ts[..i]) <= Payload(ts)
  {
    hide Payload;
    PayloadConcat(ts[..i], ts[i..]);
    InTwo(ts, i);
    PrefixOfLonger(Payload(ts[..i]), Payload(ts[..i]), Payload(ts[i..]));
  }

  lemma InTwo(ts: seq<Tensor>, i: nat)
    requires i <= |ts|
    ensures ts[..i] + ts[i..] == ts
  {
  }

  /** Every one of a group's `n` tensors was read. */
  ghost predicate AllRead(n: int, arrivals: seq<nat>) {
    forall i: nat :: i < n ==> i in arrivals
  }

  ghost function ShardFile(ts: seq<Tensor>, fi: nat): File
    requires SmallHeader(ts)
  {
    File(OutPath(fi), Content(ts))
  }

  /** One packed file: the size is announced before the tensors are read. */
  method SendGroup(ts: seq<Tensor>, fi: nat, arrivals: seq<nat>) returns (sent: Octets, ok: bool)
    requires SmallHeader(ts) && Sendable(ShardFile(ts, fi))
    requires forall k :: 0 <= k < |arrivals| ==> arrivals[k] < |ts|
    ensures ok ==> sent == FileFrame(ShardFile(ts, fi))
    ensures sent <= FileFrame(ShardFile(ts, fi))
    ensures ok <==> AllRead(|ts|, arrivals)
  {
    var header, groupBytes := BuildHeader(ts);
    hide Header, Payload, OutPath, U32, U64;
    U64Length(|header|);
    var fileSize := 8 + |header| + groupBytes;
    var path := OutPath(fi);
    var front := U32(|path|) + (path + (U64(fileSize) + (U64(|header|) + header)));
    var bufs := Collect(ts, arrivals);
    var body;
    body, ok := SendBuffers(ts, bufs);
    sent := front + body;
    GroupFrame(ts, fi, front);
    PrefixExtends(front, body, Payload(ts));
  }

  lemma PrefixExtends(front: Octets, p: Octets, q: Octets)
    requires p <= q
    ensures front + p <= front + q
  {
  }

  lemma GroupFrame(ts: seq<Tensor>, fi: nat, front: Octets)
    requires SmallHeader(ts)
    requires front
            == U32(|OutPath(fi)|)
                + (OutPath(fi) + (U64(8 + |Header(ts)| + |Payload(ts)|) + (U64(|Header(ts)|) + Header(ts))))
    ensures |Content(ts)| == 8 + |Header(ts)| + |Payload(ts)|
    ensures FileFrame(ShardFile(ts, fi)) == front + Payload(ts)
  {
    hide Header, Payload, OutPath, U32, U64;
    U64Length(|Header(ts)|);
    var h, p := U64(|Header(ts)|) + Header(ts), Payload(ts);
    var size := U64(8 + |Header(ts)| + |Payload(ts)|);
    Associate(size, h, p);
    Associate(OutPath(fi), size + h, p);
    Associate(U32(|OutPath(fi)|), OutPath(fi) + (size + h), p);
  }

  // ---- a whole stream -----------------------------------------------------------------------------------------------

  ghost predicate InBounds(items: seq<Tensor>, groups: seq<Range>) {
    forall k :: 0 <= k < |groups| ==>
        groups[k].lo <= groups[k].hi <= |items| && SmallHeader(items[groups[k].lo..groups[k].hi])
  }

  /** The packed files of the first `k` groups. */
  ghost function ShardFiles(items: seq<Tensor>, groups: seq<Range>, k: nat): (files: seq<File>)
    requires InBounds(items, groups) && k <= |groups|
    ensures |files| == k
  {
    if k == 0 then []
    else ShardFiles(items, groups, k - 1) + [ShardFile(items[groups[k - 1].lo..groups[k - 1].hi], k - 1)]
  }

  /** Everything a peer is sent: the packed files, then the metadata files. */
  ghost function AllFiles(items: seq<Tensor>, groups: seq<Range>, meta: seq<File>): (files: seq<File>)
    requires InBounds(items, groups)
    ensures |files| == |groups| + |meta|
  {
    ShardFiles(items, groups, |groups|) + meta
  }

  lemma {:induction false} ShardFilesPrefix(items: seq<Tensor>, groups: seq<Range>, k: nat, n: nat)
    requires InBounds(items, groups) && k <= n <= |groups|
    ensures ShardFiles(items, groups, n)[..k] == ShardFiles(items, groups, k)
  {
    hide InBounds, ShardFile;
    if k < n {
      ShardFilesPrefix(items, groups, k, n - 1);
    }
  }

  lemma {:induction false} FramesSnoc(files: seq<File>, f: File)
    requires Sendable(f) && forall i :: 0 <= i < |files| ==> Sendable(files[i])
    ensures FileFrames(files + [f]) == FileFrames(files) + FileFrame(f)
  {
    hide FileFrame;
    if files != [] {
      assert Sendable(files[0]);
      FramesSnoc(files[1..], f);
      assert (files + [f])[1..] == files[1..] + [f];
      Associate(FileFrame(files[0]), FileFrames(files[1..]), FileFrame(f));
    } else {
      assert (files + [f])[1..] == [];
    }
  }

  /** The stream after the first `k` files. */
  ghost function Sent(files: seq<File>, k: nat): Octets
    requires AllSendable(files) && k <= |files|
  {
    U64(|files|) + FileFrames(files[..k])
  }

  lemma FramesNext(files: seq<File>, k: nat)
    requires (forall i :: 0 <= i < |files| ==> Sendable(files[i])) && k < |files|
    ensures FileFrames(files[..k + 1]) == FileFrames(files[..k]) + FileFrame(files[k])
  {
    var front := files[..k];
    assert files[..k + 1] == front + [files[k]];
    FramesSnoc(front, files[k]);
  }

  lemma SentNext(files: seq<File>, k: nat)
    requires AllSendable(files) && k < |files|
    ensures Sendable(files[k]) && Sent(files, k + 1) == Sent(files, k) + FileFrame(files[k])
  {
    assert Sendable(files[k]);
    FramesNext(files, k);
    hide FileFrames, FileFrame, U64;
    Associate(U64(|files|), FileFrames(files[..k]), FileFrame(files[k]));
  }

  lemma SentEnds(files: seq<File>)
    requires AllSendable(files)
    ensures Sent(files, 0) == U64(|files|) && Sent(files, |files|) == Stream(files)
  {
    assert files[..|files|] == files;
  }

  lemma {:induction false} SentGrows(files: seq<File>, k: nat, n: nat)
    requires AllSendable(files) && k <= n <= |files|
    ensures Sent(files, k) <= Sent(files, n)
  {
    hide AllSendable, Sent, FileFrame;
    if k < n {
      SentGrows(files, k, n - 1);
      SentNext(files, n - 1);
      PrefixOfLonger(Sent(files, k), Sent(files, n - 1), FileFrame(files[n - 1]));
    }
  }

  lemma PrefixOfLonger(p: Octets, q: Octets, more: Octets)
    requires p <= q
    ensures p <= q + more
  {
  }

  /** Part of file `k` after all files before it is still a prefix of the stream. */
  lemma PartSent(files: seq<File>, k: nat, part: Octets)
    requires AllSendable(files) && k < |files| && Sendable(files[k]) && part <= FileFrame(files[k])
    ensures Sent(files, k) + part <= Stream(files)
  {
    SentNext(files, k);
    SentGrows(files, k + 1, |files|);
    SentEnds(files);
    hide Sent, Stream, FileFrame;
    PrefixExtends(Sent(files, k), part, FileFrame(files[k]));
  }

  /** Readers only deliver tensors of their group. */
  ghost predicate Plausible(groups: seq<Range>, arrivals: seq<seq<nat>>) {
    |arrivals| == |groups|
    && forall k, i :: 0 <= k < |groups| && 0 <= i < |arrivals[k]| ==> arrivals[k][i] < groups[k].hi - groups[k].lo
  }

  /** All tensors of all groups were read. */
  ghost predicate EveryRead(groups: seq<Range>, arrivals: seq<seq<nat>>, n: nat)
    requires n <= |groups| == |arrivals|
  {
    forall k :: 0 <= k < n ==> AllRead(groups[k].hi - groups[k].lo, arrivals[k])
  }

  /** The packed file number `k`, after all before it. */
  method SendShard(group: seq<Tensor>, ghost files: seq<File>, arrivals: seq<nat>, k: nat, before: Octets)
      returns (sent: Octets, ok: bool)
    requires AllSendable(files) && k < |files| && before == Sent(files, k)
    requires SmallHeader(group) && files[k] == ShardFile(group, k)
    requires forall i :: 0 <= i < |arrivals| ==> arrivals[i] < |group|
    ensures ok ==> sent == Sent(files, k + 1)
    ensures sent <= Stream(files)
    ensures ok <==> AllRead(|group|, arrivals)
  {
    SentNext(files, k);
    hide Sent, Stream, FileFrame, SmallHeader, AllRead, Content, AllSendable, ShardFile;
    var part;
    part, ok := SendGroup(group, k, arrivals);
    PartSent(files, k, part);
    sent := before + part;
  }

  /** The files to send start with one packed file per group. */
  ghost predicate IsPlan(items: seq<Tensor>, groups: seq<Range>, files: seq<File>) {
    && InBounds(items, groups) && |groups| <= |files|
    && forall k :: 0 <= k < |groups| ==> files[k] == ShardFile(items[groups[k].lo..groups[k].hi], k)
  }

  lemma EveryReadNext(groups: seq<Range>, arrivals: seq<seq<nat>>, k: nat)
    requires k < |groups| == |arrivals| && EveryRead(groups, arrivals, k)
    ensures AllRead(groups[k].hi - groups[k].lo, arrivals[k]) <==> EveryRead(groups, arrivals, k + 1)
    ensures !AllRead(groups[k].hi - groups[k].lo, arrivals[k]) ==> !EveryRead(groups, arrivals, |groups|)
  {
  }

  lemma GroupAt(items: seq<Tensor>, groups: seq<Range>, files: seq<File>, arrivals: seq<seq<nat>>, k: nat)
    requires IsPlan(items, groups, files) && Plausible(groups, arrivals) && k < |groups|
    ensures |arrivals| == |groups| <= |files| && groups[k].lo <= groups[k].hi <= |items|
    ensures var group := items[groups[k].lo..groups[k].hi];
            && |group| == groups[k].hi - groups[k].lo && SmallHeader(group) && files[k] == ShardFile(group, k)
            && forall i :: 0 <= i < |arrivals[k]| ==> arrivals[k][i] < |group|
  {
    hide SmallHeader, ShardFile;
  }

  lemma PlanStarts(items: seq<Tensor>, groups: seq<Range>, files: seq<File>, arrivals: seq<seq<nat>>)
    requires IsPlan(items, groups, files) && AllSendable(files) && Plausible(groups, arrivals)
    ensures |arrivals| == |groups| <= |files| && EveryRead(groups, arrivals, 0) && Sent(files, 0) <= Stream(files)
  {
    SentGrows(files, 0, |files|);
    SentEnds(files);
    hide Sent, Stream, AllSendable, InBounds;
  }

  /** The packed files, one group after another; a failed read stops the stream where it is. */
  method SendShards(items: seq<Tensor>, groups: seq<Range>, ghost files: seq<File>, arrivals: seq<seq<nat>>,
                    head: Octets)
      returns (sent: Octets, ok: bool)
    requires IsPlan(items, groups, files) && AllSendable(files) && Plausible(groups, arrivals) && head == Sent(files, 0)
    ensures ok ==> sent == Sent(files, |groups|)
    ensures sent <= Stream(files)
    ensures ok <==> EveryRead(groups, arrivals, |groups|)
  {
    hide *;
    PlanStarts(items, groups, files, arrivals);
    sent, ok := head, true;
    var k := 0;
    while k < |groups|
      invariant 0 <= k <= |groups| && ok && sent == Sent(files, k) && sent <= Stream(files)
      invariant EveryRead(groups, arrivals, k)
    {
      EveryReadNext(groups, arrivals, k);
      GroupAt(items, groups, files, arrivals, k);
      sent, ok := SendShard(items[groups[k].lo..groups[k].hi], files, arrivals[k], k, sent);
      if !ok {
        return;
      }
      k := k + 1;
    }
  }

  lemma AllFilesIsPlan(items: seq<Tensor>, groups: seq<Range>, meta: seq<File>)
    requires InBounds(items, groups)
    ensures IsPlan(items, groups, AllFiles(items, groups, meta))
  {
    hide ShardFile, SmallHeader;
    var files := AllFiles(items, groups, meta);
    forall k | 0 <= k < |groups| ensures files[k] == ShardFile(items[groups[k].lo..groups[k].hi], k) {
      ShardFilesPrefix(items, groups, k + 1, |groups|);
      assert ShardFiles(items, groups, |groups|)[..k + 1][k] == ShardFiles(items, groups, k + 1)[k];
    }
  }

  /** The file list of a peer fits the wire format. */
  ghost predicate Servable(items: seq<Tensor>, groups: seq<Range>, meta: seq<File>) {
    InBounds(items, groups) && AllSendable(AllFiles(items, groups, meta))
  }

  ghost predicate EndsWith(files: seq<File>, n: nat, meta: seq<File>) {
    |files| == n + |meta| && forall k :: 0 <= k < |meta| ==> files[n + k] == meta[k]
  }

  lemma AllFilesEndsWith(items: seq<Tensor>, groups: seq<Range>, meta: seq<File>)
    requires InBounds(items, groups)
    ensures EndsWith(AllFiles(items, groups, meta), |groups|, meta)
  {
    hide InBounds, ShardFile;
    assert |ShardFiles(items, groups, |groups|)| == |groups|;
  }

  lemma ServableFacts(items: seq<Tensor>, groups: seq<Range>, meta: seq<File>) returns (files: seq<File>)
    requires Servable(items, groups, meta)
    ensures InBounds(items, groups) && files == AllFiles(items, groups, meta) && AllSendable(files)
    ensures IsPlan(items, groups, files) && |files| == |groups| + |meta| < TWO64 && EndsWith(files, |groups|, meta)
    ensures Sent(files, 0) == U64(|files|)
  {
    assert InBounds(items, groups) && AllSendable(AllFiles(items, groups, meta));
    files := AllFiles(items, groups, meta);
    assert |files| < TWO64;
    hide *;
    AllFilesIsPlan(items, groups, meta);
    AllFilesEndsWith(items, groups, meta);
    SentEnds(files);
  }

  /** How copying a metadata file goes: all of it, or only so many bytes, none when it does not open. */
  datatype Copy = Whole | Stopped(after: nat)

  ghost predicate AllCopied(copies: seq<Copy>, n: nat)
    requires n <= |copies|
  {
    forall k :: 0 <= k < n ==> copies[k].Whole?
  }

  /** The server's answer to one peer. A metadata file is announced with the size it has. */
  method ServePeer(items: seq<Tensor>, groups: seq<Range>, meta: seq<File>, arrivals: seq<seq<nat>>,
                   copies: seq<Copy>, ghost files: seq<File>)
      returns (sent: Octets, ok: bool)
    requires Servable(items, groups, meta) && files == AllFiles(items, groups, meta) && Plausible(groups, arrivals)
    requires |copies| == |meta|
    ensures AllSendable(files) && (ok ==> sent == Stream(files)) && sent <= Stream(files)
    ensures ok <==> EveryRead(groups, arrivals, |groups|) && AllCopied(copies, |copies|)
  {
    hide *;
    ghost var f := ServableFacts(items, groups, meta);
    sent, ok := SendShards(items, groups, files, arrivals, U64(|groups| + |meta|));
    if ok {
      sent, ok := SendMeta(files, meta, copies, |groups|, sent);
    }
  }

  lemma MetaNext(files: seq<File>, meta: seq<File>, n: nat, k: nat)
    requires AllSendable(files) && EndsWith(files, n, meta) && k < |meta|
    ensures |meta[k].content| < TWO64 && Sent(files, n + (k + 1)) == Sent(files, n + k) + FileFrame(meta[k])
  {
    hide AllSendable, Sent, FileFrame;
    SentNext(files, n + k);
  }

  /** The announcement of a file and the first bytes of its content. */
  function PartialFrame(f: File, n: nat): Octets
    requires |f.content| < TWO64
  {
    U32(|f.path|) + (f.path + (U64(|f.content|) + f.content[..if n < |f.content| then n else |f.content|]))
  }

  lemma PartialIsPrefix(f: File, n: nat)
    requires |f.content| < TWO64
    ensures PartialFrame(f, n) <= FileFrame(f)
  {
    hide U32, U64;
    var part := f.content[..if n < |f.content| then n else |f.content|];
    PrefixExtends(U64(|f.content|), part, f.content);
    PrefixExtends(f.path, U64(|f.content|) + part, U64(|f.content|) + f.content);
    PrefixExtends(U32(|f.path|), f.path + (U64(|f.content|) + part), f.path + (U64(|f.content|) + f.content));
  }

  lemma MetaStops(files: seq<File>, meta: seq<File>, n: nat, k: nat, after: nat)
    requires AllSendable(files) && EndsWith(files, n, meta) && k < |meta|
    ensures |meta[k].content| < TWO64 && Sent(files, n + k) + PartialFrame(meta[k], after) <= Stream(files)
  {
    hide Sent, FileFrame, Stream, PartialFrame;
    assert Sendable(files[n + k]) && files[n + k] == meta[k];
    PartialIsPrefix(meta[k], after);
    PartSent(files, n + k, PartialFrame(meta[k], after));
  }

  /** The first `k` metadata files were copied, and everything up to them sent. */
  ghost predicate MetaSent(files: seq<File>, copies: seq<Copy>, n: nat, k: nat, sent: Octets)
    requires AllSendable(files)
  {
    n + k <= |files| && k <= |copies| && sent == Sent(files, n + k) && AllCopied(copies, k)
  }

  /** One metadata file; a failed copy stops the stream where it is. */
  method SendMetaFile(ghost files: seq<File>, meta: seq<File>, copies: seq<Copy>, n: nat, k: nat, before: Octets)
      returns (sent: Octets, ok: bool)
    requires AllSendable(files) && EndsWith(files, n, meta) && k < |meta| == |copies|
    requires MetaSent(files, copies, n, k, before)
    ensures ok ==> MetaSent(files, copies, n, k + 1, sent)
    ensures !ok ==> sent <= Stream(files) && !AllCopied(copies, |copies|)
  {
    MetaNext(files, meta, n, k);
    CopiedNext(copies, k);
    hide Sent, FileFrame, PartialFrame, Stream, AllCopied;
    match copies[k]
    case Whole =>
      sent, ok := before + FileFrame(meta[k]), true;
    case Stopped(after) =>
      MetaStops(files, meta, n, k, after);
      sent, ok := before + PartialFrame(meta[k], after), false;
  }

  lemma MetaStarts(files: seq<File>, meta: seq<File>, copies: seq<Copy>, n: nat)
    requires AllSendable(files) && |files| == n + |meta| && |copies| == |meta|
    ensures MetaSent(files, copies, n, 0, Sent(files, n))
    ensures forall sent :: MetaSent(files, copies, n, |meta|, sent) ==>
              sent == Stream(files) && AllCopied(copies, |copies|)
  {
    SentEnds(files);
    hide Sent, Stream;
  }

  /** The metadata files, announced with the size they have. */
  method SendMeta(ghost files: seq<File>, meta: seq<File>, copies: seq<Copy>, n: nat, before: Octets)
      returns (sent: Octets, ok: bool)
    requires AllSendable(files) && |files| == n + |meta| && EndsWith(files, n, meta) && before == Sent(files, n)
    requires |copies| == |meta|
    ensures ok ==> sent == Stream(files)
    ensures sent <= Stream(files)
    ensures ok <==> AllCopied(copies, |copies|)
  {
    hide *;
    MetaStarts(files, meta, copies, n);
    sent, ok := before, true;
    var k := 0;
    while k < |meta|
      invariant 0 <= k <= |meta| && ok && MetaSent(files, copies, n, k, sent)
    {
      sent, ok := SendMetaFile(files, meta, copies, n, k, sent);
      if !ok {
        return;
      }
      k := k + 1;
    }
  }

  lemma CopiedNext(copies: seq<Copy>, k: nat)
    requires k < |copies| && AllCopied(copies, k)
    ensures copies[k].Whole? <==> AllCopied(copies, k + 1)
    ensures copies[k].Stopped? ==> !AllCopied(copies, |copies|)
  {
  }

  // ---- the receiving loops ------------------------------------------------------------------------------------------

  const CHUNK: nat := 0x80_0000

  /** Copies `size` bytes off the stream in chunks of at most 8 MiB. */
  method CopyChunks(stream: Octets, size: nat) returns (ok: bool, content: Octets)
    ensures ok <==> |stream| >= size
    ensures ok ==> content == stream[..size]
  {
    var left: nat := size;
    var done := 0;
    content := [];
    while left > 0
      invariant done + left == size && done <= |stream| && content == stream[..done]
      decreases left
    {
      var want := if CHUNK < left then CHUNK else left;
      if |stream| - done < want {
        return false, content;
      }
      content := content + stream[done..done + want];
      done := done + want;
      left := left - want;
    }
    ok := true;
  }

  method PullFile(stream: Octets) returns (r: Read<File>)
    ensures r == ReadFile(stream)
  {
    hide ReadU32, ReadU64;
    var n := ReadU32(stream);
    if n.Failed? {
      return Failed;
    }
    if |n.rest| < n.value {
      return Failed;
    }
    var path := n.rest[..n.value];
    var size := ReadU64(n.rest[n.value..]);
    if size.Failed? {
      return Failed;
    }
    var ok, content := CopyChunks(size.rest, size.value);
    if !ok {
      return Failed;
    }
    r := Got(File(path, content), size.rest[size.value..]);
  }

  /** The files so far and those of the rest of the stream. */
  function After(files: seq<File>, rest: Option<seq<File>>): Option<seq<File>> {
    match rest
    case None => None
    case Some(more) => Some(files + more)
  }

  lemma AfterNothing(rest: Option<seq<File>>)
    ensures After([], rest) == rest
  {
    if rest.Some? {
      assert [] + rest.value == rest.value;
    }
  }

  lemma AfterOneMore(files: seq<File>, b: Octets, n: nat, f: File, rest: Octets)
    requires n > 0 && ReadFile(b) == Got(f, rest)
    ensures After(files, ReadFiles(b, n)) == After(files + [f], ReadFiles(rest, n - 1))
  {
    match ReadFiles(rest, n - 1)
    case None =>
    case Some(more) => assert files + ([f] + more) == (files + [f]) + more;
  }

  lemma AfterFailure(files: seq<File>, b: Octets, n: nat)
    requires n > 0 && ReadFile(b).Failed?
    ensures After(files, ReadFiles(b, n)) == None
  {
  }

  lemma PullUnfolds(stream: Octets)
    ensures match ReadU64(stream)
            case Failed => Pull(stream) == None
            case Got(n, rest) => Pull(stream) == After([], ReadFiles(rest, n))
  {
    hide ReadU64, ReadFiles;
    match ReadU64(stream)
    case Failed =>
    case Got(n, rest) => AfterNothing(ReadFiles(rest, n));
  }

  /** `cmd_shard_pull` on the bytes that arrive. */
  method PullAll(stream: Octets) returns (r: Option<seq<File>>)
    ensures r == Pull(stream)
  {
    PullUnfolds(stream);
    hide *;
    var count := ReadU64(stream);
    if count.Failed? {
      return None;
    }
    var files: seq<File>, rest, left: nat := [], count.rest, count.value;
    while left > 0
      invariant Pull(stream) == After(files, ReadFiles(rest, left))
      decreases left
    {
      var f := PullFile(rest);
      if f.Failed? {
        AfterFailure(files, rest, left);
        return None;
      }
      AfterOneMore(files, rest, left, f.value, f.rest);
      files, rest, left := files + [f.value], f.rest, left - 1;
    }
    NothingLeft(files, rest);
    r := Some(files);
  }

  lemma NothingLeft(files: seq<File>, rest: Octets)
    ensures After(files, ReadFiles(rest, 0)) == Some(files)
  {
    assert files + [] == files;
  }

  /** End to end: whatever reads fail on the server, a pull of what was sent either fails or has written
      exactly the files the server meant to send, and it succeeds when all reads did. */
  lemma PullIsAllOrNothing(items: seq<Tensor>, groups: seq<Range>, meta: seq<File>, sent: Octets)
    requires InBounds(items, groups) && AllSendable(AllFiles(items, groups, meta))
    requires sent <= Stream(AllFiles(items, groups, meta))
    ensures Pull(sent) == if sent == Stream(AllFiles(items, groups, meta)) then Some(AllFiles(items, groups, meta))
            else None
  {
    var files := AllFiles(items, groups, meta);
    hide AllFiles, Pull, Stream;
    if sent == Stream(files) {
      PullReadsBack(files, []);
      assert sent + [] == sent;
    } else {
      CutStreamFails(files, sent);
    }
  }

  // ---- nothing is lost in the packing -------------------------------------------------------------------------------

  /** The payloads of the packed files, one after another. */
  function Payloads(items: seq<Tensor>, groups: seq<Range>): Octets
    requires forall k :: 0 <= k < |groups| ==> groups[k].lo <= groups[k].hi <= |items|
  {
    if groups == [] then []
    else
      var g := groups[|groups| - 1];
      Payloads(items, groups[..|groups| - 1]) + Payload(items[g.lo..g.hi])
  }

  /** The packed files hold the selected tensors' bytes, all of them, once and in order. */
  lemma {:induction false} PackingKeepsEveryByte(items: seq<Tensor>, groups: seq<Range>, n: nat)
    requires Tiles(groups, n) && n <= |items|
    requires forall k :: 0 <= k < |groups| ==> groups[k].lo <= groups[k].hi <= |items|
    ensures Payloads(items, groups) == Payload(items[..n])
    decreases |groups|
  {
    if groups != [] {
      var g := groups[|groups| - 1];
      PackingKeepsEveryByte(items, groups[..|groups| - 1], g.lo);
      PayloadConcat(items[..g.lo], items[g.lo..g.hi]);
      assert items[..g.lo] + items[g.lo..g.hi] == items[..n];
    }
  }
}
