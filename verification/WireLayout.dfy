/** What stands where on the wire: every message is a list of little-endian words, and frames and files carry their
    lengths in front, all told by byte position. */
module WireLayout {
  import opened Codec
  import opened Frames
  import opened Octets
  import opened ShardStream
  import opened ShardWire

  /** The four bytes at `k`, least significant first. */
  ghost function WordAt(b: Octets, k: nat): nat
    requires k + 4 <= |b|
  {
    (b[k] as nat) + 0x100 * (b[k + 1] as nat) + 0x1_0000 * (b[k + 2] as nat) + 0x100_0000 * (b[k + 3] as nat)
  }

  /** The eight bytes at `k`, least significant first. */
  ghost function LongAt(b: Octets, k: nat): nat
    requires k + 8 <= |b|
  {
    WordAt(b, k) + 0x1_0000_0000 * WordAt(b, k + 4)
  }

  // ---- numbers ------------------------------------------------------------------------------------------------------

  lemma FourBytes(x: nat)
    requires x < TWO32
    ensures ToLe(x, 4) == [x % 0x100, x / 0x100 % 0x100, x / 0x1_0000 % 0x100, x / 0x100_0000]
  {
    assert ToLe(x / 0x100 / 0x100 / 0x100 / 0x100, 0) == [];
    assert ToLe(x / 0x100 / 0x100 / 0x100, 1) == [x / 0x100_0000];
    assert ToLe(x / 0x100 / 0x100, 2) == [x / 0x1_0000 % 0x100, x / 0x100_0000];
    assert ToLe(x / 0x100, 3) == [x / 0x100 % 0x100, x / 0x1_0000 % 0x100, x / 0x100_0000];
  }

  lemma WordOf(x: nat)
    requires x < TWO32
    ensures WordAt(ToLe(x, 4), 0) == x
  {
    FourBytes(x);
  }

  lemma WordIs(v: nat, rest: Octets)
    ensures |U32(v)| == 4 && WordAt(U32(v) + rest, 0) == v % 0x1_0000_0000
  {
    WordOf(v % TWO32);
    hide ToLe;
  }

  lemma LowThenHigh(x: nat, n: nat)
    ensures ToLe(x, n + 4) == ToLe(x % TWO32, 4) + ToLe(x / TWO32, n)
  {
    var a, b, c, d := x / 0x100, x / 0x1_0000, x / 0x100_0000, x / TWO32;
    assert ToLe(x, n + 4) == [x % 0x100] + ToLe(a, n + 3);
    assert a / 0x100 == b && b / 0x100 == c && c / 0x100 == d;
    assert ToLe(a, n + 3) == [a % 0x100] + ToLe(b, n + 2);
    assert ToLe(b, n + 2) == [b % 0x100] + ToLe(c, n + 1);
    assert ToLe(c, n + 1) == [c % 0x100] + ToLe(d, n);
    FourBytes(x % TWO32);
    LowDigits(x);
    hide ToLe;
  }

  lemma Multiples(q: nat, y: nat)
    ensures (0x1_0000_0000 * q + y) % 0x100 == y % 0x100
    ensures (0x1_0000_0000 * q + y) / 0x100 == 0x100_0000 * q + y / 0x100
  {
  }

  lemma Multiples2(q: nat, y: nat)
    ensures (0x1_0000_0000 * q + y) / 0x1_0000 == 0x1_0000 * q + y / 0x1_0000
    ensures (0x1_0000_0000 * q + y) / 0x100_0000 == 0x100 * q + y / 0x100_0000
  {
  }

  lemma Dropped(q: nat, y: nat)
    ensures (0x100 * q + y) % 0x100 == y % 0x100
  {
  }

  lemma LowDigits(x: nat)
    ensures var y := x % TWO32;
            && y % 0x100 == x % 0x100 && y / 0x100 % 0x100 == x / 0x100 % 0x100
            && y / 0x1_0000 % 0x100 == x / 0x1_0000 % 0x100 && y / 0x100_0000 == x / 0x100_0000 % 0x100
  {
    var q, y := x / TWO32, x % TWO32;
    assert x == 0x1_0000_0000 * q + y;
    Multiples(q, y);
    Multiples2(q, y);
    Dropped(0x1_0000 * q, y / 0x100);
    Dropped(0x100 * q, y / 0x1_0000);
    Dropped(q, y / 0x100_0000);
  }

  lemma LongIs(v: u64, rest: Octets)
    ensures |U64(v)| == 8 && LongAt(U64(v) + rest, 0) == v
  {
    LowThenHigh(v, 4);
    WordOf(v % TWO32);
    WordOf(v / TWO32);
    hide ToLe;
  }

  // ---- messages -----------------------------------------------------------------------------------------------------

  /** The words of a message in order: its kind, its numbers, the counts of what follows, and that. */
  ghost function WordsOf(m: Message): seq<u32> {
    match m
    case Hello(node, fp) => [0x4348_454c] + ([node] + [fp % 0x1_0000_0000, fp / 0x1_0000_0000])
    case HelloAck(ok, fp) => [0x4348_4143] + ([if ok then 1 else 0] + [fp % 0x1_0000_0000, fp / 0x1_0000_0000])
    case ExpertRequest(experts, weights, activations, nTokens, hidden, layer) =>
      [0x4352_4551] + ([layer] + ([Low(nTokens)] + ([Low(hidden)] + ([Low(|experts|)] + ([Low(|weights|)]
        + (experts + (weights + activations)))))))
    case ExpertResponse(outputs, nTokens, hidden) => [0x4352_5350] + ([Low(nTokens)] + ([Low(hidden)] + outputs))
    case AttnRequest(activations, sel, nTokens, hidden, posBase, hStart, hCount, layer) =>
      [0x4341_5251] + ([layer] + ([Low(nTokens)] + ([Low(hidden)] + ([posBase] + ([hStart] + ([hCount]
        + ([Low(|sel|)] + (Counted(sel) + activations))))))))
    case AttnResponse(outputs, nTokens, hidden) => [0x4341_5250] + ([Low(nTokens)] + ([Low(hidden)] + outputs))
  }

  /** What is left of a number in 32 bits. */
  ghost function Low(v: nat): u32 {
    v % 0x1_0000_0000
  }

  /** Each list with its length in front. */
  ghost function Counted(sel: seq<seq<u32>>): seq<u32> {
    if sel == [] then [] else [Low(|sel[0]|)] + sel[0] + Counted(sel[1..])
  }

  lemma {:induction false} U32sConcat(a: seq<u32>, b: seq<u32>)
    ensures U32s(a + b) == U32s(a) + U32s(b)
  {
    if a == [] {
      assert a + b == b;
    } else {
      assert (a + b)[1..] == a[1..] + b;
      U32sConcat(a[1..], b);
      hide U32;
    }
  }

  lemma OneWord(v: nat)
    ensures U32s([Low(v)]) == U32(v)
  {
    Frames.TruncatesOnce(v);
    assert [Low(v)][1..] == [];
    hide U32;
  }

  /** A word in front. */
  lemma WordThen(v: nat, words: seq<u32>, rest: Octets)
    requires U32s(words) == rest
    ensures U32s([Low(v)] + words) == U32(v) + rest
  {
    U32sConcat([Low(v)], words);
    OneWord(v);
  }

  lemma LongThen(fp: u64, words: seq<u32>, rest: Octets)
    requires U32s(words) == rest
    ensures U32s([fp % 0x1_0000_0000, fp / 0x1_0000_0000] + words) == U64(fp) + rest
  {
    hide U32, U64, U32s, Low;
    var low, high := HalvesOf(fp);
    WordThen(high, words, rest);
    WordThen(low, [Low(high)] + words, U32(high) + rest);
    LowIs(low);
    LowIs(high);
    TwoInFront(low, high, words);
    Associate(U32(low), U32(high), rest);
  }

  lemma HalvesOf(v: u64) returns (low: u32, high: u32)
    ensures low == v % 0x1_0000_0000 && high == v / 0x1_0000_0000 && U64(v) == U32(low) + U32(high)
  {
    low, high := v % TWO32, v / TWO32;
    LowThenHigh(v, 4);
    U32Of(low);
    U32Of(high);
    hide ToLe, U32;
    assert U64(v) == ToLe(v, 8);
  }

  lemma U32Of(v: u32)
    ensures U32(v) == ToLe(v, 4)
  {
    hide ToLe;
    InRange(v);
  }

  lemma InRange(v: u32)
    ensures v % TWO32 == v
  {
  }

  lemma LowIs(v: u32)
    ensures Low(v) == v
  {
  }

  lemma TwoInFront(a: u32, b: u32, words: seq<u32>)
    ensures [a, b] + words == [a] + ([b] + words)
  {
  }

  lemma ListThen(v: seq<u32>, words: seq<u32>, rest: Octets)
    requires U32s(words) == rest
    ensures U32s(v + words) == U32s(v) + rest
  {
    U32sConcat(v, words);
  }

  lemma {:induction false} SelectionWords(sel: seq<seq<u32>>)
    ensures U32s(Counted(sel)) == Selection(sel)
  {
    if sel != [] {
      SelectionWords(sel[1..]);
      hide U32;
      assert [Low(|sel[0]|)] + sel[0] + Counted(sel[1..]) == [Low(|sel[0]|)] + (sel[0] + Counted(sel[1..]));
      ListThen(sel[0], Counted(sel[1..]), Selection(sel[1..]));
      WordThen(|sel[0]|, sel[0] + Counted(sel[1..]), U32s(sel[0]) + Selection(sel[1..]));
      assert U32(|sel[0]|) + U32s(sel[0]) + Selection(sel[1..]) == U32(|sel[0]|) + (U32s(sel[0]) + Selection(sel[1..]));
    }
  }

  lemma ExactThen(v: u32, words: seq<u32>, rest: Octets)
    requires U32s(words) == rest
    ensures U32s([v] + words) == U32(v) + rest
  {
    hide U32, U32s, Low;
    WordThen(v, words, rest);
    LowIs(v);
  }

  /** The outputs or activations at the end. */
  lemma BlockWords(block: seq<f32>)
    ensures U32s(block) + [] == U32s(block)
  {
  }

  lemma HelloWords(m: Message)
    requires m.Hello? || m.HelloAck?
    ensures Encode(m) == U32s(WordsOf(m))
  {
    hide U32, U32s, U64;
    var tail := [m.fingerprint % 0x1_0000_0000, m.fingerprint / 0x1_0000_0000];
    NothingAfter();
    LongThen(m.fingerprint, [], []);
    assert tail + [] == tail;
    if m.Hello? {
      ExactThen(m.node, tail, U64(m.fingerprint) + []);
      ExactThen(0x4348_454c, [m.node] + tail, U32(m.node) + (U64(m.fingerprint) + []));
    } else {
      var ok: u32 := if m.ok then 1 else 0;
      ExactThen(ok, tail, U64(m.fingerprint) + []);
      ExactThen(0x4348_4143, [ok] + tail, U32(ok) + (U64(m.fingerprint) + []));
    }
  }

  lemma NothingAfter()
    ensures U32s([]) == []
  {
  }

  lemma ResponseWords(m: Message)
    requires m.ExpertResponse? || m.AttnResponse?
    ensures Encode(m) == U32s(WordsOf(m))
  {
    hide U32, U32s, Low;
    var block := U32s(m.outputs) + [];
    BlockWords(m.outputs);
    WordThen(m.hidden, m.outputs, block);
    WordThen(m.nTokens, [Low(m.hidden)] + m.outputs, U32(m.hidden) + block);
    ExactThen(if m.ExpertResponse? then 0x4352_5350 else 0x4341_5250,
              [Low(m.nTokens)] + ([Low(m.hidden)] + m.outputs), U32(m.nTokens) + (U32(m.hidden) + block));
  }

  lemma RequestTail(m: Message) returns (words: seq<u32>, rest: Octets)
    requires m.ExpertRequest?
    ensures words == [Low(|m.experts|)] + ([Low(|m.weights|)] + (m.experts + (m.weights + m.activations)))
    ensures rest
            == U32(|m.experts|)
                + (U32(|m.weights|) + (U32s(m.experts) + (U32s(m.weights) + (U32s(m.activations) + []))))
    ensures U32s(words) == rest
  {
    hide U32, U32s, Low;
    BlockWords(m.activations);
    words, rest := m.activations, U32s(m.activations) + [];
    ListThen(m.weights, words, rest);
    words, rest := m.weights + words, U32s(m.weights) + rest;
    ListThen(m.experts, words, rest);
    words, rest := m.experts + words, U32s(m.experts) + rest;
    WordThen(|m.weights|, words, rest);
    words, rest := [Low(|m.weights|)] + words, U32(|m.weights|) + rest;
    WordThen(|m.experts|, words, rest);
    words, rest := [Low(|m.experts|)] + words, U32(|m.experts|) + rest;
  }

  lemma RequestWords(m: Message)
    requires m.ExpertRequest?
    ensures Encode(m) == U32s(WordsOf(m))
  {
    hide U32, U32s, Low;
    var words, rest := RequestTail(m);
    WordThen(m.hidden, words, rest);
    words, rest := [Low(m.hidden)] + words, U32(m.hidden) + rest;
    WordThen(m.nTokens, words, rest);
    words, rest := [Low(m.nTokens)] + words, U32(m.nTokens) + rest;
    ExactThen(m.layer, words, rest);
    words, rest := [m.layer] + words, U32(m.layer) + rest;
    ExactThen(0x4352_4551, words, rest);
  }

  lemma AttnTail(m: Message) returns (words: seq<u32>, rest: Octets)
    requires m.AttnRequest?
    ensures words == [m.posBase] + ([m.hStart] + ([m.hCount] + ([Low(|m.sel|)] + (Counted(m.sel) + m.activations))))
    ensures rest == U32(m.posBase) + (U32(m.hStart) + (U32(m.hCount) + (U32(|m.sel|)
                      + (Selection(m.sel) + (U32s(m.activations) + [])))))
    ensures U32s(words) == rest
  {
    hide U32, U32s, Low, Counted, Selection;
    BlockWords(m.activations);
    words, rest := m.activations, U32s(m.activations) + [];
    SelectionWords(m.sel);
    ListThen(Counted(m.sel), words, rest);
    words, rest := Counted(m.sel) + words, Selection(m.sel) + rest;
    WordThen(|m.sel|, words, rest);
    words, rest := [Low(|m.sel|)] + words, U32(|m.sel|) + rest;
    ExactThen(m.hCount, words, rest);
    words, rest := [m.hCount] + words, U32(m.hCount) + rest;
    ExactThen(m.hStart, words, rest);
    words, rest := [m.hStart] + words, U32(m.hStart) + rest;
    ExactThen(m.posBase, words, rest);
    words, rest := [m.posBase] + words, U32(m.posBase) + rest;
  }

  lemma AttnWords(m: Message)
    requires m.AttnRequest?
    ensures Encode(m) == U32s(WordsOf(m))
  {
    hide U32, U32s, Low, Counted, Selection;
    var words, rest := AttnTail(m);
    WordThen(m.hidden, words, rest);
    words, rest := [Low(m.hidden)] + words, U32(m.hidden) + rest;
    WordThen(m.nTokens, words, rest);
    words, rest := [Low(m.nTokens)] + words, U32(m.nTokens) + rest;
    ExactThen(m.layer, words, rest);
    words, rest := [m.layer] + words, U32(m.layer) + rest;
    ExactThen(0x4341_5251, words, rest);
  }

  lemma ShiftedWord(a: Octets, b: Octets, k: nat)
    requires k + 4 <= |b|
    ensures WordAt(a + b, |a| + k) == WordAt(b, k)
  {
  }

  lemma U32sCons(words: seq<u32>)
    requires words != []
    ensures U32s(words) == U32(words[0]) + U32s(words[1..])
  {
  }

  lemma FirstWord(words: seq<u32>)
    requires words != []
    ensures |U32s(words)| == 4 * |words| && WordAt(U32s(words), 0) == words[0]
  {
    WordsOfU32s(words);
    hide Words, WordAt, U32, U32s;
    U32sCons(words);
    WordIs(words[0], U32s(words[1..]));
    InRange(words[0]);
  }

  lemma LaterWord(words: seq<u32>, i: nat)
    requires 0 < i < |words| && |U32s(words[1..])| == 4 * |words[1..]|
    ensures |U32s(words)| == 4 * |words| && WordAt(U32s(words), 4 * i) == WordAt(U32s(words[1..]), 4 * (i - 1))
  {
    hide WordAt, U32s;
    U32sCons(words);
    WordIs(words[0], U32s(words[1..]));
    hide U32;
    ShiftedWord(U32(words[0]), U32s(words[1..]), 4 * (i - 1));
  }

  lemma {:induction false} WordInList(words: seq<u32>, i: nat)
    requires i < |words|
    ensures |U32s(words)| == 4 * |words|
    ensures WordAt(U32s(words), 4 * i) == words[i]
  {
    hide WordAt, U32s;
    if i == 0 {
      FirstWord(words);
    } else {
      WordInList(words[1..], i - 1);
      LaterWord(words, i);
    }
  }

  /** Word `i` of an encoded message, whatever the message. */
  lemma MessageIsItsWords(m: Message, i: nat)
    requires i < |WordsOf(m)|
    ensures |Encode(m)| == 4 * |WordsOf(m)|
    ensures WordAt(Encode(m), 4 * i) == WordsOf(m)[i]
  {
    hide Encode, U32s, WordsOf;
    match m {
      case Hello(_, _) => HelloWords(m);
      case HelloAck(_, _) => HelloWords(m);
      case ExpertRequest(_, _, _, _, _, _) => RequestWords(m);
      case ExpertResponse(_, _, _) => ResponseWords(m);
      case AttnRequest(_, _, _, _, _, _, _, _) => AttnWords(m);
      case AttnResponse(_, _, _) => ResponseWords(m);
    }
    WordInList(WordsOf(m), i);
  }

  // ---- frames and files ---------------------------------------------------------------------------------------------

  /** A frame is its payload behind the payload's length. */
  lemma FrameIsLengthThenPayload(payload: Octets)
    ensures |WriteFrame(payload)| == 4 + |payload| && WriteFrame(payload)[4..] == payload
    ensures WordAt(WriteFrame(payload), 0) == |payload| % 0x1_0000_0000
  {
    hide U32;
    WordIs(|payload|, payload);
  }

  lemma WordInside(a: Octets, b: Octets, k: nat)
    requires k + 8 <= |b|
    ensures WordAt(a + b, |a| + k) == WordAt(b, k) && LongAt(a + b, |a| + k) == LongAt(b, k)
  {
  }

  /** A file on the stream: the path behind its length in four bytes, then the content behind its length in eight. */
  lemma FileIsPathThenContent(f: File)
    requires Sendable(f)
    ensures var b, n := FileFrame(f), |f.path|;
            && |b| == 12 + n + |f.content| && WordAt(b, 0) == n && b[4..4 + n] == f.path
            && LongAt(b, 4 + n) == |f.content| && b[12 + n..] == f.content
  {
    hide U32, U64, WordAt;
    var tail := U64(|f.content|) + f.content;
    LongIs(|f.content|, f.content);
    WordIs(|f.path|, f.path + tail);
    WordInside(U32(|f.path|) + f.path, tail, 0);
    Associate(U32(|f.path|), f.path, tail);
  }

  /** A copy that stops leaves the first bytes of the file's frame: all up to the content, and the content copied. */
  lemma StoppedCopyIsCutFrame(f: File, n: nat)
    requires Sendable(f)
    ensures var k := 12 + |f.path| + if n < |f.content| then n else |f.content|;
            k <= |FileFrame(f)| && PartialFrame(f, n) == FileFrame(f)[..k]
  {
    hide U32, U64;
    U32Length(|f.path|);
    U64Length(|f.content|);
  }

  lemma U32Length(v: nat)
    ensures |U32(v)| == 4
  {
  }

  /** How many bytes the files take on the stream. */
  ghost function LengthOf(files: seq<File>): nat {
    if files == [] then 0 else 12 + |files[0].path| + |files[0].content| + LengthOf(files[1..])
  }

  ghost predicate EachSendable(files: seq<File>) {
    forall i :: 0 <= i < |files| ==> Sendable(files[i])
  }

  lemma FirstFrame(files: seq<File>)
    requires files != [] && EachSendable(files)
    ensures Sendable(files[0]) && EachSendable(files[1..])
    ensures FileFrames(files) == FileFrame(files[0]) + FileFrames(files[1..])
  {
    FramesCons(files);
  }

  lemma {:induction false} FramesLength(files: seq<File>)
    requires EachSendable(files)
    ensures |FileFrames(files)| == LengthOf(files)
  {
    if files != [] {
      hide EachSendable, FileFrames, FileFrame;
      FirstFrame(files);
      FramesLength(files[1..]);
      FileIsPathThenContent(files[0]);
    }
  }

  lemma {:induction false} FramesSplit(files: seq<File>, k: nat)
    requires EachSendable(files) && k <= |files|
    ensures EachSendable(files[..k]) && EachSendable(files[k..])
    ensures FileFrames(files) == FileFrames(files[..k]) + FileFrames(files[k..])
  {
    if k == 0 {
      assert files[..0] == [] && files[0..] == files;
    } else {
      var front := files[..k];
      FramesSplit(files[1..], k - 1);
      assert front[0] == files[0] && front[1..] == files[1..][..k - 1] && files[1..][k - 1..] == files[k..];
      hide FileFrames, FileFrame, Sendable;
      FirstFrame(files);
      FirstFrame(front);
      Associate(FileFrame(files[0]), FileFrames(front[1..]), FileFrames(files[k..]));
    }
  }

  lemma SliceInside(a: Octets, b: Octets, c: Octets, d: Octets)
    ensures var s, lo := a + (b + (c + d)), |a| + |b|; |s| >= lo + |c| && s[lo..lo + |c|] == c
  {
  }

  /** What stands before file `k` on the stream, its frame, and what stands behind. */
  lemma StreamParts(files: seq<File>, k: nat) returns (before: Octets, frame: Octets, after: Octets)
    requires AllSendable(files) && k < |files|
    ensures Stream(files) == U64(|files|) + (before + (frame + after))
    ensures |before| == LengthOf(files[..k]) && Sendable(files[k]) && frame == FileFrame(files[k])
  {
    assert EachSendable(files);
    FramesSplit(files, k);
    FramesLength(files[..k]);
    assert files[k..][0] == files[k];
    hide FileFrame, FileFrames, Sendable, EachSendable, U64, LengthOf;
    FirstFrame(files[k..]);
    before, frame, after := FileFrames(files[..k]), FileFrame(files[k..][0]), FileFrames(files[k..][1..]);
  }

  ghost predicate StandsAt(b: Octets, lo: nat, part: Octets) {
    lo + |part| <= |b| && b[lo..lo + |part|] == part
  }

  lemma FrameBehind(stream: Octets, count: Octets, before: Octets, frame: Octets, after: Octets)
    requires stream == count + (before + (frame + after)) && |count| == 8
    ensures StandsAt(stream, 8 + |before|, frame)
  {
    SliceInside(count, before, frame, after);
  }

  /** The whole stream: the number of files in eight bytes, then the files one after another. */
  lemma StreamIsItsFiles(files: seq<File>, k: nat)
    requires AllSendable(files) && k < |files|
    ensures |Stream(files)| >= 8 && LongAt(Stream(files), 0) == |files|
    ensures Sendable(files[k]) && StandsAt(Stream(files), 8 + LengthOf(files[..k]), FileFrame(files[k]))
  {
    StreamCount(files);
    hide StandsAt, FileFrame, Sendable, AllSendable, U64, WordAt, LengthOf, LongAt, Stream;
    var before, frame, after := StreamParts(files, k);
    FrameBehind(Stream(files), U64(|files|), before, frame, after);
  }

  lemma StreamCount(files: seq<File>)
    requires AllSendable(files)
    ensures |U64(|files|)| == 8 <= |Stream(files)| && LongAt(Stream(files), 0) == |files|
  {
    hide FileFrames, Sendable, WordAt, LongAt, U64;
    LongIs(|files|, FileFrames(files));
  }
}
