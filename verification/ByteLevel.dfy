/** The byte-to-printable-character table and token encoding of the tokenizer converter. */
module ByteLevel {
  import opened Bpe

  type CodePoint = nat

  const SPACE: CodePoint := 0x20

  predicate Printable(b: int) {
    0x21 <= b <= 0x7e || 0xa1 <= b <= 0xac || 0xae <= b <= 0xff
  }

  /** How many bytes below `b` have no printable form of their own. */
  function GapsBelow(b: nat): (n: nat)
    ensures n <= b
  {
    if b == 0 then 0 else GapsBelow(b - 1) + if Printable(b - 1) then 0 else 1
  }

  function Glyph(b: byte): CodePoint {
    if Printable(b as int) then b as nat else 256 + GapsBelow(b as nat)
  }

  /** The code point of every byte, range by range. */
  lemma GlyphByRange(b: byte)
    ensures Glyph(b) == if b as int <= 0x20 then 0x100 + b as nat
                        else if 0x7f <= b as int <= 0xa0 then 0x121 + (b as nat - 0x7f)
                        else if b as int == 0xad then 0x143
                        else b as nat
  {
    if b as int <= 0x20 {
      GapsRun(0, b as nat);
    } else if 0x7f <= b as int <= 0xa0 || b as int == 0xad {
      GapsAbove(b as nat);
    }
  }

  lemma GapsAbove(b: nat)
    requires 0x7f <= b <= 0xa0 || b == 0xad
    ensures GapsBelow(b) == if b == 0xad then 0x43 else 0x21 + (b - 0x7f)
  {
    hide GapsBelow;
    GapsRun(0, 0x21);
    NoGaps(0x21, 0x7f);
    var hi := if b == 0xad then 0xa1 else b;
    GapsRun(0x7f, hi);
    if b == 0xad {
      NoGaps(0xa1, 0xad);
    }
    NoneBelowZero();
  }

  lemma NoneBelowZero()
    ensures GapsBelow(0) == 0
  {
  }

  lemma {:induction false} GapsRun(lo: nat, hi: nat)
    requires lo <= hi && forall b :: lo <= b < hi ==> !Printable(b)
    ensures GapsBelow(hi) == GapsBelow(lo) + (hi - lo)
  {
    if lo < hi {
      GapsRun(lo, hi - 1);
    }
  }

  lemma {:induction false} NoGaps(lo: nat, hi: nat)
    requires lo <= hi && forall b :: lo <= b < hi ==> Printable(b)
    ensures GapsBelow(hi) == GapsBelow(lo)
  {
    if lo < hi {
      NoGaps(lo, hi - 1);
    }
  }

  function Enc(token: Bytes): (text: seq<CodePoint>) {
    seq(|token|, i requires 0 <= i < |token| => Glyph(token[i]))
  }

  /** A line of the merge list: two encoded pieces with one space between them. */
  function MergeLine(p: Pair): seq<CodePoint> {
    Enc(p.0) + [SPACE] + Enc(p.1)
  }

  /** The bytes from `lo` up to but not including `hi`, ascending. */
  function ByteRange(lo: nat, hi: nat): (r: seq<byte>)
    requires lo <= hi <= 256
    ensures forall v: byte :: v in r <==> lo <= v as int < hi
  {
    if lo == hi then [] else ByteRange(lo, hi - 1) + [(hi - 1) as byte]
  }

  method AppendRange(s: seq<byte>, lo: nat, hi: nat) returns (r: seq<byte>)
    requires lo <= hi <= 256
    ensures r == s + ByteRange(lo, hi)
  {
    r := s;
    for i: int := lo to hi
      invariant r == s + ByteRange(lo, i)
    {
      r := r + [i as byte];
    }
  }

  ghost predicate Paired(bs: seq<byte>, cs: seq<CodePoint>) {
    |bs| == |cs| && forall k :: 0 <= k < |bs| ==> cs[k] == Glyph(bs[k])
  }

  method GiveCodePoints(printable: seq<byte>) returns (bs: seq<byte>, cs: seq<CodePoint>)
    requires forall v: byte :: v in printable <==> Printable(v as int)
    ensures Paired(bs, cs) && forall v: byte :: v in bs
  {
    bs := printable;
    cs := seq(|bs|, k requires 0 <= k < |bs| => bs[k] as CodePoint);
    forall k | 0 <= k < |bs| ensures cs[k] == Glyph(bs[k]) {
      assert bs[k] in printable;
    }
    var n: nat := 0;
    for b: int := 0 to 256
      invariant n == GapsBelow(b) && Paired(bs, cs)
      invariant forall v: byte :: v in bs <==> Printable(v as int) || v as int < b
    {
      if b as byte !in bs {
        bs := bs + [b as byte];
        cs := cs + [256 + n];
        n := n + 1;
      }
    }
  }

  lemma RangesArePrintable(s: seq<byte>)
    requires s == [] + ByteRange(0x21, 0x7f) + ByteRange(0xa1, 0xad) + ByteRange(0xae, 0x100)
    ensures forall v: byte :: v in s <==> Printable(v as int)
  {
    hide ByteRange;
  }

  method ByteToUnicode() returns (table: map<byte, CodePoint>)
    ensures forall b: byte :: b in table && table[b] == Glyph(b)
  {
    hide ByteRange, Glyph, Printable;
    var bs := AppendRange([], 0x21, 0x7f);
    bs := AppendRange(bs, 0xa1, 0xad);
    bs := AppendRange(bs, 0xae, 0x100);
    RangesArePrintable(bs);
    var cs;
    bs, cs := GiveCodePoints(bs);
    table := Zipped(bs, cs);
  }

  method Zipped(bs: seq<byte>, cs: seq<CodePoint>) returns (table: map<byte, CodePoint>)
    requires Paired(bs, cs) && forall v: byte :: v in bs
    ensures forall b: byte :: b in table && table[b] == Glyph(b)
  {
    hide Glyph;
    table := map[];
    for k := 0 to |bs|
      invariant forall j :: 0 <= j < k ==> bs[j] in table
      invariant forall b :: b in table ==> table[b] == Glyph(b)
    {
      table := table[bs[k] := cs[k]];
    }
    forall b: byte ensures b in table {
      assert b in bs;
    }
  }

  lemma {:induction false} GapsIncrease(b: nat, c: nat)
    requires b < c && !Printable(b)
    ensures GapsBelow(b) < GapsBelow(c)
  {
    if b + 1 < c {
      GapsIncrease(b, c - 1);
    }
  }

  lemma GlyphInjective(b: byte, c: byte)
    ensures Glyph(b) == Glyph(c) ==> b == c
    ensures Glyph(b) != SPACE
  {
    if b < c && !Printable(b as int) {
      GapsIncrease(b as nat, c as nat);
    } else if c < b && !Printable(c as int) {
      GapsIncrease(c as nat, b as nat);
    }
  }

  /** No two tokens share a vocabulary key, and no key contains a space. */
  lemma EncInjective(t: Bytes, u: Bytes)
    ensures Enc(t) == Enc(u) ==> t == u
    ensures SPACE !in Enc(t)
  {
    forall i | 0 <= i < |t| ensures Enc(t)[i] != SPACE {
      GlyphInjective(t[i], t[i]);
    }
    if Enc(t) == Enc(u) {
      assert |t| == |Enc(t)| == |Enc(u)| == |u|;
      forall i | 0 <= i < |t| ensures t[i] == u[i] {
        assert Enc(t)[i] == Enc(u)[i];
        GlyphInjective(t[i], u[i]);
      }
    }
  }

  /** A merge line starts with the first piece and ends with the second. */
  lemma LineHoldsBoth(p: Pair)
    ensures var m, n := |p.0|, |MergeLine(p)|;
            && n == m + 1 + |p.1| && MergeLine(p)[..m] == Enc(p.0) && MergeLine(p)[m] == 0x20
                && MergeLine(p)[m + 1..] == Enc(p.1)
  {
  }

  /** A merge line reads back as one pair only. */
  lemma MergeLineSplitsOneWay(p: Pair, q: Pair)
    requires MergeLine(p) == MergeLine(q)
    ensures p == q
  {
    var line := MergeLine(p);
    EncInjective(p.0, q.0);
    EncInjective(q.0, p.0);
    EncInjective(p.1, q.1);
    EncInjective(q.1, p.1);
    var m, n := |Enc(p.0)|, |Enc(q.0)|;
    assert line[m] == SPACE && line[n] == SPACE;
    assert forall i :: 0 <= i < m ==> line[i] == Enc(p.0)[i];
    assert forall i :: 0 <= i < n ==> line[i] == Enc(q.0)[i];
    assert m == n;
    assert Enc(p.0) == line[..m] == Enc(q.0);
    assert Enc(p.1) == line[m + 1..] == Enc(q.1);
  }
}
