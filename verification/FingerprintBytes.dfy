/** Which hash the fingerprint is, and over which bytes: 64-bit FNV-1a, by its published test vectors and bit by bit,
    of the two counts and the owners as little-endian words. */
module FingerprintBytes {
  import opened Arithmetic
  import opened Fingerprint
  import opened Octets
  import opened Sharding
  import opened WireLayout

  /** The vectors of the FNV reference for the empty string and for "a". */
  lemma ReferenceVectors()
    ensures MixAll(BASIS, []) == 0xcbf2_9ce4_8422_2325
    ensures MixAll(BASIS, [0x61]) == 0xaf63_dc4c_8601_ec8c
  {
    FirstStep();
    OneByte(BASIS, 0x61);
    hide Mix;
  }

  lemma OneByte(h: State, b: octet)
    ensures MixAll(h, [b]) == Mix(h, b)
  {
    hide Mix;
    assert MixAll(Mix(h, b), [b][1..]) == Mix(h, b);
  }

  lemma LowByte()
    ensures Xor(37, 97, 8) == 68
  {
    assert Xor(0, 0, 0) == 0 && Xor(0, 0, 1) == 0;
    assert Xor(0, 1, 2) == 1 && Xor(1, 3, 3) == 2 && Xor(2, 6, 4) == 4;
    assert Xor(4, 12, 5) == 8 && Xor(9, 24, 6) == 17 && Xor(18, 48, 7) == 34;
  }

  lemma FirstStep()
    ensures Mix(BASIS, 0x61) == 0xaf63_dc4c_8601_ec8c
  {
    LowByte();
    hide Xor;
    assert BASIS % 256 == 37 && BASIS - 37 + 68 == 0xcbf2_9ce4_8422_2344;
    assert 0xcbf2_9ce4_8422_2344 * PRIME == 875_948_729_822 * TWO64 + 0xaf63_dc4c_8601_ec8c;
  }

  /** Bit `i` of `x`, the lowest first. */
  ghost function BitAt(x: nat, i: nat): nat {
    if i == 0 then x % 2 else BitAt(x / 2, i - 1)
  }

  /** Bit `i` of the exclusive or is set when exactly one of the two bits is. */
  lemma {:induction false} BitOfXor(x: nat, y: nat, bits: nat, i: nat)
    requires i < bits
    ensures BitAt(Xor(x, y, bits), i) == if BitAt(x, i) == BitAt(y, i) then 0 else 1
    decreases bits
  {
    var r := XorStep(x, y, bits);
    hide Xor;
    if i > 0 {
      BitOfXor(x / 2, y / 2, bits - 1, i - 1);
    }
  }

  /** One step in numbers: only the low byte is touched before the multiplication. */
  lemma StepInNumbers(h: State, b: octet)
    ensures Mix(h, b) == (h / 0x100 * 0x100 + Xor(h % 0x100, b, 8)) * 0x100_0000_01b3 % 0x1_0000_0000_0000_0000
  {
    assert h - h % 0x100 == h / 0x100 * 0x100;
  }

  lemma {:induction false} WordsByPosition(xs: seq<nat>, b: Octets)
    requires |b| == 4 * |xs| && forall i :: 0 <= i < |xs| ==> WordAt(b, 4 * i) == xs[i]
    ensures Words(xs) == b
  {
    if xs != [] {
      var rest := b[4..];
      hide Words;
      BytesOfWord(xs[0], b);
      forall i | 0 <= i < |xs[1..]| ensures WordAt(rest, 4 * i) == xs[1..][i] {
        SkippedWord(b, i);
      }
      WordsByPosition(xs[1..], rest);
      WordsCons(xs);
    }
  }

  lemma WordsCons(xs: seq<nat>)
    requires xs != []
    ensures Words(xs) == ToLe(xs[0], 4) + Words(xs[1..])
  {
  }

  lemma SkippedWord(b: Octets, i: nat)
    requires 4 * i + 8 <= |b|
    ensures WordAt(b[4..], 4 * i) == WordAt(b, 4 * (i + 1))
  {
  }

  lemma BytesOfWord(x: nat, b: Octets)
    requires |b| >= 4 && WordAt(b, 0) == x
    ensures ToLe(x, 4) == b[..4]
  {
    FourBytes(x);
    DigitsOfWord(b[0], b[1], b[2], b[3]);
  }

  lemma DigitsOfWord(p: octet, q: octet, r: octet, t: octet)
    ensures var x := (p as nat) + 0x100 * (q as nat) + 0x1_0000 * (r as nat) + 0x100_0000 * (t as nat);
            x < TWO32 && x % 0x100 == p && x / 0x100 % 0x100 == q && x / 0x1_0000 % 0x100 == r && x / 0x100_0000 == t
  {
    var x := (p as nat) + 0x100 * (q as nat) + 0x1_0000 * (r as nat) + 0x100_0000 * (t as nat);
    assert x / 0x100 == (q as nat) + 0x100 * (r as nat) + 0x1_0000 * (t as nat);
    assert x / 0x1_0000 == (r as nat) + 0x100 * (t as nat);
  }

  /** The fingerprint hashes, four bytes each, the node count, the expert count and then every owner. */
  lemma FingerprintIsHashOfWords(s: ExpertSharding, b: Octets)
    requires s.Valid() && |b| == 8 + 4 * s.nExperts
    requires WordAt(b, 0) == s.numNodes && WordAt(b, 4) == s.nExperts
    requires forall e :: 0 <= e < s.nExperts ==> WordAt(b, 8 + 4 * e) == s.Owner(e)
    ensures Fingerprint.Fingerprint(s) == MixAll(0xcbf2_9ce4_8422_2325, b)
  {
    var xs := [s.numNodes, s.nExperts] + s.Owners();
    forall i | 0 <= i < |xs| ensures WordAt(b, 4 * i) == xs[i] {
      if i >= 2 {
        assert WordAt(b, 8 + 4 * (i - 2)) == s.Owner(i - 2);
      }
    }
    WordsByPosition(xs, b);
  }
}
