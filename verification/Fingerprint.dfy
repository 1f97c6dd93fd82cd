/** The FNV-1a hash of an expert map that peers compare at connect time. */
module Fingerprint {
  import opened Arithmetic
  import opened Capacity
  import opened LoadBalance
  import opened MapsMade
  import opened Octets
  import opened Wrappers
  import opened Sharding

  const PRIME: nat := 0x0000_0100_0000_01b3
  const BASIS: nat := 0xcbf2_9ce4_8422_2325

  /** The inverse of the odd multiplier modulo 2^64. */
  const PRIME_INVERSE: nat := 0xce96_5057_aff6_957b

  type State = h: nat | h < TWO64

  /** Bitwise exclusive or of the low `bits` bits. */
  function Xor(x: nat, y: nat, bits: nat): (r: nat)
    decreases bits
  {
    if bits == 0 then 0 else (x % 2 + y % 2) % 2 + 2 * Xor(x / 2, y / 2, bits - 1)
  }

  function Xor8(x: octet, b: octet): nat {
    Xor(x, b, 8)
  }

  /** One step: exclusive-or the byte into the low byte, multiply, keep 64 bits. */
  function Mix(h: State, b: octet): State {
    (h - h % 256 + Xor8(h % 256, b)) * PRIME % TWO64
  }

  function MixAll(h: State, bytes: seq<octet>): State
    decreases |bytes|
  {
    if bytes == [] then h else MixAll(Mix(h, bytes[0]), bytes[1..])
  }

  function Words(xs: seq<nat>): seq<octet> {
    if xs == [] then [] else ToLe(xs[0], 4) + Words(xs[1..])
  }

  function Fingerprint(s: ExpertSharding): State
    requires s.Valid()
  {
    MixAll(BASIS, Words([s.numNodes, s.nExperts] + s.Owners()))
  }

  /** The loops of `fingerprint`: counts first, then every owner, four bytes each. */
  method ComputeFingerprint(s: ExpertSharding) returns (h: State)
    requires s.Valid()
    ensures h == Fingerprint(s)
  {
    h := MixWord(BASIS, s.numNodes);
    h := MixWord(h, s.nExperts);
    ghost var all := [s.numNodes, s.nExperts] + s.Owners();
    assert all[1..][1..] == all[2..] && all[0] == s.numNodes && all[1] == s.nExperts;
    MixAllConcat(BASIS, ToLe(all[0], 4), Words(all[1..]));
    MixAllConcat(MixAll(BASIS, ToLe(all[0], 4)), ToLe(all[1], 4), Words(all[1..][1..]));
    for e := 0 to s.nExperts
      invariant MixAll(h, Words(all[2 + e..])) == Fingerprint(s)
    {
      var rest := all[2 + e..];
      assert rest[1..] == all[2 + (e + 1)..] && rest[0] == s.Owner(e);
      MixAllConcat(h, ToLe(rest[0], 4), Words(rest[1..]));
      h := MixWord(h, s.Owner(e));
    }
  }

  method MixWord(h0: State, x: nat) returns (h: State)
    ensures h == MixAll(h0, ToLe(x, 4))
  {
    h := h0;
    var bytes := ToLe(x, 4);
    for i := 0 to 4
      invariant MixAll(h, bytes[i..]) == MixAll(h0, bytes)
    {
      assert bytes[i..][1..] == bytes[i + 1..];
      h := Mix(h, bytes[i]);
    }
  }

  lemma {:induction false} MixAllConcat(h: State, x: seq<octet>, y: seq<octet>)
    ensures MixAll(h, x + y) == MixAll(MixAll(h, x), y)
    decreases |x|
  {
    if x == [] {
      assert x + y == y;
    } else {
      assert (x + y)[1..] == x[1..] + y;
      MixAllConcat(Mix(h, x[0]), x[1..], y);
    }
  }

  // ---- every step is a bijection -----------------------------------------------------

  lemma XorStep(x: nat, y: nat, bits: nat) returns (r: nat)
    requires bits > 0
    ensures r == Xor(x, y, bits)
    ensures r % 2 == (x % 2 + y % 2) % 2 && r / 2 == Xor(x / 2, y / 2, bits - 1)
  {
    r := Xor(x, y, bits);
    BitAndRest((x % 2 + y % 2) % 2, Xor(x / 2, y / 2, bits - 1));
  }

  lemma BitAndRest(bit: nat, rest: nat)
    requires bit < 2
    ensures (bit + 2 * rest) % 2 == bit && (bit + 2 * rest) / 2 == rest
  {
  }

  lemma {:induction false} XorBelow(x: nat, y: nat, bits: nat)
    ensures Xor(x, y, bits) < Power2(bits)
    decreases bits
  {
    if bits > 0 {
      XorBelow(x / 2, y / 2, bits - 1);
    }
  }

  lemma XorBit(a: nat, b: nat)
    requires a < 2 && b < 2
    ensures (a + (a + b) % 2) % 2 == b && ((a + b) % 2 + b) % 2 == a
  {
  }

  lemma SameHalves(x: nat, y: nat)
    requires x / 2 == y / 2 && x % 2 == y % 2
    ensures x == y
  {
  }

  /** Exclusive or with the same operand twice, on either side, gives back the other. */
  lemma {:induction false} XorUndoes(x: nat, y: nat, bits: nat)
    requires x < Power2(bits) && y < Power2(bits)
    ensures Xor(x, Xor(x, y, bits), bits) == y && Xor(Xor(x, y, bits), y, bits) == x
    decreases bits
  {
    if bits > 0 {
      HalfBelow(x, bits);
      HalfBelow(y, bits);
      XorUndoes(x / 2, y / 2, bits - 1);
      hide Xor, Power2;
      XorUndoesBit(x, y, bits);
    }
  }

  lemma HalfBelow(x: nat, bits: nat)
    requires bits > 0 && x < Power2(bits)
    ensures x / 2 < Power2(bits - 1)
  {
  }

  lemma XorUndoesBit(x: nat, y: nat, bits: nat)
    requires bits > 0
    requires Xor(x / 2, Xor(x / 2, y / 2, bits - 1), bits - 1) == y / 2
    requires Xor(Xor(x / 2, y / 2, bits - 1), y / 2, bits - 1) == x / 2
    ensures Xor(x, Xor(x, y, bits), bits) == y && Xor(Xor(x, y, bits), y, bits) == x
  {
    hide Xor;
    var r := XorStep(x, y, bits);
    var left := XorStep(x, r, bits);
    var right := XorStep(r, y, bits);
    XorBit(x % 2, y % 2);
    SameHalves(left, y);
    SameHalves(right, x);
  }

  lemma XorByte(x: octet, y: octet)
    ensures Xor8(x, y) < 256 && Xor(x, Xor8(x, y), 8) == y && Xor(Xor8(x, y), y, 8) == x
  {
    assert Power2(4) == 16 && Power2(8) == 256;
    hide Xor;
    XorUndoes(x, y, 8);
    XorBelow(x, y, 8);
  }

  lemma TimesPrimeInjective(x: State, y: State)
    requires x * PRIME % TWO64 == y * PRIME % TWO64
    ensures x == y
  {
    assert PRIME * PRIME_INVERSE % TWO64 == 1;
    UndoPrime(x);
    UndoPrime(y);
  }

  lemma UndoPrime(x: State)
    ensures (x * PRIME % TWO64) * PRIME_INVERSE % TWO64 == x
  {
    var k, r := x * PRIME / TWO64, x * PRIME % TWO64;
    var m := PRIME * PRIME_INVERSE / TWO64;
    assert PRIME * PRIME_INVERSE == m * TWO64 + 1;
    assert r * PRIME_INVERSE == (x * m - k * PRIME_INVERSE) * TWO64 + x;
    ModOfMultiplePlus(x * m - k * PRIME_INVERSE, x);
  }

  lemma ModOfMultiplePlus(k: int, x: State)
    ensures (k * TWO64 + x) % TWO64 == x
  {
  }

  lemma LowByte(q: nat, low: octet)
    ensures (256 * q + low) % 256 == low && (256 * q + low) / 256 == q
  {
  }

  /** What the multiplication sees: the state with the byte folded into its low byte. */
  lemma Folded(h: State, b: octet) returns (x: State)
    ensures x == h - h % 256 + Xor8(h % 256, b)
    ensures x / 256 == h / 256 && x % 256 == Xor8(h % 256, b)
  {
    XorByte(h % 256, b);
    hide Xor8, Xor;
    var q, low := h / 256, Xor8(h % 256, b);
    assert h == 256 * q + h % 256 && q < 0x100_0000_0000_0000;
    LowByte(q, low);
    x := 256 * q + low;
  }

  /** For a fixed byte the step is injective in the state; for a fixed state, in the byte. */
  lemma MixInjective(g: State, h: State, b: octet, c: octet)
    ensures Mix(g, b) == Mix(h, b) ==> g == h
    ensures Mix(h, b) == Mix(h, c) ==> b == c
  {
    hide Xor;
    var gb := Folded(g, b);
    var hb := Folded(h, b);
    var hc := Folded(h, c);
    XorByte(g % 256, b);
    XorByte(h % 256, b);
    XorByte(h % 256, c);
    if Mix(g, b) == Mix(h, b) {
      TimesPrimeInjective(gb, hb);
    }
    if Mix(h, b) == Mix(h, c) {
      TimesPrimeInjective(hb, hc);
    }
  }

  lemma {:induction false} MixAllInjective(g: State, h: State, bytes: seq<octet>)
    requires g != h
    ensures MixAll(g, bytes) != MixAll(h, bytes)
    decreases |bytes|
  {
    if bytes != [] {
      MixInjective(g, h, bytes[0], bytes[0]);
      MixAllInjective(Mix(g, bytes[0]), Mix(h, bytes[0]), bytes[1..]);
    }
  }

  /** Two byte strings that differ in exactly one place hash differently from any state. */
  lemma OneByteChangesHash(h: State, pre: seq<octet>, b: octet, c: octet, post: seq<octet>)
    requires b != c
    ensures MixAll(h, pre + [b] + post) != MixAll(h, pre + [c] + post)
  {
    var g := MixAll(h, pre);
    assert pre + [b] + post == pre + ([b] + post) && pre + [c] + post == pre + ([c] + post);
    MixAllConcat(h, pre, [b] + post);
    MixAllConcat(h, pre, [c] + post);
    assert ([b] + post)[1..] == post && ([c] + post)[1..] == post;
    MixInjective(g, g, b, c);
    MixAllInjective(Mix(g, b), Mix(g, c), post);
  }

  lemma {:induction false} WordsConcat(xs: seq<nat>, ys: seq<nat>)
    ensures Words(xs + ys) == Words(xs) + Words(ys)
  {
    if xs == [] {
      assert xs + ys == ys;
    } else {
      assert (xs + ys)[1..] == xs[1..] + ys;
      WordsConcat(xs[1..], ys);
    }
  }

  /** Up to 256 nodes, moving a single expert to another node always changes the fingerprint. */
  lemma MovingOneExpertChangesFingerprint(s: ExpertSharding, t: ExpertSharding, e: nat)
    requires s.Valid() && t.Valid() && s.numNodes == t.numNodes <= 256 && s.nExperts == t.nExperts
    requires e < s.nExperts && s.Owner(e) != t.Owner(e)
    requires forall i :: 0 <= i < s.nExperts && i != e ==> s.Owner(i) == t.Owner(i)
    ensures Fingerprint(s) != Fingerprint(t)
  {
    OwnersInRange(s);
    OwnersInRange(t);
    var xs, ys := s.Owners(), t.Owners();
    assert xs[e] < 256 && ys[e] < 256;
    var pre, post := [s.numNodes, s.nExperts] + xs[..e], xs[e + 1..];
    assert ys[..e] == xs[..e] && ys[e + 1..] == post;
    assert [s.numNodes, s.nExperts] + xs == pre + ([xs[e]] + post);
    assert [t.numNodes, t.nExperts] + ys == pre + ([ys[e]] + post);
    WordBytes(pre, xs[e], post);
    WordBytes(pre, ys[e], post);
    OneByteChangesHash(BASIS, Words(pre), xs[e], ys[e], [0, 0, 0] + Words(post));
  }

  lemma WordBytes(pre: seq<nat>, x: octet, post: seq<nat>)
    ensures Words(pre + ([x] + post)) == Words(pre) + [x] + ([0, 0, 0] + Words(post))
  {
    hide ToLe;
    WordsConcat(pre, [x] + post);
    FirstWord(x, post);
    hide Words;
    assert [x, 0, 0, 0] == [x] + [0, 0, 0];
  }

  lemma FirstWord(x: octet, post: seq<nat>)
    ensures Words([x] + post) == [x, 0, 0, 0] + Words(post)
  {
  }

  // ---- equal fingerprints do not imply equal maps --------------------------------------

  lemma {:induction false} Pigeonhole(f: nat -> nat, n: nat) returns (i: nat, j: nat)
    requires forall k: nat :: k <= n ==> f(k) < n
    ensures i < j <= n && f(i) == f(j)
    decreases n
  {
    assert f(n) < n;
    if k: nat :| k < n && f(k) == f(n) {
      i, j := k, n;
    } else {
      var g := (k: nat) => if f(k) == n - 1 then f(n) else f(k);
      i, j := Pigeonhole(g, n - 1);
    }
  }

  /** The number of maps of `n` experts onto `m` nodes. */
  function Power(m: nat, n: nat): nat {
    if n == 0 then 1 else m * Power(m, n - 1)
  }

  /** The `i`-th owner table: the digits of `i` in base `m`. */
  function Digits(i: nat, m: nat, n: nat): (t: seq<nat>)
    requires m > 0
    ensures IsAssignment(t, n, m)
    decreases n
  {
    if n == 0 then [] else [i % m] + Digits(i / m, m, n - 1)
  }

  lemma {:induction false} DigitsInjective(i: nat, j: nat, m: nat, n: nat)
    requires m > 0 && i < Power(m, n) && j < Power(m, n) && Digits(i, m, n) == Digits(j, m, n)
    ensures i == j
    decreases n
  {
    if n > 0 {
      var p, x := DropDigit(i, m, n);
      var q, y := DropDigit(j, m, n);
      hide *;
      assert ([x] + Digits(p, m, n - 1))[1..] == Digits(p, m, n - 1)
          && ([y] + Digits(q, m, n - 1))[1..] == Digits(q, m, n - 1);
      assert x == ([x] + Digits(p, m, n - 1))[0] == ([y] + Digits(q, m, n - 1))[0] == y;
      DigitsInjective(p, q, m, n - 1);
    }
  }

  lemma DropDigit(i: nat, m: nat, n: nat) returns (q: nat, x: nat)
    requires m > 0 && n > 0 && i < Power(m, n)
    ensures q < Power(m, n - 1) && i == q * m + x && Digits(i, m, n) == [x] + Digits(q, m, n - 1)
  {
    q, x := i / m, i % m;
    DivAtLeast(i, m, Power(m, n - 1));
  }

  function Numbered(i: nat, m: nat, n: nat): (s: ExpertSharding)
    requires m > 0 && n > 0
    ensures s.Valid() && s.numNodes == m && s.nExperts == n && s.Owners() == Digits(i, m, n)
  {
    ExpertSharding(m, n, Some(Digits(i, m, n)))
  }

  /** The comment that matching fingerprints mean identical maps holds for no size with more maps than 64-bit
      values: two different maps of that size share a fingerprint. */
  lemma DifferentMapsShareAFingerprint(m: nat, n: nat) returns (s: ExpertSharding, t: ExpertSharding)
    requires m > 0 && n > 0 && Power(m, n) > TWO64
    ensures s.Valid() && t.Valid() && s.numNodes == t.numNodes == m && s.nExperts == t.nExperts == n
    ensures s.table.Some? && t.table.Some? && s.Owners() != t.Owners() && Fingerprint(s) == Fingerprint(t)
  {
    var f := (i: nat) => Fingerprint(Numbered(i, m, n));
    var i, j := Pigeonhole(f, TWO64);
    s, t := Numbered(i, m, n), Numbered(j, m, n);
    if s.Owners() == t.Owners() {
      DigitsInjective(i, j, m, n);
      assert false;
    }
  }

  /** The two maps are ones that `capacity_weighted` makes. */
  lemma CapacityWeightedMapsCollide(m: nat, n: nat)
      returns (s: ExpertSharding, c: seq<u64>, v: seq<u64>, t: ExpertSharding, d: seq<u64>, w: seq<u64>)
    requires m > 1 && n > 0 && Power(m, n) > TWO64 && MarksFit(m, n)
    ensures s.Valid() && s.numNodes == m && s.nExperts == n && Total(Weights(v, n)) < TWO64
    ensures IsCapacityWeighted(s, c, v)
    ensures t.Valid() && t.numNodes == m && t.nExperts == n && Total(Weights(w, n)) < TWO64
    ensures IsCapacityWeighted(t, d, w)
    ensures s.Owners() != t.Owners() && Fingerprint(s) == Fingerprint(t)
  {
    hide *;
    s, t := DifferentMapsShareAFingerprint(m, n);
    c, v := EveryMapIsMade(s);
    d, w := EveryMapIsMade(t);
  }

  lemma Doubles(n: nat)
    ensures Power(2, n + 1) == 2 * Power(2, n)
  {
  }

  lemma EightMore(n: nat)
    ensures Power(2, n + 8) == 256 * Power(2, n)
  {
    Doubles(n);
    Doubles(n + 1);
    Doubles(n + 2);
    Doubles(n + 3);
    Doubles(n + 4);
    Doubles(n + 5);
    Doubles(n + 6);
    Doubles(n + 7);
  }

  lemma PowerOf64()
    ensures Power(2, 64) == TWO64
  {
    EightMore(0);
    EightMore(8);
    EightMore(16);
    EightMore(24);
    EightMore(32);
    EightMore(40);
    EightMore(48);
    EightMore(56);
    assert Power(2, 0) == 1;
  }

  lemma {:induction false} PowerGrows(n: nat)
    requires n >= 65
    ensures Power(2, n) > TWO64
  {
    if n > 65 {
      PowerGrows(n - 1);
    } else {
      PowerOf64();
    }
  }

  /** On two nodes: from 65 experts on. */
  lemma TwoNodeMapsCollide(n: nat) returns (s: ExpertSharding, c: seq<u64>, v: seq<u64>, t: ExpertSharding,
                           d: seq<u64>, w: seq<u64>)
    requires 65 <= n < TWO32
    ensures s.Valid() && s.numNodes == 2 && s.nExperts == n && Total(Weights(v, n)) < TWO64
    ensures IsCapacityWeighted(s, c, v)
    ensures t.Valid() && t.numNodes == 2 && t.nExperts == n && Total(Weights(w, n)) < TWO64
    ensures IsCapacityWeighted(t, d, w)
    ensures s.Owners() != t.Owners() && Fingerprint(s) == Fingerprint(t)
  {
    hide *;
    PowerGrows(n);
    TwoNodesFit(n);
    s, c, v, t, d, w := CapacityWeightedMapsCollide(2, n);
  }
}
