/** Little-endian integers as bytes. */
module Octets {
  type octet = b: nat | b < 256
  type Octets = seq<octet>

  const TWO32: nat := 0x1_0000_0000
  const TWO64: nat := 0x1_0000_0000_0000_0000

  type u32 = x: nat | x < TWO32
  type u64 = x: nat | x < TWO64

  /** The low `n` bytes of `x`, least significant first. */
  function ToLe(x: nat, n: nat): (b: Octets)
    ensures |b| == n
    decreases n
  {
    if n == 0 then [] else [x % 256] + ToLe(x / 256, n - 1)
  }

  function FromLe(b: Octets): nat
    decreases |b|
  {
    if b == [] then 0 else b[0] + 256 * FromLe(b[1..])
  }

  function Power256(n: nat): (p: nat)
    ensures p > 0
  {
    if n == 0 then 1 else 256 * Power256(n - 1)
  }

  lemma {:induction false} LeRoundTrip(x: nat, n: nat)
    requires x < Power256(n)
    ensures FromLe(ToLe(x, n)) == x
    decreases n
  {
    if n > 0 {
      LeRoundTrip(x / 256, n - 1);
      assert ToLe(x, n)[1..] == ToLe(x / 256, n - 1);
    }
  }

  lemma {:induction false} FromLeBound(b: Octets)
    ensures FromLe(b) < Power256(|b|)
    decreases |b|
  {
    if b != [] {
      FromLeBound(b[1..]);
    }
  }

  /** Bytes determine the number and back. */
  lemma {:induction false} ToLeOfFromLe(b: Octets)
    ensures ToLe(FromLe(b), |b|) == b
    decreases |b|
  {
    if b != [] {
      var n := FromLe(b);
      ToLeOfFromLe(b[1..]);
      assert n % 256 == b[0] && n / 256 == FromLe(b[1..]);
      assert b == [b[0]] + b[1..];
    }
  }

  lemma Associate(a: Octets, b: Octets, c: Octets)
    ensures (a + b) + c == a + (b + c)
  {
  }

  lemma Powers()
    ensures Power256(4) == TWO32 && Power256(8) == TWO64
  {
  }
}
