/** The few facts about multiplication and division by a variable that the other modules need. */
module Arithmetic {

  lemma MulMonotone(x: nat, y: nat, d: nat)
    requires x <= y
    ensures x * d <= y * d
  {
  }

  lemma DivAtLeast(x: nat, d: nat, q: nat)
    requires d > 0
    ensures x / d >= q <==> x >= q * d
  {
    var p := x / d;
    assert p * d <= x < (p + 1) * d;
    if p >= q {
      MulMonotone(q, p, d);
    } else {
      MulMonotone(p + 1, q, d);
    }
  }

  lemma DivModUnique(n: nat, d: nat, q: nat, m: nat)
    requires d > 0 && n == q * d + m && m < d
    ensures n / d == q && n % d == m
  {
    DivAtLeast(n, d, q);
    DivAtLeast(n, d, q + 1);
    assert (q + 1) * d == q * d + d;
    assert n == n / d * d + n % d;
  }

  function Power2(k: nat): (n: nat)
    ensures n > 0
  {
    if k == 0 then 1 else Power2(k - 1) + Power2(k - 1)
  }

  /** `x / d`, rounded up. */
  function DivCeil(x: nat, d: nat): nat
    requires d > 0
  {
    (x + d - 1) / d
  }

  lemma DivCeilAtMost(y: nat, n: nat, e: nat)
    requires n > 0
    ensures DivCeil(y, n) <= e <==> y <= e * n
  {
    DivAtLeast(y + n - 1, n, e + 1);
    assert (e + 1) * n == e * n + n;
  }
}
