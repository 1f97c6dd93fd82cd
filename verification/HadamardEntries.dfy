/** What the rotation computes, entry by entry: Sylvester's matrix by the bits of row and column, without the
    recursion. */
module HadamardEntries {
  import opened Arithmetic
  import opened Hadamard

  /** `i` and `j` have ones in common at an odd number of places. */
  predicate OddlyShared(i: nat, j: nat) {
    i > 0 && j > 0 && ((i % 2 == 1 && j % 2 == 1) != OddlyShared(i / 2, j / 2))
  }

  lemma {:induction false} HighBits(i: nat, j: nat, k: nat)
    requires i < Power2(k) && j < Power2(k)
    ensures OddlyShared(i, j + Power2(k)) == OddlyShared(i, j) == OddlyShared(i + Power2(k), j)
    ensures OddlyShared(i + Power2(k), j + Power2(k)) != OddlyShared(i, j)
  {
    if k > 0 {
      HighBits(i / 2, j / 2, k - 1);
      HighHalves(i, k);
      HighHalves(j, k);
    }
  }

  lemma HighHalves(i: nat, k: nat)
    requires k > 0
    ensures (i + Power2(k)) % 2 == i % 2 && (i + Power2(k)) / 2 == i / 2 + Power2(k - 1)
  {
  }

  /** Row `i` of the matrix against `x`, whose first entry stands in column `from`: the entries whose column shares an
      odd number of ones with the row are subtracted, the others added. */
  ghost function RowSum(x: Vec, i: nat, from: nat): real {
    if x == [] then 0.0
    else (if OddlyShared(i, from) then -x[0] else x[0]) + RowSum(x[1..], i, from + 1)
  }

  lemma {:induction false} RowSumConcat(x: Vec, y: Vec, i: nat, from: nat)
    ensures RowSum(x + y, i, from) == RowSum(x, i, from) + RowSum(y, i, from + |x|)
  {
    if x == [] {
      assert x + y == y;
    } else {
      assert (x + y)[1..] == x[1..] + y;
      RowSumConcat(x[1..], y, i, from + 1);
    }
  }

  lemma {:induction false} RowSumHigh(x: Vec, i: nat, from: nat, k: nat)
    requires i < Power2(k) && from + |x| <= Power2(k)
    ensures RowSum(x, i, from + Power2(k)) == RowSum(x, i, from) == RowSum(x, i + Power2(k), from)
    ensures RowSum(x, i + Power2(k), from + Power2(k)) == -RowSum(x, i, from)
    decreases |x|
  {
    if x != [] {
      HighBits(i, from, k);
      RowSumHigh(x[1..], i, from + 1, k);
      hide OddlyShared;
      assert from + Power2(k) + 1 == from + 1 + Power2(k);
    }
  }

  lemma {:induction false} TransformEntry(x: Vec, k: nat, i: nat)
    requires |x| == Power2(k) && i < |x|
    ensures Transform(x, k)[i] == RowSum(x, i, 0)
    decreases k
  {
    if k == 0 {
      assert RowSum(x[1..], 0, 1) == 0.0;
    } else {
      hide *;
      var u, v := Halves(x, k);
      var r := if i < |u| then i else i - |u|;
      TransformEntry(u, k - 1, r);
      TransformEntry(v, k - 1, r);
      EntryOfHalves(u, v, k - 1, i, r);
    }
  }

  lemma EntryOfHalves(u: Vec, v: Vec, k: nat, i: nat, r: nat)
    requires |u| == |v| == Power2(k) && i < 2 * |u| && r == if i < |u| then i else i - |u|
    requires Transform(u, k)[r] == RowSum(u, r, 0) && Transform(v, k)[r] == RowSum(v, r, 0)
    ensures |u + v| == Power2(k + 1) && Transform(u + v, k + 1)[i] == RowSum(u + v, i, 0)
  {
    hide RowSum, Transform, Add, Sub;
    TransformHalves(u, v, k);
    HalvesEntry(Transform(u, k), Transform(v, k), i, r);
    HalvesRowSum(u, v, k, i, r);
  }

  lemma HalvesRowSum(u: Vec, v: Vec, k: nat, i: nat, r: nat)
    requires |u| == |v| == Power2(k) && i < 2 * |u| && r == if i < |u| then i else i - |u|
    ensures RowSum(u + v, i, 0) == RowSum(u, r, 0) + if i < |u| then RowSum(v, r, 0) else -RowSum(v, r, 0)
  {
    hide RowSum;
    RowSumConcat(u, v, i, 0);
    RowSumHigh(u, r, 0, k);
    RowSumHigh(v, r, 0, k);
  }

  lemma HalvesEntry(a: Vec, b: Vec, i: nat, r: nat)
    requires |a| == |b| && i < 2 * |a| && r == if i < |a| then i else i - |a|
    ensures (Add(a, b) + Sub(a, b))[i] == if i < |a| then a[r] + b[r] else a[r] - b[r]
  {
  }

  /** Entry `i` of the rotation is the scaled row sum. */
  lemma RotationEntry(x: Vec, k: nat, s: real, i: nat)
    requires |x| == Power2(k) && i < |x|
    ensures |Rotation(x, k, s)| == |x| && Rotation(x, k, s)[i] == RowSum(x, i, 0) * s
  {
    hide Transform, RowSum;
    TransformEntry(x, k, i);
  }

  // ---- what a dot product is ------------------------------------------------------------------------------

  /** A dot product is the sum of its entries' products: replacing one entry changes it by the difference times the
      other side's entry, and against zeros it is nought. */
  lemma {:induction false} DotByEntries(x: Vec, y: Vec, i: nat, a: real)
    requires |x| == |y| && i < |x|
    ensures Dot(x[i := a], y) - Dot(x, y) == (a - x[i]) * y[i]
  {
    var z := x[i := a];
    if i > 0 {
      assert z[1..] == x[1..][i - 1 := a];
      DotByEntries(x[1..], y[1..], i - 1, a);
    } else {
      assert z[1..] == x[1..];
      Difference(a, x[0], y[0]);
    }
  }

  lemma Difference(a: real, b: real, c: real)
    ensures Times(a, c) - Times(b, c) == (a - b) * c
  {
  }

  lemma {:induction false} DotOfZeros(x: Vec, y: Vec)
    requires |x| == |y| && forall i :: 0 <= i < |x| ==> x[i] == 0.0
    ensures Dot(x, y) == 0.0
  {
    if x != [] {
      DotOfZeros(x[1..], y[1..]);
      assert Times(x[0], y[0]) == 0.0;
    }
  }
}
