/** The Walsh-Hadamard rotation of `scripts/dsv4_ref_vectors.py`, over exact reals. */
module Hadamard {
  import opened Arithmetic
  import opened Wrappers

  type Vec = seq<real>

  function Add(x: Vec, y: Vec): (r: Vec)
    requires |x| == |y|
    ensures |r| == |x|
  {
    seq(|x|, i requires 0 <= i < |x| => x[i] + y[i])
  }

  function Sub(x: Vec, y: Vec): (r: Vec)
    requires |x| == |y|
    ensures |r| == |x|
  {
    seq(|x|, i requires 0 <= i < |x| => x[i] - y[i])
  }

  function Times(a: real, b: real): real {
    a * b
  }

  function Scale(x: Vec, c: real): (r: Vec)
    ensures |r| == |x|
  {
    seq(|x|, i requires 0 <= i < |x| => Times(x[i], c))
  }

  function Dot(x: Vec, y: Vec): real
    requires |x| == |y|
  {
    if x == [] then 0.0 else Times(x[0], y[0]) + Dot(x[1..], y[1..])
  }

  /** Sylvester's recursive definition of the unscaled transform of `2^k` numbers. */
  function Transform(x: Vec, k: nat): (y: Vec)
    requires |x| == Power2(k)
    ensures |y| == |x|
    decreases k
  {
    if k == 0 then x
    else
      var h := Power2(k - 1);
      var a, b := Transform(x[..h], k - 1), Transform(x[h..], k - 1);
      Add(a, b) + Sub(a, b)
  }

  // ---- the transform is linear, self-inverse up to n, and multiplies dot products by n ----

  lemma TransformHalves(a: Vec, b: Vec, k: nat)
    requires |a| == |b| == Power2(k)
    ensures Power2(k + 1) == 2 * Power2(k)
    ensures Transform(a + b, k + 1) == Add(Transform(a, k), Transform(b, k)) + Sub(Transform(a, k), Transform(b, k))
  {
  }

  lemma AddConcat(a: Vec, b: Vec, c: Vec, d: Vec)
    requires |a| == |c| && |b| == |d|
    ensures Add(a + b, c + d) == Add(a, c) + Add(b, d)
    ensures Sub(a + b, c + d) == Sub(a, c) + Sub(b, d)
  {
  }

  lemma Halves(x: Vec, k: nat) returns (u: Vec, v: Vec)
    requires k > 0 && |x| == Power2(k)
    ensures |u| == |v| == Power2(k - 1) && u + v == x && |x| == 2 * |u|
  {
    u, v := x[..Power2(k - 1)], x[Power2(k - 1)..];
  }

  lemma {:induction false} TransformLinear(x: Vec, y: Vec, k: nat)
    requires |x| == |y| == Power2(k)
    ensures Transform(Add(x, y), k) == Add(Transform(x, k), Transform(y, k))
    ensures Transform(Sub(x, y), k) == Sub(Transform(x, k), Transform(y, k))
    decreases k
  {
    if k > 0 {
      hide *;
      var u, v := Halves(x, k);
      var p, q := Halves(y, k);
      TransformLinear(u, p, k - 1);
      TransformLinear(v, q, k - 1);
      LinearStep(u, v, p, q, k - 1);
    }
  }

  lemma LinearStep(u: Vec, v: Vec, p: Vec, q: Vec, k: nat)
    requires |u| == |v| == |p| == |q| == Power2(k)
    requires Transform(Add(u, p), k) == Add(Transform(u, k), Transform(p, k))
    requires Transform(Sub(u, p), k) == Sub(Transform(u, k), Transform(p, k))
    requires Transform(Add(v, q), k) == Add(Transform(v, k), Transform(q, k))
    requires Transform(Sub(v, q), k) == Sub(Transform(v, k), Transform(q, k))
    ensures |u + v| == |p + q| == Power2(k + 1)
    ensures Transform(Add(u + v, p + q), k + 1) == Add(Transform(u + v, k + 1), Transform(p + q, k + 1))
    ensures Transform(Sub(u + v, p + q), k + 1) == Sub(Transform(u + v, k + 1), Transform(p + q, k + 1))
  {
    hide Add, Sub, Transform;
    AddConcat(u, v, p, q);
    TransformHalves(u, v, k);
    TransformHalves(p, q, k);
    TransformHalves(Add(u, p), Add(v, q), k);
    TransformHalves(Sub(u, p), Sub(v, q), k);
    LinearHalves(Transform(u, k), Transform(v, k), Transform(p, k), Transform(q, k));
  }

  lemma LinearHalves(a: Vec, b: Vec, c: Vec, d: Vec)
    requires |a| == |b| == |c| == |d|
    ensures Add(Add(a, c), Add(b, d)) + Sub(Add(a, c), Add(b, d)) == Add(Add(a, b) + Sub(a, b), Add(c, d) + Sub(c, d))
    ensures Add(Sub(a, c), Sub(b, d)) + Sub(Sub(a, c), Sub(b, d)) == Sub(Add(a, b) + Sub(a, b), Add(c, d) + Sub(c, d))
  {
  }

  lemma Doubles(a: Vec, b: Vec)
    requires |a| == |b|
    ensures Add(Add(a, b), Sub(a, b)) == Scale(a, 2.0)
    ensures Sub(Add(a, b), Sub(a, b)) == Scale(b, 2.0)
  {
  }

  lemma ScaleConcat(a: Vec, b: Vec, c: real)
    ensures Scale(a + b, c) == Scale(a, c) + Scale(b, c)
  {
  }

  lemma ScaleTwice(a: Vec, c: real, d: real, e: real)
    requires c * d == e
    ensures Scale(Scale(a, c), d) == Scale(a, e)
  {
    forall i | 0 <= i < |a| ensures Times(Times(a[i], c), d) == Times(a[i], e) { }
  }

  lemma ScaledHalves(u: Vec, v: Vec, h: real, n: real)
    requires n == h * 2.0
    ensures Scale(Scale(u, h), 2.0) + Scale(Scale(v, h), 2.0) == Scale(u + v, n)
  {
    ScaleTwice(u, h, 2.0, n);
    ScaleTwice(v, h, 2.0, n);
    ScaleConcat(u, v, n);
  }

  /** Two applications give the input times its length. */
  lemma {:induction false} TransformTwice(x: Vec, k: nat)
    requires |x| == Power2(k)
    ensures Transform(Transform(x, k), k) == Scale(x, |x| as real)
    decreases k
  {
    if k == 0 {
      assert Scale(x, 1.0) == x;
    } else {
      hide *;
      var u, v := Halves(x, k);
      TransformTwice(u, k - 1);
      TransformTwice(v, k - 1);
      TransformTwiceHalves(u, v, k - 1);
      ScaledHalves(u, v, |u| as real, |x| as real);
    }
  }

  lemma TransformTwiceHalves(u: Vec, v: Vec, k: nat)
    requires |u| == |v| == Power2(k)
    ensures Transform(Transform(u + v, k + 1), k + 1)
         == Scale(Transform(Transform(u, k), k), 2.0) + Scale(Transform(Transform(v, k), k), 2.0)
  {
    var a, b := Transform(u, k), Transform(v, k);
    hide Add, Sub, Scale, Times, Transform;
    TransformHalves(u, v, k);
    TransformHalves(Add(a, b), Sub(a, b), k);
    TransformLinear(a, b, k);
    Doubles(Transform(a, k), Transform(b, k));
  }

  lemma {:induction false} DotConcat(a: Vec, b: Vec, c: Vec, d: Vec)
    requires |a| == |c| && |b| == |d|
    ensures Dot(a + b, c + d) == Dot(a, c) + Dot(b, d)
  {
    if a == [] {
      assert a + b == b && c + d == d;
    } else {
      assert (a + b)[1..] == a[1..] + b && (c + d)[1..] == c[1..] + d;
      DotConcat(a[1..], b, c[1..], d);
    }
  }

  /** The parallelogram law for dot products. */
  lemma {:induction false} DotParallelogram(a: Vec, b: Vec, c: Vec, d: Vec)
    requires |a| == |b| == |c| == |d|
    ensures Dot(Add(a, b), Add(c, d)) + Dot(Sub(a, b), Sub(c, d)) == 2.0 * (Dot(a, c) + Dot(b, d))
  {
    if a != [] {
      DotParallelogram(a[1..], b[1..], c[1..], d[1..]);
      SumsTail(a, b);
      SumsTail(c, d);
      Parallelogram(a[0], b[0], c[0], d[0]);
      hide Times, Add, Sub;
    }
  }

  lemma SumsTail(a: Vec, b: Vec)
    requires |a| == |b| > 0
    ensures Add(a, b)[1..] == Add(a[1..], b[1..]) && Sub(a, b)[1..] == Sub(a[1..], b[1..])
    ensures Add(a, b)[0] == a[0] + b[0] && Sub(a, b)[0] == a[0] - b[0]
  {
  }

  lemma Parallelogram(a: real, b: real, c: real, d: real)
    ensures Times(a + b, c + d) + Times(a - b, c - d) == 2.0 * (Times(a, c) + Times(b, d))
  {
  }

  /** Dot products, so also sums of squares, are multiplied by the length. */
  lemma {:induction false} TransformScalesDot(x: Vec, y: Vec, k: nat)
    requires |x| == |y| == Power2(k)
    ensures Dot(Transform(x, k), Transform(y, k)) == Times(|x| as real, Dot(x, y))
    decreases k
  {
    hide *;
    if k == 0 {
      assert Power2(0) == 1 by { PowerZero(); }
      ScalesDotBase(x, y);
    } else {
      var a, b := Halves(x, k);
      var p, q := Halves(y, k);
      TransformScalesDot(a, p, k - 1);
      TransformScalesDot(b, q, k - 1);
      ScalesDotStep(a, b, p, q, k - 1);
    }
  }

  lemma PowerZero()
    ensures Power2(0) == 1
  {
  }

  lemma ScalesDotBase(x: Vec, y: Vec)
    requires |x| == |y| == 1
    ensures Dot(Transform(x, 0), Transform(y, 0)) == Times(1.0, Dot(x, y))
  {
  }

  lemma ScalesDotStep(u: Vec, v: Vec, p: Vec, q: Vec, k: nat)
    requires |u| == |v| == |p| == |q| == Power2(k)
    requires Dot(Transform(u, k), Transform(p, k)) == Times(|u| as real, Dot(u, p))
    requires Dot(Transform(v, k), Transform(q, k)) == Times(|v| as real, Dot(v, q))
    ensures |u + v| == |p + q| == Power2(k + 1)
    ensures Dot(Transform(u + v, k + 1), Transform(p + q, k + 1)) == Times(|u + v| as real, Dot(u + v, p + q))
  {
    hide Times, Dot, Transform, Add, Sub;
    DotOfHalves(Transform(u, k), Transform(v, k), Transform(p, k), Transform(q, k));
    TransformHalves(u, v, k);
    TransformHalves(p, q, k);
    DotConcat(u, v, p, q);
    DoubledSum(|u| as real, Dot(u, p), Dot(v, q));
    assert |u + v| as real == 2.0 * (|u| as real);
  }

  lemma DotOfHalves(a: Vec, b: Vec, c: Vec, d: Vec)
    requires |a| == |b| == |c| == |d|
    ensures Dot(Add(a, b) + Sub(a, b), Add(c, d) + Sub(c, d)) == 2.0 * (Dot(a, c) + Dot(b, d))
  {
    DotConcat(Add(a, b), Sub(a, b), Add(c, d), Sub(c, d));
    DotParallelogram(a, b, c, d);
  }

  lemma DoubledSum(h: real, p: real, q: real)
    ensures 2.0 * (Times(h, p) + Times(h, q)) == Times(2.0 * h, p + q)
  {
  }

  /** The rotation: the transform times `s`, where `s` is the inverse square root of the length. */
  function Rotation(x: Vec, k: nat, s: real): Vec
    requires |x| == Power2(k)
  {
    Scale(Transform(x, k), s)
  }

  lemma ScaleAddSub(a: Vec, b: Vec, s: real)
    requires |a| == |b|
    ensures Scale(Add(a, b), s) == Add(Scale(a, s), Scale(b, s))
    ensures Scale(Sub(a, b), s) == Sub(Scale(a, s), Scale(b, s))
  {
    forall i | 0 <= i < |a|
      ensures Times(a[i] + b[i], s) == Times(a[i], s) + Times(b[i], s)
      ensures Times(a[i] - b[i], s) == Times(a[i], s) - Times(b[i], s)
    {
    }
  }

  lemma {:induction false} TransformOfScaled(x: Vec, k: nat, s: real)
    requires |x| == Power2(k)
    ensures Transform(Scale(x, s), k) == Scale(Transform(x, k), s)
    decreases k
  {
    if k > 0 {
      hide *;
      var u, v := Halves(x, k);
      TransformOfScaled(u, k - 1, s);
      TransformOfScaled(v, k - 1, s);
      ScaledStep(u, v, k - 1, s);
    }
  }

  lemma ScaledStep(u: Vec, v: Vec, k: nat, s: real)
    requires |u| == |v| == Power2(k)
    requires Transform(Scale(u, s), k) == Scale(Transform(u, k), s)
    requires Transform(Scale(v, s), k) == Scale(Transform(v, k), s)
    ensures |u + v| == Power2(k + 1)
    ensures Transform(Scale(u + v, s), k + 1) == Scale(Transform(u + v, k + 1), s)
  {
    hide Add, Sub, Scale, Transform;
    ScaleConcat(u, v, s);
    TransformHalves(u, v, k);
    TransformHalves(Scale(u, s), Scale(v, s), k);
    ScaledSums(Transform(u, k), Transform(v, k), s);
  }

  lemma ScaledSums(a: Vec, b: Vec, s: real)
    requires |a| == |b|
    ensures Scale(Add(a, b) + Sub(a, b), s) == Add(Scale(a, s), Scale(b, s)) + Sub(Scale(a, s), Scale(b, s))
  {
    hide Add, Sub, Scale;
    ScaleAddSub(a, b, s);
    ScaleConcat(Add(a, b), Sub(a, b), s);
  }

  lemma {:induction false} DotOfScaled(x: Vec, y: Vec, s: real)
    requires |x| == |y|
    ensures Dot(Scale(x, s), Scale(y, s)) == Times(Times(s, s), Dot(x, y))
  {
    if x != [] {
      DotOfScaled(x[1..], y[1..], s);
      ScaleTail(x, s);
      ScaleTail(y, s);
      ScaledProduct(x[0], y[0], s, Dot(x[1..], y[1..]));
    }
  }

  lemma ScaleTail(x: Vec, s: real)
    requires x != []
    ensures Scale(x, s)[1..] == Scale(x[1..], s)
  {
  }

  lemma ScaledProduct(a: real, b: real, s: real, r: real)
    ensures Times(Times(a, s), Times(b, s)) + Times(Times(s, s), r) == Times(Times(s, s), Times(a, b) + r)
  {
  }

  /** `s` is `n` to the power minus one half. */
  ghost predicate IsInverseRoot(s: real, n: nat) {
    Times(Times(s, s), n as real) == 1.0
  }

  lemma RotationUndoesItself(x: Vec, k: nat, s: real)
    requires |x| == Power2(k) && IsInverseRoot(s, |x|)
    ensures Rotation(Rotation(x, k, s), k, s) == x
  {
    hide Times, Scale, Transform, IsInverseRoot;
    TransformOfScaled(Transform(x, k), k, s);
    TransformTwice(x, k);
    UnitScale(x, |x|, s);
  }

  lemma RotationKeepsDot(x: Vec, y: Vec, k: nat, s: real)
    requires |x| == |y| == Power2(k) && IsInverseRoot(s, |x|)
    ensures Dot(Rotation(x, k, s), Rotation(y, k, s)) == Dot(x, y)
  {
    hide Times, Scale, Transform, Dot, IsInverseRoot;
    DotOfScaled(Transform(x, k), Transform(y, k), s);
    TransformScalesDot(x, y, k);
    UnitProduct(s, |x|, Dot(x, y));
  }

  /** Rotating twice is the identity, and rotating both operands keeps every dot product: this is what
      lets queries and keys be rotated without changing a single attention score. */
  lemma RotationIsOrthogonal(x: Vec, y: Vec, k: nat, s: real)
    requires |x| == |y| == Power2(k) && IsInverseRoot(s, |x|)
    ensures Rotation(Rotation(x, k, s), k, s) == x
    ensures Dot(Rotation(x, k, s), Rotation(y, k, s)) == Dot(x, y)
  {
    RotationUndoesItself(x, k, s);
    RotationKeepsDot(x, y, k, s);
  }

  lemma UnitScale(x: Vec, n: nat, s: real)
    requires IsInverseRoot(s, n)
    ensures Scale(Scale(Scale(x, n as real), s), s) == x
  {
    var c := n as real;
    assert (c * s) * s == 1.0;
    ScaleTwice(x, c, s, c * s);
    ScaleTwice(x, c * s, s, 1.0);
    assert Scale(x, 1.0) == x;
  }

  lemma UnitProduct(s: real, n: nat, d: real)
    requires IsInverseRoot(s, n)
    ensures Times(Times(s, s), Times(n as real, d)) == d
  {
  }

  // ---- the in-place butterfly -----------------------------------------------------------

  predicate Multiple(n: nat, d: nat)
    requires d > 0
  {
    n == 0 || (n >= d && Multiple(n - d, d))
  }

  /** Each block of `2^k` entries of `y` is the transform of the same block of `x`. */
  ghost predicate Blocked(y: Vec, x: Vec, k: nat)
    decreases |x|
  {
    && |y| == |x|
    && (x == [] ||
        var h := Power2(k);
        |x| >= h && y[..h] == Transform(x[..h], k) && Blocked(y[h..], x[h..], k))
  }

  lemma {:induction false} BlockedOne(x: Vec)
    ensures Blocked(x, x, 0)
  {
    if x != [] {
      BlockedOne(x[1..]);
    }
  }

  lemma BlockedCons(y: Vec, x: Vec, k: nat, v: Vec, u: Vec)
    requires Blocked(y, x, k) && |u| == Power2(k) && v == Transform(u, k)
    ensures Blocked(v + y, u + x, k)
  {
  }

  lemma {:induction false} HalfMultiple(n: nat, d: nat)
    requires d > 0 && Multiple(n, d)
    ensures Multiple(2 * n, 2 * d)
  {
    if n > 0 {
      HalfMultiple(n - d, d);
    }
  }

  /** A smaller power of two, doubled, divides a larger one. */
  lemma {:induction false} PowersDivide(m: nat, k: nat)
    requires Power2(k) < Power2(m)
    ensures Multiple(Power2(m), 2 * Power2(k))
  {
    if k == 0 {
      EvenIsMultiple(Power2(m));
    } else {
      PowersDivide(m - 1, k - 1);
      HalfMultiple(Power2(m - 1), 2 * Power2(k - 1));
    }
  }

  lemma {:induction false} EvenIsMultiple(n: nat)
    requires n % 2 == 0
    ensures Multiple(n, 2)
  {
    if n > 0 {
      EvenIsMultiple(n - 2);
    }
  }

  /** One pass: neighbouring blocks of `h` become their sum and their difference. */
  function Pass(y: Vec, h: nat): (r: Vec)
    requires h > 0
    decreases |y|
  {
    if |y| < 2 * h then y
    else Add(y[..h], y[h..2 * h]) + Sub(y[..h], y[h..2 * h]) + Pass(y[2 * h..], h)
  }

  lemma BlockedTwo(y: Vec, x: Vec, k: nat, h: nat)
    requires Blocked(y, x, k) && h == Power2(k) && |x| >= 2 * h
    ensures y[..h] == Transform(x[..h], k) && y[h..2 * h] == Transform(x[h..2 * h], k)
    ensures Blocked(y[2 * h..], x[2 * h..], k)
  {
    assert Blocked(y[h..], x[h..], k);
    assert y[h..][..h] == y[h..2 * h] && x[h..][..h] == x[h..2 * h];
    assert y[h..][h..] == y[2 * h..] && x[h..][h..] == x[2 * h..];
  }

  lemma FirstPair(y: Vec, x: Vec, k: nat, h: nat) returns (a: Vec, b: Vec, more: Vec, u: Vec, v: Vec, rest: Vec)
    requires Blocked(y, x, k) && h == Power2(k) && |x| >= 2 * h
    ensures y == (a + b) + more && x == (u + v) + rest && |a| == |b| == |u| == |v| == h
    ensures a == Transform(u, k) && b == Transform(v, k) && Blocked(more, rest, k)
    ensures Pass(y, h) == (Add(a, b) + Sub(a, b)) + Pass(more, h)
  {
    a, b, more := y[..h], y[h..2 * h], y[2 * h..];
    u, v, rest := x[..h], x[h..2 * h], x[2 * h..];
    assert |y| == |x|;
    hide *;
    BlockedTwo(y, x, k, h);
    PassUnfolds(y, h);
    InThree(y, h);
    InThree(x, h);
  }

  lemma InThree(y: Vec, h: nat)
    requires 2 * h <= |y|
    ensures y == (y[..h] + y[h..2 * h]) + y[2 * h..]
  {
  }

  lemma AtLeastOnePair(n: nat, d: nat)
    requires d > 0 && n > 0 && Multiple(n, d)
    ensures n >= d && Multiple(n - d, d)
  {
  }

  /** A pass turns transformed blocks into transformed blocks of twice the size. */
  lemma {:induction false} PassDoublesBlocks(y: Vec, x: Vec, k: nat)
    requires Blocked(y, x, k) && Multiple(|x|, 2 * Power2(k))
    ensures Blocked(Pass(y, Power2(k)), x, k + 1)
    decreases |x|
  {
    var h := Power2(k);
    if x != [] {
      hide *;
      AtLeastOnePair(|x|, 2 * h);
      var a, b, more, u, v, rest := FirstPair(y, x, k, h);
      PassDoublesBlocks(more, rest, k);
      TransformHalves(u, v, k);
      BlockedCons(Pass(more, h), rest, k + 1, Add(a, b) + Sub(a, b), u + v);
    }
  }

  /** The butterfly has reached `j` within the blocks at `i`. */
  ghost predicate Exchanged(before: Vec, after: Vec, i: nat, h: nat, j: nat) {
    && |after| == |before| && i <= j <= i + h && (j > i ==> j + h <= |before|)
    && (forall k :: 0 <= k < |before| && !(i <= k < j) && !(i + h <= k < j + h) ==> after[k] == before[k])
    && (forall k :: i <= k < j ==> after[k] == before[k] + before[k + h])
    && (forall k :: i + h <= k < j + h ==> after[k] == before[k - h] - before[k])
  }

  lemma ExchangedStart(before: Vec, i: nat, h: nat)
    ensures Exchanged(before, before, i, h, i)
  {
  }

  lemma ExchangedNext(before: Vec, after: Vec, i: nat, h: nat, j: nat)
    requires Exchanged(before, after, i, h, j) && j < i + h && j + h < |before|
    ensures Exchanged(before, after[j := after[j] + after[j + h]][j + h := after[j] - after[j + h]], i, h, j + 1)
  {
  }

  lemma ExchangedAll(before: Vec, after: Vec, i: nat, h: nat)
    requires h > 0 && Exchanged(before, after, i, h, i + h)
    ensures IsButterfly(before, after, i, h)
  {
  }

  method StorePair(y: array<real>, j: nat, h: nat, sum: real, difference: real)
    requires h > 0 && j + h < y.Length
    modifies y
    ensures y[..] == old(y[..])[j := sum][j + h := difference]
  {
    y[j], y[j + h] := sum, difference;
  }

  /** The innermost loop on one pair of blocks; false when an index runs off the end. */
  method ButterflyPair(y: array<real>, i: nat, h: nat) returns (ok: bool)
    requires h > 0
    modifies y
    ensures ok <==> i + 2 * h <= y.Length
    ensures ok ==> IsButterfly(old(y[..]), y[..], i, h)
  {
    hide *;
    var j := i;
    ghost var before := y[..];
    ExchangedStart(before, i, h);
    while j < i + h
      invariant i <= j <= i + h && (j > i ==> j + h <= y.Length)
      invariant Exchanged(before, y[..], i, h, j)
    {
      if j + h >= y.Length {
        return false;
      }
      var a, b := y[j], y[j + h];
      ghost var was := y[..];
      ExchangedNext(before, was, i, h, j);
      StorePair(y, j, h, a + b, a - b);
      j := j + 1;
    }
    ExchangedAll(before, y[..], i, h);
    return true;
  }

  /** `after` replaces the two blocks at `i` by their sum and difference and leaves the rest. */
  ghost predicate IsButterfly(before: Vec, after: Vec, i: nat, h: nat) {
    && |before| == |after| >= i + 2 * h
    && (forall k :: i <= k < i + h ==> after[k] == before[k] + before[k + h])
    && (forall k :: i + h <= k < i + 2 * h ==> after[k] == before[k - h] - before[k])
    && (forall k :: 0 <= k < |before| && !(i <= k < i + 2 * h) ==> after[k] == before[k])
  }

  lemma ButterflyParts(before: Vec, after: Vec, i: nat, h: nat)
    requires IsButterfly(before, after, i, h)
    ensures after[..i] == before[..i] && after[i + 2 * h..] == before[i..][2 * h..]
    ensures after[i..i + 2 * h]
            == Add(before[i..][..h], before[i..][h..2 * h]) + Sub(before[i..][..h], before[i..][h..2 * h])
  {
    OutsideButterfly(before, after, i, h);
    var a, b := before[i..][..h], before[i..][h..2 * h];
    forall k | 0 <= k < 2 * h ensures after[i..i + 2 * h][k] == (Add(a, b) + Sub(a, b))[k] {
      InsideButterfly(before, after, i, h, k);
    }
  }

  lemma OutsideButterfly(before: Vec, after: Vec, i: nat, h: nat)
    requires IsButterfly(before, after, i, h)
    ensures after[..i] == before[..i] && after[i + 2 * h..] == before[i..][2 * h..]
  {
  }

  lemma InsideButterfly(before: Vec, after: Vec, i: nat, h: nat, k: nat)
    requires IsButterfly(before, after, i, h) && k < 2 * h
    ensures var a, b := before[i..][..h], before[i..][h..2 * h];
            after[i + k] == if k < h then a[k] + b[k] else a[k - h] - b[k - h]
  {
  }

  lemma PassStep(before: Vec, after: Vec, i: nat, h: nat)
    requires h > 0 && IsButterfly(before, after, i, h)
    ensures PassFrom(before, i, h) == PassFrom(after, i + 2 * h, h)
  {
    ButterflyParts(before, after, i, h);
    var sums := after[i..i + 2 * h];
    PassUnfolds(before[i..], h);
    hide IsButterfly, Add, Sub, Pass;
    Regroup(before[..i], sums, Pass(before[i..][2 * h..], h));
    assert after[..i + 2 * h] == before[..i] + sums;
  }

  lemma PassUnfolds(y: Vec, h: nat)
    requires h > 0 && |y| >= 2 * h
    ensures Pass(y, h) == (Add(y[..h], y[h..2 * h]) + Sub(y[..h], y[h..2 * h])) + Pass(y[2 * h..], h)
  {
  }

  lemma Regroup(a: Vec, b: Vec, c: Vec)
    ensures a + (b + c) == (a + b) + c
  {
  }

  /** The pass has reached `i`, and what remains leads to `want`. */
  ghost predicate Reached(y: Vec, i: nat, h: nat, want: Vec)
    requires h > 0
  {
    && i <= |y| && PassFrom(y, i, h) == want
    && (Multiple(|y|, 2 * h) <==> Multiple(|y| - i, 2 * h))
  }

  lemma ReachedStart(y: Vec, h: nat)
    requires h > 0
    ensures Reached(y, 0, h, Pass(y, h))
  {
    PassEnds(y, h);
    hide PassFrom, Pass, Multiple;
  }

  lemma ReachedNext(y: Vec, z: Vec, i: nat, h: nat, want: Vec)
    requires h > 0 && Reached(y, i, h, want) && i + 2 * h <= |y| == |z|
    requires PassFrom(z, i + 2 * h, h) == PassFrom(y, i, h)
    ensures Reached(z, i + 2 * h, h, want)
  {
    hide PassFrom, Pass, Multiple;
    MultipleStep(|y| - i, 2 * h);
  }

  lemma ReachedEnds(y: Vec, i: nat, h: nat, want: Vec)
    requires h > 0 && Reached(y, i, h, want) && |y| < i + 2 * h
    ensures i == |y| ==> y == want
    ensures Multiple(|y|, 2 * h) <==> i == |y|
  {
    hide PassFrom, Pass, Multiple;
    PassEnds(y, h);
    MultipleStep(|y| - i, 2 * h);
  }

  /** The two inner loops; false when the length is not a multiple of the pair size. */
  method PassInPlace(y: array<real>, h: nat) returns (ok: bool)
    requires h > 0
    modifies y
    ensures ok <==> Multiple(y.Length, 2 * h)
    ensures ok ==> y[..] == Pass(old(y[..]), h)
  {
    hide *;
    var i := 0;
    ghost var want := Pass(y[..], h);
    ReachedStart(y[..], h);
    while i < y.Length
      invariant i <= y.Length && Reached(y[..], i, h, want)
    {
      ghost var before := y[..];
      ok := PairInPass(y, i, h);
      if !ok {
        ReachedEnds(before, i, h, want);
        return;
      }
      ReachedNext(before, y[..], i, h, want);
      i := i + 2 * h;
    }
    ReachedEnds(y[..], i, h, want);
    ok := true;
  }

  method PairInPass(y: array<real>, i: nat, h: nat) returns (ok: bool)
    requires h > 0 && i <= y.Length
    modifies y
    ensures ok <==> i + 2 * h <= y.Length
    ensures ok ==> PassFrom(y[..], i + 2 * h, h) == old(PassFrom(y[..], i, h))
  {
    ghost var before := y[..];
    ok := ButterflyPair(y, i, h);
    if ok {
      PassStep(before, y[..], i, h);
    }
  }

  /** What remains to be computed when the pass has reached `i`. */
  ghost function PassFrom(y: Vec, i: nat, h: nat): Vec
    requires h > 0 && i <= |y|
  {
    y[..i] + Pass(y[i..], h)
  }

  lemma PassEnds(y: Vec, h: nat)
    requires h > 0
    ensures PassFrom(y, 0, h) == Pass(y, h) && PassFrom(y, |y|, h) == y
  {
  }

  lemma MultipleStep(n: nat, d: nat)
    requires d > 0
    ensures n >= d ==> (Multiple(n, d) <==> Multiple(n - d, d))
    ensures 0 < n < d ==> !Multiple(n, d)
    ensures Multiple(0, d)
  {
  }

  /** `rotate_activation`: any length that is not a power of two ends in an index or division error. */
  method RotateActivation(x: Vec, s: real) returns (r: Option<Vec>, ghost k: nat)
    ensures r.Some? ==> |x| == Power2(k) && r.value == Rotation(x, k, s)
    ensures r.None? ==> forall m: nat :: |x| != Power2(m)
  {
    var y := new real[|x|](i requires 0 <= i < |x| => x[i]);
    assert y[..] == x;
    k := 0;
    var h := 1;
    BlockedOne(x);
    EveryMultipleOfOne(|x|);
    while h < y.Length
      invariant h == Power2(k) && Multiple(y.Length, h) && y.Length == |x|
      invariant Blocked(y[..], x, k)
      decreases y.Length - h
    {
      forall m: nat | |x| == Power2(m) ensures Multiple(|x|, 2 * h) {
        PowersDivide(m, k);
      }
      ghost var before := y[..];
      var ok := PassInPlace(y, h);
      if !ok {
        return None, k;
      }
      PassDoublesBlocks(before, x, k);
      h, k := 2 * h, k + 1;
    }
    if y.Length == 0 {
      return None, k;
    }
    OneBlock(y[..], x, k);
    r := Some(Scale(y[..], s));
  }

  lemma OneBlock(y: Vec, x: Vec, k: nat)
    requires Blocked(y, x, k) && x != [] && Multiple(|x|, Power2(k)) && Power2(k) >= |x|
    ensures |x| == Power2(k) && y == Transform(x, k)
  {
    assert y[..|x|] == y && x[..|x|] == x;
  }

  lemma {:induction false} EveryMultipleOfOne(n: nat)
    ensures Multiple(n, 1)
  {
    if n > 0 {
      EveryMultipleOfOne(n - 1);
    }
  }
}
