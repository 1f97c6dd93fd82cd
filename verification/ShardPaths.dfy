/** The names of the packed files: the loader opens a directory in the order of its sorted paths, and the names sort
    as the files were packed. */
module ShardPaths {
  import opened HeaderReader
  import opened Octets
  import opened ShardSelect
  import opened ShardStream

  // ---- texts ------------------------------------------------------------------------------------------------------

  /** A text of single-byte characters as bytes. */
  ghost function Bytes(s: string): (b: Octets)
    requires forall i :: 0 <= i < |s| ==> s[i] as nat < 256
    ensures |b| == |s| && forall i :: 0 <= i < |s| ==> b[i] == s[i] as nat
  {
    seq(|s|, i requires 0 <= i < |s| => s[i] as nat)
  }

  /** The mark that the selection looks for and the keys that the loader looks up, as text. */
  lemma TextsSpelled()
    ensures MARK == Bytes(".mlp.experts.") && METADATA == Bytes("__metadata__")
    ensures DTYPE == Bytes("dtype") && SHAPE == Bytes("shape") && DATA_OFFSETS == Bytes("data_offsets")
  {
  }

  lemma DigitsSpelled(c: octet)
    ensures IsDigit(c) <==> '0' <= c as char <= '9'
    ensures c == PLUS <==> c as char == '+'
    ensures c == DOT <==> c as char == '.'
  {
  }

  lemma AffixesSpelled()
    ensures Bytes("out-") == [111, 117, 116, 45]
    ensures Bytes(".safetensors") == [46, 115, 97, 102, 101, 116, 101, 110, 115, 111, 114, 115]
  {
  }

  // ---- paths ------------------------------------------------------------------------------------------------------

  /** The bytes between `out-` and `.safetensors`. */
  ghost function NumberIn(path: Octets): Octets
    requires |path| >= 16
  {
    path[4..|path| - 12]
  }

  lemma {:induction false} ZerosAreDigits(n: nat)
    ensures AllDigits(Zeros(n)) && ValueOf(Zeros(n)) == 0
  {
    if n > 0 {
      ZerosAreDigits(n - 1);
      assert Zeros(n)[..n - 1] == Zeros(n - 1);
    }
  }

  lemma {:induction false} LeadingZeros(n: nat, d: Octets)
    requires AllDigits(d)
    ensures AllDigits(Zeros(n) + d) && ValueOf(Zeros(n) + d) == ValueOf(d)
  {
    var s := Zeros(n) + d;
    ZerosAreDigits(n);
    if d == [] {
      assert s == Zeros(n);
    } else {
      LeadingZeros(n, d[..|d| - 1]);
      assert s[..|s| - 1] == Zeros(n) + d[..|d| - 1];
    }
  }

  lemma {:induction false} ShortWhenSmall(n: nat, k: nat)
    requires k > 0 && n < Power10(k)
    ensures |Decimal(n)| <= k
    decreases k
  {
    if n >= 10 {
      assert n / 10 < Power10(k - 1);
      ShortWhenSmall(n / 10, k - 1);
    }
  }

  ghost function Power10(k: nat): nat {
    if k == 0 then 1 else 10 * Power10(k - 1)
  }

  /** A path is `out-`, at least five digits that spell its number, and `.safetensors`; five exactly below 100000. */
  lemma PathSpellsNumber(fi: nat)
    ensures |OutPath(fi)| >= 21 && OutPath(fi)[..4] == Bytes("out-")
    ensures OutPath(fi)[|OutPath(fi)| - 12..] == Bytes(".safetensors")
    ensures AllDigits(NumberIn(OutPath(fi))) && ValueOf(NumberIn(OutPath(fi))) == fi
    ensures fi < 100_000 ==> |OutPath(fi)| == 21
  {
    var padded := Padded(fi);
    AffixesSpelled();
    hide Bytes, Decimal, Zeros, Power10, ValueOf, AllDigits;
    assert OutPath(fi) == [111, 117, 116, 45] + padded + [46, 115, 97, 102, 101, 116, 101, 110, 115, 111, 114, 115];
    assert NumberIn(OutPath(fi)) == padded;
  }

  lemma Padded(fi: nat) returns (b: Octets)
    ensures b == Zeros(if |Decimal(fi)| < 5 then 5 - |Decimal(fi)| else 0) + Decimal(fi)
    ensures |b| >= 5 && AllDigits(b) && ValueOf(b) == fi && (fi < 100_000 ==> |b| == 5)
  {
    var d := Decimal(fi);
    var n := if |d| < 5 then 5 - |d| else 0;
    b := Zeros(n) + d;
    DecimalValue(fi);
    LeadingZeros(n, d);
    assert Power10(5) == 100_000;
    if fi < 100_000 {
      ShortWhenSmall(fi, 5);
    }
  }

  /** Byte by byte, `a` comes first. */
  ghost predicate Before(a: Octets, b: Octets) {
    exists k :: 0 <= k < |a| && k < |b| && a[..k] == b[..k] && a[k] < b[k]
  }

  lemma {:induction false} DigitsDetermined(a: Octets, b: Octets)
    requires AllDigits(a) && AllDigits(b) && |a| == |b| && ValueOf(a) == ValueOf(b)
    ensures a == b
  {
    if a != [] {
      var n := |a| - 1;
      DigitsDetermined(a[..n], b[..n]);
      assert a == a[..n] + [a[n]] && b == b[..n] + [b[n]];
    }
  }

  lemma {:induction false} SmallerComesFirst(a: Octets, b: Octets)
    requires AllDigits(a) && AllDigits(b) && |a| == |b| && ValueOf(a) < ValueOf(b)
    ensures Before(a, b)
  {
    var n := |a| - 1;
    var x, y := a[..n], b[..n];
    if ValueOf(x) < ValueOf(y) {
      SmallerComesFirst(x, y);
      var k :| 0 <= k < n && x[..k] == y[..k] && x[k] < y[k];
      assert a[..k] == x[..k] && b[..k] == y[..k];
    } else {
      DigitsDetermined(x, y);
    }
  }

  lemma BeforeInside(p: Octets, a: Octets, b: Octets, q: Octets)
    requires Before(a, b)
    ensures Before(p + a + q, p + b + q)
  {
    var k :| 0 <= k < |a| && k < |b| && a[..k] == b[..k] && a[k] < b[k];
    var s, t := p + a + q, p + b + q;
    assert s[..|p| + k] == p + a[..k] && t[..|p| + k] == p + b[..k];
    assert s[|p| + k] == a[k] && t[|p| + k] == b[k];
  }

  /** Up to 100000 files, sorting by path is sorting by number. */
  lemma PathsSortByNumber(fi: nat, fj: nat)
    requires fi < fj < 100_000
    ensures Before(OutPath(fi), OutPath(fj))
  {
    PathSpellsNumber(fi);
    PathSpellsNumber(fj);
    var s, t := OutPath(fi), OutPath(fj);
    hide OutPath, Before;
    SmallerComesFirst(NumberIn(s), NumberIn(t));
    BeforeInside(Bytes("out-"), NumberIn(s), NumberIn(t), Bytes(".safetensors"));
    InThreeParts(s);
    InThreeParts(t);
  }

  lemma InThreeParts(s: Octets)
    requires |s| >= 16
    ensures s == s[..4] + NumberIn(s) + s[|s| - 12..]
  {
  }

  /** From 100000 on it is not: the longer name of file 100000 sorts before that of file 99999. */
  lemma SixDigitsSortFirst()
    ensures Before(OutPath(100_000), OutPath(99_999))
  {
    assert Decimal(99_999) == [57, 57, 57, 57, 57] by { NinesSpelled(); }
    assert Decimal(100_000) == [49, 48, 48, 48, 48, 48] by { HundredThousandSpelled(); }
    var a, b := OutPath(100_000), OutPath(99_999);
    assert Zeros(0) == [];
    assert a[..4] == b[..4] && a[4] == 49 && b[4] == 57;
  }

  lemma NinesSpelled()
    ensures Decimal(99_999) == [57, 57, 57, 57, 57]
  {
    assert Decimal(9) == [57] && Decimal(99) == [57, 57] && Decimal(999) == [57, 57, 57];
    assert Decimal(9_999) == [57, 57, 57, 57];
  }

  lemma HundredThousandSpelled()
    ensures Decimal(100_000) == [49, 48, 48, 48, 48, 48]
  {
    assert Decimal(1) == [49] && Decimal(10) == [49, 48] && Decimal(100) == [49, 48, 48];
    assert Decimal(1_000) == [49, 48, 48, 48] && Decimal(10_000) == [49, 48, 48, 48, 48];
  }
}
