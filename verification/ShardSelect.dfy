/** Which tensors a rank's shard holds: the expert id read out of a tensor name, and the selection by owner. */
module ShardSelect {
  import opened Octets
  import opened Sharding
  import opened Wrappers

  /** A tensor name as its UTF-8 bytes. */
  type Name = Octets

  /** The bytes of `.mlp.experts.` */
  const MARK: Octets := [46, 109, 108, 112, 46, 101, 120, 112, 101, 114, 116, 115, 46]
  const DOT: octet := 46
  const PLUS: octet := 43
  const ZERO: octet := 48

  // ---- decimal numbers -------------------------------------------------------------------------------------

  predicate IsDigit(c: octet) {
    ZERO <= c < ZERO + 10
  }

  predicate AllDigits(b: Octets) {
    forall i :: 0 <= i < |b| ==> IsDigit(b[i])
  }

  function ValueOf(b: Octets): nat
    requires AllDigits(b)
  {
    if b == [] then 0 else 10 * ValueOf(b[..|b| - 1]) + (b[|b| - 1] - ZERO)
  }

  /** Parsing a `u32`: an optional plus, at least one digit, nothing else, and no overflow. */
  function ParseU32(b: Octets): Option<u32> {
    var digits := if b != [] && b[0] == PLUS then b[1..] else b;
    if digits == [] || !AllDigits(digits) || ValueOf(digits) >= TWO32 then None else Some(ValueOf(digits))
  }

  function Decimal(n: nat): (b: Octets)
    ensures b != [] && AllDigits(b)
  {
    if n < 10 then [ZERO + n] else Decimal(n / 10) + [ZERO + n % 10]
  }

  lemma {:induction false} DecimalValue(n: nat)
    ensures ValueOf(Decimal(n)) == n
  {
    if n >= 10 {
      DecimalValue(n / 10);
      assert Decimal(n)[..|Decimal(n)| - 1] == Decimal(n / 10);
    }
  }

  lemma DecimalParses(e: u32)
    ensures ParseU32(Decimal(e)) == Some(e)
  {
    DecimalValue(e);
    assert IsDigit(Decimal(e)[0]);
  }

  /** What parses is at least one digit, with or without a plus in front, of a value that fits 32 bits. */
  lemma ParsesIff(b: Octets, e: u32)
    ensures ParseU32(b) == Some(e)
       <==> (b != [] && AllDigits(b) && ValueOf(b) == e)
            || (|b| > 1 && b[0] == PLUS && AllDigits(b[1..]) && ValueOf(b[1..]) == e)
  {
    if b != [] && AllDigits(b) {
      assert IsDigit(b[0]);
    }
  }

  // ---- the id in a name --------------------------------------------------------------------------------------

  predicate OccursAt(hay: Octets, needle: Octets, i: nat) {
    i + |needle| <= |hay| && hay[i..i + |needle|] == needle
  }

  /** The first occurrence of `needle` at or after `i`. */
  function Find(hay: Octets, needle: Octets, i: nat): (r: Option<nat>)
    ensures r.Some? ==> i <= r.value && OccursAt(hay, needle, r.value)
    ensures forall j :: i <= j && OccursAt(hay, needle, j) ==> r.Some? && r.value <= j
    decreases |hay| - i
  {
    if i >= |hay| then if OccursAt(hay, needle, i) then Some(i) else None
    else if OccursAt(hay, needle, i) then Some(i)
    else Find(hay, needle, i + 1)
  }

  /** The bytes before the first dot. */
  function UpToDot(b: Octets): Octets {
    if b == [] || b[0] == DOT then [] else [b[0]] + UpToDot(b[1..])
  }

  function ExpertIdOf(name: Name): Option<u32> {
    match Find(name, MARK, 0)
    case None => None
    case Some(i) => ParseU32(UpToDot(name[i + |MARK|..]))
  }

  lemma {:induction false} UpToDotOfDigits(digits: Octets, rest: Octets)
    requires AllDigits(digits) && (rest == [] || rest[0] == DOT)
    ensures UpToDot(digits + rest) == digits
  {
    if digits == [] {
      assert digits + rest == rest;
    } else {
      UpToDotOfDigits(digits[1..], rest);
      assert (digits + rest)[1..] == digits[1..] + rest;
      assert IsDigit(digits[0]);
    }
  }

  lemma IdAfterMark(name: Name, i: nat, e: u32, rest: Octets)
    requires OccursAt(name, MARK, i) && forall k :: 0 <= k < i ==> !OccursAt(name, MARK, k)
    requires name[i + |MARK|..] == Decimal(e) + rest && (rest == [] || rest[0] == DOT)
    ensures ExpertIdOf(name) == Some(e)
  {
    assert Find(name, MARK, 0) == Some(i);
    hide OccursAt, Find;
    UpToDotOfDigits(Decimal(e), rest);
    DecimalParses(e);
  }

  /** A checkpoint's expert tensor name gives back its expert, when the marker does not occur earlier. */
  lemma ExpertNameRoundTrips(prefix: Octets, e: u32, rest: Octets)
    requires rest == [] || rest[0] == DOT
    requires forall i :: 0 <= i < |prefix| ==> !OccursAt((prefix + MARK) + (Decimal(e) + rest), MARK, i)
    ensures ExpertIdOf((prefix + MARK) + (Decimal(e) + rest)) == Some(e)
  {
    var head, tail := prefix + MARK, Decimal(e) + rest;
    assert (head + tail)[|prefix|..|prefix| + |MARK|] == MARK;
    assert (head + tail)[|head|..] == tail;
    IdAfterMark(head + tail, |prefix|, e, rest);
  }

  // ---- the selection -------------------------------------------------------------------------------------------

  /** Whether rank `me` wants a tensor: a resident one always, an expert one when the id is in range and its own. */
  predicate Wants(s: ExpertSharding, me: nat, name: Name)
    requires s.Valid()
  {
    match ExpertIdOf(name)
    case Some(e) => e < s.nExperts && s.Owner(e) == me
    case None => true
  }

  method SelectShardNames(names: seq<Name>, s: ExpertSharding, me: nat) returns (r: seq<Name>)
    requires s.Valid()
    ensures r == Selected(names, s, me)
  {
    r := [];
    for i := 0 to |names|
      invariant r == Selected(names[..i], s, me)
    {
      assert names[..i + 1][..i] == names[..i];
      if Wants(s, me, names[i]) {
        r := r + [names[i]];
      }
    }
    assert names[..|names|] == names;
  }

  function Selected(names: seq<Name>, s: ExpertSharding, me: nat): seq<Name>
    requires s.Valid()
  {
    if names == [] then []
    else
      var last := |names| - 1;
      Selected(names[..last], s, me) + (if Wants(s, me, names[last]) then [names[last]] else [])
  }

  lemma SnocCount(a: seq<Name>, b: Name, x: Name)
    ensures multiset(a + [b])[x] == multiset(a)[x] + if b == x then 1 else 0
  {
  }

  lemma {:induction false} SelectedCount(names: seq<Name>, s: ExpertSharding, me: nat, x: Name)
    requires s.Valid()
    ensures multiset(Selected(names, s, me))[x] == if Wants(s, me, x) then multiset(names)[x] else 0
  {
    hide Wants;
    if names != [] {
      var front, b := names[..|names| - 1], names[|names| - 1];
      SelectedCount(front, s, me, x);
      assert names == front + [b];
      SnocCount(front, b, x);
      SnocCount(Selected(front, s, me), b, x);
    }
  }

  /** Over all ranks: every resident tensor goes to each rank, every expert tensor with an id in range to
      exactly one rank, its owner's, as often as it occurs; an id out of range goes nowhere. */
  lemma RanksPartitionExperts(names: seq<Name>, s: ExpertSharding, me: nat, x: Name)
    requires s.Valid() && me < s.numNodes
    ensures ExpertIdOf(x).None? ==> multiset(Selected(names, s, me))[x] == multiset(names)[x]
    ensures ExpertIdOf(x).Some? && ExpertIdOf(x).value < s.nExperts ==>
              s.Owner(ExpertIdOf(x).value) < s.numNodes
              && multiset(Selected(names, s, me))[x] == if me == s.Owner(ExpertIdOf(x).value) then multiset(names)[x]
                  else 0
    ensures ExpertIdOf(x).Some? && ExpertIdOf(x).value >= s.nExperts ==> x !in Selected(names, s, me)
  {
    SelectedCount(names, s, me, x);
    assert x in Selected(names, s, me) <==> x in multiset(Selected(names, s, me));
    hide ExpertIdOf, Selected;
    if ExpertIdOf(x).Some? && ExpertIdOf(x).value < s.nExperts {
      var e := ExpertIdOf(x).value;
      OwnersInRange(s);
      assert s.Owners()[e] == s.Owner(e);
    }
  }
}
