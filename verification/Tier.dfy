/** The hot-store swap policy: which pinned slot gives way to which expert, and what repeating the choice at a
    fixed heat leads to. */
module Tier {
  import opened Collections
  import opened Octets
  import opened Wrappers

  datatype Swap = Swap(slot: nat, eid: nat, gain: int)

  // ---- what a pick is -----------------------------------------------------------------------------------

  /** The slot of the first pinned expert of least score. */
  ghost predicate IsColdest(score: seq<nat>, pinned: seq<nat>, cold: nat) {
    && (forall z :: 0 <= z < |pinned| ==> pinned[z] < |score|) && cold < |pinned|
    && (forall z :: 0 <= z < |pinned| ==> score[pinned[cold]] <= score[pinned[z]])
    && (forall z :: 0 <= z < cold ==> score[pinned[cold]] < score[pinned[z]])
  }

  /** The first expert of largest score among those below `n` that are not pinned. */
  ghost predicate IsHottest(score: seq<nat>, pinned: seq<nat>, n: nat, hot: nat) {
    && hot < n <= |score| && hot !in pinned
    && (forall e: nat :: e < n && e !in pinned ==> score[e] <= score[hot])
    && (forall e: nat :: e < hot && e !in pinned ==> score[e] < score[hot])
  }

  /** `r` is the swap of the hottest outsider for the coldest slot when it clears `bar`, and `None` when none does. */
  ghost predicate IsPick(score: seq<nat>, pinned: seq<nat>, bar: nat -> nat, r: Option<Swap>) {
    match r
    case Some(s) =>
      && IsColdest(score, pinned, s.slot) && IsHottest(score, pinned, |score|, s.eid)
      && score[s.eid] > bar(score[pinned[s.slot]])
    case None =>
      forall cold: nat, e: nat :: IsColdest(score, pinned, cold) && e < |score| && e !in pinned ==>
        score[e] <= bar(score[pinned[cold]])
  }

  /** 25% above plus `extra`. */
  function Margin(extra: nat, c: nat): nat {
    c + c / 4 + extra
  }

  function Bar(extra: nat): nat -> nat {
    (c: nat) => Margin(extra, c)
  }

  /** The same computed in 32-bit arithmetic, as a release build does it. */
  function Bar32(extra: nat): nat -> nat {
    (c: nat) => (c + c / 4 + extra) % 0x1_0000_0000
  }

  /** The bar is five quarters of the slot's score, rounded down, and `extra`; 32 bits keep what is left of it. */
  lemma BarInNumbers(extra: nat, c: nat)
    ensures 4 * (Bar(extra)(c) - extra) <= 5 * c < 4 * (Bar(extra)(c) - extra) + 4
    ensures Bar32(extra)(c) == Bar(extra)(c) % 0x1_0000_0000
  {
  }

  // ---- the picks ------------------------------------------------------------------------------------------

  method ColdestSlot(score: seq<nat>, pinned: seq<nat>) returns (cold: nat)
    requires pinned != [] && forall z :: 0 <= z < |pinned| ==> pinned[z] < |score|
    ensures IsColdest(score, pinned, cold)
  {
    cold := 0;
    var z := 1;
    while z < |pinned|
      invariant 1 <= z <= |pinned| && cold < z
      invariant forall y :: 0 <= y < z ==> score[pinned[cold]] <= score[pinned[y]]
      invariant forall y :: 0 <= y < cold ==> score[pinned[cold]] < score[pinned[y]]
    {
      if score[pinned[z]] < score[pinned[cold]] {
        cold := z;
      }
      z := z + 1;
    }
  }

  /** The scan of `pick_swap`: only an expert with some heat can be hot. */
  method HottestWithHeat(heat: seq<nat>, pinned: seq<nat>) returns (hot: Option<nat>)
    ensures hot.Some? ==> IsHottest(heat, pinned, |heat|, hot.value)
    ensures hot.None? ==> forall e: nat :: e < |heat| && e !in pinned ==> heat[e] == 0
  {
    hot := None;
    var fh := 0;
    var e := 0;
    while e < |heat|
      invariant 0 <= e <= |heat|
      invariant hot.Some? ==> IsHottest(heat, pinned, e, hot.value) && fh == heat[hot.value]
      invariant hot.None? ==> fh == 0 && forall f: nat :: f < e && f !in pinned ==> heat[f] == 0
    {
      if e !in pinned && heat[e] > fh {
        fh, hot := heat[e], Some(e);
      }
      e := e + 1;
    }
  }

  /** The scan of `pick_lfru`: the first outsider is always taken. */
  method HottestOutsider(score: seq<nat>, pinned: seq<nat>) returns (hot: Option<nat>)
    ensures hot.Some? ==> IsHottest(score, pinned, |score|, hot.value)
    ensures hot.None? ==> forall e: nat :: e < |score| ==> e in pinned
  {
    hot := None;
    var e := 0;
    while e < |score|
      invariant 0 <= e <= |score|
      invariant hot.Some? ==> IsHottest(score, pinned, e, hot.value)
      invariant hot.None? ==> forall f: nat :: f < e ==> f in pinned
    {
      if e !in pinned && (hot.None? || score[e] > score[hot.value]) {
        hot := Some(e);
      }
      e := e + 1;
    }
  }

  /** The decision both picks end with. */
  lemma Decision(score: seq<nat>, pinned: seq<nat>, bar: nat -> nat, cold: nat, hot: Option<nat>, gain: int)
    requires IsColdest(score, pinned, cold)
    requires hot.Some? ==> IsHottest(score, pinned, |score|, hot.value)
    requires hot.None? ==> forall e: nat :: e < |score| && e !in pinned ==> score[e] == 0
    ensures IsPick(score, pinned, bar,
              if hot.Some? && score[hot.value] > bar(score[pinned[cold]]) then Some(Swap(cold, hot.value, gain))
                  else None)
  {
  }

  /** The 32-bit bar of the coldest slot wraps, and the hottest outsider is above what is left of it. */
  ghost predicate WrapsPast(heat: seq<u32>, pinned: seq<nat>) {
    exists cold: nat, hot: nat :: Overtakes(heat, pinned, cold, hot)
  }

  ghost predicate Overtakes(heat: seq<u32>, pinned: seq<nat>, cold: nat, hot: nat) {
    && IsColdest(heat, pinned, cold) && IsHottest(heat, pinned, |heat|, hot)
    && var bar := Margin(4, heat[pinned[cold]]);
       bar >= 0x1_0000_0000 && heat[hot] > bar - 0x1_0000_0000
  }

  lemma BarWraps(extra: nat, c: u32)
    requires extra <= 4
    ensures Bar32(extra)(c) == if Margin(extra, c) < 0x1_0000_0000 then Margin(extra, c)
            else Margin(extra, c) - 0x1_0000_0000
  {
  }

  lemma SwapMeetsMarginIff(heat: seq<u32>, pinned: seq<nat>, s: Swap)
    requires IsPick(heat, pinned, Bar32(4), Some(s))
    ensures IsPick(heat, pinned, Bar(4), Some(s)) <==> !WrapsPast(heat, pinned)
  {
    var c := heat[pinned[s.slot]];
    BarWraps(4, c);
    hide Margin, Bar32;
    assert Bar(4)(c) == Margin(4, c);
    if Margin(4, c) >= 0x1_0000_0000 {
      assert Overtakes(heat, pinned, s.slot, s.eid);
    }
  }

  /** Nothing clears the wrapped bar of the coldest slot: nothing clears the bar, and nothing overtakes it. */
  lemma NothingOvertakes(heat: seq<u32>, pinned: seq<nat>, cold: nat)
    requires IsPick(heat, pinned, Bar32(4), None) && IsColdest(heat, pinned, cold)
    ensures cold < |pinned| && pinned[cold] < |heat|
    ensures forall e: nat :: e < |heat| && e !in pinned ==> heat[e] <= Bar(4)(heat[pinned[cold]])
    ensures forall hot: nat :: !Overtakes(heat, pinned, cold, hot)
  {
    BarWraps(4, heat[pinned[cold]]);
    hide Bar32, Margin;
    forall e: nat | e < |heat| && e !in pinned ensures heat[e] <= Bar32(4)(heat[pinned[cold]]) { }
  }

  lemma NoSwapMeetsMargin(heat: seq<u32>, pinned: seq<nat>)
    requires IsPick(heat, pinned, Bar32(4), None)
    ensures IsPick(heat, pinned, Bar(4), None) && !WrapsPast(heat, pinned)
  {
    hide Bar32, Bar, Margin, IsColdest;
    forall cold: nat | IsColdest(heat, pinned, cold)
      ensures cold < |pinned| && pinned[cold] < |heat|
      ensures forall e: nat :: e < |heat| && e !in pinned ==> heat[e] <= Bar(4)(heat[pinned[cold]])
      ensures forall hot: nat :: !Overtakes(heat, pinned, cold, hot)
    {
      NothingOvertakes(heat, pinned, cold);
    }
  }

  /** The pick of the 32-bit bar is the documented one exactly when the bar has not wrapped below the hottest
      outsider. */
  lemma PickMeetsMarginIff(heat: seq<u32>, pinned: seq<nat>, r: Option<Swap>)
    requires IsPick(heat, pinned, Bar32(4), r)
    ensures IsPick(heat, pinned, Bar(4), r) <==> !WrapsPast(heat, pinned)
  {
    hide *;
    match r
    case Some(s) => SwapMeetsMarginIff(heat, pinned, s);
    case None => NoSwapMeetsMargin(heat, pinned);
  }

  method PickSwap(heat: seq<u32>, pinned: seq<nat>) returns (r: Option<Swap>)
    requires heat != [] ==> forall z :: 0 <= z < |pinned| ==> pinned[z] < |heat|
    ensures IsPick(heat, pinned, Bar32(4), r)
    ensures IsPick(heat, pinned, Bar(4), r) <==> !WrapsPast(heat, pinned)
    ensures r.Some? ==> r.value.gain == heat[r.value.eid] as int - heat[pinned[r.value.slot]] as int
  {
    if pinned == [] || |heat| < 1 {
      PickMeetsMarginIff(heat, pinned, None);
      return None;
    }
    var cold := ColdestSlot(heat, pinned);
    var hot := HottestWithHeat(heat, pinned);
    var fc: int := heat[pinned[cold]];
    if hot.None? {
      SwapDecision(heat, pinned, cold, hot, None);
      return None;
    }
    var fh: int := heat[hot.value];
    var bar := (fc + fc / 4 + 4) % 0x1_0000_0000;
    r := if fh <= bar then None else Some(Swap(cold, hot.value, fh - fc));
    SwapDecision(heat, pinned, cold, hot, r);
  }

  lemma SwapDecision(heat: seq<u32>, pinned: seq<nat>, cold: nat, hot: Option<nat>, r: Option<Swap>)
    requires IsColdest(heat, pinned, cold)
    requires hot.Some? ==> IsHottest(heat, pinned, |heat|, hot.value)
    requires hot.None? ==> forall e: nat :: e < |heat| && e !in pinned ==> heat[e] == 0
    requires r == if hot.Some? && heat[hot.value] > Bar32(4)(heat[pinned[cold]])
                  then Some(Swap(cold, hot.value, heat[hot.value] as int - heat[pinned[cold]] as int)) else None
    ensures IsPick(heat, pinned, Bar32(4), r)
    ensures IsPick(heat, pinned, Bar(4), r) <==> !WrapsPast(heat, pinned)
  {
    hide WrapsPast, Bar32, Bar;
    Decision(heat, pinned, Bar32(4), cold, hot, if r.Some? then r.value.gain else 0);
    hide *;
    PickMeetsMarginIff(heat, pinned, r);
  }

  // ---- scores ---------------------------------------------------------------------------------------------

  /** Wrapping difference of two 32-bit clocks. */
  function Age(last: u32, clock: u32): u32 {
    (clock - last) % 0x1_0000_0000
  }

  function Recent(last: u32, clock: u32): nat {
    var age := Age(last, clock);
    if age < 255 then 255 - age else 0
  }

  function LfruScore(heat: u32, last: u32, clock: u32): nat {
    heat * 256 + Recent(last, clock)
  }

  function EvictScore(heat: u32, last: u32, clock: u32): nat {
    (0xFFFF_FFFF - Age(last, clock)) * 0x1_0000 + (if heat < 0xFFFF then heat else 0xFFFF)
  }

  /** A use counts 256, a last one less than 255 ticks ago what is left to 255. */
  lemma LfruInNumbers(h: u32, l: u32, clock: u32)
    ensures var a := (clock - l) % 0x1_0000_0000; LfruScore(h, l, clock) == 256 * h + if a < 255 then 255 - a else 0
  {
  }

  /** Frequency first; recency only breaks ties, and only among ages below 255. The clock may have wrapped. */
  lemma LfruOrder(h0: u32, l0: u32, h1: u32, l1: u32, clock: u32)
    ensures var a0, a1 := (clock - l0) % 0x1_0000_0000, (clock - l1) % 0x1_0000_0000;
            LfruScore(h0, l0, clock) < LfruScore(h1, l1, clock) <==> h0 < h1 || (h0 == h1 && a1 < a0 && a1 < 255)
  {
  }

  /** Recency first; capped frequency only breaks ties. The clock may have wrapped. */
  lemma EvictOrder(h0: u32, l0: u32, h1: u32, l1: u32, clock: u32)
    ensures var a0, a1 := (clock - l0) % 0x1_0000_0000, (clock - l1) % 0x1_0000_0000;
            EvictScore(h0, l0, clock) < EvictScore(h1, l1, clock)
            <==> a0 > a1 || (a0 == a1 && h0 < 0xFFFF && h0 < h1)
  {
  }

  function LfruScores(heat: seq<u32>, last: seq<u32>, clock: u32): (s: seq<nat>)
    requires |last| >= |heat|
    ensures |s| == |heat|
  {
    seq(|heat|, e requires 0 <= e < |heat| => LfruScore(heat[e], last[e], clock))
  }

  method PickLfru(heat: seq<u32>, last: seq<u32>, clock: u32, pinned: seq<nat>) returns (r: Option<Swap>)
    requires |last| >= |heat| && heat != [] ==> forall z :: 0 <= z < |pinned| ==> pinned[z] < |heat|
    ensures |last| < |heat| ==> r.None?
    ensures |last| >= |heat| ==> IsPick(LfruScores(heat, last, clock), pinned, Bar(1024), r)
    ensures r.Some? ==> r.value.gain == (LfruScore(heat[r.value.eid], last[r.value.eid], clock) as int
                                       - LfruScore(heat[pinned[r.value.slot]], last[pinned[r.value.slot]], clock)) / 256
  {
    if |last| < |heat| || pinned == [] || |heat| < 1 {
      return None;
    }
    var score := LfruScores(heat, last, clock);
    var cold := ColdestSlot(score, pinned);
    var hot := HottestOutsider(score, pinned);
    var cs: int := score[pinned[cold]];
    Decision(score, pinned, Bar(1024), cold, hot, if hot.Some? then (score[hot.value] as int - cs) / 256 else 0);
    if hot.None? {
      return None;
    }
    var hs: int := score[hot.value];
    if hs <= cs + cs / 4 + 1024 {
      return None;
    }
    r := Some(Swap(cold, hot.value, (hs - cs) / 256));
  }

  // ---- repeating a pick at a fixed heat ---------------------------------------------------------------------

  ghost predicate Pinnable(score: seq<nat>, pinned: seq<nat>) {
    Distinct(pinned) && forall z :: 0 <= z < |pinned| ==> pinned[z] < |score|
  }

  function Swapped(pinned: seq<nat>, s: Swap): seq<nat>
    requires s.slot < |pinned|
  {
    pinned[s.slot := s.eid]
  }

  /** `swaps` are successive picks, each applied before the next, leading from `pinned` to `end`. */
  ghost predicate Run(score: seq<nat>, bar: nat -> nat, pinned: seq<nat>, swaps: seq<Swap>, end: seq<nat>)
    decreases |swaps|
  {
    if swaps == [] then pinned == end
    else IsPick(score, pinned, bar, Some(swaps[0])) && Run(score, bar, Swapped(pinned, swaps[0]), swaps[1..], end)
  }

  /** A candidate must beat the coldest slot strictly. */
  ghost predicate Lifts(bar: nat -> nat, score: seq<nat>) {
    forall e :: 0 <= e < |score| ==> bar(score[e]) >= score[e]
  }

  ghost predicate AllAtLeast(score: seq<nat>, pinned: seq<nat>, m: nat) {
    forall z :: 0 <= z < |pinned| ==> pinned[z] < |score| && score[pinned[z]] >= m
  }

  /** Every expert brought in, from `pinned` on, has a score above what every pinned expert already has. */
  lemma {:induction false} BroughtInAbove(score: seq<nat>, bar: nat -> nat, pinned: seq<nat>, swaps: seq<Swap>,
                                          end: seq<nat>, m: nat, j: nat)
    requires Run(score, bar, pinned, swaps, end) && Lifts(bar, score) && AllAtLeast(score, pinned, m) && j < |swaps|
    ensures swaps[j].eid < |score| && score[swaps[j].eid] > m
    decreases |swaps|
  {
    if j > 0 {
      var s := swaps[0];
      assert score[s.eid] > bar(score[pinned[s.slot]]) >= m;
      BroughtInAbove(score, bar, Swapped(pinned, s), swaps[1..], end, m, j - 1);
    } else {
      assert score[swaps[0].eid] > bar(score[pinned[swaps[0].slot]]) >= m;
    }
  }

  /** An expert pinned at some point is never brought in after that: it is either still there or was the
      coldest when it went. */
  lemma {:induction false} NeverBroughtBack(score: seq<nat>, bar: nat -> nat, pinned: seq<nat>, swaps: seq<Swap>,
                                          end: seq<nat>, z: nat, j: nat)
    requires Run(score, bar, pinned, swaps, end) && Lifts(bar, score) && z < |pinned| && j < |swaps|
    ensures swaps[j].eid != pinned[z]
    decreases |swaps|
  {
    var s := swaps[0];
    if j > 0 {
      if z == s.slot {
        var m := score[pinned[z]];
        assert AllAtLeast(score, Swapped(pinned, s), m);
        BroughtInAbove(score, bar, Swapped(pinned, s), swaps[1..], end, m, j - 1);
      } else {
        NeverBroughtBack(score, bar, Swapped(pinned, s), swaps[1..], end, z, j - 1);
      }
    }
  }

  lemma SwapKeepsPinnable(score: seq<nat>, bar: nat -> nat, pinned: seq<nat>, s: Swap)
    requires Pinnable(score, pinned) && IsPick(score, pinned, bar, Some(s))
    ensures Pinnable(score, Swapped(pinned, s)) && |Swapped(pinned, s)| == |pinned|
  {
  }

  lemma {:induction false} RunKeepsPinnable(score: seq<nat>, bar: nat -> nat, pinned: seq<nat>, swaps: seq<Swap>,
                                            end: seq<nat>)
    requires Run(score, bar, pinned, swaps, end) && Pinnable(score, pinned)
    ensures Pinnable(score, end) && |end| == |pinned|
    decreases |swaps|
  {
    if swaps != [] {
      SwapKeepsPinnable(score, bar, pinned, swaps[0]);
      RunKeepsPinnable(score, bar, Swapped(pinned, swaps[0]), swaps[1..], end);
    }
  }

  function BroughtIn(swaps: seq<Swap>): set<nat> {
    set s | s in swaps :: s.eid
  }

  /** Everything pinned at any time of a run: all of it distinct, all of it experts. */
  lemma {:induction false} AllPinnedDistinct(score: seq<nat>, bar: nat -> nat, pinned: seq<nat>, swaps: seq<Swap>,
                                             end: seq<nat>)
    requires Run(score, bar, pinned, swaps, end) && Lifts(bar, score) && Pinnable(score, pinned)
    ensures |BroughtIn(swaps)| == |swaps| && BroughtIn(swaps) !! Elems(pinned)
    ensures forall e :: e in BroughtIn(swaps) ==> e < |score|
    decreases |swaps|
  {
    forall j | 0 <= j < |swaps| ensures swaps[j].eid !in pinned {
      forall z | 0 <= z < |pinned| ensures swaps[j].eid != pinned[z] {
        NeverBroughtBack(score, bar, pinned, swaps, end, z, j);
      }
    }
    if swaps != [] {
      var s, rest := swaps[0], swaps[1..];
      SwapKeepsPinnable(score, bar, pinned, s);
      AllPinnedDistinct(score, bar, Swapped(pinned, s), rest, end);
      BroughtInCons(swaps);
      assert Swapped(pinned, s)[s.slot] == s.eid;
      assert s.eid in Elems(Swapped(pinned, s));
    }
  }

  lemma BroughtInCons(swaps: seq<Swap>)
    requires swaps != []
    ensures BroughtIn(swaps) == {swaps[0].eid} + BroughtIn(swaps[1..])
  {
  }

  lemma {:induction false} BroughtInOnce(score: seq<nat>, bar: nat -> nat, pinned: seq<nat>, swaps: seq<Swap>,
                                          end: seq<nat>, i: nat, j: nat)
    requires Run(score, bar, pinned, swaps, end) && Lifts(bar, score) && i < j < |swaps|
    ensures swaps[i].eid != swaps[j].eid
    decreases |swaps|
  {
    var s := swaps[0];
    if i == 0 {
      NeverBroughtBack(score, bar, Swapped(pinned, s), swaps[1..], end, s.slot, j - 1);
    } else {
      BroughtInOnce(score, bar, Swapped(pinned, s), swaps[1..], end, i - 1, j - 1);
    }
  }

  /** Repeating a pick at fixed heat keeps the slots distinct, never brings in an expert that was pinned before, and
      ends after at most as many swaps as there are experts outside the hot store. */
  lemma RepeatedPicks(score: seq<nat>, bar: nat -> nat, pinned: seq<nat>, swaps: seq<Swap>, end: seq<nat>)
    requires Run(score, bar, pinned, swaps, end) && Lifts(bar, score) && Pinnable(score, pinned)
    ensures Pinnable(score, end) && |end| == |pinned|
    ensures forall j, z :: 0 <= j < |swaps| && 0 <= z < |pinned| ==> swaps[j].eid != pinned[z]
    ensures forall i, j :: 0 <= i < j < |swaps| ==> swaps[i].eid != swaps[j].eid
    ensures |swaps| <= |score| - |pinned|
  {
    forall i, j | 0 <= i < j < |swaps| ensures swaps[i].eid != swaps[j].eid {
      BroughtInOnce(score, bar, pinned, swaps, end, i, j);
    }
    RunKeepsPinnable(score, bar, pinned, swaps, end);
    forall j, z | 0 <= j < |swaps| && 0 <= z < |pinned| ensures swaps[j].eid != pinned[z] {
      NeverBroughtBack(score, bar, pinned, swaps, end, z, j);
    }
    AllPinnedDistinct(score, bar, pinned, swaps, end);
    DistinctSize(pinned);
    SubsetSize(Elems(pinned) + BroughtIn(swaps), Below(|score|));
  }

  /** The 32-bit bar of `pick_swap` is at least the heat it is computed from exactly when it does not wrap. */
  lemma LiftsIffNoWrap(heat: seq<u32>)
    ensures Lifts(Bar32(4), heat) <==> forall e :: 0 <= e < |heat| ==> heat[e] as int + heat[e] / 4 + 4 < 0x1_0000_0000
    ensures Lifts(Bar32(4), heat) ==> forall e :: 0 <= e < |heat| ==> Bar32(4)(heat[e]) == Bar(4)(heat[e])
  {
  }

  /** The score of `pick_lfru` is computed in 64 bits, where the bar cannot wrap. */
  lemma LfruLifts(heat: seq<u32>, last: seq<u32>, clock: u32)
    requires |last| >= |heat|
    ensures Lifts(Bar(1024), LfruScores(heat, last, clock))
    ensures forall e :: 0 <= e < |heat| ==> Bar(1024)(LfruScores(heat, last, clock)[e]) < 0x1_0000_0000_0000_0000
  {
  }

  /** When the bar wraps, two equally hot experts change places for ever. */
  lemma WrappedBarPingPongs()
    ensures var heat: seq<nat> := [0xFFFF_FFF0, 0xFFFF_FFF0];
            && IsPick(heat, [0], Bar32(4), Some(Swap(0, 1, 0))) && Swapped([0], Swap(0, 1, 0)) == [1]
            && IsPick(heat, [1], Bar32(4), Some(Swap(0, 0, 0))) && Swapped([1], Swap(0, 0, 0)) == [0]
  {
  }

  // ---- what a settled hot store holds ---------------------------------------------------------------------

  /** Once nothing is picked, every outsider is within the margin of every pinned expert. */
  lemma SettledWithinMargin(score: seq<nat>, extra: nat, pinned: seq<nat>, e: nat, z: nat)
    requires Pinnable(score, pinned) && IsPick(score, pinned, Bar(extra), None)
    requires e < |score| && e !in pinned && z < |pinned|
    ensures score[e] <= Bar(extra)(score[pinned[z]])
  {
    var cold := LeastSlot(score, pinned);
    assert score[e] <= Bar(extra)(score[pinned[cold]]);
  }

  lemma LeastSlot(score: seq<nat>, pinned: seq<nat>) returns (cold: nat)
    requires pinned != [] && forall z :: 0 <= z < |pinned| ==> pinned[z] < |score|
    ensures IsColdest(score, pinned, cold)
  {
    if |pinned| == 1 {
      cold := 0;
    } else {
      var last := |pinned| - 1;
      cold := LeastSlot(score, pinned[..last]);
      if score[pinned[last]] < score[pinned[cold]] {
        cold := last;
      }
    }
  }

  /** The sum of `f` over the members of `s` below `n`. */
  function SumIn(f: seq<nat>, s: set<nat>, n: nat): nat
    requires n <= |f|
  {
    if n == 0 then 0 else SumIn(f, s, n - 1) + (if n - 1 in s then f[n - 1] else 0)
  }

  /** Nothing adds up to nought, and one more member adds its own. */
  lemma {:induction false} SumInAdds(f: seq<nat>, s: set<nat>, n: nat, e: nat)
    requires n <= |f| && e !in s
    ensures SumIn(f, {}, n) == 0
    ensures SumIn(f, s + {e}, n) == SumIn(f, s, n) + if e < n then f[e] else 0
  {
    if n > 0 {
      SumInAdds(f, s, n - 1, e);
    }
  }

  function Tally(b: nat, s: set<nat>, n: nat): nat {
    if n == 0 then 0 else Tally(b, s, n - 1) + (if n - 1 in s then b else 0)
  }

  lemma BelowNext(s: set<nat>, n: nat)
    requires n > 0
    ensures s * Below(n) == s * Below(n - 1) + (if n - 1 in s then {n - 1} else {})
    ensures n - 1 !in s * Below(n - 1)
  {
  }

  lemma CountBelow(s: set<nat>, n: nat)
    requires n > 0
    ensures |s * Below(n)| == |s * Below(n - 1)| + (if n - 1 in s then 1 else 0)
  {
    BelowNext(s, n);
  }

  function Product(k: nat, b: nat): nat {
    k * b
  }

  lemma ProductNext(k: nat, b: nat)
    ensures Product(0, b) == 0 && Product(k + 1, b) == Product(k, b) + b
  {
  }

  lemma {:induction false} TallyIsCount(b: nat, s: set<nat>, n: nat)
    ensures Tally(b, s, n) == Product(|s * Below(n)|, b)
  {
    hide Product, Below;
    if n > 0 {
      CountBelow(s, n);
      TallyIsCount(b, s, n - 1);
      ProductNext(|s * Below(n - 1)|, b);
    } else {
      assert s * Below(0) == {};
      ProductNext(0, b);
    }
  }

  lemma {:induction false} ExchangeSums(score: seq<nat>, bars: seq<nat>, p: set<nat>, t: set<nat>, b: nat, n: nat)
    requires |bars| == |score| && n <= |score|
    requires forall e: nat :: e < n && e in t && e in p ==> score[e] <= bars[e]
    requires forall e: nat :: e < n && e in t && e !in p ==> score[e] <= b
    requires forall e: nat :: e < n && e in p && e !in t ==> b <= bars[e]
    ensures SumIn(score, t, n) + Tally(b, p - t, n) <= SumIn(bars, p, n) + Tally(b, t - p, n)
  {
    if n > 0 {
      ExchangeSums(score, bars, p, t, b, n - 1);
    }
  }

  function Bars(score: seq<nat>, extra: nat): seq<nat> {
    seq(|score|, e requires 0 <= e < |score| => Margin(extra, score[e]))
  }

  lemma {:induction false} BarsSum(score: seq<nat>, extra: nat, s: set<nat>, n: nat)
    requires n <= |score|
    ensures 4 * SumIn(Bars(score, extra), s, n) <= 5 * SumIn(score, s, n) + 4 * Tally(extra, s, n)
  {
    if n > 0 {
      BarsSum(score, extra, s, n - 1);
      assert Bars(score, extra)[n - 1] == Margin(extra, score[n - 1]);
    }
  }

  lemma SameSizeDifference(p: set<nat>, t: set<nat>)
    requires |p| == |t|
    ensures |p - t| == |t - p|
  {
  }

  lemma TallyAll(b: nat, s: set<nat>, n: nat)
    requires forall e :: e in s ==> e < n
    ensures Tally(b, s, n) == Product(|s|, b)
  {
    TallyIsCount(b, s, n);
    assert s * Below(n) == s;
  }

  /** A settled hot store is near the best there is: no other choice of as many experts has more than five
      quarters of its heat plus the fixed margin per slot. */
  lemma SettledIsNearBest(score: seq<nat>, extra: nat, pinned: seq<nat>, t: set<nat>)
    requires Pinnable(score, pinned) && IsPick(score, pinned, Bar(extra), None) && pinned != []
    requires |t| == |pinned| && forall e :: e in t ==> e < |score|
    ensures 4 * SumIn(score, t, |score|) <= 5 * SumIn(score, Elems(pinned), |score|) + 4 * Product(|pinned|, extra)
  {
    var n, p := |score|, Elems(pinned);
    DistinctSize(pinned);
    SameSizeDifference(p, t);
    SettledExchange(score, extra, pinned, t);
    hide SumIn, Product, Tally, IsPick, Pinnable;
    TallyAll(extra, p, n);
    BarsSum(score, extra, p, n);
  }

  lemma SettledExchange(score: seq<nat>, extra: nat, pinned: seq<nat>, t: set<nat>)
    requires Pinnable(score, pinned) && IsPick(score, pinned, Bar(extra), None) && pinned != []
    requires (forall e :: e in t ==> e < |score|) && |Elems(pinned) - t| == |t - Elems(pinned)|
    ensures forall e :: e in Elems(pinned) ==> e < |score|
    ensures SumIn(score, t, |score|) <= SumIn(Bars(score, extra), Elems(pinned), |score|)
  {
    var n, p := |score|, Elems(pinned);
    var cold := LeastSlot(score, pinned);
    var b := Margin(extra, score[pinned[cold]]);
    MarginsAbove(score, extra, pinned, cold);
    forall e: nat | e < n && e !in p ensures score[e] <= b {
      assert e !in pinned && score[e] <= Bar(extra)(score[pinned[cold]]);
    }
    hide IsPick, Pinnable, Margin;
    ExchangeSums(score, Bars(score, extra), p, t, b, n);
    TallyAll(b, p - t, n);
    TallyAll(b, t - p, n);
  }

  lemma MarginsAbove(score: seq<nat>, extra: nat, pinned: seq<nat>, cold: nat)
    requires IsColdest(score, pinned, cold)
    ensures forall e :: e in pinned ==> e < |score| && score[e] <= Margin(extra, score[e])
    ensures forall e :: e in pinned ==> e < |score| && Margin(extra, score[pinned[cold]]) <= Margin(extra, score[e])
  {
  }
}
