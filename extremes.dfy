/** allocate_with_extremes as a whole: the specification function AllocSpec
    composes the five stages (seed, scale-down, mid DP, hard split, repair),
    the lemmas state what the composition guarantees, and the method
    AllocateWithExtremes performs the stages on an array in place. */
module Extremes {
  import opened SeqMath
  import opened Allocator
  import Knapsack

  // ---------------------------------------------------------------------
  // The stages

  /** alloc after line "alloc[idx_easy] = n_low": zeros, with n_low on the
      easy keys when easy_min_cover is set and there is an easy key. */
  function Seeded(p: seq<real>, nLow: int, cover: bool): (s: seq<int>)
    ensures |s| == |p|
  {
    var zeros := seq(|p|, _ => 0);
    if cover && CountOf(p, Easy) > 0 then MaskedAssign(zeros, p, Easy, seq(CountOf(p, Easy), _ => nLow))
    else zeros
  }

  /** np.floor(alloc * (total_budget / max(1, alloc.sum()))) with exact
      rationals: the floor of s[i] * total / max(1, sum) is an integer
      division. */
  function ScaleDown(s: seq<int>, total: int): (r: seq<int>)
    ensures |r| == |s|
  {
    seq(|s|, i requires 0 <= i < |s| => FloorDiv(s[i] * total, Max(1, Sum(s))))
  }

  /** alloc_mid: the DP on the mid keys' probabilities with budget_mid =
      total - sum(alloc); empty when there is no mid key. */
  function MidCounts(p: seq<real>, s: seq<int>, total: int, nLow: int, nUp: int): (x: seq<int>)
    requires |s| == |p| && nLow <= nUp && total - Sum(s) >= 0
    ensures |x| == CountOf(p, Mid)
  {
    var pm := Gather(p, p, Mid);
    if |pm| > 0 then Knapsack.KnapsackAlloc(Knapsack.ValueTables(pm, nLow, nUp), total - Sum(s), nLow, nUp)
    else []
  }

  /** alloc[idx_mid] = alloc_mid, only when there is a mid key. */
  function AfterMid(p: seq<real>, s: seq<int>, x: seq<int>): (r: seq<int>)
    requires |s| == |p| && |x| == CountOf(p, Mid)
    ensures |r| == |s|
  {
    if CountOf(p, Mid) > 0 then MaskedAssign(s, p, Mid, x) else s
  }

  /** np.clip(alloc[idx_hard] + give, n_low, n_up) for the even split give. */
  function HardValues(g: seq<int>, remain: int, nLow: int, nUp: int): (r: seq<int>)
    requires |g| > 0
    ensures |r| == |g|
  {
    seq(|g|, t requires 0 <= t < |g| => Clip(g[t] + Share(remain, |g|, t), nLow, nUp))
  }

  /** The hard split: only when budget remains and there is a hard key. */
  function AfterHard(p: seq<real>, s: seq<int>, total: int, nLow: int, nUp: int): (r: seq<int>)
    requires |s| == |p|
    ensures |r| == |s|
  {
    var remain := total - Sum(s);
    var h := CountOf(p, Hard);
    if remain > 0 && h > 0 then MaskedAssign(s, p, Hard, HardValues(Gather(s, p, Hard), remain, nLow, nUp))
    else s
  }

  /** The stages after the DP: write its counts x into the mid keys, split
      what remains over the hard keys, repair the sum. */
  function Finish(p: seq<real>, s0: seq<int>, x: seq<int>, total: int, nLow: int, nUp: int): (r: seq<int>)
    requires |s0| == |p| && |x| == CountOf(p, Mid)
    ensures |r| == |p|
  {
    Repaired(AfterHard(p, AfterMid(p, s0, x), total, nLow, nUp), total, nLow, nUp)
  }

  /** What allocate_with_extremes returns. */
  function AllocSpec(p: seq<real>, total: int, nLow: int, nUp: int, cover: bool): (r: seq<int>)
    requires nLow <= nUp
    ensures |r| == |p|
  {
    var s0 := Seeded(p, nLow, cover);
    if total - Sum(s0) < 0 then ScaleDown(s0, total)
    else Finish(p, s0, MidCounts(p, s0, total, nLow, nUp), total, nLow, nUp)
  }

  // ---------------------------------------------------------------------
  // Integer division facts

  lemma DivAtLeast(x: int, h: int, q: int)
    requires h > 0 && x >= h * q
    ensures FloorDiv(x, h) >= q
  {
    FloorDivBracket(x, h);
    var d := FloorDiv(x, h);
    assert h * (q - 1) == h * q - h;
    if d < q {
      MulAtMost(h, d, q - 1);
    }
  }

  lemma DivAtMost(x: int, h: int, q: int)
    requires h > 0 && x <= h * q
    ensures FloorDiv(x, h) <= q
    ensures FloorDiv(x, h) == q ==> FloorMod(x, h) == 0
  {
    FloorDivMod(x, h);
    FloorDivBracket(x, h);
    var d := FloorDiv(x, h);
    assert h * (q + 1) == h * q + h;
    if d > q {
      MulAtMost(h, q + 1, d);
    }
  }

  /** (a * t) // (e * a) == t // e for positive a and e. */
  lemma DivCancel(a: int, t: int, e: int)
    requires a > 0 && e > 0
    ensures FloorDiv(a * t, e * a) == FloorDiv(t, e)
  {
    FloorDivMod(t, e);
    var q, r := FloorDiv(t, e), FloorMod(t, e);
    assert a * t == (e * a) * q + a * r;
    MulAtMost(a, r, e - 1);
    assert a * (e - 1) == e * a - a;
    MulAtMost(a, 0, r);
    FloorDivBracket(a * t, e * a);
    DivUniqueFloor(a * t, e * a, q);
  }

  /** A floor(s * total / S) share of a non-negative entry under total < S
      lies in [0, s]. */
  lemma ScaledEntry(x: int, total: int, S: int)
    requires 0 <= x && 0 <= total < S
    ensures 0 <= FloorDiv(x * total, S) <= x
  {
    MulAtMost(x, total, S);
    assert x * total <= S * x;
    DivAtMost(x * total, S, x);
    MulAtMost(x, 0, total);
    DivAtLeast(x * total, S, 0);
  }

  // ---------------------------------------------------------------------
  // What each stage does

  /** The seed: n_low exactly on the easy keys when covering, 0 elsewhere. */
  lemma SeededAt(p: seq<real>, nLow: int, cover: bool, i: nat)
    requires i < |p|
    ensures Seeded(p, nLow, cover)[i] == (if cover && Classify(p[i]) == Easy then nLow else 0)
  {
    var e := CountOf(p, Easy);
    if Classify(p[i]) == Easy {
      GatherAt(p, p, Easy, i);
    }
    if cover && e > 0 {
      MaskedAt(seq(|p|, _ => 0), p, Easy, seq(e, _ => nLow), i);
    }
  }

  lemma SeededFacts(p: seq<real>, nLow: int, cover: bool)
    requires 0 <= nLow
    ensures var s := Seeded(p, nLow, cover);
      && Sum(s) == (if cover then CountOf(p, Easy) * nLow else 0)
      && AllWithin(s, 0, nLow)
      && (forall i :: 0 <= i < |p| && Classify(p[i]) != Easy ==> s[i] == 0)
      && (forall i :: 0 <= i < |p| && Classify(p[i]) == Easy && cover ==> s[i] == nLow)
  {
    var s := Seeded(p, nLow, cover);
    forall i | 0 <= i < |p|
      ensures s[i] == (if Classify(p[i]) == Easy then (if cover then nLow else 0) else 0)
    {
      SeededAt(p, nLow, cover, i);
    }
    SumIndicator(s, p, Easy, if cover then nLow else 0);
  }

  /** The scale-down stage: entries of a non-negative over-budget seed shrink
      to the floor of their proportional share. */
  lemma ScaleDownFacts(s: seq<int>, total: int)
    requires forall i :: 0 <= i < |s| ==> 0 <= s[i]
    requires 0 <= total < Sum(s)
    ensures forall i :: 0 <= i < |s| ==> 0 <= ScaleDown(s, total)[i] <= s[i]
  {
    var S := Sum(s);
    assert Max(1, S) == S;
    forall i | 0 <= i < |s| ensures 0 <= ScaleDown(s, total)[i] <= s[i] {
      var x := s[i];
      assert ScaleDown(s, total)[i] == FloorDiv(x * total, S);
      ScaledEntry(x, total, S);
    }
  }

  /** A masked write of values in [lo, hi] over entries in [lo, hi]. */
  lemma MaskedWithin(s: seq<int>, p: seq<real>, c: Region, vals: seq<int>, lo: int, hi: int)
    requires |s| == |p| && |vals| == CountOf(p, c)
    requires AllWithin(s, lo, hi) && AllWithin(vals, lo, hi)
    ensures AllWithin(MaskedAssign(s, p, c, vals), lo, hi)
  {
    forall i | 0 <= i < |p| ensures lo <= MaskedAssign(s, p, c, vals)[i] <= hi {
      MaskedAt(s, p, c, vals, i);
    }
  }

  /** Writing over a region that holds only zeros adds the values' sum. */
  lemma MaskedOverZeros(s: seq<int>, p: seq<real>, c: Region, vals: seq<int>)
    requires |s| == |p| && |vals| == CountOf(p, c)
    requires forall i :: 0 <= i < |p| && Classify(p[i]) == c ==> s[i] == 0
    ensures Sum(MaskedAssign(s, p, c, vals)) == Sum(s) + Sum(vals)
  {
    MaskedSum(s, p, c, vals);
    GatherConst(s, p, c, 0);
    SumConst(CountOf(p, c), 0);
  }

  /** A masked write of values in [lo, hi] puts the region's entries in
      [lo, hi] and leaves every other entry alone. */
  lemma MaskedRegion(s: seq<int>, p: seq<real>, c: Region, vals: seq<int>, lo: int, hi: int)
    requires |s| == |p| && |vals| == CountOf(p, c) && AllWithin(vals, lo, hi)
    ensures forall i :: 0 <= i < |p| && Classify(p[i]) == c ==> lo <= MaskedAssign(s, p, c, vals)[i] <= hi
    ensures forall i :: 0 <= i < |p| && Classify(p[i]) != c ==> MaskedAssign(s, p, c, vals)[i] == s[i]
  {
    forall i | 0 <= i < |p|
      ensures Classify(p[i]) == c ==> lo <= MaskedAssign(s, p, c, vals)[i] <= hi
      ensures Classify(p[i]) != c ==> MaskedAssign(s, p, c, vals)[i] == s[i]
    {
      MaskedAt(s, p, c, vals, i);
    }
  }

  /** The mid write keeps entries within bounds that hold the seed and the
      counts. */
  lemma AfterMidWithin(p: seq<real>, s: seq<int>, x: seq<int>, lo: int, hi: int)
    requires |s| == |p| && |x| == CountOf(p, Mid)
    requires AllWithin(s, lo, hi) && AllWithin(x, lo, hi)
    ensures AllWithin(AfterMid(p, s, x), lo, hi)
  {
    if CountOf(p, Mid) > 0 {
      MaskedWithin(s, p, Mid, x, lo, hi);
    }
  }

  /** What the DP spends on the mid keys with budget rest = total - sum(s):
      never more than rest, with entries in [0, n_up]. */
  lemma MidSpend(p: seq<real>, s: seq<int>, total: int, nLow: int, nUp: int)
    requires |s| == |p| && 1 <= nLow <= nUp && total - Sum(s) >= 0
    ensures var x := MidCounts(p, s, total, nLow, nUp);
      AllWithin(x, 0, nUp) && Sum(x) <= total - Sum(s)
  {
    var pm := Gather(p, p, Mid);
    if |pm| > 0 {
      var vt := Knapsack.ValueTables(pm, nLow, nUp);
      Knapsack.KnapsackSumAtMostBudget(vt, total - Sum(s), nLow, nUp);
    }
  }

  /** When rest covers n_low per mid key, the DP's counts lie in
      [n_low, n_up] and spend either all of rest (the feasible case) or
      exactly n_low per key (over capacity). */
  lemma MidSpendCovered(p: seq<real>, s: seq<int>, total: int, nLow: int, nUp: int)
    requires |s| == |p| && 1 <= nLow <= nUp
    requires total - Sum(s) >= CountOf(p, Mid) * nLow
    ensures var x := MidCounts(p, s, total, nLow, nUp);
      && AllWithin(x, nLow, nUp)
      && (Sum(x) == total - Sum(s) || Sum(x) == CountOf(p, Mid) * nLow)
  {
    var pm := Gather(p, p, Mid);
    var rest := total - Sum(s);
    MulSign(|pm|, nLow);
    if |pm| > 0 {
      var vt := Knapsack.ValueTables(pm, nLow, nUp);
      assert MidCounts(p, s, total, nLow, nUp) == Knapsack.KnapsackAlloc(vt, rest, nLow, nUp);
      assert |vt| * nLow == CountOf(p, Mid) * nLow;
      Knapsack.KnapsackSumAtMostBudget(vt, rest, nLow, nUp);
    }
  }

  /** The mid stage, for counts with the properties MidSpend proves: it
      keeps entries in [0, n_up], leaves the other keys alone and never
      spends more than the budget, so remain is never negative. */
  lemma MidStageBounds(p: seq<real>, s: seq<int>, x: seq<int>, total: int, nUp: int)
    requires |s| == |p| && |x| == CountOf(p, Mid)
    requires AllWithin(s, 0, nUp) && AllWithin(x, 0, nUp) && Sum(x) <= total - Sum(s)
    requires forall i :: 0 <= i < |p| && Classify(p[i]) == Mid ==> s[i] == 0
    ensures AllWithin(AfterMid(p, s, x), 0, nUp)
    ensures forall i :: 0 <= i < |p| && Classify(p[i]) != Mid ==> AfterMid(p, s, x)[i] == s[i]
    ensures 0 <= total - Sum(AfterMid(p, s, x))
  {
    if CountOf(p, Mid) > 0 {
      MaskedOverZeros(s, p, Mid, x);
      MaskedWithin(s, p, Mid, x, 0, nUp);
      MaskedRegion(s, p, Mid, x, 0, nUp);
    } else {
      assert x == [];
    }
  }

  /** The mid stage, for counts with the properties MidSpendCovered proves
      (need stands for n_low per mid key): the mid entries end in
      [n_low, n_up], and remain is either 0 or what is left after need. */
  lemma MidStageCovered(p: seq<real>, s: seq<int>, x: seq<int>, total: int, nLow: int, nUp: int, need: int)
    requires |s| == |p| && |x| == CountOf(p, Mid)
    requires forall i :: 0 <= i < |p| && Classify(p[i]) == Mid ==> s[i] == 0
    requires CountOf(p, Mid) == 0 ==> need == 0
    requires AllWithin(x, nLow, nUp) && (Sum(x) == total - Sum(s) || Sum(x) == need)
    ensures forall i :: 0 <= i < |p| && Classify(p[i]) == Mid ==> nLow <= AfterMid(p, s, x)[i] <= nUp
    ensures total - Sum(AfterMid(p, s, x)) == 0 || total - Sum(AfterMid(p, s, x)) == total - Sum(s) - need
  {
    if CountOf(p, Mid) > 0 {
      MaskedOverZeros(s, p, Mid, x);
      MaskedRegion(s, p, Mid, x, nLow, nUp);
    } else {
      assert x == [];
      NoneOf(p, Mid);
    }
  }

  /** The even split over the hard keys keeps entries in [0, n_up] and
      leaves the other keys alone. */
  lemma HardStageBounds(p: seq<real>, s: seq<int>, total: int, nLow: int, nUp: int)
    requires |s| == |p| && 0 <= nLow <= nUp && AllWithin(s, 0, nUp)
    ensures var r := AfterHard(p, s, total, nLow, nUp);
      && AllWithin(r, 0, nUp)
      && (forall i :: 0 <= i < |p| && Classify(p[i]) != Hard ==> r[i] == s[i])
  {
    var remain, h := total - Sum(s), CountOf(p, Hard);
    if remain > 0 && h > 0 {
      var vals := HardValues(Gather(s, p, Hard), remain, nLow, nUp);
      MaskedWithin(s, p, Hard, vals, 0, nUp);
      forall i | 0 <= i < |p| && Classify(p[i]) != Hard
        ensures AfterHard(p, s, total, nLow, nUp)[i] == s[i]
      {
        MaskedAt(s, p, Hard, vals, i);
      }
    }
  }

  /** The even split of remain over keys at 0, when remain covers n_low
      per key: every share is at least n_low, so the clip only lowers it; the
      clipped shares lie in [n_low, n_up] and spend at most remain. */
  lemma HardShares(g: seq<int>, remain: int, nLow: int, nUp: int)
    requires |g| > 0 && 0 <= nLow <= nUp && remain >= |g| * nLow
    requires forall t :: 0 <= t < |g| ==> g[t] == 0
    ensures AllWithin(HardValues(g, remain, nLow, nUp), nLow, nUp)
    ensures Sum(HardValues(g, remain, nLow, nUp)) <= remain
  {
    var h := |g|;
    var vals, give := HardValues(g, remain, nLow, nUp), Split(remain, h);
    DivAtLeast(remain, h, nLow);
    forall t | 0 <= t < h ensures nLow <= vals[t] <= give[t] && vals[t] <= nUp {
      ShareBounds(remain, h, t, t);
    }
    SumPointwise(vals, give);
    ShareSum(remain, h);
  }

  /** With the hard keys still at 0 and a remainder that is 0 or at least
      n_low per hard key, the split never overspends, changes nothing when
      the remainder is 0, and puts the hard keys in [n_low, n_up] when it
      happens. */
  lemma HardStageSum(p: seq<real>, s: seq<int>, total: int, nLow: int, nUp: int)
    requires |s| == |p| && 0 <= nLow <= nUp
    requires forall i :: 0 <= i < |p| && Classify(p[i]) == Hard ==> s[i] == 0
    requires total - Sum(s) == 0 || total - Sum(s) >= CountOf(p, Hard) * nLow
    ensures Sum(AfterHard(p, s, total, nLow, nUp)) <= total
    ensures total - Sum(s) == 0 ==> AfterHard(p, s, total, nLow, nUp) == s
    ensures total - Sum(s) > 0 ==>
      forall i :: 0 <= i < |p| && Classify(p[i]) == Hard ==> nLow <= AfterHard(p, s, total, nLow, nUp)[i] <= nUp
  {
    var remain, h := total - Sum(s), CountOf(p, Hard);
    MulAtMost(h, 0, nLow);
    if remain > 0 && h > 0 {
      var g := Gather(s, p, Hard);
      GatherConst(s, p, Hard, 0);
      HardShares(g, remain, nLow, nUp);
      var vals := HardValues(g, remain, nLow, nUp);
      MaskedOverZeros(s, p, Hard, vals);
      MaskedRegion(s, p, Hard, vals, nLow, nUp);
    } else if remain > 0 {
      NoneOf(p, Hard);
    }
  }

  // ---------------------------------------------------------------------
  // What the allocator guarantees

  /** The scale-down branch is taken exactly when the covered easy keys'
      n_low floor alone exceeds the budget; each easy key then receives
      floor(n_low * total / (E * n_low)), which is total // E, every other
      key 0, and the result never exceeds the budget. */
  lemma AllocScaleDown(p: seq<real>, total: int, nLow: int, nUp: int, cover: bool)
    requires 0 <= total && 1 <= nLow <= nUp
    ensures total - Sum(Seeded(p, nLow, cover)) < 0 <==> cover && CountOf(p, Easy) * nLow > total
    ensures cover && CountOf(p, Easy) * nLow > total ==>
      var r, e := AllocSpec(p, total, nLow, nUp, cover), CountOf(p, Easy);
      && e > 0
      && (forall i :: 0 <= i < |p| ==>
            r[i] == (if Classify(p[i]) == Easy then FloorDiv(nLow * total, e * nLow) else 0))
      && (forall i :: 0 <= i < |p| && Classify(p[i]) == Easy ==> r[i] == FloorDiv(total, e))
      && Sum(r) <= total
  {
    SeededFacts(p, nLow, cover);
    var e := CountOf(p, Easy);
    if cover && e * nLow > total {
      var s := Seeded(p, nLow, cover);
      var r := AllocSpec(p, total, nLow, nUp, cover);
      assert e > 0;
      DivCancel(nLow, total, e);
      forall i | 0 <= i < |p|
        ensures r[i] == (if Classify(p[i]) == Easy then FloorDiv(nLow * total, e * nLow) else 0)
      {
        SeededAt(p, nLow, cover, i);
      }
      SumIndicator(r, p, Easy, FloorDiv(total, e));
      FloorDivNonNegative(total, e);
    }
  }

  /** The stages after the DP keep every entry in [0, n_up]. */
  lemma FinishInBounds(p: seq<real>, s0: seq<int>, x: seq<int>, total: int, nLow: int, nUp: int)
    requires |s0| == |p| && |x| == CountOf(p, Mid) && 0 <= nLow <= nUp
    requires AllWithin(s0, 0, nUp) && AllWithin(x, 0, nUp)
    ensures AllWithin(Finish(p, s0, x, total, nLow, nUp), 0, nUp)
  {
    var s1 := AfterMid(p, s0, x);
    AfterMidWithin(p, s0, x, 0, nUp);
    HardStageBounds(p, s1, total, nLow, nUp);
    RepairedInRange(AfterHard(p, s1, total, nLow, nUp), total, nLow, nUp);
  }

  /** Every entry of the result lies in [0, n_up], for every non-negative
      budget. */
  lemma AllocInBounds(p: seq<real>, total: int, nLow: int, nUp: int, cover: bool)
    requires 0 <= total && 1 <= nLow <= nUp
    ensures AllWithin(AllocSpec(p, total, nLow, nUp, cover), 0, nUp)
  {
    var s0 := Seeded(p, nLow, cover);
    SeededFacts(p, nLow, cover);
    if total - Sum(s0) < 0 {
      ScaleDownFacts(s0, total);
    } else {
      MidSpend(p, s0, total, nLow, nUp);
      FinishInBounds(p, s0, MidCounts(p, s0, total, nLow, nUp), total, nLow, nUp);
    }
  }

  /** The stages after the DP, from a seed that leaves n_low for every mid
      and hard key and DP counts as MidSpendCovered describes: the sum comes
      out exactly at the budget, the mid and covered easy keys end in
      [n_low, n_up], and every hard key ends at 0 or in [n_low, n_up]. */
  lemma FinishExact(p: seq<real>, s0: seq<int>, x: seq<int>, total: int, nLow: int, nUp: int, cover: bool)
    requires |s0| == |p| && |x| == CountOf(p, Mid) && 1 <= nLow <= nUp
    requires total <= |p| * nUp
    requires AllWithin(s0, 0, nUp)
    requires forall i :: 0 <= i < |p| && Classify(p[i]) != Easy ==> s0[i] == 0
    requires forall i :: 0 <= i < |p| && Classify(p[i]) == Easy && cover ==> s0[i] == nLow
    requires total - Sum(s0) >= CountOf(p, Mid) * nLow + CountOf(p, Hard) * nLow
    requires AllWithin(x, nLow, nUp)
    requires Sum(x) == total - Sum(s0) || Sum(x) == CountOf(p, Mid) * nLow
    ensures var r := Finish(p, s0, x, total, nLow, nUp);
      && Sum(r) == total
      && (forall i :: 0 <= i < |p| && Classify(p[i]) == Mid ==> nLow <= r[i] <= nUp)
      && (forall i :: 0 <= i < |p| && Classify(p[i]) == Easy && cover ==> nLow <= r[i] <= nUp)
      && (forall i :: 0 <= i < |p| && Classify(p[i]) == Hard ==> r[i] == 0 || nLow <= r[i] <= nUp)
  {
    MulSign(CountOf(p, Mid), nLow);
    MulSign(CountOf(p, Hard), nLow);
    MidStageBounds(p, s0, x, total, nUp);
    MidStageCovered(p, s0, x, total, nLow, nUp, CountOf(p, Mid) * nLow);
    FinishFromMid(p, AfterMid(p, s0, x), total, nLow, nUp, cover);
  }

  /** The hard split and the repair, from a state whose hard keys are 0,
      whose mid and covered easy keys lie in [n_low, n_up], and whose
      remainder is 0 or covers n_low per hard key. */
  lemma FinishFromMid(p: seq<real>, s1: seq<int>, total: int, nLow: int, nUp: int, cover: bool)
    requires |s1| == |p| && 1 <= nLow <= nUp && total <= |p| * nUp
    requires AllWithin(s1, 0, nUp)
    requires forall i :: 0 <= i < |p| && Classify(p[i]) == Hard ==> s1[i] == 0
    requires forall i :: 0 <= i < |p| && Classify(p[i]) == Mid ==> nLow <= s1[i]
    requires forall i :: 0 <= i < |p| && Classify(p[i]) == Easy && cover ==> nLow <= s1[i]
    requires total - Sum(s1) == 0 || total - Sum(s1) >= CountOf(p, Hard) * nLow
    ensures var r := Repaired(AfterHard(p, s1, total, nLow, nUp), total, nLow, nUp);
      && Sum(r) == total
      && (forall i :: 0 <= i < |p| && Classify(p[i]) == Mid ==> nLow <= r[i] <= nUp)
      && (forall i :: 0 <= i < |p| && Classify(p[i]) == Easy && cover ==> nLow <= r[i] <= nUp)
      && (forall i :: 0 <= i < |p| && Classify(p[i]) == Hard ==> r[i] == 0 || nLow <= r[i] <= nUp)
  {
    HardStageSum(p, s1, total, nLow, nUp);
    HardStageBounds(p, s1, total, nLow, nUp);
    RepairedExactFromBelow(AfterHard(p, s1, total, nLow, nUp), total, nLow, nUp);
  }

  /** The main guarantee: whenever n_low per key fits the budget and n_up
      per key covers it, the result sums exactly to the budget, every entry
      lies in [0, n_up], every mid key in [n_low, n_up], every covered easy
      key in [n_low, n_up], and every hard key is either 0 (when the DP
      spent everything) or in [n_low, n_up]. */
  lemma AllocExact(p: seq<real>, total: int, nLow: int, nUp: int, cover: bool)
    requires 1 <= nLow <= nUp
    requires |p| * nLow <= total <= |p| * nUp
    ensures var r := AllocSpec(p, total, nLow, nUp, cover);
      && Sum(r) == total
      && AllWithin(r, 0, nUp)
      && (forall i :: 0 <= i < |p| && Classify(p[i]) == Mid ==> nLow <= r[i] <= nUp)
      && (forall i :: 0 <= i < |p| && Classify(p[i]) == Easy && cover ==> nLow <= r[i] <= nUp)
      && (forall i :: 0 <= i < |p| && Classify(p[i]) == Hard ==> r[i] == 0 || nLow <= r[i] <= nUp)
  {
    var s0 := Seeded(p, nLow, cover);
    SeededFacts(p, nLow, cover);
    SeedLeaves(p, total, nLow, cover);
    MulSign(|p|, nLow);
    MulSign(CountOf(p, Mid), nLow);
    MulSign(CountOf(p, Hard), nLow);
    MidSpendCovered(p, s0, total, nLow, nUp);
    FinishExact(p, s0, MidCounts(p, s0, total, nLow, nUp), total, nLow, nUp, cover);
    AllocInBounds(p, total, nLow, nUp, cover);
  }

  /** The seed spends at most n_low per easy key, so when n_low per key
      fits the budget, the rest covers n_low for every mid and hard key. */
  lemma SeedLeaves(p: seq<real>, total: int, nLow: int, cover: bool)
    requires 0 <= nLow && |p| * nLow <= total
    ensures total - Sum(Seeded(p, nLow, cover)) >= CountOf(p, Mid) * nLow + CountOf(p, Hard) * nLow
  {
    var e, m, h := CountOf(p, Easy), CountOf(p, Mid), CountOf(p, Hard);
    CountPartition(p);
    SeededFacts(p, nLow, cover);
    MulSign(e, nLow);
    MulDistributes(e, m, h, nLow);
  }

  /** With every key mid and DP counts that spend the budget, the later
      stages return the counts unchanged. */
  lemma FinishAllMid(p: seq<real>, s0: seq<int>, x: seq<int>, total: int, nLow: int, nUp: int)
    requires forall i :: 0 <= i < |p| ==> Classify(p[i]) == Mid
    requires |s0| == |p| == |x| && Sum(x) == total
    ensures CountOf(p, Mid) == |p|
    ensures Finish(p, s0, x, total, nLow, nUp) == x
  {
    MaskedAll(s0, p, Mid, x);
    CountAll(p, Mid);
  }

  /** All-mid input: the result is the DP's allocation, hence optimal
      among all integer vectors in [n_low, n_up] that spend the budget. */
  lemma AllocAllMid(p: seq<real>, total: int, nLow: int, nUp: int, cover: bool)
    requires 1 <= nLow <= nUp
    requires forall i :: 0 <= i < |p| ==> Classify(p[i]) == Mid
    requires |p| * nLow <= total <= |p| * nUp
    ensures var vt := Knapsack.ValueTables(p, nLow, nUp);
      && AllocSpec(p, total, nLow, nUp, cover) == Knapsack.KnapsackAlloc(vt, total, nLow, nUp)
      && Knapsack.IsOptimal(vt, AllocSpec(p, total, nLow, nUp, cover), total, nLow, nUp)
  {
    var vt := Knapsack.ValueTables(p, nLow, nUp);
    CountAll(p, Mid);
    var z := seq(|p|, _ => 0);
    var s0 := Seeded(p, nLow, cover);
    assert s0 == z;
    SumConst(|p|, 0);
    GatherAll(p, p, Mid);
    MulAtMost(|p|, 0, nLow);
    var x := Knapsack.KnapsackAlloc(vt, total, nLow, nUp);
    assert MidCounts(p, s0, total, nLow, nUp) == x;
    MulDifference(|p|, nUp, nLow);
    Knapsack.KnapsackFeasible(vt, total, nLow, nUp);
    Knapsack.KnapsackSumAtMostBudget(vt, total, nLow, nUp);
    FinishAllMid(p, s0, x, total, nLow, nUp);
    Knapsack.KnapsackOptimal(vt, total, nLow, nUp);
  }

  /** When m * n_low <= remain <= m * n_up, the even split of remain over m
      keys at 0 needs no clipping. */
  lemma HardSharesExact(g: seq<int>, remain: int, nLow: int, nUp: int)
    requires |g| > 0 && 0 <= nLow <= nUp && |g| * nLow <= remain <= |g| * nUp
    requires forall t :: 0 <= t < |g| ==> g[t] == 0
    ensures HardValues(g, remain, nLow, nUp) == Split(remain, |g|)
  {
    DivAtLeast(remain, |g|, nLow);
    DivAtMost(remain, |g|, nUp);
    forall t | 0 <= t < |g|
      ensures HardValues(g, remain, nLow, nUp)[t] == Split(remain, |g|)[t]
    {
      ShareBounds(remain, |g|, t, t);
    }
  }

  /** With every key hard and at 0, the hard split is the even split of the
      whole budget. */
  lemma AfterHardAllHard(p: seq<real>, z: seq<int>, total: int, nLow: int, nUp: int)
    requires 1 <= nLow <= nUp && |p| > 0
    requires forall i :: 0 <= i < |p| ==> Classify(p[i]) == Hard
    requires |z| == |p| && forall i :: 0 <= i < |p| ==> z[i] == 0
    requires |p| * nLow <= total <= |p| * nUp
    ensures AfterHard(p, z, total, nLow, nUp) == Split(total, |p|)
  {
    var m := |p|;
    CountAll(p, Hard);
    assert Sum(z) == 0 by {
      SumConst(m, 0);
      assert z == seq(m, _ => 0);
    }
    MulAtMost(m, 1, nLow);
    GatherAll(z, p, Hard);
    HardSharesExact(z, total, nLow, nUp);
    MaskedAll(z, p, Hard, Split(total, m));
  }

  /** With every key hard and nothing seeded, the later stages are the even
      split of the whole budget. */
  lemma FinishAllHard(p: seq<real>, z: seq<int>, total: int, nLow: int, nUp: int)
    requires 1 <= nLow <= nUp && |p| > 0
    requires forall i :: 0 <= i < |p| ==> Classify(p[i]) == Hard
    requires |z| == |p| && forall i :: 0 <= i < |p| ==> z[i] == 0
    requires |p| * nLow <= total <= |p| * nUp
    ensures CountOf(p, Mid) == 0
    ensures Finish(p, z, [], total, nLow, nUp) == Split(total, |p|)
  {
    CountAll(p, Hard);
    assert AfterMid(p, z, []) == z;
    AfterHardAllHard(p, z, total, nLow, nUp);
    ShareSum(total, |p|);
  }

  /** All-hard input: the budget is split as evenly as possible, the larger
      shares first, with no clipping or repair. */
  lemma AllocAllHard(p: seq<real>, total: int, nLow: int, nUp: int, cover: bool)
    requires 1 <= nLow <= nUp && |p| > 0
    requires forall i :: 0 <= i < |p| ==> Classify(p[i]) == Hard
    requires |p| * nLow <= total <= |p| * nUp
    ensures AllocSpec(p, total, nLow, nUp, cover) == Split(total, |p|)
  {
    CountAll(p, Hard);
    var s0 := Seeded(p, nLow, cover);
    assert s0 == seq(|p|, _ => 0);
    SumConst(|p|, 0);
    MulAtMost(|p|, 0, nLow);
    FinishAllHard(p, s0, total, nLow, nUp);
    assert MidCounts(p, s0, total, nLow, nUp) == [];
  }

  /** Below the n_low floor the result can overshoot the budget: the DP's
      fallback gives the two mid keys 3 // 2 = 1 each, the hard split clips
      the leftover 1 up to n_low = 2, and the downward repair then raises the
      mid keys to n_low as well, so three keys with budget 3 receive 6. */
  lemma AllocOvershootsBelowFloor()
    ensures AllocSpec([0.5, 0.5, 0.0], 3, 2, 10, true) == [2, 2, 2]
  {
    var p: seq<real> := [0.5, 0.5, 0.0];
    OvershootCounts(p);
    var s0 := Seeded(p, 2, true);
    assert s0 == [0, 0, 0];
    assert Sum(s0[2..]) == 0 && Sum(s0[1..]) == 0 && Sum(s0) == 0;
    OvershootMid(p, s0);
    OvershootHard(p, [1, 1, 0]);
    RepairBelowFloorOvershoots();
  }

  /** The masks of the overshoot example: two mid keys, then one hard key. */
  lemma OvershootCounts(p: seq<real>)
    requires p == [0.5, 0.5, 0.0]
    ensures p[..2] == [0.5, 0.5]
    ensures CountOf(p, Easy) == 0 && CountOf(p, Mid) == 2 && CountOf(p, Hard) == 1
    ensures CountOf(p[..1], Mid) == 1 && CountOf(p[..2], Mid) == 2 && CountOf(p[..2], Hard) == 0
    ensures Gather(p, p, Mid) == [0.5, 0.5]
  {
    assert p[..2][..1] == [0.5];
    assert p[..2][..1][..0] == [];
    assert CountOf(p[..1], Mid) == 1 && CountOf(p[..2], Mid) == 2;
    assert CountOf(p[..2], Easy) == 0;
    assert CountOf(p[..1], Hard) == 0 && CountOf(p[..2], Hard) == 0;
    assert Gather(p[..1], p[..1], Mid) == [0.5];
    assert Gather(p[..2], p[..2], Mid) == [0.5, 0.5];
  }

  /** Below the floor the DP falls back to 3 // 2 = 1 per mid key. */
  lemma OvershootMid(p: seq<real>, s0: seq<int>)
    requires p == [0.5, 0.5, 0.0] && s0 == [0, 0, 0] && Sum(s0) == 0
    ensures CountOf(p, Mid) == 2
    ensures AfterMid(p, s0, MidCounts(p, s0, 3, 2, 10)) == [1, 1, 0]
  {
    OvershootCounts(p);
    var x := MidCounts(p, s0, 3, 2, 10);
    assert FloorDiv(3, 2) == 1;
    assert x == [1, 1];
    assert MaskedAssign(s0[..1], p[..1], Mid, x[..1]) == [1];
    assert MaskedAssign(s0[..2], p[..2], Mid, x) == [1, 1];
  }

  /** The leftover 1 goes to the hard key and is clipped up to n_low = 2. */
  lemma OvershootHard(p: seq<real>, s1: seq<int>)
    requires p == [0.5, 0.5, 0.0] && s1 == [1, 1, 0]
    ensures AfterHard(p, s1, 3, 2, 10) == [1, 1, 2]
  {
    OvershootCounts(p);
    assert Sum(s1[2..]) == 0 && Sum(s1[1..]) == 1 && Sum(s1) == 2;
    assert Gather(s1[..2], p[..2], Hard) == [];
    assert Gather(s1, p, Hard) == [0];
    assert HardValues([0], 1, 2, 10) == [2];
    assert MaskedAssign(s1[..2], p[..2], Hard, []) == [1, 1];
  }

  /** All-easy input with cover: the seed gives n_low to every key and the
      upward repair hands the whole surplus to the first key. */
  lemma AllocAllEasyFrontLoads()
    ensures AllocSpec([1.0, 1.0, 1.0], 24, 2, 128, true) == [20, 2, 2]
  {
    var p: seq<real> := [1.0, 1.0, 1.0];
    CountAll(p, Easy);
    var s0 := Seeded(p, 2, true);
    MaskedAll(seq(3, _ => 0), p, Easy, seq(3, _ => 2));
    assert s0 == [2, 2, 2];
    assert Sum(s0[2..]) == 2 && Sum(s0[1..]) == 4 && Sum(s0) == 6;
    var x := MidCounts(p, s0, 24, 2, 128);
    assert x == [];
    assert AfterMid(p, s0, x) == s0;
    assert AfterHard(p, s0, 24, 2, 128) == s0;
    assert RepairSeq(s0[1..], true, 0, 2, 128) == [2, 2];
    assert RepairSeq(s0, true, 18, 2, 128) == [20, 2, 2];
  }

  // ---------------------------------------------------------------------
  // The imperative allocator

  /** alloc = np.zeros, then alloc[idx_easy] = n_low when easy_min_cover is
      set and there is an easy key. */
  method SeedAlloc(p: seq<real>, nLow: int, cover: bool) returns (a: array<int>)
    ensures fresh(a) && a[..] == Seeded(p, nLow, cover)
  {
    a := new int[|p|](_ => 0);
    assert a[..] == seq(|p|, _ => 0);
    var e := CountOf(p, Easy);
    if cover && e > 0 {
      MaskedWrite(a, p, Easy, seq(e, _ => nLow));
    }
  }

  /** budget_mid = total - sum(alloc); alloc[idx_mid] = the DP on the mid
      probabilities, when there is a mid key. */
  method WriteMid(a: array<int>, p: seq<real>, totalBudget: int, nLow: int, nUp: int)
    requires a.Length == |p| && nLow <= nUp && totalBudget - Sum(a[..]) >= 0
    modifies a
    ensures a[..] == AfterMid(p, old(a[..]), MidCounts(p, old(a[..]), totalBudget, nLow, nUp))
  {
    ghost var s := a[..];
    var budgetMid := totalBudget - Sum(a[..]);
    var pm := GatherWhere(p, p, Mid);
    if |pm| > 0 {
      var allocMid := Knapsack.KnapsackDp(pm, budgetMid, nLow, nUp);
      assert allocMid == MidCounts(p, s, totalBudget, nLow, nUp);
      MaskedWrite(a, p, Mid, allocMid);
    }
  }

  /** remain = total - sum(alloc); when positive and there is a hard key,
      alloc[idx_hard] = clip(alloc[idx_hard] + give, n_low, n_up). */
  method SplitHard(a: array<int>, p: seq<real>, totalBudget: int, nLow: int, nUp: int)
    requires a.Length == |p|
    modifies a
    ensures a[..] == AfterHard(p, old(a[..]), totalBudget, nLow, nUp)
  {
    var remain := totalBudget - Sum(a[..]);
    var h := CountOf(p, Hard);
    if remain > 0 && h > 0 {
      var cur := GatherWhere(a[..], p, Hard);
      var give := Split(remain, h);
      var vals := seq(h, t requires 0 <= t < h => Clip(cur[t] + give[t], nLow, nUp));
      assert vals == HardValues(cur, remain, nLow, nUp);
      MaskedWrite(a, p, Hard, vals);
    }
  }

  /** allocate_with_extremes on an array: the seed, the scale-down early
      return, the mid DP, the even hard split and the repair loop.
      hard_fallback_share is accepted and, as in the source, never read. */
  method AllocateWithExtremes(p: seq<real>, totalBudget: int, nLow: int, nUp: int,
                              hardFallbackShare: real, easyMinCover: bool)
    returns (alloc: seq<int>)
    requires totalBudget >= 0
    requires 1 <= nLow <= nUp
    ensures alloc == AllocSpec(p, totalBudget, nLow, nUp, easyMinCover)
    ensures AllWithin(alloc, 0, nUp)
    ensures |p| * nLow <= totalBudget <= |p| * nUp ==> Sum(alloc) == totalBudget
  {
    AllocInBounds(p, totalBudget, nLow, nUp, easyMinCover);
    if |p| * nLow <= totalBudget <= |p| * nUp {
      AllocExact(p, totalBudget, nLow, nUp, easyMinCover);
    }
    var a := SeedAlloc(p, nLow, easyMinCover);
    var s0 := a[..];
    if totalBudget - Sum(s0) < 0 {
      var scale := Max(1, Sum(s0));
      alloc := seq(|p|, i requires 0 <= i < |p| => FloorDiv(s0[i] * totalBudget, scale));
      assert alloc == ScaleDown(s0, totalBudget);
      return;
    }
    WriteMid(a, p, totalBudget, nLow, nUp);
    SplitHard(a, p, totalBudget, nLow, nUp);
    Repair(a, totalBudget, nLow, nUp);
    alloc := a[..];
  }
}
