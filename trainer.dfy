/** The trainer's allocation step, _make_alloc_indices: estimate every
    prompt's success rate, choose the total budget, allocate it with
    allocate_with_extremes and flatten the allocation into a list of prompt
    indices (index i repeated alloc[i] times), with 0 .. M-1 as the fallback
    when that list is empty. */
module Trainer {
  import opened SeqMath
  import Extremes
  import SuccessEstimator

  // ---------------------------------------------------------------------
  // The budget

  /** total_budget: int(override_total_budget) when one is configured,
      otherwise len(uids) * default_n. */
  function TotalBudget(overrideTotalBudget: Option<int>, m: nat, defaultN: int): int
  {
    match overrideTotalBudget
    case Some(b) => b
    case None => m * defaultN
  }

  // ---------------------------------------------------------------------
  // Flattening an allocation

  /** [i] * k: k copies of i, none when k <= 0. */
  function Repeat(i: int, k: int): (r: seq<int>)
    ensures |r| == Max(0, k)
    ensures forall j :: 0 <= j < |r| ==> r[j] == i
  {
    seq(Max(0, k), _ => i)
  }

  /** The list the extend loop builds from an allocation, one block per key. */
  function Expanded(alloc: seq<int>): seq<int>
  {
    if |alloc| == 0 then []
    else
      var n := |alloc| - 1;
      Expanded(alloc[..n]) + Repeat(n, alloc[n])
  }

  /** list(range(m)). */
  function Iota(m: nat): (r: seq<int>)
    ensures |r| == m
    ensures forall i :: 0 <= i < m ==> r[i] == i
  {
    seq(m, i => i)
  }

  /** The index list of _make_alloc_indices for an allocation over m keys. */
  function AllocIndices(alloc: seq<int>, m: nat): seq<int>
  {
    if Expanded(alloc) == [] then Iota(m) else Expanded(alloc)
  }

  /** A list in nondecreasing order. */
  predicate Sorted(s: seq<int>)
  {
    forall a, b :: 0 <= a <= b < |s| ==> s[a] <= s[b]
  }

  /** Every entry is an index into a list of m keys. */
  predicate Indexes(s: seq<int>, m: int)
  {
    forall a :: 0 <= a < |s| ==> 0 <= s[a] < m
  }

  /** The copies of v in k copies of i. */
  lemma {:induction false} RepeatCount(i: int, k: int, v: int)
    ensures multiset(Repeat(i, k))[v] == if v == i then Max(0, k) else 0
    decreases Max(0, k)
  {
    if k > 0 {
      assert Repeat(i, k) == Repeat(i, k - 1) + [i];
      RepeatCount(i, k - 1, v);
    }
  }

  /** Each index i appears exactly alloc[i] times (none for a non-positive
      entry), and nothing else appears. */
  lemma {:induction false} ExpandedCounts(alloc: seq<int>, v: int)
    ensures multiset(Expanded(alloc))[v] == if 0 <= v < |alloc| then Max(0, alloc[v]) else 0
  {
    if |alloc| > 0 {
      var n := |alloc| - 1;
      ExpandedCounts(alloc[..n], v);
      RepeatCount(n, alloc[n], v);
    }
  }

  /** For a non-negative allocation the list has Σ alloc entries. */
  lemma {:induction false} ExpandedLength(alloc: seq<int>)
    requires forall i :: 0 <= i < |alloc| ==> 0 <= alloc[i]
    ensures |Expanded(alloc)| == Sum(alloc)
  {
    if |alloc| > 0 {
      var n := |alloc| - 1;
      ExpandedLength(alloc[..n]);
      SumLast(alloc);
    }
  }

  /** The blocks come in key order: the list is sorted and every entry is a
      key index. */
  lemma {:induction false} ExpandedSorted(alloc: seq<int>)
    ensures Sorted(Expanded(alloc)) && Indexes(Expanded(alloc), |alloc|)
  {
    if |alloc| > 0 {
      var n := |alloc| - 1;
      ExpandedSorted(alloc[..n]);
      var front, block := Expanded(alloc[..n]), Repeat(n, alloc[n]);
      var e := front + block;
      assert Expanded(alloc) == e;
      forall a, b | 0 <= a <= b < |e| ensures e[a] <= e[b] {
        if b >= |front| {
          assert e[b] == block[b - |front|];
          if a < |front| {
            assert e[a] == front[a];
          } else {
            assert e[a] == block[a - |front|];
          }
        }
      }
      forall a | 0 <= a < |e| ensures 0 <= e[a] < |alloc| {
        if a < |front| {
          assert e[a] == front[a];
        } else {
          assert e[a] == block[a - |front|];
        }
      }
    }
  }

  /** The list is empty exactly when no entry of the allocation is positive. */
  lemma ExpandedEmpty(alloc: seq<int>)
    ensures Expanded(alloc) == [] <==> forall i :: 0 <= i < |alloc| ==> alloc[i] <= 0
  {
    if Expanded(alloc) == [] {
      forall i | 0 <= i < |alloc| ensures alloc[i] <= 0 {
        NoCopies(alloc, i);
      }
    } else {
      SomeCopies(alloc);
    }
  }

  lemma NoCopies(alloc: seq<int>, i: nat)
    requires i < |alloc| && Expanded(alloc) == []
    ensures alloc[i] <= 0
  {
    ExpandedCounts(alloc, i);
  }

  lemma SomeCopies(alloc: seq<int>)
    requires Expanded(alloc) != []
    ensures exists i :: 0 <= i < |alloc| && alloc[i] > 0
  {
    var e := Expanded(alloc);
    assert e[0] in multiset(e);
    ExpandedCounts(alloc, e[0]);
    ExpandedSorted(alloc);
  }

  /** The result of _make_alloc_indices for an allocation over its m keys:
      sorted, made of key indices, and either the flattened allocation or,
      when that is empty, every key once. */
  lemma AllocIndicesShape(alloc: seq<int>, m: nat)
    requires |alloc| == m
    ensures var idx := AllocIndices(alloc, m);
      && Sorted(idx) && Indexes(idx, m)
      && ((forall i :: 0 <= i < m ==> alloc[i] <= 0) ==> idx == Iota(m))
      && ((exists i :: 0 <= i < m && alloc[i] > 0) ==>
            forall v :: multiset(idx)[v] == if 0 <= v < m then Max(0, alloc[v]) else 0)
  {
    ExpandedSorted(alloc);
    ExpandedEmpty(alloc);
    forall v ensures Expanded(alloc) != [] ==>
      multiset(AllocIndices(alloc, m))[v] == if 0 <= v < m then Max(0, alloc[v]) else 0
    {
      ExpandedCounts(alloc, v);
    }
  }

  /** The extend loop and the fallback, as in _make_alloc_indices. */
  method ExpandAllocation(alloc: seq<int>, m: nat) returns (idx: seq<int>)
    ensures idx == AllocIndices(alloc, m)
  {
    idx := [];
    assert alloc[..0] == [];
    for i := 0 to |alloc|
      invariant idx == Expanded(alloc[..i])
    {
      assert alloc[..i + 1][..i] == alloc[..i];
      idx := idx + Repeat(i, alloc[i]);
    }
    assert alloc[..|alloc|] == alloc;
    if |idx| == 0 {
      idx := Iota(m);
    }
  }

  /** When the budget lies between M * n_low and M * n_up and is positive,
      the index list has exactly total_budget entries and key i appears
      alloc[i] times. */
  lemma IndicesSpendBudget(p: seq<real>, total: int, nLow: int, nUp: int, cover: bool)
    requires 1 <= nLow <= nUp
    requires |p| * nLow <= total <= |p| * nUp && 0 < total
    ensures var alloc := Extremes.AllocSpec(p, total, nLow, nUp, cover);
      var idx := AllocIndices(alloc, |p|);
      && |idx| == total
      && forall v :: 0 <= v < |p| ==> multiset(idx)[v] == alloc[v]
  {
    var alloc := Extremes.AllocSpec(p, total, nLow, nUp, cover);
    Extremes.AllocExact(p, total, nLow, nUp, cover);
    ExpandedLength(alloc);
    assert Expanded(alloc) != [];
    forall v | 0 <= v < |p| ensures multiset(AllocIndices(alloc, |p|))[v] == alloc[v] {
      ExpandedCounts(alloc, v);
    }
  }

  /** With no override, a non-empty batch and n_low <= default_n <= n_up, the
      default budget M * default_n lies between M * n_low and M * n_up, so the
      trainer's index list has exactly M * default_n entries, alloc[i] of
      them equal to i. */
  lemma DefaultBudgetFeasible(p: seq<real>, defaultN: int, nLow: int, nUp: int, cover: bool)
    requires 0 < |p| && 1 <= nLow <= defaultN <= nUp
    ensures var total := TotalBudget(None, |p|, defaultN);
      && |p| * nLow <= total <= |p| * nUp
      && var alloc := Extremes.AllocSpec(p, total, nLow, nUp, cover);
         var idx := AllocIndices(alloc, |p|);
         && |idx| == |p| * defaultN
         && forall v :: 0 <= v < |p| ==> multiset(idx)[v] == alloc[v]
  {
    MulAtMost(|p|, nLow, defaultN);
    MulAtMost(|p|, defaultN, nUp);
    MulAtMost(|p|, 1, nLow);
    IndicesSpendBudget(p, |p| * defaultN, nLow, nUp, cover);
  }

  // ---------------------------------------------------------------------
  // The trainer

  class KnapsackTrainer {
    const nLow: int
    const nUp: int
    const hardShare: real
    const easyMinCover: bool
    const overrideTotalBudget: Option<int>
    /** _succ_est: the online success-rate estimator. */
    const est: SuccessEstimator.SuccessRateEstimator

    /** The knobs as read from the configuration, and a fresh estimator. */
    constructor (nLow: int, nUp: int, ema: real, alpha: real, beta: real, hardShare: real,
                 easyMinCover: bool, overrideTotalBudget: Option<int>)
      requires 0.0 < ema < 1.0
      ensures this.nLow == nLow && this.nUp == nUp && this.hardShare == hardShare
      ensures this.easyMinCover == easyMinCover && this.overrideTotalBudget == overrideTotalBudget
      ensures fresh(est) && est.Valid() && est.stats == map[]
      ensures est.ema == ema && est.alpha == alpha && est.beta == beta
    {
      this.nLow := nLow;
      this.nUp := nUp;
      this.hardShare := hardShare;
      this.easyMinCover := easyMinCover;
      this.overrideTotalBudget := overrideTotalBudget;
      est := new SuccessEstimator.SuccessRateEstimator(ema, alpha, beta);
    }

    /** The index list _make_alloc_indices returns in the current state. */
    function Indices(uids: seq<string>, defaultN: int): seq<int>
      reads est
      requires forall i :: 0 <= i < |uids| ==> est.Denominator(uids[i]) != 0.0
      requires 1 <= nLow <= nUp
    {
      var total := TotalBudget(overrideTotalBudget, |uids|, defaultN);
      AllocIndices(Extremes.AllocSpec(est.Estimates(uids), total, nLow, nUp, easyMinCover), |uids|)
    }

    /** _make_alloc_indices: estimate, choose the budget, allocate, flatten.
        The allocator's assertions become the budget and n_low / n_up
        preconditions, the estimator's division the denominator one. */
    method MakeAllocIndices(uids: seq<string>, defaultN: int) returns (idx: seq<int>)
      requires forall i :: 0 <= i < |uids| ==> est.Denominator(uids[i]) != 0.0
      requires TotalBudget(overrideTotalBudget, |uids|, defaultN) >= 0
      requires 1 <= nLow <= nUp
      ensures idx == Indices(uids, defaultN)
      ensures Sorted(idx) && Indexes(idx, |uids|)
      ensures overrideTotalBudget.None? && 0 < |uids| && nLow <= defaultN <= nUp ==>
        |idx| == |uids| * defaultN
    {
      var pHat := est.Estimate(uids);
      var totalBudget := match overrideTotalBudget
        case Some(b) => b
        case None => |uids| * defaultN;
      var alloc := Extremes.AllocateWithExtremes(pHat, totalBudget, nLow, nUp, hardShare, easyMinCover);
      idx := ExpandAllocation(alloc, |uids|);
      AllocIndicesShape(alloc, |uids|);
      if overrideTotalBudget.None? && 0 < |uids| && nLow <= defaultN <= nUp {
        DefaultBudgetFeasible(pHat, defaultN, nLow, nUp, easyMinCover);
      }
    }

    /** The trainer computes the index list once to expand the batch for
        generation and once more afterwards; with no update_batch in between
        both calls give the same list. */
    method RecomputeIndices(uids: seq<string>, defaultN: int) returns (first: seq<int>, second: seq<int>)
      requires forall i :: 0 <= i < |uids| ==> est.Denominator(uids[i]) != 0.0
      requires TotalBudget(overrideTotalBudget, |uids|, defaultN) >= 0
      requires 1 <= nLow <= nUp
      ensures first == second
    {
      first := MakeAllocIndices(uids, defaultN);
      second := MakeAllocIndices(uids, defaultN);
    }
  }
}
