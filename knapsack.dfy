/** The bounded knapsack of _knapsack_dp. Each of M prompts receives n_low
    attempts plus an excess e_i in [0, cap]; the excesses must add up to the
    budget B = total - M * n_low, and the table maximises the sum of value
    increments vt[i][e_i] - vt[i][0]. The DP is parametrised by an arbitrary
    value table, so its optimality does not depend on the value formula. */
module Knapsack {
  import opened SeqMath
  import ValueModel

  /** A cell of the dp table: the source's sentinel -1e30 (any value at most
      -1e29 counts as unreachable) is the explicit Unreachable. */
  datatype Score = Unreachable | Reach(v: real)

  /** `val > best` against a cell: every reachable value beats the sentinel. */
  predicate Improves(val: real, best: Score)
  {
    best.Unreachable? || val > best.v
  }

  /** Every row of the value table has at least cap + 1 entries. */
  predicate WellShaped(vt: seq<seq<real>>, cap: nat)
  {
    forall i :: 0 <= i < |vt| ==> |vt[i]| > cap
  }

  /** Every row has exactly `width` entries, as _value_table's rows have. */
  predicate Rectangular(vt: seq<seq<real>>, width: int)
  {
    forall i :: 0 <= i < |vt| ==> |vt[i]| == width
  }

  /** The increment of giving e excess attempts to a prompt with value row `row`. */
  function Inc(row: seq<real>, e: nat): real
    requires e < |row|
  {
    if e > 0 then row[e] - row[0] else 0.0
  }

  /** dp[i, b]: the best total increment of the first i prompts when their
      excesses spend exactly b, or Unreachable. Row 0 is reachable only at
      b = 0; row i is the scan over excesses 0..min(b, cap). */
  function Cell(vt: seq<seq<real>>, i: nat, b: nat, cap: nat): Score
    requires i <= |vt| && WellShaped(vt, cap)
    decreases i, 1, 0
  {
    if i == 0 then (if b == 0 then Reach(0.0) else Unreachable)
    else Scan(vt, i, b, Min(b, cap) + 1, cap).0
  }

  /** The candidate dp[i-1, b-e] examined for excess e at cell (i, b). */
  function Cand(vt: seq<seq<real>>, i: nat, b: nat, e: nat, cap: nat): Score
    requires 1 <= i <= |vt| && WellShaped(vt, cap) && e <= b
    decreases i, 0, 0
  {
    Cell(vt, i - 1, b - e, cap)
  }

  /** The inner loop over k_extra = 0 .. k-1 for cell (i, b): the best score
      and the recorded choice, starting from (dp[i-1, b], 0); unreachable
      candidates are skipped and only a strictly larger value replaces the best. */
  function Scan(vt: seq<seq<real>>, i: nat, b: nat, k: nat, cap: nat): (r: (Score, nat))
    requires 1 <= i <= |vt| && WellShaped(vt, cap) && k <= Min(b, cap) + 1
    ensures r.1 <= Min(b, cap) && (r.1 == 0 || r.1 < k)
    decreases i, 0, k
  {
    if k == 0 then (Cell(vt, i - 1, b, cap), 0)
    else
      var (best, bk) := Scan(vt, i, b, k - 1, cap);
      match Cand(vt, i, b, k - 1, cap)
      case Unreachable => (best, bk)
      case Reach(c) =>
        var val := c + Inc(vt[i - 1], k - 1);
        if Improves(val, best) then (Reach(val), k - 1) else (best, bk)
  }

  /** choice[i-1, b]: the excess recorded for prompt i at budget b. */
  function Choice(vt: seq<seq<real>>, i: nat, b: nat, cap: nat): (k: nat)
    requires 1 <= i <= |vt| && WellShaped(vt, cap)
    ensures k <= Min(b, cap)
  {
    Scan(vt, i, b, Min(b, cap) + 1, cap).1
  }

  /** The excesses the backtrack recovers for the first i prompts, from budget b. */
  function Backtrack(vt: seq<seq<real>>, i: nat, b: nat, cap: nat): (x: seq<int>)
    requires i <= |vt| && WellShaped(vt, cap)
    ensures |x| == i
  {
    if i == 0 then []
    else
      var k := Choice(vt, i, b, cap);
      Backtrack(vt, i - 1, b - k, cap) + [k]
  }

  predicate ExcessWithin(e: seq<int>, cap: nat)
  {
    forall j :: 0 <= j < |e| ==> 0 <= e[j] <= cap
  }

  /** The total increment of an excess vector over the first |e| rows. */
  function IncSum(vt: seq<seq<real>>, e: seq<int>): real
    requires |e| <= |vt| && forall j :: 0 <= j < |e| ==> 0 <= e[j] < |vt[j]|
  {
    if |e| == 0 then 0.0
    else IncSum(vt, e[..|e| - 1]) + Inc(vt[|e| - 1], e[|e| - 1])
  }

  /** The objective of the source's tests: the sum of vt[i][x_i - n_low]. */
  function Objective(vt: seq<seq<real>>, x: seq<int>, nLow: int): real
    requires |x| <= |vt| && forall j :: 0 <= j < |x| ==> 0 <= x[j] - nLow < |vt[j]|
  {
    if |x| == 0 then 0.0
    else Objective(vt, x[..|x| - 1], nLow) + vt[|x| - 1][x[|x| - 1] - nLow]
  }

  /** The value every prompt already has at n_low attempts. */
  function BaseValue(vt: seq<seq<real>>, m: nat): real
    requires m <= |vt| && forall j :: 0 <= j < m ==> |vt[j]| > 0
  {
    if m == 0 then 0.0 else BaseValue(vt, m - 1) + vt[m - 1][0]
  }

  /** x is an admissible allocation: M counts in [n_low, n_up] summing to total. */
  predicate Feasible(x: seq<int>, m: nat, total: int, nLow: int, nUp: int)
  {
    |x| == m && AllWithin(x, nLow, nUp) && Sum(x) == total
  }

  /** x is feasible and no feasible allocation has a larger objective. */
  ghost predicate IsOptimal(vt: seq<seq<real>>, x: seq<int>, total: int, nLow: int, nUp: int)
  {
    && nLow <= nUp
    && Rectangular(vt, nUp - nLow + 1)
    && Feasible(x, |vt|, total, nLow, nUp)
    && forall y :: Feasible(y, |vt|, total, nLow, nUp) ==>
         Objective(vt, y, nLow) <= Objective(vt, x, nLow)
  }

  /** What _knapsack_dp returns, as a function of its table and arguments. */
  function KnapsackAlloc(vt: seq<seq<real>>, total: int, nLow: int, nUp: int): (r: seq<int>)
    requires nLow <= nUp && Rectangular(vt, nUp - nLow + 1)
    requires |vt| > 0 || total >= 0
    ensures |r| == |vt|
  {
    var m := |vt|;
    var B := total - m * nLow;
    if B < 0 then seq(m, _ => Max(0, FloorDiv(total, m)))
    else
      var cap := Min(B, nUp - nLow);
      Shifted(Backtrack(vt, m, B, cap), nLow)
  }

  /** Every excess on top of n_low. */
  function Shifted(x: seq<int>, nLow: int): seq<int>
  {
    seq(|x|, j requires 0 <= j < |x| => nLow + x[j])
  }

  // ---------------------------------------------------------------------
  // Facts about one scan

  /** The recorded choice realises the best score; while nothing reachable
      has been seen the choice stays 0. */
  lemma {:induction false} ScanRealises(vt: seq<seq<real>>, i: nat, b: nat, k: nat, cap: nat)
    requires 1 <= i <= |vt| && WellShaped(vt, cap) && k <= Min(b, cap) + 1
    ensures var (best, bk) := Scan(vt, i, b, k, cap);
      && (best.Reach? ==> Cand(vt, i, b, bk, cap) == Reach(best.v - Inc(vt[i - 1], bk)))
      && (best.Unreachable? ==> bk == 0)
  {
    assert Cand(vt, i, b, 0, cap) == Cell(vt, i - 1, b, cap);
    if k > 0 {
      ScanRealises(vt, i, b, k - 1, cap);
    }
  }

  /** Every reachable candidate examined so far is at most the best score. */
  lemma {:induction false} ScanUpperBound(vt: seq<seq<real>>, i: nat, b: nat, k: nat, cap: nat)
    requires 1 <= i <= |vt| && WellShaped(vt, cap) && k <= Min(b, cap) + 1
    ensures var best := Scan(vt, i, b, k, cap).0;
      forall e :: 0 <= e < k && Cand(vt, i, b, e, cap).Reach? ==>
        best.Reach? && Cand(vt, i, b, e, cap).v + Inc(vt[i - 1], e) <= best.v
  {
    if k > 0 {
      ScanUpperBound(vt, i, b, k - 1, cap);
    }
  }

  /** Ties keep the smallest excess: every candidate before the recorded
      choice is strictly below the best score. */
  lemma {:induction false} ScanFirst(vt: seq<seq<real>>, i: nat, b: nat, k: nat, cap: nat)
    requires 1 <= i <= |vt| && WellShaped(vt, cap) && k <= Min(b, cap) + 1
    ensures var (best, bk) := Scan(vt, i, b, k, cap);
      best.Reach? ==> forall e :: 0 <= e < bk && Cand(vt, i, b, e, cap).Reach? ==>
        Cand(vt, i, b, e, cap).v + Inc(vt[i - 1], e) < best.v
  {
    if k > 0 {
      ScanFirst(vt, i, b, k - 1, cap);
      ScanUpperBound(vt, i, b, k - 1, cap);
    }
  }

  // ---------------------------------------------------------------------
  // Facts about the table

  lemma IncSumSnoc(vt: seq<seq<real>>, e: seq<int>, k: int)
    requires |e| < |vt| && 0 <= k < |vt[|e|]|
    requires forall j :: 0 <= j < |e| ==> 0 <= e[j] < |vt[j]|
    ensures IncSum(vt, e + [k]) == IncSum(vt, e) + Inc(vt[|e|], k)
  {
    assert (e + [k])[..|e|] == e;
  }

  /** Splitting the last excess off a vector that spends b. */
  lemma SplitLast(e: seq<int>, cap: nat, b: int)
    requires |e| > 0 && ExcessWithin(e, cap) && Sum(e) == b
    ensures ExcessWithin(e[..|e| - 1], cap)
    ensures Sum(e[..|e| - 1]) == b - e[|e| - 1]
    ensures 0 <= e[|e| - 1] <= b
  {
    SumLast(e);
    SumNonNegative(e[..|e| - 1]);
  }

  /** One step of the recurrence: a reachable candidate for excess e makes
      cell (i, b) reachable with at least the candidate's value plus the
      increment. */
  lemma CellAtLeastCandidate(vt: seq<seq<real>>, i: nat, b: nat, e: nat, cap: nat)
    requires 1 <= i <= |vt| && WellShaped(vt, cap) && e <= Min(b, cap)
    requires Cand(vt, i, b, e, cap).Reach?
    ensures Cell(vt, i, b, cap).Reach?
    ensures Cand(vt, i, b, e, cap).v + Inc(vt[i - 1], e) <= Cell(vt, i, b, cap).v
  {
    ScanUpperBound(vt, i, b, Min(b, cap) + 1, cap);
  }

  /** Optimality of a dp cell: every excess vector for the first i prompts
      that spends exactly b makes the cell reachable, and its increment is at
      most the cell's value. */
  lemma {:induction false} CellIsUpperBound(vt: seq<seq<real>>, i: nat, b: nat, cap: nat, e: seq<int>)
    requires i <= |vt| && WellShaped(vt, cap)
    requires |e| == i && ExcessWithin(e, cap) && Sum(e) == b
    ensures Cell(vt, i, b, cap).Reach?
    ensures IncSum(vt, e) <= Cell(vt, i, b, cap).v
  {
    if i == 0 {
      assert b == 0;
    } else {
      var last := e[i - 1];
      var e' := e[..i - 1];
      SplitLast(e, cap, b);
      CellIsUpperBound(vt, i - 1, b - last, cap, e');
      CellAtLeastCandidate(vt, i, b, last, cap);
    }
  }

  /** The recorded choice of a reachable cell points at a reachable cell of
      the previous row whose value plus the increment is the cell's value. */
  lemma ChoiceRealises(vt: seq<seq<real>>, i: nat, b: nat, cap: nat)
    requires 1 <= i <= |vt| && WellShaped(vt, cap)
    requires Cell(vt, i, b, cap).Reach?
    ensures var k := Choice(vt, i, b, cap);
      && Cell(vt, i - 1, b - k, cap).Reach?
      && Cell(vt, i - 1, b - k, cap).v + Inc(vt[i - 1], k) == Cell(vt, i, b, cap).v
  {
    var k := Choice(vt, i, b, cap);
    ScanRealises(vt, i, b, Min(b, cap) + 1, cap);
    assert Cand(vt, i, b, k, cap) == Cell(vt, i - 1, b - k, cap);
  }

  /** The backtrack from a reachable cell recovers an excess vector that
      spends exactly b, stays within [0, cap] and realises the cell's value. */
  lemma BacktrackRealises(vt: seq<seq<real>>, i: nat, b: nat, cap: nat)
    requires i <= |vt| && WellShaped(vt, cap)
    requires Cell(vt, i, b, cap).Reach?
    ensures ExcessWithin(Backtrack(vt, i, b, cap), cap)
    ensures Sum(Backtrack(vt, i, b, cap)) == b
    ensures IncSum(vt, Backtrack(vt, i, b, cap)) == Cell(vt, i, b, cap).v
  {
    BacktrackSpends(vt, i, b, cap);
    BacktrackValue(vt, i, b, cap);
  }

  lemma {:induction false} BacktrackSpends(vt: seq<seq<real>>, i: nat, b: nat, cap: nat)
    requires i <= |vt| && WellShaped(vt, cap)
    requires Cell(vt, i, b, cap).Reach?
    ensures ExcessWithin(Backtrack(vt, i, b, cap), cap)
    ensures Sum(Backtrack(vt, i, b, cap)) == b
  {
    if i > 0 {
      var k := Choice(vt, i, b, cap);
      ChoiceRealises(vt, i, b, cap);
      BacktrackSpends(vt, i - 1, b - k, cap);
      SumConcat(Backtrack(vt, i - 1, b - k, cap), [k]);
    }
  }

  lemma {:induction false} BacktrackValue(vt: seq<seq<real>>, i: nat, b: nat, cap: nat)
    requires i <= |vt| && WellShaped(vt, cap)
    requires Cell(vt, i, b, cap).Reach?
    requires ExcessWithin(Backtrack(vt, i, b, cap), cap)
    ensures IncSum(vt, Backtrack(vt, i, b, cap)) == Cell(vt, i, b, cap).v
  {
    if i > 0 {
      var k := Choice(vt, i, b, cap);
      ChoiceRealises(vt, i, b, cap);
      BacktrackSpends(vt, i - 1, b - k, cap);
      BacktrackValue(vt, i - 1, b - k, cap);
      IncSumSnoc(vt, Backtrack(vt, i - 1, b - k, cap), k);
    }
  }

  /** From an unreachable cell every recorded choice is 0. */
  lemma {:induction false} BacktrackFromUnreachable(vt: seq<seq<real>>, i: nat, b: nat, cap: nat)
    requires i <= |vt| && WellShaped(vt, cap)
    requires Cell(vt, i, b, cap).Unreachable?
    ensures Backtrack(vt, i, b, cap) == seq(i, _ => 0)
  {
    if i > 0 {
      ScanRealises(vt, i, b, Min(b, cap) + 1, cap);
      ScanUpperBound(vt, i, b, Min(b, cap) + 1, cap);
      assert Cand(vt, i, b, 0, cap) == Cell(vt, i - 1, b, cap);
      BacktrackFromUnreachable(vt, i - 1, b, cap);
      assert Backtrack(vt, i, b, cap) == seq(i - 1, _ => 0) + [0];
    }
  }

  /** A vector of i excesses in [0, cap] summing to b, when b <= i * cap. */
  function Spread(i: nat, b: nat, cap: nat): (e: seq<int>)
    requires b <= i * cap
    ensures |e| == i && ExcessWithin(e, cap) && Sum(e) == b
  {
    if i == 0 then []
    else
      var last := Min(b, cap);
      var e' := Spread(i - 1, b - last, cap);
      SumConcat(e', [last]);
      e' + [last]
  }

  /** Reachability of a dp cell: exactly the budgets i prompts can spend. */
  lemma CellReachableIff(vt: seq<seq<real>>, i: nat, b: nat, cap: nat)
    requires i <= |vt| && WellShaped(vt, cap)
    ensures Cell(vt, i, b, cap).Reach? <==> b <= i * cap
  {
    if b <= i * cap {
      CellIsUpperBound(vt, i, b, cap, Spread(i, b, cap));
    }
    if Cell(vt, i, b, cap).Reach? {
      BacktrackRealises(vt, i, b, cap);
      SumWithin(Backtrack(vt, i, b, cap), 0, cap);
    }
  }

  /** Deterministic tie-break: the recorded choice of a reachable cell is the
      smallest excess whose candidate attains the cell's maximum over all
      excesses 0..min(b, cap); an unreachable cell has only unreachable
      candidates and records 0. */
  lemma ChoiceIsFirstMaximiser(vt: seq<seq<real>>, i: nat, b: nat, cap: nat)
    requires 1 <= i <= |vt| && WellShaped(vt, cap)
    ensures var best, c := Cell(vt, i, b, cap), Choice(vt, i, b, cap);
      && (best.Reach? ==>
            && Cand(vt, i, b, c, cap) == Reach(best.v - Inc(vt[i - 1], c))
            && (forall e :: 0 <= e <= Min(b, cap) && Cand(vt, i, b, e, cap).Reach? ==>
                  Cand(vt, i, b, e, cap).v + Inc(vt[i - 1], e) <= best.v)
            && (forall e :: 0 <= e < c && Cand(vt, i, b, e, cap).Reach? ==>
                  Cand(vt, i, b, e, cap).v + Inc(vt[i - 1], e) < best.v))
      && (best.Unreachable? ==>
            && c == 0
            && forall e :: 0 <= e <= Min(b, cap) ==> Cand(vt, i, b, e, cap).Unreachable?)
  {
    ScanRealises(vt, i, b, Min(b, cap) + 1, cap);
    ScanUpperBound(vt, i, b, Min(b, cap) + 1, cap);
    ScanFirst(vt, i, b, Min(b, cap) + 1, cap);
  }

  // ---------------------------------------------------------------------
  // Facts about the allocation

  lemma {:induction false} ObjectiveSplits(vt: seq<seq<real>>, e: seq<int>, x: seq<int>, nLow: int)
    requires |x| == |e| <= |vt|
    requires forall j :: 0 <= j < |e| ==> 0 <= e[j] < |vt[j]| && x[j] == nLow + e[j]
    ensures Objective(vt, x, nLow) == IncSum(vt, e) + BaseValue(vt, |x|)
  {
    if |x| > 0 {
      ObjectiveSplits(vt, e[..|e| - 1], x[..|x| - 1], nLow);
    }
  }

  lemma CapCoversBudget(m: nat, B: nat, w: nat)
    requires B <= m * w
    ensures B <= m * Min(B, w)
  {
    if B < w && m > 0 {
      assert m * B >= 1 * B;
    }
  }

  /** Feasible case: every count lies in [n_low, n_up] and they sum to total. */
  lemma KnapsackFeasible(vt: seq<seq<real>>, total: int, nLow: int, nUp: int)
    requires nLow <= nUp && Rectangular(vt, nUp - nLow + 1)
    requires 0 <= total - |vt| * nLow <= |vt| * (nUp - nLow)
    ensures Feasible(KnapsackAlloc(vt, total, nLow, nUp), |vt|, total, nLow, nUp)
  {
    var m, B := |vt|, total - |vt| * nLow;
    var cap := Min(B, nUp - nLow);
    CapCoversBudget(m, B, nUp - nLow);
    CellReachableIff(vt, m, B, cap);
    BacktrackRealises(vt, m, B, cap);
    var x := Backtrack(vt, m, B, cap);
    SumShift(x, nLow, KnapsackAlloc(vt, total, nLow, nUp));
  }

  /** Feasible case: the DP allocation is optimal against every admissible
      allocation (the brute-force comparison of the source's unit test). */
  lemma KnapsackOptimal(vt: seq<seq<real>>, total: int, nLow: int, nUp: int)
    requires nLow <= nUp && Rectangular(vt, nUp - nLow + 1)
    requires 0 <= total - |vt| * nLow <= |vt| * (nUp - nLow)
    ensures IsOptimal(vt, KnapsackAlloc(vt, total, nLow, nUp), total, nLow, nUp)
  {
    var r := KnapsackAlloc(vt, total, nLow, nUp);
    KnapsackValue(vt, total, nLow, nUp);
    forall y | Feasible(y, |vt|, total, nLow, nUp)
      ensures Objective(vt, y, nLow) <= Objective(vt, r, nLow)
    {
      FeasibleBelowCell(vt, y, total, nLow, nUp);
    }
  }

  /** Feasible case: the DP allocation is worth the base value plus the last
      dp cell. */
  lemma KnapsackValue(vt: seq<seq<real>>, total: int, nLow: int, nUp: int)
    requires nLow <= nUp && Rectangular(vt, nUp - nLow + 1)
    requires 0 <= total - |vt| * nLow <= |vt| * (nUp - nLow)
    ensures var B, r := total - |vt| * nLow, KnapsackAlloc(vt, total, nLow, nUp);
      && Feasible(r, |vt|, total, nLow, nUp)
      && Cell(vt, |vt|, B, Min(B, nUp - nLow)).Reach?
      && Objective(vt, r, nLow) == BaseValue(vt, |vt|) + Cell(vt, |vt|, B, Min(B, nUp - nLow)).v
  {
    var m, B := |vt|, total - |vt| * nLow;
    var cap := Min(B, nUp - nLow);
    var r := KnapsackAlloc(vt, total, nLow, nUp);
    var x := Backtrack(vt, m, B, cap);
    KnapsackFeasible(vt, total, nLow, nUp);
    CapCoversBudget(m, B, nUp - nLow);
    CellReachableIff(vt, m, B, cap);
    BacktrackRealises(vt, m, B, cap);
    assert r == Shifted(x, nLow);
    ObjectiveSplits(vt, x, r, nLow);
  }

  /** Every admissible allocation is worth at most the base value plus the
      last dp cell. */
  lemma FeasibleBelowCell(vt: seq<seq<real>>, y: seq<int>, total: int, nLow: int, nUp: int)
    requires nLow <= nUp && Rectangular(vt, nUp - nLow + 1)
    requires 0 <= total - |vt| * nLow
    requires Feasible(y, |vt|, total, nLow, nUp)
    ensures var B := total - |vt| * nLow;
      && Cell(vt, |vt|, B, Min(B, nUp - nLow)).Reach?
      && Objective(vt, y, nLow) <= BaseValue(vt, |vt|) + Cell(vt, |vt|, B, Min(B, nUp - nLow)).v
  {
    var m, B := |vt|, total - |vt| * nLow;
    var cap := Min(B, nUp - nLow);
    var e := seq(m, j requires 0 <= j < m => y[j] - nLow);
    SumShift(e, nLow, y);
    forall j | 0 <= j < m ensures 0 <= e[j] <= cap {
      ElementAtMostSum(e, j);
    }
    CellIsUpperBound(vt, m, B, cap, e);
    ObjectiveSplits(vt, e, y, nLow);
  }

  /** Over-budget case: the last cell stays unreachable, every choice is 0 and
      every prompt keeps n_low. */
  lemma KnapsackOverCapacity(vt: seq<seq<real>>, total: int, nLow: int, nUp: int)
    requires nLow <= nUp && Rectangular(vt, nUp - nLow + 1)
    requires total - |vt| * nLow > |vt| * (nUp - nLow)
    ensures KnapsackAlloc(vt, total, nLow, nUp) == seq(|vt|, _ => nLow)
  {
    var m, B := |vt|, total - |vt| * nLow;
    var cap := Min(B, nUp - nLow);
    MulAtMost(m, cap, nUp - nLow);
    CellReachableIff(vt, m, B, cap);
    BacktrackFromUnreachable(vt, m, B, cap);
  }

  /** Below the n_low floor every prompt gets max(0, total // M), which is
      below n_low, and the fallback spends at most the budget. */
  lemma KnapsackFallback(vt: seq<seq<real>>, total: int, nLow: int, nUp: int)
    requires 0 <= nLow <= nUp && Rectangular(vt, nUp - nLow + 1)
    requires total >= 0 && total - |vt| * nLow < 0
    ensures Sum(KnapsackAlloc(vt, total, nLow, nUp)) <= total
    ensures AllWithin(KnapsackAlloc(vt, total, nLow, nUp), 0, nLow)
  {
    var m := |vt|;
    var take := FloorDiv(total, m);
    FloorDivNonNegative(total, m);
    if take > nLow {
      MulAtMost(m, nLow, take);
    }
    assert KnapsackAlloc(vt, total, nLow, nUp) == seq(m, _ => take);
    SumConst(m, take);
  }

  /** Sum and bounds of the DP result in each of its three cases. */
  lemma KnapsackSumAtMostBudget(vt: seq<seq<real>>, total: int, nLow: int, nUp: int)
    requires 0 <= nLow <= nUp && Rectangular(vt, nUp - nLow + 1)
    requires total >= 0
    ensures Sum(KnapsackAlloc(vt, total, nLow, nUp)) <= total
    ensures AllWithin(KnapsackAlloc(vt, total, nLow, nUp), 0, nUp)
    ensures total - |vt| * nLow >= 0 ==> AllWithin(KnapsackAlloc(vt, total, nLow, nUp), nLow, nUp)
    ensures 0 <= total - |vt| * nLow <= |vt| * (nUp - nLow) ==>
      Sum(KnapsackAlloc(vt, total, nLow, nUp)) == total
    ensures total - |vt| * nLow > |vt| * (nUp - nLow) ==>
      Sum(KnapsackAlloc(vt, total, nLow, nUp)) == |vt| * nLow
  {
    var m, B := |vt|, total - |vt| * nLow;
    var r := KnapsackAlloc(vt, total, nLow, nUp);
    if B < 0 {
      KnapsackFallback(vt, total, nLow, nUp);
    } else if B <= m * (nUp - nLow) {
      KnapsackFeasible(vt, total, nLow, nUp);
    } else {
      KnapsackOverCapacity(vt, total, nLow, nUp);
      SumConst(m, nLow);
    }
  }

  // ---------------------------------------------------------------------
  // One more attempt of budget

  /** Every row of the table is nondecreasing, as _value_table's rows are. */
  predicate RowsNondecreasing(vt: seq<seq<real>>)
  {
    forall i, j, k :: 0 <= i < |vt| && 0 <= j <= k < |vt[i]| ==> vt[i][j] <= vt[i][k]
  }

  /** Changing one count changes the objective by the difference of that
      prompt's two table entries. */
  lemma {:induction false} ObjectiveUpdate(vt: seq<seq<real>>, x: seq<int>, nLow: int, k: nat, v: int)
    requires k < |x| <= |vt|
    requires forall j :: 0 <= j < |x| ==> 0 <= x[j] - nLow < |vt[j]|
    requires 0 <= v - nLow < |vt[k]|
    ensures var y := x[k := v];
      && (forall j :: 0 <= j < |y| ==> 0 <= y[j] - nLow < |vt[j]|)
      && Objective(vt, y, nLow) == Objective(vt, x, nLow) - vt[k][x[k] - nLow] + vt[k][v - nLow]
  {
    var n := |x| - 1;
    var y := x[k := v];
    if k < n {
      assert y[..n] == x[..n][k := v];
      ObjectiveUpdate(vt, x[..n], nLow, k, v);
    } else {
      assert y[..n] == x[..n];
    }
  }

  /** Counts in [lo, hi] that add up to less than |x| * hi leave some count
      below hi. */
  lemma SomeBelowCap(x: seq<int>, lo: int, hi: int) returns (k: nat)
    requires AllWithin(x, lo, hi) && Sum(x) < |x| * hi
    ensures k < |x| && x[k] < hi
  {
    if forall j :: 0 <= j < |x| ==> x[j] >= hi {
      SumWithin(x, hi, hi);
      assert false;
    }
    k :| 0 <= k < |x| && x[k] < hi;
  }

  /** Counts in [lo, hi] that add up to |x| * hi are all hi. */
  lemma AllAtCap(x: seq<int>, lo: int, hi: int)
    requires AllWithin(x, lo, hi) && Sum(x) == |x| * hi
    ensures forall i :: 0 <= i < |x| ==> x[i] == hi
  {
    forall i | 0 <= i < |x| ensures x[i] == hi {
      if x[i] < hi {
        SumUpdate(x, i, hi);
        SumWithin(x[i := hi], lo, hi);
        assert false;
      }
    }
  }

  /** Below full capacity, one more attempt of budget never lowers the
      objective of the DP allocation when every row is nondecreasing: the
      optimum at `total` plus one attempt for a prompt below n_up is
      admissible at total + 1. */
  lemma KnapsackMonotoneTable(vt: seq<seq<real>>, total: int, nLow: int, nUp: int)
    requires nLow <= nUp && Rectangular(vt, nUp - nLow + 1) && RowsNondecreasing(vt)
    requires |vt| * nLow <= total < |vt| * nUp
    ensures var lo, hi := KnapsackAlloc(vt, total, nLow, nUp), KnapsackAlloc(vt, total + 1, nLow, nUp);
      && Feasible(lo, |vt|, total, nLow, nUp) && Feasible(hi, |vt|, total + 1, nLow, nUp)
      && Objective(vt, lo, nLow) <= Objective(vt, hi, nLow)
  {
    MulDifference(|vt|, nUp, nLow);
    var lo := KnapsackAlloc(vt, total, nLow, nUp);
    KnapsackOptimal(vt, total, nLow, nUp);
    KnapsackOptimal(vt, total + 1, nLow, nUp);
    var y := OneMore(vt, lo, total, nLow, nUp);
  }

  /** A feasible allocation below full capacity plus one attempt for a prompt
      below n_up: feasible at total + 1 and no lower in objective. */
  lemma OneMore(vt: seq<seq<real>>, x: seq<int>, total: int, nLow: int, nUp: int) returns (y: seq<int>)
    requires nLow <= nUp && Rectangular(vt, nUp - nLow + 1) && RowsNondecreasing(vt)
    requires Feasible(x, |vt|, total, nLow, nUp) && total < |vt| * nUp
    ensures Feasible(y, |vt|, total + 1, nLow, nUp)
    ensures Objective(vt, x, nLow) <= Objective(vt, y, nLow)
  {
    var k := SomeBelowCap(x, nLow, nUp);
    y := x[k := x[k] + 1];
    SumUpdate(x, k, x[k] + 1);
    ObjectiveUpdate(vt, x, nLow, k, x[k] + 1);
    assert vt[k][x[k] - nLow] <= vt[k][x[k] + 1 - nLow];
  }

  /** Where monotonicity breaks: at total = M * n_up every prompt gets n_up,
      and one attempt more every prompt falls back to n_low. */
  lemma KnapsackCapacityCliff(vt: seq<seq<real>>, nLow: int, nUp: int)
    requires nLow <= nUp && Rectangular(vt, nUp - nLow + 1)
    ensures KnapsackAlloc(vt, |vt| * nUp, nLow, nUp) == seq(|vt|, _ => nUp)
    ensures KnapsackAlloc(vt, |vt| * nUp + 1, nLow, nUp) == seq(|vt|, _ => nLow)
  {
    var m := |vt|;
    MulDifference(m, nUp, nLow);
    MulAtMost(m, nLow, nUp);
    KnapsackFeasible(vt, m * nUp, nLow, nUp);
    AllAtCap(KnapsackAlloc(vt, m * nUp, nLow, nUp), nLow, nUp);
    KnapsackOverCapacity(vt, m * nUp + 1, nLow, nUp);
  }

  // ---------------------------------------------------------------------
  // The imperative DP

  /** The inner loop of _knapsack_dp for cell (i, b): scans the excesses
      0..min(b, max_extra) against row i - 1 of the table, skipping
      unreachable candidates and keeping the first strict maximum. */
  method ScanCell(vt: seq<seq<real>>, dp: array2<Score>, i: nat, b: nat, cap: nat)
    returns (best: Score, bestK: nat)
    requires 1 <= i <= |vt| && WellShaped(vt, cap)
    requires i - 1 < dp.Length0 && b < dp.Length1
    requires forall r, c :: 0 <= r < i && 0 <= c <= b ==> dp[r, c] == Cell(vt, r, c, cap)
    ensures (best, bestK) == Scan(vt, i, b, Min(b, cap) + 1, cap)
    ensures best == Cell(vt, i, b, cap) && bestK == Choice(vt, i, b, cap)
  {
    var vi := vt[i - 1];
    best, bestK := dp[i - 1, b], 0;
    for kExtra := 0 to Min(b, cap) + 1
      invariant (best, bestK) == Scan(vt, i, b, kExtra, cap)
    {
      var cand := dp[i - 1, b - kExtra];
      assert cand == Cand(vt, i, b, kExtra, cap);
      if cand.Unreachable? {
        continue;
      }
      var inc := if kExtra > 0 then vi[kExtra] - vi[0] else 0.0;
      var val := cand.v + inc;
      if Improves(val, best) {
        best, bestK := Reach(val), kExtra;
      }
    }
  }

  /** One pass of the loop over b: fills dp[i, 0..B] and choice[i-1, 0..B]
      from row i - 1 and leaves every other row as it was. */
  method FillRow(vt: seq<seq<real>>, dp: array2<Score>, choice: array2<int>, i: nat, B: nat, cap: nat)
    requires 1 <= i <= |vt| && WellShaped(vt, cap)
    requires dp.Length0 == |vt| + 1 && dp.Length1 == B + 1
    requires choice.Length0 == |vt| && choice.Length1 == B + 1
    requires forall r, c :: 0 <= r < i && 0 <= c <= B ==> dp[r, c] == Cell(vt, r, c, cap)
    modifies dp, choice
    ensures forall c :: 0 <= c <= B ==> dp[i, c] == Cell(vt, i, c, cap)
    ensures forall c :: 0 <= c <= B ==> choice[i - 1, c] == Choice(vt, i, c, cap)
    ensures forall r, c :: 0 <= r <= |vt| && r != i && 0 <= c <= B ==> dp[r, c] == old(dp[r, c])
    ensures forall r, c :: 0 <= r < |vt| && r != i - 1 && 0 <= c <= B ==> choice[r, c] == old(choice[r, c])
  {
    for b := 0 to B + 1
      invariant forall r, c :: 0 <= r <= |vt| && r != i && 0 <= c <= B ==> dp[r, c] == old(dp[r, c])
      invariant forall r, c :: 0 <= r < |vt| && r != i - 1 && 0 <= c <= B ==> choice[r, c] == old(choice[r, c])
      invariant forall c :: 0 <= c < b ==> dp[i, c] == Cell(vt, i, c, cap)
      invariant forall c :: 0 <= c < b ==> choice[i - 1, c] == Choice(vt, i, c, cap)
    {
      var best, bestK := ScanCell(vt, dp, i, b, cap);
      dp[i, b] := best;
      choice[i - 1, b] := bestK;
    }
  }

  /** The forward pass of _knapsack_dp: the dp table over rows 0..M and
      budgets 0..B, and the choice table of every prompt. */
  method FillTables(vt: seq<seq<real>>, B: nat, cap: nat) returns (dp: array2<Score>, choice: array2<int>)
    requires WellShaped(vt, cap)
    ensures fresh(dp) && fresh(choice)
    ensures dp.Length0 == |vt| + 1 && dp.Length1 == B + 1
    ensures choice.Length0 == |vt| && choice.Length1 == B + 1
    ensures forall r, c :: 0 <= r <= |vt| && 0 <= c <= B ==> dp[r, c] == Cell(vt, r, c, cap)
    ensures forall r, c :: 0 <= r < |vt| && 0 <= c <= B ==> choice[r, c] == Choice(vt, r + 1, c, cap)
  {
    var m := |vt|;
    dp := new Score[m + 1, B + 1]((_, _) => Unreachable);
    dp[0, 0] := Reach(0.0);
    choice := new int[m, B + 1]((_, _) => -1);
    for i := 1 to m + 1
      invariant forall r, c :: 0 <= r < i && 0 <= c <= B ==> dp[r, c] == Cell(vt, r, c, cap)
      invariant forall r, c :: 0 <= r < i - 1 && 0 <= c <= B ==> choice[r, c] == Choice(vt, r + 1, c, cap)
    {
      FillRow(vt, dp, choice, i, B, cap);
    }
  }

  /** Peeling the last prompt off a backtrack prefix. */
  lemma BacktrackStep(vt: seq<seq<real>>, i: nat, b: nat, cap: nat, x: seq<int>)
    requires 1 <= i <= |x| && i <= |vt| && WellShaped(vt, cap)
    requires Backtrack(vt, i, b, cap) == x[..i]
    ensures x[i - 1] == Choice(vt, i, b, cap) <= b
    ensures Backtrack(vt, i - 1, b - Choice(vt, i, b, cap), cap) == x[..i - 1]
  {
    assert x[..i - 1] == x[..i][..i - 1];
  }

  /** The budget left for the first i prompts once the backtrack has served
      prompts i .. |x|-1 out of B. */
  ghost function Lefts(x: seq<int>, B: nat): (left: seq<int>)
    ensures |left| == |x| + 1
  {
    seq(|x| + 1, i requires 0 <= i <= |x| => B - Sum(x[i..]))
  }

  /** Prompt i's step of a backward pass: its entry of `choice` sits at the
      budget left[i + 1] the later prompts left over, and taking it leaves
      left[i]. */
  ghost predicate TraceStep(choice: array2<int>, B: nat, x: seq<int>, left: seq<int>, i: nat)
    reads choice
  {
    && i < |x| && i + 1 < |left|
    && 0 <= x[i] && 0 <= left[i] && 0 <= left[i + 1] <= B
    && i < choice.Length0 && left[i + 1] < choice.Length1
    && choice[i, left[i + 1]] == x[i] && left[i] == left[i + 1] - x[i]
  }

  /** x is what a backward pass reads out of `choice` starting from budget B. */
  ghost predicate TracedBy(choice: array2<int>, B: nat, x: seq<int>, left: seq<int>)
    reads choice
  {
    && |x| == choice.Length0 && choice.Length1 == B + 1
    && |left| == |x| + 1 && left[|x|] == B
    && forall i :: 0 <= i < |x| ==> TraceStep(choice, B, x, left, i)
  }

  /** The first j prompts of x are the backtrack from the budget the
      prompts after them leave over. */
  ghost predicate Prefixed(vt: seq<seq<real>>, B: nat, cap: nat, x: seq<int>, j: nat)
  {
    && j <= |x| && j <= |vt| && WellShaped(vt, cap)
    && 0 <= Sum(x[j..]) <= B
    && Backtrack(vt, j, B - Sum(x[j..]), cap) == x[..j]
  }

  lemma BacktrackPrefixStep(vt: seq<seq<real>>, B: nat, cap: nat, x: seq<int>, j: nat)
    requires 0 < j && Prefixed(vt, B, cap, x, j)
    ensures Prefixed(vt, B, cap, x, j - 1)
  {
    var b := B - Sum(x[j..]);
    BacktrackStep(vt, j, b, cap, x);
    SumFront(x, j - 1);
  }

  /** Every prefix of the backtrack is the backtrack of that prefix. */
  lemma {:induction false} BacktrackPrefix(vt: seq<seq<real>>, B: nat, cap: nat, x: seq<int>, i: nat)
    requires WellShaped(vt, cap) && x == Backtrack(vt, |vt|, B, cap) && i <= |vt|
    ensures Prefixed(vt, B, cap, x, i)
    decreases |vt| - i
  {
    if i == |vt| {
      assert x[i..] == [];
      assert x[..i] == x;
    } else {
      BacktrackPrefix(vt, B, cap, x, i + 1);
      BacktrackPrefixStep(vt, B, cap, x, i + 1);
    }
  }

  /** A choice table filled with the DP's choices traces the backtrack. */
  lemma BacktrackTraced(vt: seq<seq<real>>, choice: array2<int>, B: nat, cap: nat)
    requires WellShaped(vt, cap)
    requires choice.Length0 == |vt| && choice.Length1 == B + 1
    requires forall r, c :: 0 <= r < |vt| && 0 <= c <= B ==> choice[r, c] == Choice(vt, r + 1, c, cap)
    ensures var x := Backtrack(vt, |vt|, B, cap); TracedBy(choice, B, x, Lefts(x, B))
  {
    var x := Backtrack(vt, |vt|, B, cap);
    var left := Lefts(x, B);
    assert x[|x|..] == [];
    forall i | 0 <= i < |x|
      ensures TraceStep(choice, B, x, left, i)
    {
      BacktrackPrefix(vt, B, cap, x, i + 1);
      BacktrackStep(vt, i + 1, left[i + 1], cap, x);
      SumFront(x, i);
    }
  }

  /** The backward pass of _knapsack_dp: from budget B, each prompt from the
      last to the first takes its recorded choice (a negative entry counting
      as 0) on top of n_low; along a trace it reads back the trace. */
  method Backtrace(choice: array2<int>, B: nat, nLow: int, ghost x: seq<int>, ghost left: seq<int>)
    returns (alloc: seq<int>)
    requires TracedBy(choice, B, x, left)
    ensures alloc == Shifted(x, nLow)
  {
    var m := choice.Length0;
    var out := new int[m](_ => nLow);
    var b := B;
    var i := m;
    while i > 0
      invariant 0 <= i <= m && b == left[i]
      invariant forall t :: 0 <= t < i ==> out[t] == nLow
      invariant forall t :: i <= t < m ==> out[t] == nLow + x[t]
    {
      assert TraceStep(choice, B, x, left, i - 1);
      var kExtra := choice[i - 1, b];
      if kExtra < 0 {
        kExtra := 0;
      }
      out[i - 1] := out[i - 1] + kExtra;
      b := b - kExtra;
      i := i - 1;
    }
    alloc := out[..];
  }

  /** The three cases of the DP's result: the fallback when n_low for
      everyone is over budget, an optimal allocation in the feasible range,
      and all n_low over capacity. */
  lemma KnapsackAllocCases(vt: seq<seq<real>>, total: int, nLow: int, nUp: int)
    requires nLow <= nUp && Rectangular(vt, nUp - nLow + 1)
    requires |vt| > 0 || total >= 0
    ensures total - |vt| * nLow < 0 ==>
      KnapsackAlloc(vt, total, nLow, nUp) == seq(|vt|, _ => Max(0, FloorDiv(total, |vt|)))
    ensures 0 <= total - |vt| * nLow <= |vt| * (nUp - nLow) ==>
      IsOptimal(vt, KnapsackAlloc(vt, total, nLow, nUp), total, nLow, nUp)
    ensures total - |vt| * nLow > |vt| * (nUp - nLow) ==>
      KnapsackAlloc(vt, total, nLow, nUp) == seq(|vt|, _ => nLow)
  {
    var m, B := |vt|, total - |vt| * nLow;
    if 0 <= B <= m * (nUp - nLow) {
      KnapsackOptimal(vt, total, nLow, nUp);
    } else if B > m * (nUp - nLow) {
      KnapsackOverCapacity(vt, total, nLow, nUp);
    }
  }

  /** The forward pass and the backtrack from dp[M, B] for a budget B >= 0. */
  method FillAndBacktrack(vt: seq<seq<real>>, totalBudget: int, nLow: int, nUp: int) returns (alloc: seq<int>)
    requires nLow <= nUp && Rectangular(vt, nUp - nLow + 1)
    requires totalBudget - |vt| * nLow >= 0
    ensures alloc == KnapsackAlloc(vt, totalBudget, nLow, nUp)
  {
    var m := |vt|;
    var B := totalBudget - m * nLow;
    var cap := Min(B, nUp - nLow);
    var dp, choice := FillTables(vt, B, cap);
    BacktrackTraced(vt, choice, B, cap);
    ghost var x := Backtrack(vt, m, B, cap);
    alloc := Backtrace(choice, B, nLow, x, Lefts(x, B));
  }

  /** _knapsack_dp over a given value table: the fallback when even n_low
      for everyone is over budget, otherwise the forward pass and the
      backtrack from dp[M, B]. */
method KnapsackDpTable(vt: seq<seq<real>>, totalBudget: int, nLow: int, nUp: int) returns (alloc: seq<int>)
    requires nLow <= nUp && Rectangular(vt, nUp - nLow + 1)
    requires |vt| > 0 || totalBudget >= 0
    ensures alloc == KnapsackAlloc(vt, totalBudget, nLow, nUp)
    ensures totalBudget - |vt| * nLow < 0 ==>
      alloc == seq(|vt|, _ => Max(0, FloorDiv(totalBudget, |vt|)))
    ensures 0 <= totalBudget - |vt| * nLow <= |vt| * (nUp - nLow) ==>
      IsOptimal(vt, alloc, totalBudget, nLow, nUp)
    ensures totalBudget - |vt| * nLow > |vt| * (nUp - nLow) ==> alloc == seq(|vt|, _ => nLow)
  {
    KnapsackAllocCases(vt, totalBudget, nLow, nUp);
    var m := |vt|;
    var B := totalBudget - m * nLow;
    if B < 0 {
      var take := Max(0, FloorDiv(totalBudget, m));
      alloc := seq(m, _ => take);
    } else {
      alloc := FillAndBacktrack(vt, totalBudget, nLow, nUp);
    }
  }

  /** One value table per prompt: the list `vt` of _knapsack_dp. */
  function ValueTables(p: seq<real>, nLow: int, nUp: int): (vt: seq<seq<real>>)
    requires nLow <= nUp
    ensures |vt| == |p| && Rectangular(vt, nUp - nLow + 1)
  {
    seq(|p|, i requires 0 <= i < |p| => ValueModel.ValueTable(p[i], nLow, nUp))
  }

  /** The value tables' rows are nondecreasing (ValueTableShape). */
  lemma ValueTablesNondecreasing(p: seq<real>, nLow: int, nUp: int)
    requires nLow <= nUp
    ensures RowsNondecreasing(ValueTables(p, nLow, nUp))
  {
    var vt := ValueTables(p, nLow, nUp);
    forall i | 0 <= i < |vt| ensures forall j, k :: 0 <= j <= k < |vt[i]| ==> vt[i][j] <= vt[i][k] {
      ValueModel.ValueTableShape(p[i], nLow, nUp);
    }
  }

  /** Below M * n_up, one more attempt of budget never lowers the summed
      value that _knapsack_dp achieves. */
  lemma KnapsackMonotone(p: seq<real>, total: int, nLow: int, nUp: int)
    requires nLow <= nUp && |p| * nLow <= total < |p| * nUp
    ensures var vt := ValueTables(p, nLow, nUp);
      var lo, hi := KnapsackAlloc(vt, total, nLow, nUp), KnapsackAlloc(vt, total + 1, nLow, nUp);
      && Feasible(lo, |p|, total, nLow, nUp) && Feasible(hi, |p|, total + 1, nLow, nUp)
      && Objective(vt, lo, nLow) <= Objective(vt, hi, nLow)
  {
    ValueTablesNondecreasing(p, nLow, nUp);
    KnapsackMonotoneTable(ValueTables(p, nLow, nUp), total, nLow, nUp);
  }

  /** _knapsack_dp: the DP over the value tables of the given probabilities. */
  method KnapsackDp(p: seq<real>, totalBudget: int, nLow: int, nUp: int) returns (alloc: seq<int>)
    requires nLow <= nUp
    requires |p| > 0 || totalBudget >= 0
    ensures alloc == KnapsackAlloc(ValueTables(p, nLow, nUp), totalBudget, nLow, nUp)
    ensures totalBudget - |p| * nLow < 0 ==>
      alloc == seq(|p|, _ => Max(0, FloorDiv(totalBudget, |p|)))
    ensures 0 <= totalBudget - |p| * nLow <= |p| * (nUp - nLow) ==>
      IsOptimal(ValueTables(p, nLow, nUp), alloc, totalBudget, nLow, nUp)
    ensures totalBudget - |p| * nLow > |p| * (nUp - nLow) ==> alloc == seq(|p|, _ => nLow)
  {
    var vt := ValueTables(p, nLow, nUp);
    alloc := KnapsackDpTable(vt, totalBudget, nLow, nUp);
  }
}
