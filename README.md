# Knapsack-GRPO rollout allocation, modelled in Dafny

Knapsack-GRPO decides how many rollouts each prompt of a training batch
receives. Every prompt has an estimated success rate p̂. A prompt with p
strictly inside (0, 1) is worth more attempts when a mixed outcome is likely
and its information weight p(1-p)² is high. The allocator splits a total
budget over the prompts with a bounded knapsack DP. It treats the extremes
(p ≈ 0 and p ≈ 1) separately, then repairs the sum. The trainer
turns the allocation into a flat list of prompt indices.

The project models four parts:

- `value_model.dfy` (module `ValueModel`): `_prob_nonzero_grad`,
  `_info_gain` and `_value_table`, over exact reals.
- `knapsack.dfy` (module `Knapsack`): `_knapsack_dp`. This covers the
  specification function `KnapsackAlloc` and the recurrence `Cell` / `Scan` /
  `Choice` / `Backtrack` behind it. The imperative forward pass over
  `array2` tables and the backward pass are proved equal to it. So are
  optimality against every admissible allocation, the deterministic
  tie-break and the three result cases.
- `allocator.dfy` and `extremes.dfy` (modules `Allocator`, `Extremes`):
  `allocate_with_extremes`. This covers the boolean masks (`Classify`,
  `Gather`, `MaskedAssign`), the stages (seed, scale-down, mid DP, even hard
  split, repair loop) as the specification function `AllocSpec`, and the
  in-place array method `AllocateWithExtremes` proved equal to it.
- `success_estimator.dfy` (module `SuccessEstimator`): the class
  `SuccessRateEstimator`. Its field is a map from uid to (succ_ema, fail_ema),
  and it has the methods `UpdateBatch` and `Estimate`.
- `trainer.dfy` (module `Trainer`): `_make_alloc_indices`. This is the budget
  choice, the calls into the two models above, the `extend` loop and the
  `range(M)` fallback.

`common.dfy` (module `SeqMath`) holds sums of integer sequences, Python's
floor division and modulo, and clip.

Design points that the model follows from the code:

- When every key is easy, easy_min_cover is set and the budget exceeds
  M·n_low, the seed gives every key n_low. The repair loop then hands the
  whole surplus to the first keys, in index order
  (`Extremes.AllocAllEasyFrontLoads`). Without easy_min_cover the seed is all
  0 and the repair fills key 0 up to n_up before it moves on.
- A hard key can end at 0 when the DP spent the whole budget on the mid
  keys: the even split only runs while budget remains.
- Below the n_low floor, the downward repair meets entries under n_low. There
  `can` is negative, so the entry is raised and |diff| grows. The result can
  overshoot the budget (`Allocator.RepairBelowFloorOvershoots`,
  `Extremes.AllocOvershootsBelowFloor`). The model keeps this behaviour as
  written.
- More budget never lowers the summed value of `_knapsack_dp`'s result while
  the budget stays below M·n_up (`Knapsack.KnapsackMonotone`). The code
  breaks this at the capacity boundary: at M·n_up every prompt gets n_up,
  and at M·n_up + 1 the last cell is unreachable and every prompt falls back
  to n_low (`Knapsack.KnapsackCapacityCliff`, allocator.py lines 49-78). The
  model keeps this behaviour as written.
- `_knapsack_dp` with no prompt and a negative budget divides by zero. Its
  model requires `|p| > 0 || total >= 0`. `allocate_with_extremes` only
  calls it with a mid key present and a non-negative budget.

## Model

| member | source | states |
|---|---|---|
| ValueModel.ProbNonzeroGrad | recipe/knapsack_grpo/utils/allocator.py:8-15 | _prob_nonzero_grad: 0 for p <= 0, p >= 1 or N <= 0, else 1 - p^N - (1-p)^N; its range and monotonicity are the two lemmas below |
| ValueModel.InfoGain | recipe/knapsack_grpo/utils/allocator.py:18-24 | _info_gain: 0 outside (0, 1), else p(1-p)²; InfoGainPeak states its shape |
| ValueModel.Value | recipe/knapsack_grpo/utils/allocator.py:29 | the entry of a value table: _prob_nonzero_grad(n, p) · _info_gain(p); ValueBounds and ValueMonotone state its bounds and order |
| ValueModel.ValueTable | recipe/knapsack_grpo/utils/allocator.py:27-29 | _value_table: the values for n = n_low .. n_up (empty when n_up < n_low); ValueTableShape states its length, bounds and order |
| ValueModel.ProbNonzeroGradIsProbability | recipe/knapsack_grpo/utils/allocator.py:8-15 | the mixed-outcome chance 1 - p^N - (1-p)^N is in [0, 1]; it is 0 for p <= 0, p >= 1 or N <= 0, and positive exactly when p is interior and N >= 2 |
| ValueModel.ProbNonzeroGradMonotoneRange | recipe/knapsack_grpo/utils/allocator.py:8-15 | more draws never lower the chance of a mixed outcome (n <= m implies P(n) <= P(m)) |
| ValueModel.InfoGainPeak | recipe/knapsack_grpo/utils/allocator.py:18-24 | p(1-p)² is non-negative, positive exactly inside (0, 1), and peaks at p = 1/3 with value 4/27 |
| ValueModel.ValueBounds | recipe/knapsack_grpo/utils/allocator.py:27-29 | the value of n attempts lies in [0, info_gain(p)], and for interior p it is positive exactly when n >= 2 |
| ValueModel.ValueMonotone | recipe/knapsack_grpo/utils/allocator.py:27-29 | the value is non-decreasing in the number of attempts |
| ValueModel.ValueTableShape | recipe/knapsack_grpo/utils/allocator.py:27-29 | the table has n_up - n_low + 1 entries for counts n_low..n_up, bounded by the information weight, non-decreasing, all zero at the extremes, positive exactly for counts >= 2 when p is interior |
| Knapsack.Cell | recipe/knapsack_grpo/utils/allocator.py:49-67 | dp[i, b] of the forward pass: row 0 reachable only at b = 0, row i the scan over excesses 0 .. min(b, max_extra); CellIsUpperBound, CellReachableIff and FillTables state what it holds |
| Knapsack.KnapsackAlloc | recipe/knapsack_grpo/utils/allocator.py:32-78 | what _knapsack_dp returns: the floor-division fallback when B < 0, otherwise n_low plus the backtracked excesses; one count per prompt, and KnapsackFeasible / KnapsackOptimal / KnapsackOverCapacity state its three cases |
| Knapsack.Scan | recipe/knapsack_grpo/utils/allocator.py:57-65 | the inner scan's recorded excess is at most min(b, max_extra), and is 0 or one of the excesses scanned |
| Knapsack.ScanRealises | recipe/knapsack_grpo/utils/allocator.py:57-65 | the recorded excess realises the best score; while nothing reachable has been seen it stays 0 |
| Knapsack.ScanUpperBound | recipe/knapsack_grpo/utils/allocator.py:57-65 | every reachable candidate value examined is at most the best score |
| Knapsack.ScanFirst | recipe/knapsack_grpo/utils/allocator.py:64-65 | the strict `val > best` keeps the first maximiser: every candidate before the recorded one is strictly below the best |
| Knapsack.Choice | recipe/knapsack_grpo/utils/allocator.py:67 | choice[i-1, b] lies in [0, min(b, max_extra)] |
| Knapsack.Backtrack | recipe/knapsack_grpo/utils/allocator.py:69-78 | the backtrack yields one excess per prompt |
| Knapsack.CellAtLeastCandidate | recipe/knapsack_grpo/utils/allocator.py:57-66 | a reachable candidate makes dp[i, b] reachable, with at least the candidate's value plus its increment |
| Knapsack.CellIsUpperBound | recipe/knapsack_grpo/utils/allocator.py:49-66 | every excess vector in [0, cap] that spends exactly b makes dp[i, b] reachable, and its value is at most dp[i, b] |
| Knapsack.ChoiceRealises | recipe/knapsack_grpo/utils/allocator.py:57-67 | the recorded choice of a reachable cell points to a reachable cell of the previous row whose value plus the increment is the cell's value |
| Knapsack.BacktrackRealises | recipe/knapsack_grpo/utils/allocator.py:69-78 | the backtrack from a reachable cell returns excesses in [0, cap] that spend exactly b and realise the cell's value |
| Knapsack.BacktrackSpends | recipe/knapsack_grpo/utils/allocator.py:69-78 | the backtrack from a reachable cell spends exactly b, with every excess in [0, cap] |
| Knapsack.BacktrackValue | recipe/knapsack_grpo/utils/allocator.py:69-78 | the backtrack's total increment equals the dp cell it starts from |
| Knapsack.BacktrackFromUnreachable | recipe/knapsack_grpo/utils/allocator.py:57-78 | from an unreachable cell every recorded choice is 0, so the backtrack adds nothing |
| Knapsack.CellReachableIff | recipe/knapsack_grpo/utils/allocator.py:49-66 | dp[i, b] is above the -1e30 sentinel exactly when b <= i·cap (for such b some vector of i excesses in [0, cap] spends b) |
| Knapsack.ChoiceIsFirstMaximiser | recipe/knapsack_grpo/utils/allocator.py:57-67 | deterministic tie-break: the recorded choice attains the row maximum over all excesses, every smaller excess is strictly worse, and an unreachable cell records 0 with only unreachable candidates |
| Knapsack.ObjectiveSplits | recipe/knapsack_grpo/test/test_allocator_unit.py:9-13 | the test's objective Σ vt[i][N_i - n_low] is the DP's total increment plus the value at n_low |
| Knapsack.KnapsackFeasible | recipe/knapsack_grpo/utils/allocator.py:32-78 | with M·n_low <= total <= M·n_up the DP returns M counts in [n_low, n_up] summing to total |
| Knapsack.KnapsackOptimal | recipe/knapsack_grpo/utils/allocator.py:32-78 | in the same range no admissible allocation has a larger objective (the brute-force comparison) |
| Knapsack.KnapsackValue | recipe/knapsack_grpo/utils/allocator.py:49-78 | in the same range the result is admissible and worth the value at n_low plus the last dp cell |
| Knapsack.FeasibleBelowCell | recipe/knapsack_grpo/utils/allocator.py:49-66 | every admissible allocation is worth at most the value at n_low plus the last dp cell, which is reachable |
| Knapsack.KnapsackOverCapacity | recipe/knapsack_grpo/utils/allocator.py:69-78 | when B exceeds M·(n_up - n_low), dp[M, B] is unreachable, every choice is 0 and every prompt gets n_low |
| Knapsack.ObjectiveUpdate | recipe/knapsack_grpo/test/test_allocator_unit.py:9-13 | changing one count changes the objective by the difference of that prompt's two table entries |
| Knapsack.OneMore | recipe/knapsack_grpo/utils/allocator.py:47-78 | below full capacity an admissible allocation plus one attempt for some prompt under n_up is admissible at total + 1 and worth no less, when table rows are nondecreasing |
| Knapsack.KnapsackMonotoneTable | recipe/knapsack_grpo/utils/allocator.py:40-78 | for nondecreasing rows and M·n_low <= total < M·n_up, the DP result at total + 1 is worth at least the result at total |
| Knapsack.KnapsackCapacityCliff | recipe/knapsack_grpo/utils/allocator.py:49-78 | at total = M·n_up every prompt gets n_up; at M·n_up + 1 every prompt gets n_low |
| Knapsack.KnapsackFallback | recipe/knapsack_grpo/utils/allocator.py:42-45 | below the n_low floor every prompt gets max(0, total // M), at most n_low, and the sum stays within the budget |
| Knapsack.KnapsackSumAtMostBudget | recipe/knapsack_grpo/utils/allocator.py:32-78 | for a non-negative budget the DP never spends more than the budget and keeps every count in [0, n_up] (in [n_low, n_up] once the floor fits) |
| Knapsack.KnapsackAllocCases | recipe/knapsack_grpo/utils/allocator.py:40-78 | the three cases: the floor-division fallback, an optimal allocation, or n_low everywhere |
| Knapsack.ScanCell | recipe/knapsack_grpo/utils/allocator.py:57-65 | the imperative inner loop computes dp[i, b] and choice[i-1, b] of the recurrence |
| Knapsack.FillRow | recipe/knapsack_grpo/utils/allocator.py:54-67 | one pass over b fills row i of dp and of choice and leaves every other row alone |
| Knapsack.FillTables | recipe/knapsack_grpo/utils/allocator.py:49-68 | the forward pass fills dp and choice with the recurrence's cells and choices |
| Knapsack.BacktrackTraced | recipe/knapsack_grpo/utils/allocator.py:69-78 | a choice table holding the DP's choices traces the backtrack from B |
| Knapsack.Backtrace | recipe/knapsack_grpo/utils/allocator.py:69-78 | the backward loop, with negative choices read as 0, returns n_low plus the traced excesses |
| Knapsack.FillAndBacktrack | recipe/knapsack_grpo/utils/allocator.py:47-78 | the forward pass plus the backward loop return KnapsackAlloc |
| Knapsack.KnapsackDpTable | recipe/knapsack_grpo/utils/allocator.py:40-78 | _knapsack_dp over any rectangular value table whose sums stay far above the -1e30 sentinel (all tables of `_value_table`, which are >= 0) returns KnapsackAlloc, with the fallback, optimality and all-n_low cases |
| Knapsack.ValueTables | recipe/knapsack_grpo/utils/allocator.py:47 | one table of width n_up - n_low + 1 per prompt |
| Knapsack.ValueTablesNondecreasing | recipe/knapsack_grpo/utils/allocator.py:27-29 | every row of the value tables is nondecreasing |
| Knapsack.KnapsackMonotone | recipe/knapsack_grpo/utils/allocator.py:32-78 | for M·n_low <= total < M·n_up, one more attempt of budget never lowers the summed value of _knapsack_dp's result, and both results are admissible |
| Knapsack.KnapsackDp | recipe/knapsack_grpo/utils/allocator.py:32-78 | _knapsack_dp on probabilities: the same three cases over the value tables of the probabilities |
| Allocator.Classify | recipe/knapsack_grpo/utils/allocator.py:99-105 | a key is hard iff p <= 1e-8, easy iff p >= 1 - 1e-8, and mid iff strictly between |
| Allocator.CountPartition | recipe/knapsack_grpo/utils/allocator.py:103-105 | the three masks are disjoint and cover every index |
| Allocator.NoneOf | recipe/knapsack_grpo/utils/allocator.py:107 | a mask's `.any()` is false exactly when no index classifies into it |
| Allocator.GatherAt | recipe/knapsack_grpo/utils/allocator.py:117 | p[mask] lists the selected entries in index order: index i sits at its rank among the selected indices |
| Allocator.MaskedAt | recipe/knapsack_grpo/utils/allocator.py:118 | after a[mask] = vals an index in the mask holds the value of its rank, every other index is unchanged |
| Allocator.MaskedSum | recipe/knapsack_grpo/utils/allocator.py:118 | a masked write replaces the gathered entries' sum by the values' sum |
| Allocator.GatherWhere | recipe/knapsack_grpo/utils/allocator.py:117 | the imperative gather returns p[mask] |
| Allocator.MaskedWrite | recipe/knapsack_grpo/utils/allocator.py:118 | the in-place masked write leaves the array equal to MaskedAssign of its old contents |
| Allocator.Split | recipe/knapsack_grpo/utils/allocator.py:124-127 | the even split holds one share per hard key |
| Allocator.ShareSum | recipe/knapsack_grpo/utils/allocator.py:124-127 | the shares add up to exactly remain |
| Allocator.ShareBounds | recipe/knapsack_grpo/utils/allocator.py:126-127 | each share is remain // H or one more, the larger shares come first, and an exact division gives equal shares |
| Allocator.RepairSeq | recipe/knapsack_grpo/utils/allocator.py:136-142 | the repair loop from index 0 with abs(diff) = d: each entry moves by min(can, d) towards n_up or n_low and the loop stops at d = 0; one entry per input entry |
| Allocator.Repaired | recipe/knapsack_grpo/utils/allocator.py:130-142 | the final sanity step, run only when the sum misses the budget and M > 0; one entry per key, and RepairedInRange / RepairedExactFromBelow / RepairedExactFromAbove state its result |
| Allocator.RepairUp | recipe/knapsack_grpo/utils/allocator.py:134-142 | the upward repair only raises entries, never past n_up, in index order, and adds min(d, room) to the sum |
| Allocator.RepairDown | recipe/knapsack_grpo/utils/allocator.py:134-142 | over entries >= n_low the downward repair only lowers entries, never below n_low, in index order, and removes min(d, slack) from the sum |
| Allocator.RepairedInRange | recipe/knapsack_grpo/utils/allocator.py:131-142 | the repair keeps every entry in [0, n_up] |
| Allocator.RepairedExactFromBelow | recipe/knapsack_grpo/utils/allocator.py:131-142 | a sum below the budget is repaired to exactly the budget when the entries have room for it |
| Allocator.RepairedExactFromAbove | recipe/knapsack_grpo/utils/allocator.py:131-142 | a sum above the budget over entries >= n_low is repaired to exactly the budget when the budget is at least M·n_low |
| Allocator.RepairBelowFloorOvershoots | recipe/knapsack_grpo/utils/allocator.py:139-142 | with an entry below n_low the downward repair moves away from the budget: [1, 1, 2] against 3 with n_low 2 ends at [2, 2, 2] |
| Allocator.RepairFromSplit | recipe/knapsack_grpo/utils/allocator.py:136-142 | running the loop from index i leaves the prefix and repairs the suffix |
| Allocator.Repair | recipe/knapsack_grpo/utils/allocator.py:131-142 | the in-place repair loop leaves the array equal to Repaired of its old contents |
| Extremes.Seeded | recipe/knapsack_grpo/utils/allocator.py:101-108 | the zero array with n_low written on the easy keys when easy_min_cover is set and an easy key exists; one entry per key |
| Extremes.ScaleDown | recipe/knapsack_grpo/utils/allocator.py:110-114 | the early return floor(alloc · total / max(1, sum)) entry by entry; one entry per key |
| Extremes.MidCounts | recipe/knapsack_grpo/utils/allocator.py:110-117 | alloc_mid: the DP on the mid keys' probabilities with budget_mid = total - sum(alloc), one count per mid key (none without a mid key) |
| Extremes.AfterMid | recipe/knapsack_grpo/utils/allocator.py:116-118 | alloc[idx_mid] = alloc_mid, only when a mid key exists; one entry per key |
| Extremes.AfterHard | recipe/knapsack_grpo/utils/allocator.py:120-128 | the even split of remain over the hard keys, clipped to [n_low, n_up], only when remain > 0 and a hard key exists; one entry per key |
| Extremes.Finish | recipe/knapsack_grpo/utils/allocator.py:116-142 | the stages after the seed: mid write, hard split, final repair; one entry per key |
| Extremes.AllocSpec | recipe/knapsack_grpo/utils/allocator.py:81-144 | what allocate_with_extremes returns: the scale-down when the seed exceeds the budget, otherwise the remaining stages; one count per key, and AllocInBounds / AllocExact state its bounds and sum |
| Extremes.SeededFacts | recipe/knapsack_grpo/utils/allocator.py:101-108 | the seed puts n_low exactly on the easy keys when covering and 0 elsewhere, summing to E·n_low |
| Extremes.AllocScaleDown | recipe/knapsack_grpo/utils/allocator.py:110-114 | the scale-down return is taken iff cover is set and E·n_low > total; each easy key then gets total // E, every other key 0, and the sum stays within the budget |
| Extremes.MidSpend | recipe/knapsack_grpo/utils/allocator.py:116-118 | the mid DP never spends more than budget_mid and keeps counts in [0, n_up] |
| Extremes.MidSpendCovered | recipe/knapsack_grpo/utils/allocator.py:116-118 | when budget_mid covers n_low per mid key the counts lie in [n_low, n_up] and spend all of it or exactly n_low per key |
| Extremes.HardShares | recipe/knapsack_grpo/utils/allocator.py:123-128 | when remain covers n_low per hard key, the clipped shares lie in [n_low, n_up] and spend at most remain |
| Extremes.HardStageSum | recipe/knapsack_grpo/utils/allocator.py:120-128 | the hard split never overspends, changes nothing when nothing remains, and puts hard keys in [n_low, n_up] when it runs |
| Extremes.AllocInBounds | recipe/knapsack_grpo/utils/allocator.py:81-144 | for every non-negative budget every entry of the result lies in [0, n_up] |
| Extremes.AllocExact | recipe/knapsack_grpo/utils/allocator.py:81-144 | when M·n_low <= total <= M·n_up: the sum is exactly total; mid and covered easy keys are in [n_low, n_up]; hard keys are 0 or in [n_low, n_up] |
| Extremes.AllocAllMid | recipe/knapsack_grpo/test/test_allocator_unit.py:24-46 | with every p mid, the result is the DP's allocation, optimal among all vectors in [n_low, n_up] that spend the budget |
| Extremes.AllocAllHard | recipe/knapsack_grpo/utils/allocator.py:123-128 | with every p hard, the result is the even split of the whole budget, the larger shares first |
| Extremes.AllocOvershootsBelowFloor | recipe/knapsack_grpo/utils/allocator.py:110-142 | p = [0.5, 0.5, 0], budget 3, n_low 2 yields [2, 2, 2], over the budget |
| Extremes.AllocAllEasyFrontLoads | recipe/knapsack_grpo/utils/allocator.py:107-142 | p = [1, 1, 1], budget 24, n_low 2 yields [20, 2, 2]: the surplus goes to the first key |
| Extremes.SeedAlloc | recipe/knapsack_grpo/utils/allocator.py:101-108 | the zero array with n_low written on the easy mask is the seed |
| Extremes.WriteMid | recipe/knapsack_grpo/utils/allocator.py:110-118 | the array after the mid stage is the DP's counts written onto the mid mask |
| Extremes.SplitHard | recipe/knapsack_grpo/utils/allocator.py:120-128 | the array after the hard stage is the clipped even split written onto the hard mask, or unchanged |
| Extremes.AllocateWithExtremes | recipe/knapsack_grpo/utils/allocator.py:81-144 | the imperative allocator returns AllocSpec, with every entry in [0, n_up] and the exact sum in the feasible range |
| SuccessEstimator.StepCounts | recipe/knapsack_grpo/utils/success_estimator.py:34-41 | step_aggr: for every uid of the batch the pair (successes, failures) of its occurrences, with s > 0 counted as a success |
| SuccessEstimator.Updated | recipe/knapsack_grpo/utils/success_estimator.py:43-48 | the map after the EMA loop: uids of the step take one EMA step from their stored pair (or (0, 0)), every other uid keeps its pair |
| SuccessEstimator.SuccessRateEstimator.PHat | recipe/knapsack_grpo/utils/success_estimator.py:53-55 | p_hat of one uid: (alpha + sa) / (alpha + beta + sa + sb + 1e-9), with (0, 0) for an unseen uid; PHatInUnit and PHatUnknown state its range and prior |
| SuccessEstimator.SuccessRateEstimator.Estimates | recipe/knapsack_grpo/utils/success_estimator.py:50-56 | the estimate vector: one entry per uid, in the order given, entry i being p_hat of uids[i] |
| SuccessEstimator.HitsPlusMisses | recipe/knapsack_grpo/utils/success_estimator.py:36-41 | every occurrence of a uid counts as a success or a failure: a + b is its number of occurrences |
| SuccessEstimator.OccurrencesPositive | recipe/knapsack_grpo/utils/success_estimator.py:36-41 | a uid has an entry exactly when it occurs in the batch |
| SuccessEstimator.StepCountsSnoc | recipe/knapsack_grpo/utils/success_estimator.py:37-41 | one loop step adds 1 to a or to b of the current uid, depending on s > 0, and changes no other entry |
| SuccessEstimator.Aggregate | recipe/knapsack_grpo/utils/success_estimator.py:35-41 | step_aggr has exactly the batch's uids as keys, each with its positive and non-positive counts, summing to its occurrences |
| SuccessEstimator.EmaBetween | recipe/knapsack_grpo/utils/success_estimator.py:46-47 | with 0 < ema < 1 an EMA step lies between the old value and the count, so it is non-negative when both are |
| SuccessEstimator.UpdatedFrame | recipe/knapsack_grpo/utils/success_estimator.py:44-48 | the EMA loop keeps every old key and adds the step's uids; other uids keep their pair; step uids take one EMA step from their stored pair ((0, 0) if new) |
| SuccessEstimator.UpdatedNonNegative | recipe/knapsack_grpo/utils/success_estimator.py:44-48 | the update keeps every stored value non-negative |
| SuccessEstimator.SuccessRateEstimator.constructor | recipe/knapsack_grpo/utils/success_estimator.py:20-25 | ema must lie in (0, 1); the map starts empty |
| SuccessEstimator.SuccessRateEstimator.UpdateBatch | recipe/knapsack_grpo/utils/success_estimator.py:27-48 | each uid of the batch moves one EMA step towards its (hits, misses); uids outside the batch are untouched; no key is dropped; values stay non-negative |
| SuccessEstimator.SuccessRateEstimator.ApplyEma | recipe/knapsack_grpo/utils/success_estimator.py:44-48 | the loop over step_aggr yields the updated map whatever order it visits the uids in |
| SuccessEstimator.SuccessRateEstimator.Estimate | recipe/knapsack_grpo/utils/success_estimator.py:50-56 | one (alpha + sa) / (alpha + beta + sa + sb + 1e-9) per uid in order, equal for repeated uids, without changing the map |
| SuccessEstimator.SuccessRateEstimator.PHatUnknown | recipe/knapsack_grpo/utils/success_estimator.py:54-55 | an unseen uid is estimated by the prior alone, alpha / (alpha + beta + 1e-9) |
| SuccessEstimator.SuccessRateEstimator.PHatInUnit | recipe/knapsack_grpo/utils/success_estimator.py:55 | with non-negative priors the denominator is positive and every estimate lies in [0, 1) |
| Trainer.TotalBudget | recipe/knapsack_grpo/knapsack_ray_trainer.py:84-88 | total_budget: the override when one is configured, otherwise len(uids) · default_n |
| Trainer.Expanded | recipe/knapsack_grpo/knapsack_ray_trainer.py:97-100 | the list the extend loop builds: alloc[i] copies of i for each key in order; ExpandedCounts / ExpandedLength / ExpandedSorted state it |
| Trainer.AllocIndices | recipe/knapsack_grpo/knapsack_ray_trainer.py:97-103 | the index list: the expanded list, or 0 .. M-1 when that is empty; AllocIndicesShape states it |
| Trainer.RepeatCount | recipe/knapsack_grpo/knapsack_ray_trainer.py:100 | [i] * k holds k copies of i and nothing else (none for k <= 0) |
| Trainer.ExpandedCounts | recipe/knapsack_grpo/knapsack_ray_trainer.py:98-100 | in the flattened list each index i appears max(0, alloc[i]) times and nothing else appears |
| Trainer.ExpandedLength | recipe/knapsack_grpo/knapsack_ray_trainer.py:98-100 | for a non-negative allocation the list has Σ alloc entries |
| Trainer.ExpandedSorted | recipe/knapsack_grpo/knapsack_ray_trainer.py:98-100 | the list is sorted non-decreasingly and every entry is in [0, M) |
| Trainer.ExpandedEmpty | recipe/knapsack_grpo/knapsack_ray_trainer.py:98-102 | the list is empty exactly when no allocation entry is positive |
| Trainer.AllocIndicesShape | recipe/knapsack_grpo/knapsack_ray_trainer.py:98-102 | the result is sorted and in [0, M); it is 0..M-1 when nothing is positive, otherwise index i appears max(0, alloc[i]) times |
| Trainer.ExpandAllocation | recipe/knapsack_grpo/knapsack_ray_trainer.py:97-103 | the extend loop with the fallback returns the index list of the allocation |
| Trainer.IndicesSpendBudget | recipe/knapsack_grpo/knapsack_ray_trainer.py:84-100 | with a positive budget in [M·n_low, M·n_up] the index list has exactly total_budget entries, index i appearing alloc[i] times |
| Trainer.DefaultBudgetFeasible | recipe/knapsack_grpo/knapsack_ray_trainer.py:84-100 | with no override, M > 0 and n_low <= default_n <= n_up, M·default_n lies in [M·n_low, M·n_up] and the index list has exactly M·default_n entries, index i appearing alloc[i] times |
| Trainer.KnapsackTrainer.constructor | recipe/knapsack_grpo/knapsack_ray_trainer.py:46-64 | the knobs are stored and a fresh, empty estimator is created |
| Trainer.KnapsackTrainer.MakeAllocIndices | recipe/knapsack_grpo/knapsack_ray_trainer.py:81-103 | the result is the index list of AllocSpec over the current estimates and chosen budget; sorted, entries in [0, M); with no override, M > 0 and n_low <= default_n <= n_up it has M·default_n entries |
| Trainer.KnapsackTrainer.RecomputeIndices | recipe/knapsack_grpo/knapsack_ray_trainer.py:189-192 | recomputing the indices with no update in between (lines 166 and 189-192) gives the same list |

## Left out

- The source's `assert` statements (allocator.py lines 96-97,
  success_estimator.py lines 21 and 33) are preconditions of the model:
  `total_budget >= 0` and `1 <= n_low <= n_up` of `AllocateWithExtremes`,
  `0 < ema < 1` of the estimator's constructor and the equal lengths of
  `UpdateBatch`. The AssertionError raised when they fail is not modelled.

- Floating point: probabilities, values, EMA statistics and estimates are
  exact reals. The float rounding of `**`, of the DP sums and of `1e-8` /
  `1e-9` is not modelled. The DP's -1e30 sentinel and its `<= -1e29` test
  are an explicit `Unreachable` score.
- Integer widths: the int32 arrays of the allocator are unbounded integers.
  The int32 cast in `_expand_by_index` (lines 76-79) is not part of this model.
- `hard_fallback_share` is accepted and, as in the source, never read.
- The scale-down stage computes np.floor(alloc · (total / max(1, sum))) as
  the integer floor of alloc · total / max(1, sum). The two agree for exact
  rationals. Float rounding could differ.
- `SuccessEstimator.SuccessRateEstimator.Estimate` requires every denominator
  to be non-zero, where Python would raise ZeroDivisionError. This can only
  happen for non-standard priors with alpha + beta + sa + sb = -1e-9.
  `Trainer.KnapsackTrainer.MakeAllocIndices` carries the same requirement.
- `successes` is modelled as a sequence of integers; `int(s > 0)` becomes the
  test `s > 0`.
- The EMA loop visits `step_aggr` in dict insertion order. `ApplyEma` picks
  the uids in any order and proves that the result does not depend on it.
- Configuration reading (`getattr` / `get` with defaults, lines 46-59) is
  replaced by the constructor's arguments. `default_n` and the override are
  already integers; the `int(...)` conversions of strings or floats are not
  modelled.
- `fit`, `_ensure_uid` (uuid randomness), `_expand_by_index`
  (`DataProto.select_idxs`), Ray worker groups, logging and the swallowed
  exception around the estimator update are I/O plumbing, left out.
- The estimator convergence test (`test_success_estimator_cpu.py`) is a
  statistical statement about random Bernoulli draws, not a deterministic
  property.
