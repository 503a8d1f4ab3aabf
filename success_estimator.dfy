/** The online success-rate estimator of the Knapsack-GRPO recipe: per uid
    it keeps exponential moving averages of successes and failures, and reads
    them back through a Beta(alpha, beta) prior. Floats are exact reals. */
module SuccessEstimator {

  /** The 1e-9 added to the estimate's denominator. */
  const Tiny: real := 0.000000001

  // ---------------------------------------------------------------------
  // Counting one batch

  /** The positions of u in the batch whose success value is positive. */
  function Hits(uids: seq<string>, successes: seq<int>, u: string): nat
    requires |uids| == |successes|
  {
    if |uids| == 0 then 0
    else
      var n := |uids| - 1;
      Hits(uids[..n], successes[..n], u) + (if uids[n] == u && successes[n] > 0 then 1 else 0)
  }

  /** The positions of u in the batch whose success value is not positive. */
  function Misses(uids: seq<string>, successes: seq<int>, u: string): nat
    requires |uids| == |successes|
  {
    if |uids| == 0 then 0
    else
      var n := |uids| - 1;
      Misses(uids[..n], successes[..n], u) + (if uids[n] == u && successes[n] <= 0 then 1 else 0)
  }

  /** The positions of u in the batch. */
  function Occurrences(uids: seq<string>, u: string): nat
  {
    if |uids| == 0 then 0
    else
      var n := |uids| - 1;
      Occurrences(uids[..n], u) + (if uids[n] == u then 1 else 0)
  }

  /** Every occurrence of u is either a success or a failure: a + b is the
      number of times u appears in the batch. */
  lemma {:induction false} HitsPlusMisses(uids: seq<string>, successes: seq<int>, u: string)
    requires |uids| == |successes|
    ensures Hits(uids, successes, u) + Misses(uids, successes, u) == Occurrences(uids, u)
  {
    if |uids| > 0 {
      var n := |uids| - 1;
      HitsPlusMisses(uids[..n], successes[..n], u);
    }
  }

  /** u occurs in the batch exactly when it is one of its uids. */
  lemma {:induction false} OccurrencesPositive(uids: seq<string>, u: string)
    ensures Occurrences(uids, u) > 0 <==> u in uids
  {
    if |uids| > 0 {
      var n := |uids| - 1;
      OccurrencesPositive(uids[..n], u);
      assert uids == uids[..n] + [uids[n]];
    }
  }

  /** A uid absent from the batch has no hits and no misses. */
  lemma AbsentCounts(uids: seq<string>, successes: seq<int>, u: string)
    requires |uids| == |successes| && u !in uids
    ensures Hits(uids, successes, u) == 0 && Misses(uids, successes, u) == 0
  {
    OccurrencesPositive(uids, u);
    HitsPlusMisses(uids, successes, u);
  }

  /** step_aggr after the aggregation loop: one (a, b) pair per uid of the batch. */
  function StepCounts(uids: seq<string>, successes: seq<int>): (m: map<string, (nat, nat)>)
    requires |uids| == |successes|
  {
    map u | u in uids :: (Hits(uids, successes, u), Misses(uids, successes, u))
  }

  /** The pair step_aggr holds for u after the first k positions (absent: (0, 0)). */
  function CountsSoFar(aggr: map<string, (nat, nat)>, u: string): (nat, nat)
  {
    if u in aggr then aggr[u] else (0, 0)
  }

  /** One position of the aggregation loop: the uid u at the next position
      gains a success or a failure, every other entry is as it was. */
  lemma StepCountsSnoc(pu: seq<string>, ps: seq<int>, u: string, s: int)
    requires |pu| == |ps|
    ensures var before := StepCounts(pu, ps);
      var (a, b) := CountsSoFar(before, u);
      StepCounts(pu + [u], ps + [s]) == before[u := if s > 0 then (a + 1, b) else (a, b + 1)]
  {
    var us, ss := pu + [u], ps + [s];
    var before, after := StepCounts(pu, ps), StepCounts(us, ss);
    var (a, b) := CountsSoFar(before, u);
    var expected := before[u := if s > 0 then (a + 1, b) else (a, b + 1)];
    assert (a, b) == (Hits(pu, ps, u), Misses(pu, ps, u)) by {
      if u !in pu {
        AbsentCounts(pu, ps, u);
      }
    }
    assert after.Keys == expected.Keys;
    forall v | v in after ensures after[v] == expected[v] {
      CountsSnoc(pu, ps, u, s, v);
      if v != u {
        assert v in pu by {
          assert us == pu + [u];
        }
      }
    }
  }

  /** Hits and Misses of a batch grown by one position. */
  lemma CountsSnoc(pu: seq<string>, ps: seq<int>, u: string, s: int, v: string)
    requires |pu| == |ps|
    ensures Hits(pu + [u], ps + [s], v) == Hits(pu, ps, v) + (if v == u && s > 0 then 1 else 0)
    ensures Misses(pu + [u], ps + [s], v) == Misses(pu, ps, v) + (if v == u && s <= 0 then 1 else 0)
  {
    assert (pu + [u])[..|pu|] == pu && (ps + [s])[..|pu|] == ps;
  }

  // ---------------------------------------------------------------------
  // The moving average

  /** ema * x + (1 - ema) * c: one EMA step of x towards c. */
  function Blend(ema: real, x: real, c: real): real
  {
    ema * x + (1.0 - ema) * c
  }

  /** One EMA step of a stored pair towards this step's counts. */
  function EmaStep(ema: real, stored: (real, real), counts: (nat, nat)): (real, real)
  {
    (Blend(ema, stored.0, counts.0 as real), Blend(ema, stored.1, counts.1 as real))
  }

  /** The stored pair of u, (0, 0) for a uid never seen. */
  function Stored(stats: map<string, (real, real)>, u: string): (real, real)
  {
    if u in stats then stats[u] else (0.0, 0.0)
  }

  /** The map after the EMA loop: every uid of the step moves towards its
      counts, every other uid keeps its pair. */
  function Updated(stats: map<string, (real, real)>, aggr: map<string, (nat, nat)>, ema: real)
    : (r: map<string, (real, real)>)
  {
    map u | u in stats.Keys + aggr.Keys ::
      if u in aggr then EmaStep(ema, Stored(stats, u), aggr[u]) else stats[u]
  }

  /** With 0 < ema < 1 an EMA step is a convex combination: it lies
      between x and c, and so it is non-negative when both are. */
  lemma EmaBetween(ema: real, x: real, c: real)
    requires 0.0 < ema < 1.0
    ensures x <= c ==> x <= Blend(ema, x, c) <= c
    ensures c <= x ==> c <= Blend(ema, x, c) <= x
    ensures 0.0 <= x && 0.0 <= c ==> 0.0 <= Blend(ema, x, c)
  {
    if x < c {
      var d := c - x;
      ScaledPart(1.0 - ema, d);
      assert Blend(ema, x, c) == x + (1.0 - ema) * d;
    } else {
      var d := x - c;
      ScaledPart(ema, d);
      assert Blend(ema, x, c) == c + ema * d;
    }
  }

  /** A fraction of a non-negative quantity lies between 0 and the quantity. */
  lemma ScaledPart(ema: real, d: real)
    requires 0.0 < ema < 1.0 && 0.0 <= d
    ensures 0.0 <= ema * d <= d
  {
    assert d - ema * d == (1.0 - ema) * d;
  }

  /** The EMA loop leaves uids outside the step alone, never drops a key, and
      moves every uid of the step from its stored pair towards its counts. */
  lemma UpdatedFrame(stats: map<string, (real, real)>, aggr: map<string, (nat, nat)>, ema: real)
    ensures Updated(stats, aggr, ema).Keys == stats.Keys + aggr.Keys
    ensures forall u :: u in stats && u !in aggr ==> Updated(stats, aggr, ema)[u] == stats[u]
    ensures forall u :: u in aggr ==> Updated(stats, aggr, ema)[u] == EmaStep(ema, Stored(stats, u), aggr[u])
  {
  }

  /** Every stored value stays non-negative across an update. */
  predicate NonNegative(stats: map<string, (real, real)>)
  {
    forall u :: u in stats ==> 0.0 <= stats[u].0 && 0.0 <= stats[u].1
  }

  lemma UpdatedNonNegative(stats: map<string, (real, real)>, aggr: map<string, (nat, nat)>, ema: real)
    requires 0.0 < ema < 1.0 && NonNegative(stats)
    ensures NonNegative(Updated(stats, aggr, ema))
  {
    var r := Updated(stats, aggr, ema);
    forall u | u in r ensures 0.0 <= r[u].0 && 0.0 <= r[u].1 {
      if u in aggr {
        var s := Stored(stats, u);
        EmaBetween(ema, s.0, aggr[u].0 as real);
        EmaBetween(ema, s.1, aggr[u].1 as real);
      }
    }
  }

  /** The aggregation loop of update_batch: per uid, the number of positive
      and of non-positive success values in this batch. */
  method Aggregate(uids: seq<string>, successes: seq<int>) returns (aggr: map<string, (nat, nat)>)
    requires |uids| == |successes|
    ensures aggr == StepCounts(uids, successes)
    ensures aggr.Keys == set k | 0 <= k < |uids| :: uids[k]
    ensures forall u :: u in aggr ==> aggr[u].0 + aggr[u].1 == Occurrences(uids, u) > 0
  {
    aggr := map[];
    assert uids[..0] == [];
    for k := 0 to |uids|
      invariant aggr == StepCounts(uids[..k], successes[..k])
    {
      var u := uids[k];
      assert uids[..k + 1] == uids[..k] + [u] && successes[..k + 1] == successes[..k] + [successes[k]];
      StepCountsSnoc(uids[..k], successes[..k], u, successes[k]);
      var s := if successes[k] > 0 then 1 else 0;
      var (a, b) := if u in aggr then aggr[u] else (0, 0);
      if s == 1 {
        a := a + 1;
      } else {
        b := b + 1;
      }
      aggr := aggr[u := (a, b)];
    }
    assert uids[..|uids|] == uids && successes[..|uids|] == successes;
    forall u | u in aggr ensures aggr[u].0 + aggr[u].1 == Occurrences(uids, u) > 0 {
      HitsPlusMisses(uids, successes, u);
      OccurrencesPositive(uids, u);
    }
    assert aggr.Keys == set k | 0 <= k < |uids| :: uids[k] by {
      forall u | u in aggr ensures exists k :: 0 <= k < |uids| && uids[k] == u {
      }
    }
  }

  // ---------------------------------------------------------------------
  // The estimator object

  class SuccessRateEstimator {
    const ema: real
    const alpha: real
    const beta: real
    /** _succ_fail_ema: uid -> (succ_ema, fail_ema). */
    var stats: map<string, (real, real)>

    /** The smoothing factor is in (0, 1) and every stored value is non-negative. */
    ghost predicate Valid()
      reads this
    {
      0.0 < ema < 1.0 && NonNegative(stats)
    }

    constructor (ema: real, alpha: real, beta: real)
      requires 0.0 < ema < 1.0
      ensures Valid()
      ensures this.ema == ema && this.alpha == alpha && this.beta == beta
      ensures stats == map[]
    {
      this.ema := ema;
      this.alpha := alpha;
      this.beta := beta;
      stats := map[];
    }

    /** update_batch: aggregate this step per uid, then move each of the
        step's uids towards its counts by one EMA step. */
    method UpdateBatch(uids: seq<string>, successes: seq<int>)
      requires Valid() && |uids| == |successes|
      modifies this
      ensures Valid()
      ensures stats == Updated(old(stats), StepCounts(uids, successes), ema)
      ensures forall u :: u in old(stats) && u !in uids ==> u in stats && stats[u] == old(stats)[u]
      ensures forall u :: u in uids ==>
        (u in stats && stats[u] == EmaStep(ema, Stored(old(stats), u), (Hits(uids, successes, u), Misses(uids, successes, u))))
      ensures old(stats).Keys <= stats.Keys
    {
      var aggr := Aggregate(uids, successes);
      ApplyEma(aggr);
    }

    /** The EMA loop of update_batch over the step's (a, b) pairs. Python
        visits them in insertion order; each uid is visited once and the
        visits touch distinct keys, so any order gives the same map. */
    method ApplyEma(aggr: map<string, (nat, nat)>)
      requires Valid()
      modifies this
      ensures Valid()
      ensures stats == Updated(old(stats), aggr, ema)
    {
      ghost var s0 := stats;
      var pending := aggr.Keys;
      while pending != {}
        invariant pending <= aggr.Keys
        invariant stats.Keys == s0.Keys + (aggr.Keys - pending)
        invariant forall u :: u in stats ==>
          stats[u] == if u in aggr && u !in pending then EmaStep(ema, Stored(s0, u), aggr[u]) else s0[u]
        decreases pending
      {
        var u :| u in pending;
        var (a, b) := aggr[u];
        var (sa, sb) := if u in stats then stats[u] else (0.0, 0.0);
        assert (sa, sb) == Stored(s0, u);
        sa := Blend(ema, sa, a as real);
        sb := Blend(ema, sb, b as real);
        stats := stats[u := (sa, sb)];
        pending := pending - {u};
      }
      assert stats == Updated(s0, aggr, ema);
      UpdatedNonNegative(s0, aggr, ema);
    }

    /** The estimate's denominator alpha + beta + succ + fail + 1e-9 for u. */
    function Denominator(u: string): real
      reads this
    {
      var (sa, sb) := Stored(stats, u);
      alpha + beta + sa + sb + Tiny
    }

    /** p_hat for one uid: (alpha + succ) / (alpha + beta + succ + fail + 1e-9). */
    function PHat(u: string): real
      reads this
      requires Denominator(u) != 0.0
    {
      var (sa, sb) := Stored(stats, u);
      (alpha + sa) / (alpha + beta + sa + sb + Tiny)
    }

    /** The estimates of a list of uids, position by position. */
    function Estimates(uids: seq<string>): (p: seq<real>)
      reads this
      requires forall i :: 0 <= i < |uids| ==> Denominator(uids[i]) != 0.0
      ensures |p| == |uids|
      ensures forall i :: 0 <= i < |uids| ==> p[i] == PHat(uids[i])
    {
      if |uids| == 0 then []
      else
        var n := |uids| - 1;
        Estimates(uids[..n]) + [PHat(uids[n])]
    }

    /** estimate: one p_hat per uid, in the order given; it reads the map and
        changes nothing. Python raises on a zero denominator, which the
        precondition excludes. */
    method Estimate(uids: seq<string>) returns (p: seq<real>)
      requires forall i :: 0 <= i < |uids| ==> Denominator(uids[i]) != 0.0
      ensures p == Estimates(uids)
      ensures forall i, j :: 0 <= i < |uids| && 0 <= j < |uids| && uids[i] == uids[j] ==> p[i] == p[j]
    {
      var out := new real[|uids|];
      for i := 0 to |uids|
        invariant forall j :: 0 <= j < i ==> out[j] == PHat(uids[j])
      {
        var u := uids[i];
        var (sa, sb) := if u in stats then stats[u] else (0.0, 0.0);
        out[i] := (alpha + sa) / (alpha + beta + sa + sb + Tiny);
      }
      p := out[..];
    }

    /** A uid never seen is estimated by the prior alone. */
    lemma PHatUnknown(u: string)
      requires u !in stats && alpha + beta + Tiny != 0.0
      ensures Denominator(u) != 0.0 && PHat(u) == alpha / (alpha + beta + Tiny)
    {
    }

    /** With non-negative prior weights every estimate is a probability below
        1: the denominator exceeds the numerator by beta + fail + 1e-9 > 0. */
    lemma PHatInUnit(u: string)
      requires Valid() && 0.0 <= alpha && 0.0 <= beta
      ensures Denominator(u) > 0.0 && 0.0 <= PHat(u) < 1.0
    {
      var (sa, sb) := Stored(stats, u);
      var num, den := alpha + sa, alpha + beta + sa + sb + Tiny;
      assert 0.0 <= num < den;
      assert num / den < 1.0 by {
        assert num / den * den == num;
      }
    }
  }
}
