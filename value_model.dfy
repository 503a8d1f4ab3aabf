/** The value model of the allocator: how much a prompt with success
    probability p is worth when it is sampled n times. Probabilities and values
    are exact reals; the float rounding of `**` is not modelled. */
module ValueModel {

  function Pow(x: real, n: nat): real
  {
    if n == 0 then 1.0 else x * Pow(x, n - 1)
  }

  /** _prob_nonzero_grad: the chance that n Bernoulli(p) draws hold at least
      one success and at least one failure, 1 - p^n - (1-p)^n; 0 when p is not
      strictly inside (0, 1) or n <= 0. */
  function ProbNonzeroGrad(n: int, p: real): real
  {
    if p <= 0.0 || p >= 1.0 || n <= 0 then 0.0
    else 1.0 - Pow(p, n) - Pow(1.0 - p, n)
  }

  /** _info_gain: the weight p(1-p)^2, 0 outside (0, 1). */
  function InfoGain(p: real): real
  {
    if p <= 0.0 || p >= 1.0 then 0.0 else p * (1.0 - p) * (1.0 - p)
  }

  /** The value of n attempts at a prompt with success probability p. */
  function Value(n: int, p: real): real
  {
    ProbNonzeroGrad(n, p) * InfoGain(p)
  }

  /** _value_table: entry j is the value of n_low + j attempts, for every
      count in n_low..n_up (np.arange is empty when n_up < n_low). */
  function ValueTable(p: real, nLow: int, nUp: int): seq<real>
  {
    seq(if nUp >= nLow then nUp - nLow + 1 else 0, j => Value(nLow + j, p))
  }

  lemma MulNonNegative(a: real, b: real)
    requires 0.0 <= a && 0.0 <= b
    ensures 0.0 <= a * b
  {
  }

  lemma MulPositive(a: real, b: real)
    requires 0.0 < a && 0.0 < b
    ensures 0.0 < a * b
  {
  }

  lemma SquareNonNegative(d: real)
    ensures 0.0 <= d * d
  {
    if d < 0.0 {
      MulPositive(-d, -d);
      assert (-d) * (-d) == d * d;
    }
  }

  lemma MulMonotone(a: real, b: real, c: real)
    requires a <= b && 0.0 <= c
    ensures a * c <= b * c
  {
    assert b * c - a * c == (b - a) * c;
    MulNonNegative(b - a, c);
  }

  lemma MulStrict(a: real, b: real, c: real)
    requires a < b && 0.0 < c
    ensures a * c < b * c
  {
    assert b * c - a * c == (b - a) * c;
    MulPositive(b - a, c);
  }

  lemma {:induction false} PowInUnit(x: real, n: nat)
    requires 0.0 < x < 1.0
    ensures 0.0 < Pow(x, n) <= 1.0
    ensures n >= 1 ==> Pow(x, n) <= x
    ensures n >= 2 ==> Pow(x, n) < x
  {
    if n > 0 {
      PowInUnit(x, n - 1);
      PowStep(x, n - 1);
    }
  }

  /** One multiplication by x in (0, 1) keeps a power positive and shrinks it. */
  lemma PowStep(x: real, n: nat)
    requires 0.0 < x < 1.0
    requires 0.0 < Pow(x, n) <= 1.0
    ensures 0.0 < Pow(x, n + 1) <= Pow(x, n)
    ensures Pow(x, n + 1) <= x
    ensures Pow(x, n) < 1.0 ==> Pow(x, n + 1) < x
  {
    ShrinkStep(x, Pow(x, n), Pow(x, n + 1));
  }

  lemma ShrinkStep(x: real, q: real, r: real)
    requires 0.0 < x < 1.0 && 0.0 < q <= 1.0 && r == x * q
    ensures 0.0 < r <= q && r <= x
    ensures q < 1.0 ==> r < x
  {
    MulPositive(x, q);
    MulMonotone(x, 1.0, q);
    MulMonotone(q, 1.0, x);
    if q < 1.0 {
      MulStrict(q, 1.0, x);
    }
  }

  /** The gradient signal is a probability; it vanishes at the deterministic
      extremes and for a single draw, and is positive exactly when p is
      interior and there are at least two draws. */
  lemma ProbNonzeroGradIsProbability(n: int, p: real)
    ensures 0.0 <= ProbNonzeroGrad(n, p) <= 1.0
    ensures p <= 0.0 || p >= 1.0 || n <= 0 ==> ProbNonzeroGrad(n, p) == 0.0
    ensures ProbNonzeroGrad(n, p) > 0.0 <==> 0.0 < p < 1.0 && n >= 2
  {
    if 0.0 < p < 1.0 && n > 0 {
      PowInUnit(p, n);
      PowInUnit(1.0 - p, n);
    }
  }

  /** One more draw never lowers the chance of a mixed outcome. */
  lemma ProbNonzeroGradMonotone(n: int, p: real)
    ensures ProbNonzeroGrad(n, p) <= ProbNonzeroGrad(n + 1, p)
  {
    ProbNonzeroGradIsProbability(n + 1, p);
    if 0.0 < p < 1.0 && n > 0 {
      PowInUnit(p, n);
      PowInUnit(1.0 - p, n);
      PowStep(p, n);
      PowStep(1.0 - p, n);
    }
  }

  lemma {:induction false} ProbNonzeroGradMonotoneRange(n: int, m: int, p: real)
    requires n <= m
    ensures ProbNonzeroGrad(n, p) <= ProbNonzeroGrad(m, p)
    decreases m - n
  {
    if n < m {
      ProbNonzeroGradMonotone(n, p);
      ProbNonzeroGradMonotoneRange(n + 1, m, p);
    }
  }

  lemma InfoGainAtThird()
    ensures InfoGain(1.0 / 3.0) == 4.0 / 27.0
  {
    assert InfoGain(1.0 / 3.0) == (1.0 / 3.0) * (2.0 / 3.0) * (2.0 / 3.0);
  }

  /** 4/27 - p(1-p)^2 = (p - 1/3)^2 (4/3 - p). */
  lemma PeakGap(p: real, d: real)
    requires d == p - 1.0 / 3.0
    ensures 4.0 / 27.0 - p * (1.0 - p) * (1.0 - p) == (d * d) * (4.0 / 3.0 - p)
  {
  }

  lemma InfoGainInterior(p: real)
    requires 0.0 < p < 1.0
    ensures 0.0 < InfoGain(p) <= 4.0 / 27.0
  {
    var q := 1.0 - p;
    var pq := p * q;
    assert InfoGain(p) == pq * q;
    MulPositive(p, q);
    MulPositive(pq, q);
    var d := p - 1.0 / 3.0;
    PeakGap(p, d);
    SquareNonNegative(d);
    MulNonNegative(d * d, 4.0 / 3.0 - p);
  }

  /** The information weight is non-negative, positive exactly inside (0, 1),
      and peaks at p = 1/3 with value 4/27. */
  lemma InfoGainPeak(p: real)
    ensures 0.0 <= InfoGain(p) <= InfoGain(1.0 / 3.0)
    ensures InfoGain(1.0 / 3.0) == 4.0 / 27.0
    ensures InfoGain(p) > 0.0 <==> 0.0 < p < 1.0
  {
    InfoGainAtThird();
    if 0.0 < p < 1.0 {
      InfoGainInterior(p);
    }
  }

  /** A probability times a non-negative weight lies between 0 and the
      weight, and is positive when both factors are. */
  lemma WeightedProbability(g: real, w: real, v: real)
    requires 0.0 <= g <= 1.0 && 0.0 <= w && v == g * w
    ensures 0.0 <= v <= w
    ensures 0.0 < g && 0.0 < w ==> 0.0 < v
  {
    MulNonNegative(g, w);
    MulMonotone(g, 1.0, w);
    if 0.0 < g && 0.0 < w {
      MulPositive(g, w);
    }
  }

  /** The value of n attempts lies between 0 and the prompt's information
      weight, and is positive exactly for n >= 2 when p is interior. */
  lemma ValueBounds(n: int, p: real)
    ensures 0.0 <= Value(n, p) <= InfoGain(p)
    ensures 0.0 < p < 1.0 ==> (Value(n, p) > 0.0 <==> n >= 2)
  {
    InfoGainPeak(p);
    ProbNonzeroGradIsProbability(n, p);
    WeightedProbability(ProbNonzeroGrad(n, p), InfoGain(p), Value(n, p));
  }

  /** More attempts are never worth less. */
  lemma ValueMonotone(n: int, m: int, p: real)
    requires n <= m
    ensures Value(n, p) <= Value(m, p)
  {
    var a, b, c := ProbNonzeroGrad(n, p), ProbNonzeroGrad(m, p), InfoGain(p);
    assert 0.0 <= c by {
      InfoGainPeak(p);
    }
    assert a <= b by {
      ProbNonzeroGradMonotoneRange(n, m, p);
    }
    MulMonotone(a, b, c);
  }

  /** The value table of one prompt: one entry per count in [n_low, n_up],
      each between 0 and the prompt's information weight, non-decreasing in
      the count, all zero at the extremes, and positive exactly for counts of
      two or more when p is interior. */
  lemma ValueTableShape(p: real, nLow: int, nUp: int)
    requires nLow <= nUp
    ensures |ValueTable(p, nLow, nUp)| == nUp - nLow + 1
    ensures forall j :: 0 <= j < |ValueTable(p, nLow, nUp)| ==>
      0.0 <= ValueTable(p, nLow, nUp)[j] <= InfoGain(p)
    ensures forall j, k :: 0 <= j <= k < |ValueTable(p, nLow, nUp)| ==>
      ValueTable(p, nLow, nUp)[j] <= ValueTable(p, nLow, nUp)[k]
    ensures p <= 0.0 || p >= 1.0 ==>
      forall j :: 0 <= j < |ValueTable(p, nLow, nUp)| ==> ValueTable(p, nLow, nUp)[j] == 0.0
    ensures 0.0 < p < 1.0 ==>
      forall j :: 0 <= j < |ValueTable(p, nLow, nUp)| ==>
        (ValueTable(p, nLow, nUp)[j] > 0.0 <==> nLow + j >= 2)
  {
    var vt := ValueTable(p, nLow, nUp);
    InfoGainPeak(p);
    forall j | 0 <= j < |vt|
      ensures 0.0 <= vt[j] <= InfoGain(p)
      ensures 0.0 < p < 1.0 ==> (vt[j] > 0.0 <==> nLow + j >= 2)
    {
      ValueBounds(nLow + j, p);
    }
    forall j, k | 0 <= j <= k < |vt| ensures vt[j] <= vt[k] {
      ValueMonotone(nLow + j, nLow + k, p);
    }
  }
}
