/** Integer helpers shared by the allocator models: sums of integer sequences
    and the small arithmetic functions (min, max, clip) the source takes from
    Python and NumPy. */
module SeqMath {

  datatype Option<T> = None | Some(value: T)

  function Min(a: int, b: int): int { if a <= b then a else b }

  function Max(a: int, b: int): int { if a >= b then a else b }

  function Abs(a: int): int { if a < 0 then -a else a }

  /** np.clip(x, lo, hi): max(x, lo) first, then min with hi. */
  function Clip(x: int, lo: int, hi: int): int { Min(Max(x, lo), hi) }

  /** Python's a // m for a positive m, by repeated subtraction; FloorDivIsDiv
      shows it is the floor quotient. Keeping the division symbol out of the
      definition keeps the arithmetic of its callers linear. */
  function FloorDiv(a: int, m: int): int
    requires m > 0
    decreases if a >= 0 then a else m - a
  {
    if 0 <= a < m then 0
    else if a >= m then 1 + FloorDiv(a - m, m)
    else FloorDiv(a + m, m) - 1
  }

  /** Python's a % m for a positive m, by repeated subtraction. */
  function FloorMod(a: int, m: int): int
    requires m > 0
    decreases if a >= 0 then a else m - a
  {
    if 0 <= a < m then a
    else if a >= m then FloorMod(a - m, m)
    else FloorMod(a + m, m)
  }

  /** np.sum over an integer vector. */
  function Sum(s: seq<int>): int
  {
    if |s| == 0 then 0 else s[0] + Sum(s[1..])
  }

  lemma MulAtMost(m: nat, a: int, b: int)
    requires a <= b
    ensures m * a <= m * b
  {
  }

  /** A product with a non-negative factor n is non-negative, and 0 when
      the other factor is. */
  lemma MulSign(k: nat, n: int)
    requires n >= 0
    ensures k * n >= 0
    ensures k == 0 ==> k * n == 0
  {
  }

  lemma MulDistributes(a: int, b: int, c: int, n: int)
    ensures (a + b + c) * n == a * n + b * n + c * n
  {
  }

  lemma MulSucc(k: int, q: int)
    ensures (k + 1) * q == k * q + q
  {
  }

  lemma MulDifference(m: int, a: int, b: int)
    ensures m * (a - b) == m * a - m * b
  {
  }

  /** The quotient is the only q with m * q <= a < m * q + m. */
  lemma DivUnique(a: int, m: int, q: int)
    requires m > 0 && m * q <= a < m * q + m
    ensures q == a / m
  {
    var d := a / m;
    assert m * d <= a < m * d + m;
    assert m * (q + 1) == m * q + m && m * (d + 1) == m * d + m;
    if q < d {
      MulAtMost(m, q + 1, d);
    } else if q > d {
      MulAtMost(m, d + 1, q);
    }
  }

  lemma {:induction false} FloorDivBracket(a: int, m: int)
    requires m > 0
    ensures m * FloorDiv(a, m) <= a < m * FloorDiv(a, m) + m
    decreases if a >= 0 then a else m - a
  {
    if a >= m {
      FloorDivBracket(a - m, m);
      assert m * FloorDiv(a, m) == m + m * FloorDiv(a - m, m);
    } else if a < 0 {
      FloorDivBracket(a + m, m);
      assert m * FloorDiv(a, m) == m * FloorDiv(a + m, m) - m;
    }
  }

  lemma {:induction false} FloorModStep(a: int, m: int)
    requires m > 0
    ensures FloorMod(a, m) == a - m * FloorDiv(a, m)
    decreases if a >= 0 then a else m - a
  {
    if a >= m {
      FloorModStep(a - m, m);
      assert m * FloorDiv(a, m) == m + m * FloorDiv(a - m, m);
    } else if a < 0 {
      FloorModStep(a + m, m);
      assert m * FloorDiv(a, m) == m * FloorDiv(a + m, m) - m;
    }
  }

  /** Likewise for FloorDiv. */
  lemma DivUniqueFloor(a: int, m: int, q: int)
    requires m > 0 && m * q <= a < m * q + m
    ensures q == FloorDiv(a, m)
  {
    FloorDivBracket(a, m);
    var d := FloorDiv(a, m);
    assert m * (q + 1) == m * q + m && m * (d + 1) == m * d + m;
    if q < d {
      MulAtMost(m, q + 1, d);
    } else if q > d {
      MulAtMost(m, d + 1, q);
    }
  }

  /** FloorDiv and FloorMod are Python's // and % for a positive divisor,
      which agree with Dafny's / and % there. */
  lemma FloorDivIsDiv(a: int, m: int)
    requires m > 0
    ensures FloorDiv(a, m) == a / m && FloorMod(a, m) == a % m
  {
    FloorDivBracket(a, m);
    DivUnique(a, m, FloorDiv(a, m));
    FloorModStep(a, m);
  }

  /** Division with remainder: a = m * (a // m) + a % m, 0 <= a % m < m. */
  lemma FloorDivMod(a: int, m: int)
    requires m > 0
    ensures a == m * FloorDiv(a, m) + FloorMod(a, m) && 0 <= FloorMod(a, m) < m
  {
    FloorDivBracket(a, m);
    FloorModStep(a, m);
  }

  /** The quotient of a non-negative number is non-negative. */
  lemma FloorDivNonNegative(a: int, m: int)
    requires m > 0 && a >= 0
    ensures 0 <= FloorDiv(a, m) && m * FloorDiv(a, m) <= a
  {
    FloorDivBracket(a, m);
  }

  predicate AllWithin(s: seq<int>, lo: int, hi: int)
  {
    forall j :: 0 <= j < |s| ==> lo <= s[j] <= hi
  }

  lemma {:induction false} SumConcat(a: seq<int>, b: seq<int>)
    ensures Sum(a + b) == Sum(a) + Sum(b)
  {
    if |a| == 0 {
      assert a + b == b;
    } else {
      assert (a + b)[1..] == a[1..] + b;
      SumConcat(a[1..], b);
    }
  }

  /** Summing from the back: the last element splits off. */
  lemma SumLast(s: seq<int>)
    requires |s| > 0
    ensures Sum(s) == Sum(s[..|s| - 1]) + s[|s| - 1]
  {
    assert s == s[..|s| - 1] + [s[|s| - 1]];
    SumConcat(s[..|s| - 1], [s[|s| - 1]]);
  }

  /** A suffix sum splits off its first element. */
  lemma SumFront(s: seq<int>, k: nat)
    requires k < |s|
    ensures Sum(s[k..]) == s[k] + Sum(s[k + 1..])
  {
    assert s[k..][1..] == s[k + 1..];
  }

  lemma {:induction false} SumUpdate(s: seq<int>, i: nat, v: int)
    requires i < |s|
    ensures Sum(s[i := v]) == Sum(s) - s[i] + v
  {
    if i > 0 {
      assert s[i := v][1..] == s[1..][i - 1 := v];
      SumUpdate(s[1..], i - 1, v);
    }
  }

  lemma {:induction false} SumWithin(s: seq<int>, lo: int, hi: int)
    requires AllWithin(s, lo, hi)
    ensures |s| * lo <= Sum(s) <= |s| * hi
  {
    if |s| > 0 {
      SumWithin(s[1..], lo, hi);
      assert |s| * lo == lo + (|s| - 1) * lo;
      assert |s| * hi == hi + (|s| - 1) * hi;
    }
  }

  /** Adding the same constant to every element adds it |s| times to the sum. */
  lemma {:induction false} SumShift(s: seq<int>, c: int, t: seq<int>)
    requires |t| == |s|
    requires forall j :: 0 <= j < |s| ==> t[j] == s[j] + c
    ensures Sum(t) == Sum(s) + |s| * c
  {
    if |s| > 0 {
      SumShift(s[1..], c, t[1..]);
      assert |s| * c == c + (|s| - 1) * c;
    }
  }

  lemma {:induction false} SumConst(n: nat, c: int)
    ensures Sum(seq(n, _ => c)) == n * c
  {
    if n > 0 {
      assert seq(n, _ => c)[1..] == seq(n - 1, _ => c);
      SumConst(n - 1, c);
    }
  }

  lemma {:induction false} SumNonNegative(s: seq<int>)
    requires forall j :: 0 <= j < |s| ==> 0 <= s[j]
    ensures 0 <= Sum(s)
  {
    if |s| > 0 {
      SumNonNegative(s[1..]);
    }
  }

  /** A non-negative element never exceeds the sum of a non-negative sequence. */
  lemma {:induction false} ElementAtMostSum(s: seq<int>, i: nat)
    requires i < |s|
    requires forall j :: 0 <= j < |s| ==> 0 <= s[j]
    ensures s[i] <= Sum(s)
  {
    if i == 0 {
      SumNonNegative(s[1..]);
    } else {
      ElementAtMostSum(s[1..], i - 1);
    }
  }

  /** Sums respect a pointwise order. */
  lemma {:induction false} SumPointwise(a: seq<int>, b: seq<int>)
    requires |a| == |b|
    requires forall j :: 0 <= j < |a| ==> a[j] <= b[j]
    ensures Sum(a) <= Sum(b)
  {
    if |a| > 0 {
      SumPointwise(a[1..], b[1..]);
    }
  }
}
