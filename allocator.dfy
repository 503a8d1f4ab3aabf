/** allocate_with_extremes: the orchestrator around the knapsack DP. Keys are
    split into hard (p <= 1e-8), easy (p >= 1 - 1e-8) and mid; easy keys may
    be seeded with n_low, an over-budget seed is scaled down, the DP runs on
    the mid keys, leftover budget is split evenly over the hard keys, and a
    final loop repairs the sum in index order. NumPy boolean masks are index
    predicates; a masked read or write visits the selected indices in order. */
module Allocator {
  import opened SeqMath
  import Knapsack

  /** The tolerance eps = 1e-8 of the source, as an exact rational. */
  const Eps: real := 0.00000001

  datatype Region = Hard | Easy | Mid

  /** Which of the three masks an index falls in. */
  function Classify(p: real): (c: Region)
    ensures c == Hard <==> p <= Eps
    ensures c == Easy <==> p >= 1.0 - Eps
    ensures c == Mid <==> Eps < p < 1.0 - Eps
  {
    if p <= Eps then Hard else if p >= 1.0 - Eps then Easy else Mid
  }

  /** The number of indices in region c: the size of a mask. */
  function CountOf(p: seq<real>, c: Region): (n: nat)
    ensures n <= |p|
  {
    if |p| == 0 then 0
    else CountOf(p[..|p| - 1], c) + (if Classify(p[|p| - 1]) == c then 1 else 0)
  }

  /** s[mask]: the entries of s at the indices in region c, in index order. */
  function Gather<T>(s: seq<T>, p: seq<real>, c: Region): (g: seq<T>)
    requires |s| == |p|
    ensures |g| == CountOf(p, c)
  {
    if |p| == 0 then []
    else
      var n := |p| - 1;
      Gather(s[..n], p[..n], c) + (if Classify(p[n]) == c then [s[n]] else [])
  }

  /** s[mask] = vals: the k-th index in region c receives vals[k]. */
  function MaskedAssign(s: seq<int>, p: seq<real>, c: Region, vals: seq<int>): (r: seq<int>)
    requires |s| == |p| && |vals| == CountOf(p, c)
    ensures |r| == |s|
  {
    if |p| == 0 then []
    else
      var n := |p| - 1;
      var k := CountOf(p[..n], c);
      if Classify(p[n]) == c then MaskedAssign(s[..n], p[..n], c, vals[..k]) + [vals[k]]
      else MaskedAssign(s[..n], p[..n], c, vals) + [s[n]]
  }

  // ---------------------------------------------------------------------
  // Masks

  lemma CountStep(p: seq<real>, c: Region, i: nat)
    requires i < |p|
    ensures CountOf(p[..i + 1], c) == CountOf(p[..i], c) + (if Classify(p[i]) == c then 1 else 0)
  {
    assert p[..i + 1][..i] == p[..i];
  }

  lemma {:induction false} CountPrefix(p: seq<real>, c: Region, i: nat)
    requires i <= |p|
    ensures CountOf(p[..i], c) <= CountOf(p, c)
    decreases |p| - i
  {
    if i < |p| {
      CountStep(p, c, i);
      CountPrefix(p, c, i + 1);
    } else {
      assert p[..i] == p;
    }
  }

  /** The masks are disjoint and cover every index. */
  lemma {:induction false} CountPartition(p: seq<real>)
    ensures CountOf(p, Hard) + CountOf(p, Easy) + CountOf(p, Mid) == |p|
  {
    if |p| > 0 {
      CountPartition(p[..|p| - 1]);
    }
  }

  /** A mask that selects every index has the full length. */
  lemma {:induction false} CountAll(p: seq<real>, c: Region)
    requires forall i :: 0 <= i < |p| ==> Classify(p[i]) == c
    ensures CountOf(p, c) == |p|
    ensures forall c' :: c' != c ==> CountOf(p, c') == 0
  {
    if |p| > 0 {
      CountAll(p[..|p| - 1], c);
    }
  }

  /** The position of index i within its mask. */
  lemma {:induction false} GatherAt<T>(s: seq<T>, p: seq<real>, c: Region, i: nat)
    requires |s| == |p| && i < |p| && Classify(p[i]) == c
    ensures CountOf(p[..i], c) < CountOf(p, c)
    ensures Gather(s, p, c)[CountOf(p[..i], c)] == s[i]
  {
    var n := |p| - 1;
    if i == n {
      assert p[..n] == p[..i];
    } else {
      GatherAt(s[..n], p[..n], c, i);
      assert p[..n][..i] == p[..i];
    }
  }

  /** A region is empty exactly when no index classifies into it. */
  lemma {:induction false} NoneOf(p: seq<real>, c: Region)
    ensures CountOf(p, c) == 0 <==> forall i :: 0 <= i < |p| ==> Classify(p[i]) != c
  {
    if |p| > 0 {
      var n := |p| - 1;
      NoneOf(p[..n], c);
      assert forall i :: 0 <= i < n ==> p[..n][i] == p[i];
    }
  }

  /** Entry i after a masked write: the value of its rank, or unchanged. */
  lemma {:induction false} MaskedAt(s: seq<int>, p: seq<real>, c: Region, vals: seq<int>, i: nat)
    requires |s| == |p| && |vals| == CountOf(p, c) && i < |p|
    ensures Classify(p[i]) == c ==>
      CountOf(p[..i], c) < |vals| && MaskedAssign(s, p, c, vals)[i] == vals[CountOf(p[..i], c)]
    ensures Classify(p[i]) != c ==> MaskedAssign(s, p, c, vals)[i] == s[i]
  {
    var n := |p| - 1;
    var k := CountOf(p[..n], c);
    if i == n {
      assert p[..n] == p[..i];
    } else {
      var vals' := if Classify(p[n]) == c then vals[..k] else vals;
      MaskedAt(s[..n], p[..n], c, vals', i);
      assert p[..n][..i] == p[..i];
    }
  }

  /** A masked write replaces the gathered entries' sum by the values' sum. */
  lemma {:induction false} MaskedSum(s: seq<int>, p: seq<real>, c: Region, vals: seq<int>)
    requires |s| == |p| && |vals| == CountOf(p, c)
    ensures Sum(MaskedAssign(s, p, c, vals)) == Sum(s) - Sum(Gather(s, p, c)) + Sum(vals)
  {
    if |p| > 0 {
      var n := |p| - 1;
      var k := CountOf(p[..n], c);
      SumLast(s);
      var r := MaskedAssign(s, p, c, vals);
      SumLast(r);
      assert r[..n] == MaskedAssign(s[..n], p[..n], c, if Classify(p[n]) == c then vals[..k] else vals);
      if Classify(p[n]) == c {
        MaskedSum(s[..n], p[..n], c, vals[..k]);
        SumLast(vals);
        assert vals[..|vals| - 1] == vals[..k];
        SumConcat(Gather(s[..n], p[..n], c), [s[n]]);
      } else {
        MaskedSum(s[..n], p[..n], c, vals);
        assert Gather(s, p, c) == Gather(s[..n], p[..n], c);
      }
    }
  }

  /** Gathering a sequence that is v on the mask gives copies of v. */
  lemma {:induction false} GatherConst(s: seq<int>, p: seq<real>, c: Region, v: int)
    requires |s| == |p|
    requires forall i :: 0 <= i < |p| && Classify(p[i]) == c ==> s[i] == v
    ensures Gather(s, p, c) == seq(CountOf(p, c), _ => v)
  {
    if |p| > 0 {
      var n := |p| - 1;
      GatherConst(s[..n], p[..n], c, v);
    }
  }

  /** A mask that selects every index gathers the whole vector. */
  lemma {:induction false} GatherAll<T>(s: seq<T>, p: seq<real>, c: Region)
    requires |s| == |p|
    requires forall i :: 0 <= i < |p| ==> Classify(p[i]) == c
    ensures Gather(s, p, c) == s
  {
    if |p| > 0 {
      var n := |p| - 1;
      GatherAll(s[..n], p[..n], c);
    }
  }

  /** A mask that selects every index writes the whole vector. */
  lemma {:induction false} MaskedAll(s: seq<int>, p: seq<real>, c: Region, vals: seq<int>)
    requires |s| == |p| == |vals|
    requires forall i :: 0 <= i < |p| ==> Classify(p[i]) == c
    ensures CountOf(p, c) == |p|
    ensures MaskedAssign(s, p, c, vals) == vals
  {
    CountAll(p, c);
    if |p| > 0 {
      var n := |p| - 1;
      CountAll(p[..n], c);
      MaskedAll(s[..n], p[..n], c, vals[..n]);
    }
  }

  /** A sequence that is q inside the mask and 0 outside sums to count * q. */
  lemma {:induction false} SumIndicator(r: seq<int>, p: seq<real>, c: Region, q: int)
    requires |r| == |p|
    requires forall i :: 0 <= i < |p| ==> r[i] == (if Classify(p[i]) == c then q else 0)
    ensures Sum(r) == CountOf(p, c) * q
  {
    if |p| > 0 {
      var n := |p| - 1;
      SumLast(r);
      assert forall i :: 0 <= i < n ==> r[..n][i] == r[i] && p[..n][i] == p[i];
      SumIndicator(r[..n], p[..n], c, q);
      var k := CountOf(p[..n], c);
      if Classify(p[n]) == c {
        MulSucc(k, q);
      }
    }
  }

  method GatherWhere<T>(s: seq<T>, p: seq<real>, c: Region) returns (g: seq<T>)
    requires |s| == |p|
    ensures g == Gather(s, p, c)
  {
    g := [];
    for i := 0 to |p|
      invariant g == Gather(s[..i], p[..i], c)
    {
      assert s[..i + 1][..i] == s[..i] && p[..i + 1][..i] == p[..i];
      if Classify(p[i]) == c {
        g := g + [s[i]];
      }
    }
    assert s[..|p|] == s && p[..|p|] == p;
  }

  /** a[mask] = vals, written index by index. */
  method MaskedWrite(a: array<int>, p: seq<real>, c: Region, vals: seq<int>)
    requires a.Length == |p| && |vals| == CountOf(p, c)
    modifies a
    ensures a[..] == MaskedAssign(old(a[..]), p, c, vals)
  {
    ghost var s := a[..];
    ghost var target := MaskedAssign(s, p, c, vals);
    var r := 0;
    assert p[..0] == [];
    for i := 0 to a.Length
      invariant r == CountOf(p[..i], c)
      invariant forall j :: 0 <= j < i ==> a[j] == target[j]
      invariant forall j :: i <= j < a.Length ==> a[j] == s[j]
    {
      MaskedAt(s, p, c, vals, i);
      CountStep(p, c, i);
      if Classify(p[i]) == c {
        a[i] := vals[r];
        r := r + 1;
      }
    }
    assert a[..] == target;
  }

  // ---------------------------------------------------------------------
  // The even split over hard keys

  /** give[t]: remain // H for every hard key, plus 1 for the first remain % H. */
  function Share(remain: int, h: int, t: int): int
    requires h > 0
  {
    FloorDiv(remain, h) + (if t < FloorMod(remain, h) then 1 else 0)
  }

  /** give: the shares of every hard key, in order. */
  function Split(remain: int, h: int): (give: seq<int>)
    requires h > 0
    ensures |give| == h
  {
    seq(h, t requires 0 <= t < h => Share(remain, h, t))
  }

  lemma {:induction false} SumStaircase(h: nat, q: int, k: nat)
    ensures Sum(seq(h, t => q + (if t < k then 1 else 0))) == h * q + Min(k, h)
  {
    if h > 0 {
      var s := seq(h, t => q + (if t < k then 1 else 0));
      SumLast(s);
      assert s[..h - 1] == seq(h - 1, t => q + (if t < k then 1 else 0));
      SumStaircase(h - 1, q, k);
    }
  }

  /** The shares add up to exactly what remains. */
  lemma ShareSum(remain: int, h: int)
    requires h > 0
    ensures Sum(Split(remain, h)) == remain
  {
    FloorDivMod(remain, h);
    var q, k := FloorDiv(remain, h), FloorMod(remain, h);
    assert Split(remain, h) == seq(h, t => q + (if t < k then 1 else 0));
    SumStaircase(h, q, k);
  }

  /** The split is as even as possible: every share is remain // H or one
      more, the larger shares come first, and an exact division gives equal
      shares. */
  lemma ShareBounds(remain: int, h: int, t: int, t': int)
    requires h > 0 && 0 <= t <= t' < h
    ensures FloorDiv(remain, h) <= Share(remain, h, t) <= FloorDiv(remain, h) + 1
    ensures Share(remain, h, t') <= Share(remain, h, t)
    ensures FloorMod(remain, h) == 0 ==> Share(remain, h, t) == FloorDiv(remain, h)
  {
  }

  // ---------------------------------------------------------------------
  // The final repair

  /** The repair loop from index 0 with |diff| = d still to place: entry i
      moves by take = min(can, d) towards n_up (up) or n_low (down), where can
      is its distance to that bound; the loop stops once d reaches 0. When an
      entry lies below n_low on the way down, can is negative and the entry
      is raised to n_low while d grows. */
  function RepairSeq(s: seq<int>, up: bool, d: nat, nLow: int, nUp: int): (r: seq<int>)
    ensures |r| == |s|
  {
    if |s| == 0 || d == 0 then s
    else
      var can := if up then nUp - s[0] else s[0] - nLow;
      var take := Min(can, d);
      [s[0] + (if up then take else -take)] + RepairSeq(s[1..], up, d - take, nLow, nUp)
  }

  /** The final sanity step: repair only when the sum misses the budget and
      there is at least one key. */
  function Repaired(s: seq<int>, total: int, nLow: int, nUp: int): (r: seq<int>)
    ensures |r| == |s|
  {
    var diff := total - Sum(s);
    if diff != 0 && |s| > 0 then RepairSeq(s, diff > 0, Abs(diff), nLow, nUp) else s
  }

  lemma {:induction false} SumAtMost(s: seq<int>, hi: int)
    requires forall j :: 0 <= j < |s| ==> s[j] <= hi
    ensures Sum(s) <= |s| * hi
  {
    if |s| > 0 {
      SumAtMost(s[1..], hi);
    }
  }

  lemma {:induction false} SumAtLeast(s: seq<int>, lo: int)
    requires forall j :: 0 <= j < |s| ==> lo <= s[j]
    ensures |s| * lo <= Sum(s)
  {
    if |s| > 0 {
      SumAtLeast(s[1..], lo);
    }
  }

  /** The room left below n_up: the sum of n_up - s[j]. */
  function Room(s: seq<int>, nUp: int): int
  {
    if |s| == 0 then 0 else (nUp - s[0]) + Room(s[1..], nUp)
  }

  /** The slack above n_low: the sum of s[j] - n_low. */
  function Slack(s: seq<int>, nLow: int): int
  {
    if |s| == 0 then 0 else (s[0] - nLow) + Slack(s[1..], nLow)
  }

  lemma {:induction false} RoomIsGap(s: seq<int>, nUp: int)
    ensures Room(s, nUp) == |s| * nUp - Sum(s)
  {
    if |s| > 0 {
      RoomIsGap(s[1..], nUp);
      assert |s| * nUp == nUp + (|s| - 1) * nUp;
    }
  }

  lemma {:induction false} SlackIsGap(s: seq<int>, nLow: int)
    ensures Slack(s, nLow) == Sum(s) - |s| * nLow
  {
    if |s| > 0 {
      SlackIsGap(s[1..], nLow);
      assert |s| * nLow == nLow + (|s| - 1) * nLow;
    }
  }

  lemma {:induction false} RoomNonNegative(s: seq<int>, nUp: int)
    requires forall j :: 0 <= j < |s| ==> s[j] <= nUp
    ensures Room(s, nUp) >= 0
  {
    if |s| > 0 {
      RoomNonNegative(s[1..], nUp);
    }
  }

  lemma {:induction false} SlackNonNegative(s: seq<int>, nLow: int)
    requires forall j :: 0 <= j < |s| ==> nLow <= s[j]
    ensures Slack(s, nLow) >= 0
  {
    if |s| > 0 {
      SlackNonNegative(s[1..], nLow);
    }
  }

  /** Both directions of the repair change entry j only through r[1..]. */
  lemma RepairTail(s: seq<int>, up: bool, d: nat, nLow: int, nUp: int)
    requires |s| > 0 && d > 0
    ensures var take := Min(if up then nUp - s[0] else s[0] - nLow, d);
      && RepairSeq(s, up, d, nLow, nUp)[0] == s[0] + (if up then take else -take)
      && RepairSeq(s, up, d, nLow, nUp)[1..] == RepairSeq(s[1..], up, d - take, nLow, nUp)
  {
  }

  /** Repair upwards: entries only grow and never pass n_up. */
  lemma {:induction false} RepairUpBounds(s: seq<int>, d: nat, nLow: int, nUp: int)
    requires forall j :: 0 <= j < |s| ==> s[j] <= nUp
    ensures forall j :: 0 <= j < |s| ==> s[j] <= RepairSeq(s, true, d, nLow, nUp)[j] <= nUp
  {
    if |s| > 0 && d > 0 {
      var take := Min(nUp - s[0], d);
      RepairUpBounds(s[1..], d - take, nLow, nUp);
      RepairTail(s, true, d, nLow, nUp);
      var r := RepairSeq(s, true, d, nLow, nUp);
      forall j | 0 < j < |s| ensures s[j] <= r[j] <= nUp {
        assert s[j] == s[1..][j - 1] && r[j] == r[1..][j - 1];
      }
    }
  }

  /** Repair upwards: the sum grows by d or by all the room, whichever is less. */
  lemma {:induction false} RepairUpSum(s: seq<int>, d: nat, nLow: int, nUp: int)
    requires forall j :: 0 <= j < |s| ==> s[j] <= nUp
    ensures Sum(RepairSeq(s, true, d, nLow, nUp)) == Sum(s) + Min(d, Room(s, nUp))
  {
    RoomNonNegative(s, nUp);
    if |s| > 0 && d > 0 {
      var take := Min(nUp - s[0], d);
      RepairUpSum(s[1..], d - take, nLow, nUp);
      RoomNonNegative(s[1..], nUp);
      RepairTail(s, true, d, nLow, nUp);
      var r := RepairSeq(s, true, d, nLow, nUp);
      assert r == [r[0]] + r[1..];
    }
  }

  /** Repair upwards in index order: a changed entry has only entries at
      n_up before it. */
  lemma {:induction false} RepairUpOrder(s: seq<int>, d: nat, nLow: int, nUp: int)
    ensures var r := RepairSeq(s, true, d, nLow, nUp);
      forall j, j' :: 0 <= j' < j < |s| && r[j] != s[j] ==> r[j'] == nUp
  {
    if |s| > 0 && d > 0 {
      var take := Min(nUp - s[0], d);
      RepairUpOrder(s[1..], d - take, nLow, nUp);
      RepairTail(s, true, d, nLow, nUp);
      var r := RepairSeq(s, true, d, nLow, nUp);
      forall j, j' | 0 <= j' < j < |s| && r[j] != s[j] ensures r[j'] == nUp {
        assert s[j] == s[1..][j - 1] && r[j] == r[1..][j - 1];
        if j' > 0 {
          assert s[j'] == s[1..][j' - 1] && r[j'] == r[1..][j' - 1];
        }
      }
    }
  }

  /** Repair upwards, all together: entries grow within n_up in index order
      and the sum grows by d or by all the room |s| * n_up - sum, whichever is
      less. */
  lemma RepairUp(s: seq<int>, d: nat, nLow: int, nUp: int)
    requires forall j :: 0 <= j < |s| ==> s[j] <= nUp
    ensures var r := RepairSeq(s, true, d, nLow, nUp);
      && (forall j :: 0 <= j < |s| ==> s[j] <= r[j] <= nUp)
      && Sum(r) == Sum(s) + Min(d, |s| * nUp - Sum(s))
      && (forall j, j' :: 0 <= j' < j < |s| && r[j] != s[j] ==> r[j'] == nUp)
  {
    RepairUpBounds(s, d, nLow, nUp);
    RepairUpSum(s, d, nLow, nUp);
    RepairUpOrder(s, d, nLow, nUp);
    RoomIsGap(s, nUp);
  }

  /** Repair downwards over entries at least n_low: entries only shrink and
      never pass n_low. */
  lemma {:induction false} RepairDownBounds(s: seq<int>, d: nat, nLow: int, nUp: int)
    requires forall j :: 0 <= j < |s| ==> nLow <= s[j]
    ensures forall j :: 0 <= j < |s| ==> nLow <= RepairSeq(s, false, d, nLow, nUp)[j] <= s[j]
  {
    if |s| > 0 && d > 0 {
      var take := Min(s[0] - nLow, d);
      RepairDownBounds(s[1..], d - take, nLow, nUp);
      RepairTail(s, false, d, nLow, nUp);
      var r := RepairSeq(s, false, d, nLow, nUp);
      forall j | 0 < j < |s| ensures nLow <= r[j] <= s[j] {
        assert s[j] == s[1..][j - 1] && r[j] == r[1..][j - 1];
      }
    }
  }

  lemma {:induction false} RepairDownSum(s: seq<int>, d: nat, nLow: int, nUp: int)
    requires forall j :: 0 <= j < |s| ==> nLow <= s[j]
    ensures Sum(RepairSeq(s, false, d, nLow, nUp)) == Sum(s) - Min(d, Slack(s, nLow))
  {
    SlackNonNegative(s, nLow);
    if |s| > 0 && d > 0 {
      var take := Min(s[0] - nLow, d);
      RepairDownSum(s[1..], d - take, nLow, nUp);
      SlackNonNegative(s[1..], nLow);
      RepairTail(s, false, d, nLow, nUp);
      var r := RepairSeq(s, false, d, nLow, nUp);
      assert r == [r[0]] + r[1..];
    }
  }

  lemma {:induction false} RepairDownOrder(s: seq<int>, d: nat, nLow: int, nUp: int)
    requires forall j :: 0 <= j < |s| ==> nLow <= s[j]
    ensures var r := RepairSeq(s, false, d, nLow, nUp);
      forall j, j' :: 0 <= j' < j < |s| && r[j] != s[j] ==> r[j'] == nLow
  {
    if |s| > 0 && d > 0 {
      var take := Min(s[0] - nLow, d);
      RepairDownOrder(s[1..], d - take, nLow, nUp);
      RepairTail(s, false, d, nLow, nUp);
      var r := RepairSeq(s, false, d, nLow, nUp);
      forall j, j' | 0 <= j' < j < |s| && r[j] != s[j] ensures r[j'] == nLow {
        assert s[j] == s[1..][j - 1] && r[j] == r[1..][j - 1];
        if j' > 0 {
          assert s[j'] == s[1..][j' - 1] && r[j'] == r[1..][j' - 1];
        }
      }
    }
  }

  /** Repair downwards over entries that are all at least n_low: entries
      shrink within n_low in index order, and the sum drops by d or by all
      the slack sum - |s| * n_low, whichever is less. */
  lemma RepairDown(s: seq<int>, d: nat, nLow: int, nUp: int)
    requires forall j :: 0 <= j < |s| ==> nLow <= s[j]
    ensures var r := RepairSeq(s, false, d, nLow, nUp);
      && (forall j :: 0 <= j < |s| ==> nLow <= r[j] <= s[j])
      && Sum(r) == Sum(s) - Min(d, Sum(s) - |s| * nLow)
      && (forall j, j' :: 0 <= j' < j < |s| && r[j] != s[j] ==> r[j'] == nLow)
  {
    RepairDownBounds(s, d, nLow, nUp);
    RepairDownSum(s, d, nLow, nUp);
    RepairDownOrder(s, d, nLow, nUp);
    SlackIsGap(s, nLow);
  }

  /** Whatever the direction, the repair keeps entries inside [0, n_up]. */
  lemma {:induction false} RepairInRange(s: seq<int>, up: bool, d: nat, nLow: int, nUp: int)
    requires 0 <= nLow <= nUp && AllWithin(s, 0, nUp)
    ensures AllWithin(RepairSeq(s, up, d, nLow, nUp), 0, nUp)
  {
    if |s| > 0 && d > 0 {
      var can := if up then nUp - s[0] else s[0] - nLow;
      var take := Min(can, d);
      RepairInRange(s[1..], up, d - take, nLow, nUp);
      var r := RepairSeq(s, up, d, nLow, nUp);
      assert r[1..] == RepairSeq(s[1..], up, d - take, nLow, nUp);
      forall j | 0 <= j < |r| ensures 0 <= r[j] <= nUp {
        if j > 0 {
          assert r[j] == r[1..][j - 1];
        }
      }
    }
  }

  /** The repair keeps entries in [0, n_up]. */
  lemma RepairedInRange(s: seq<int>, total: int, nLow: int, nUp: int)
    requires 0 <= nLow <= nUp && AllWithin(s, 0, nUp)
    ensures AllWithin(Repaired(s, total, nLow, nUp), 0, nUp)
  {
    var diff := total - Sum(s);
    if diff != 0 && |s| > 0 {
      RepairInRange(s, diff > 0, Abs(diff), nLow, nUp);
    }
  }

  /** A sum at most the budget is repaired to exactly the budget when the
      entries have room for it. */
  lemma RepairedExactFromBelow(s: seq<int>, total: int, nLow: int, nUp: int)
    requires forall j :: 0 <= j < |s| ==> s[j] <= nUp
    requires Sum(s) <= total <= |s| * nUp
    ensures Sum(Repaired(s, total, nLow, nUp)) == total
    ensures forall j :: 0 <= j < |s| ==> s[j] <= Repaired(s, total, nLow, nUp)[j] <= nUp
  {
    var d := total - Sum(s);
    if d != 0 && |s| > 0 {
      assert Repaired(s, total, nLow, nUp) == RepairSeq(s, true, d, nLow, nUp);
      RepairUpBounds(s, d, nLow, nUp);
      RoomIsGap(s, nUp);
      RepairUpSum(s, d, nLow, nUp);
    }
  }

  /** A sum above the budget over entries all at least n_low is repaired to
      exactly the budget when the budget is at least |s| * n_low. */
  lemma RepairedExactFromAbove(s: seq<int>, total: int, nLow: int, nUp: int)
    requires forall j :: 0 <= j < |s| ==> nLow <= s[j]
    requires |s| * nLow <= total <= Sum(s)
    ensures Sum(Repaired(s, total, nLow, nUp)) == total
    ensures forall j :: 0 <= j < |s| ==> nLow <= Repaired(s, total, nLow, nUp)[j] <= s[j]
  {
    var d := Sum(s) - total;
    if d != 0 && |s| > 0 {
      assert Repaired(s, total, nLow, nUp) == RepairSeq(s, false, d, nLow, nUp);
      RepairDownBounds(s, d, nLow, nUp);
      SlackIsGap(s, nLow);
      RepairDownSum(s, d, nLow, nUp);
    }
  }

  /** The downward repair as written moves away from the budget when an entry
      lies below n_low: [1, 1, 2] against a budget of 3 with n_low = 2 ends at
      [2, 2, 2], whose sum 6 is further from 3 than the original 4. */
  lemma RepairBelowFloorOvershoots()
    ensures Repaired([1, 1, 2], 3, 2, 10) == [2, 2, 2]
    ensures Sum(Repaired([1, 1, 2], 3, 2, 10)) == 6
  {
    assert Sum([1, 1, 2]) == 4;
    assert Sum([2, 2, 2]) == 6;
  }

  /** One step of the repair loop: writing entry i and lowering d keeps the
      prefix-plus-remaining-repair equal to the whole repair. */
  lemma RepairAdvance(pre: seq<int>, i: nat, up: bool, d: nat, nLow: int, nUp: int, post: seq<int>)
    requires i < |pre| && d > 0
    requires var take := Min(if up then nUp - pre[i] else pre[i] - nLow, d);
      post == pre[i := pre[i] + (if up then take else -take)]
    ensures var take := Min(if up then nUp - pre[i] else pre[i] - nLow, d);
      post[..i + 1] + RepairSeq(post[i + 1..], up, d - take, nLow, nUp)
        == pre[..i] + RepairSeq(pre[i..], up, d, nLow, nUp)
  {
    var take := Min(if up then nUp - pre[i] else pre[i] - nLow, d);
    assert pre[i..][1..] == pre[i + 1..];
    assert post[i + 1..] == pre[i + 1..];
    assert post[..i + 1] == pre[..i] + [post[i]];
  }


  /** The repair loop as it runs over the whole vector from index i on:
      each entry in turn takes what it can of the remaining d, until d is
      spent or the entries run out. */
  function RepairFrom(s: seq<int>, i: nat, up: bool, d: nat, nLow: int, nUp: int): (r: seq<int>)
    requires i <= |s|
    ensures |r| == |s|
    decreases |s| - i
  {
    if i == |s| || d == 0 then s
    else
      var take := Min(if up then nUp - s[i] else s[i] - nLow, d);
      RepairFrom(s[i := s[i] + (if up then take else -take)], i + 1, up, d - take, nLow, nUp)
  }

  /** Running the loop from index i leaves the prefix and repairs the suffix. */
  lemma {:induction false} RepairFromSplit(s: seq<int>, i: nat, up: bool, d: nat, nLow: int, nUp: int)
    requires i <= |s|
    ensures RepairFrom(s, i, up, d, nLow, nUp) == s[..i] + RepairSeq(s[i..], up, d, nLow, nUp)
    decreases |s| - i
  {
    if i == |s| {
      assert s[..i] == s && s[i..] == [];
    } else if d == 0 {
      assert s[..i] + s[i..] == s;
    } else {
      var take := Min(if up then nUp - s[i] else s[i] - nLow, d);
      var post := s[i := s[i] + (if up then take else -take)];
      RepairAdvance(s, i, up, d, nLow, nUp, post);
      RepairFromSplit(post, i + 1, up, d - take, nLow, nUp);
    }
  }

  /** The repair loop of allocate_with_extremes, in place on the allocation. */
  method Repair(a: array<int>, totalBudget: int, nLow: int, nUp: int)
    modifies a
    ensures a[..] == Repaired(old(a[..]), totalBudget, nLow, nUp)
  {
    var diff := totalBudget - Sum(a[..]);
    var m := a.Length;
    if diff != 0 && m > 0 {
      var sgn := if diff > 0 then 1 else -1;
      diff := Abs(diff);
      ghost var s0, up := a[..], sgn > 0;
      ghost var target := RepairFrom(s0, 0, up, diff, nLow, nUp);
      assert target == Repaired(s0, totalBudget, nLow, nUp) by {
        RepairFromSplit(s0, 0, up, diff, nLow, nUp);
        assert s0[0..] == s0;
      }
      for i := 0 to m
        invariant diff >= 0
        invariant RepairFrom(a[..], i, up, diff, nLow, nUp) == target
      {
        if diff == 0 {
          break;
        }
        ghost var pre := a[..];
        var can := if sgn > 0 then nUp - a[i] else a[i] - nLow;
        var take := Min(can, diff);
        // sgn * take, for sgn in {1, -1}
        a[i] := a[i] + (if sgn > 0 then take else -take);
        assert a[..] == pre[i := pre[i] + (if up then take else -take)];
        diff := diff - take;
      }
    }
  }
}
