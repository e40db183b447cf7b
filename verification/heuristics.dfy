/**
 * The four estimators. Each maps a state to a non-negative int; the two that
 * add up the volumes in a loop (TotalVolumeHeuristic, EvenDistributionHeuristic)
 * are methods with those loops, proved against a function that states the
 * value, and the two that are one expression are functions.
 */
module Heuristics {
  import opened States
  import opened Transfers
  import opened AStarSpec
  import opened Goals

  /** Math.abs, for values whose negation is an int. */
  function Abs(x: int): (r: nat)
    ensures r == x || r == -x
  {
    if x < 0 then -x else x
  }

  /** Java's integer division by a positive divisor: the quotient rounded toward zero. */
  function JavaDiv(a: int, b: int): int
    requires b > 0
  {
    if a >= 0 then a / b else -((-a) / b)
  }

  /** An exact multiple divides back to its factor, whatever its sign. */
  lemma JavaDivExact(c: int, n: int)
    requires n > 0
    ensures JavaDiv(n * c, n) == c
  {
    if c < 0 {
      assert -(n * c) == n * (-c);
      DivMultiple(-c, n);
    } else {
      DivMultiple(c, n);
    }
  }

  /** n * q divided by n is q, for a non-negative q. */
  lemma DivMultiple(q: nat, n: int)
    requires n > 0
    ensures (n * q) / n == q
  {
    var a := n * q;
    var d := q - a / n;
    assert n * d == a % n by {
      assert a == n * (a / n) + a % n;
      assert n * d == n * q - n * (a / n);
    }
    MulAtLeastOnce(n, d);
  }

  /** A non-zero multiple of n is at least n away from zero. */
  lemma MulAtLeastOnce(n: int, d: int)
    requires n > 0
    ensures d >= 1 ==> n * d >= n
    ensures d <= -1 ==> n * d <= -n
  {
    assert d >= 1 ==> n * d >= n * 1;
    assert d <= -1 ==> n * d <= n * -1;
  }

  /**
   * Java's division truncates: it agrees with Dafny's on a non-negative
   * dividend, is odd in the dividend, and b times the quotient lies on a's
   * side of zero, less than b closer to zero than a.
   */
  lemma JavaDivTruncates(a: int, b: int)
    requires b > 0
    ensures a >= 0 ==> JavaDiv(a, b) == a / b
    ensures JavaDiv(-a, b) == -JavaDiv(a, b)
    ensures Abs(b * JavaDiv(a, b)) <= Abs(a) < Abs(b * JavaDiv(a, b)) + b
    ensures a >= 0 ==> b * JavaDiv(a, b) >= 0
    ensures a <= 0 ==> b * JavaDiv(a, b) <= 0
  {
    if a >= 0 {
      DivBounds(a, b);
      if a == 0 {
        assert 0 / b == 0;
      }
    } else {
      DivBounds(-a, b);
      var q := (-a) / b;
      assert JavaDiv(a, b) == -q;
      assert b * -q == -(b * q);
    }
  }

  /** For m >= 0, b times m / b is at most m and more than m - b. */
  lemma DivBounds(m: int, b: int)
    requires m >= 0 && b > 0
    ensures 0 <= b * (m / b) <= m < b * (m / b) + b
  {
    var q, r := m / b, m % b;
    assert m == b * q + r && 0 <= r < b;
    MulAtLeastOnce(b, q);
    assert q >= 0;
    assert b * q >= 0 by {
      if q > 0 {
        assert b * q >= b;
      }
    }
  }

  // ---------------------------------------------------------------------------
  // TotalVolumeHeuristic
  // ---------------------------------------------------------------------------

  /** |Σv − goalTotal|: zero exactly when the total is the goal total. */
  function TotalVolumeValue(v: State, goalTotal: int): (r: nat)
    ensures r == 0 <==> Sum(v) == goalTotal
    ensures r >= Sum(v) - goalTotal && r >= goalTotal - Sum(v)
  {
    Abs(Sum(v) - goalTotal)
  }

  /** TotalVolumeHeuristic.estimate: the summing loop, then the absolute difference. */
  method TotalVolumeEstimate(volumes: State, goalTotal: int) returns (r: int)
    ensures r == TotalVolumeValue(volumes, goalTotal)
  {
    var sum := 0;
    for k := 0 to |volumes|
      invariant sum == SumTo(volumes, k)
    {
      sum := sum + volumes[k];
    }
    r := Abs(sum - goalTotal);
  }

  /** No pour the generator emits changes the total, so none changes this estimate. */
  lemma TotalVolumeUnchangedByMoves(v: State, cap: seq<int>, goalTotal: int, m: MoveResult)
    requires |v| <= |cap|
    requires m in NextStates(v, cap)
    ensures TotalVolumeValue(m.newState, goalTotal) == TotalVolumeValue(v, goalTotal)
  {
    NextStatesMembers(v, cap, m);
    ApplyKeepsSum(v, m.action);
  }

  /** Along any replayed sequence of generator pours the estimate stays what it was at the start. */
  lemma {:induction false} TotalVolumeConstantOnPaths(cap: seq<int>, s: State, path: seq<Transfer>, goalTotal: int)
    requires |s| <= |cap|
    requires Replay(cap, s, path).Some?
    ensures TotalVolumeValue(Replay(cap, s, path).value, goalTotal) == TotalVolumeValue(s, goalTotal)
    decreases |path|
  {
    if path != [] {
      ReplayLast(cap, s, path);
      var w := Replay(cap, s, path[..|path| - 1]).value;
      TotalVolumeConstantOnPaths(cap, s, path[..|path| - 1], goalTotal);
      TotalVolumeUnchangedByMoves(w, cap, goalTotal, MoveResult(Replay(cap, s, path).value, path[|path| - 1]));
    }
  }

  // ---------------------------------------------------------------------------
  // EvenDistributionHeuristic
  // ---------------------------------------------------------------------------

  /** |v[k] − a| for every container k. */
  function Deviations(v: State, a: int): (r: seq<int>)
    ensures |r| == |v|
  {
    seq(|v|, k requires 0 <= k < |v| => Abs(v[k] - a))
  }

  /** The average estimate uses: the total divided by the number of containers, rounded toward zero. */
  function Average(v: State): int
    requires |v| > 0
  {
    JavaDiv(Sum(v), |v|)
  }

  /**
   * Half the total absolute deviation from the average. The deviation sum is
   * never negative, so Dafny's division by 2 is Java's.
   */
  function EvenDistributionValue(v: State): int
    requires |v| > 0
  {
    Sum(Deviations(v, Average(v))) / 2
  }

  /** EvenDistributionHeuristic.estimate: the total loop, the average, the deviation loop, then half. */
  method EvenDistributionEstimate(volumes: State) returns (r: int)
    requires |volumes| > 0
    ensures r == EvenDistributionValue(volumes)
  {
    var total := 0;
    for k := 0 to |volumes|
      invariant total == SumTo(volumes, k)
    {
      total := total + volumes[k];
    }
    var average := JavaDiv(total, |volumes|);
    var sumDev := 0;
    for k := 0 to |volumes|
      invariant sumDev == SumTo(Deviations(volumes, average), k)
    {
      sumDev := sumDev + Abs(volumes[k] - average);
    }
    r := sumDev / 2;
  }

  /** A sum of non-negative entries is non-negative. */
  lemma {:induction false} SumToNonNegative(s: seq<int>, n: nat)
    requires n <= |s|
    requires forall k :: 0 <= k < |s| ==> s[k] >= 0
    ensures SumTo(s, n) >= 0
  {
    if n > 0 {
      SumToNonNegative(s, n - 1);
    }
  }

  /** n equal entries sum to n times the entry. */
  lemma {:induction false} SumToConstant(s: seq<int>, c: int, n: nat)
    requires n <= |s|
    requires forall k :: 0 <= k < |s| ==> s[k] == c
    ensures SumTo(s, n) == n * c
  {
    if n > 0 {
      SumToConstant(s, c, n - 1);
    }
  }

  /** The estimate is never negative. */
  lemma EvenDistributionNonNegative(v: State)
    requires |v| > 0
    ensures EvenDistributionValue(v) >= 0
  {
    SumToNonNegative(Deviations(v, Average(v)), |v|);
  }

  /** An evenly distributed state has estimate 0: the average is the common volume and every deviation is 0. */
  lemma EvenDistributionZeroAtGoal(v: State)
    requires |v| > 0
    requires IsSatisfied(EvenDistribution, v)
    ensures EvenDistributionValue(v) == 0
  {
    SumToConstant(v, v[0], |v|);
    JavaDivExact(v[0], |v|);
    assert Average(v) == v[0];
    SumToConstant(Deviations(v, v[0]), 0, |v|);
  }

  /**
   * The converse does not hold: the halved, rounded-down deviation sum can be
   * 0 for a state that is not evenly distributed.
   */
  lemma EvenDistributionZeroAwayFromGoal()
    ensures EvenDistributionValue([0, 1]) == 0
    ensures !IsSatisfied(EvenDistribution, [0, 1])
  {
    var v := [0, 1];
    assert Sum(v) == 1;
    assert Average(v) == 0;
    assert Deviations(v, 0) == [0, 1];
    assert Sum([0, 1]) == 1;
  }

  /** Which container holds which volume does not matter to the estimate. */
  lemma EvenDistributionPermutation(s: State, t: State)
    requires |s| > 0 && multiset(s) == multiset(t)
    ensures |t| == |s|
    ensures EvenDistributionValue(s) == EvenDistributionValue(t)
  {
    assert |multiset(s)| == |multiset(t)|;
    SumPermutation(s, t);
    assert Average(s) == Average(t);
    DeviationSumPermutation(s, t, Average(s));
  }

  /** The deviations from one value, summed over permuted volumes, have the same sum. */
  lemma {:induction false} DeviationSumPermutation(s: State, t: State, a: int)
    requires multiset(s) == multiset(t)
    ensures Sum(Deviations(s, a)) == Sum(Deviations(t, a))
    decreases |s|
  {
    if s != [] {
      var x := s[|s| - 1];
      var k := MatchLast(s, t);
      var s', t' := s[..|s| - 1], t[..k] + t[k + 1..];
      DeviationSumPermutation(s', t', a);
      var ds, dt := Deviations(s, a), Deviations(t, a);
      assert Sum(ds) == Sum(Deviations(s', a)) + Abs(x - a) by {
        SumDropLast(ds);
        DeviationsDropLast(s, a);
      }
      assert Sum(dt) == Sum(Deviations(t', a)) + Abs(x - a) by {
        SumMoveToEnd(dt, k);
        DeviationsRemoveAt(t, k, a);
      }
    } else {
      assert |t| == |multiset(t)| == 0;
    }
  }

  /** The last volume of s sits at some k in a permutation t, and the rest of s is a permutation of t without k. */
  lemma MatchLast(s: State, t: State) returns (k: int)
    requires s != [] && multiset(s) == multiset(t)
    ensures 0 <= k < |t| && t[k] == s[|s| - 1]
    ensures multiset(s[..|s| - 1]) == multiset(t[..k] + t[k + 1..])
  {
    assert s[|s| - 1] in multiset(t);
    k :| 0 <= k < |t| && t[k] == s[|s| - 1];
    MultisetDropLast(s);
    MultisetRemoveAt(t, k);
  }

  /** Dropping the last container drops its deviation. */
  lemma DeviationsDropLast(s: State, a: int)
    requires s != []
    ensures Deviations(s, a)[..|s| - 1] == Deviations(s[..|s| - 1], a)
  {
  }

  /** Removing container k removes its deviation. */
  lemma DeviationsRemoveAt(t: State, k: int, a: int)
    requires 0 <= k < |t|
    ensures Deviations(t, a)[..k] + Deviations(t, a)[k + 1..] == Deviations(t[..k] + t[k + 1..], a)
  {
    var dt, t' := Deviations(t, a), t[..k] + t[k + 1..];
    var lhs, rhs := dt[..k] + dt[k + 1..], Deviations(t', a);
    forall i | 0 <= i < |t'| ensures lhs[i] == rhs[i] {
      if i < k {
        assert t'[i] == t[i];
      } else {
        assert t'[i] == t[i + 1];
      }
    }
  }

  // ---------------------------------------------------------------------------
  // SingleContainerHeuristic and ZeroHeuristic
  // ---------------------------------------------------------------------------

  /** SingleContainerHeuristic.estimate: 0 exactly when the matching single container goal holds. */
  function SingleContainerEstimate(targetIndex: int, targetVolume: int, v: State): (r: nat)
    requires 0 <= targetIndex < |v|
    ensures r == 0 <==> IsSatisfied(SingleContainer(targetIndex, targetVolume), v)
    ensures r >= v[targetIndex] - targetVolume && r >= targetVolume - v[targetIndex]
  {
    Abs(v[targetIndex] - targetVolume)
  }

  /** Only the target container is read. */
  lemma SingleContainerEstimateReadsOne(targetIndex: int, targetVolume: int, v: State, w: State)
    requires 0 <= targetIndex < |v| && 0 <= targetIndex < |w| && v[targetIndex] == w[targetIndex]
    ensures SingleContainerEstimate(targetIndex, targetVolume, v) == SingleContainerEstimate(targetIndex, targetVolume, w)
  {
  }

  /**
   * ZeroHeuristic.estimate: no volume is read, so any state, the empty one
   * included, is accepted, and the estimate never exceeds the pours still
   * needed; a search with it is Dijkstra's.
   */
  function ZeroEstimate(v: State): (r: nat)
    ensures r == 0
  {
    0
  }
}
