/**
 * The three goal conditions the search can be given. Each Java class is an
 * immutable object whose only method is isSatisfied; here a goal is a value
 * of one datatype and isSatisfied one function over it. Because a Dafny
 * sequence is a value, the copy ExactMatchGoal takes of its target array is
 * implicit: nothing the caller does later can change a Goal.
 */
module Goals {
  import opened States

  datatype Goal =
    | ExactMatch(target: seq<int>)
    | SingleContainer(containerIndex: int, desiredVolume: int)
    | EvenDistribution

  /**
   * The states isSatisfied returns on rather than throws for: the single
   * container goal indexes its container, and the even distribution goal
   * reads the first volume before its loop.
   */
  predicate CanCheck(g: Goal, s: State) {
    match g
    case ExactMatch(_) => true
    case SingleContainer(i, _) => 0 <= i < |s|
    case EvenDistribution => |s| > 0
  }

  /** isSatisfied of the three goal classes. */
  function IsSatisfied(g: Goal, s: State): (r: bool)
    requires CanCheck(g, s)
    ensures g.ExactMatch? ==> (r <==> MatchesGoal(s, g.target))
    ensures g.SingleContainer? ==> (r <==> s[g.containerIndex] == g.desiredVolume)
    ensures g.EvenDistribution? ==> (r <==> forall k :: 0 <= k < |s| ==> s[k] == s[0])
  {
    match g
    case ExactMatch(target) => s == target
    case SingleContainer(i, desired) => s[i] == desired
    case EvenDistribution =>
      AllEqualFromSpec(s, s[0], 0);
      AllEqualFrom(s, s[0], 0)
  }

  /** The loop of EvenDistributionGoal from position k on: false at the first volume other than first. */
  function AllEqualFrom(s: State, first: int, k: nat): bool
    requires k <= |s|
    decreases |s| - k
  {
    if k == |s| then true
    else if s[k] != first then false
    else AllEqualFrom(s, first, k + 1)
  }

  /** The loop returns true exactly when every volume from k on equals first. */
  lemma {:induction false} AllEqualFromSpec(s: State, first: int, k: nat)
    requires k <= |s|
    ensures AllEqualFrom(s, first, k) <==> forall j :: k <= j < |s| ==> s[j] == first
    decreases |s| - k
  {
    if k < |s| && s[k] == first {
      AllEqualFromSpec(s, first, k + 1);
    }
  }

  /** EvenDistributionGoal.isSatisfied as written: the loop that returns false at the first volume unlike the first. */
  method EvenDistributionCheck(volume: State) returns (r: bool)
    requires |volume| > 0
    ensures r == IsSatisfied(EvenDistribution, volume)
  {
    var firstVol := volume[0];
    for k := 0 to |volume|
      invariant forall j :: 0 <= j < k ==> volume[j] == firstVol
    {
      if volume[k] != firstVol {
        return false;
      }
    }
    return true;
  }

  /** An exact-match goal never holds for a state with a different number of containers. */
  lemma ExactMatchNeedsLength(target: seq<int>, s: State)
    requires |s| != |target|
    ensures !IsSatisfied(ExactMatch(target), s)
  {
  }

  /** The single container goal reads one container: states that agree there agree on the goal. */
  lemma SingleContainerReadsOne(i: int, desired: int, s: State, t: State)
    requires 0 <= i < |s| && 0 <= i < |t| && s[i] == t[i]
    ensures IsSatisfied(SingleContainer(i, desired), s) == IsSatisfied(SingleContainer(i, desired), t)
  {
  }

  /** The single container goal holds exactly when the indexed container holds the desired volume. */
  lemma SingleContainerMeaning(i: int, desired: int, s: State)
    requires 0 <= i < |s|
    ensures IsSatisfied(SingleContainer(i, desired), s) <==> s[i] == desired
    ensures IsSatisfied(SingleContainer(i, desired), s[i := desired])
  {
  }

  /** A single container is always evenly distributed. */
  lemma EvenDistributionSingle(x: int)
    ensures IsSatisfied(EvenDistribution, [x])
  {
  }

  /** Even distribution does not depend on which container holds which volume. */
  lemma EvenDistributionPermutation(s: State, t: State)
    requires |s| > 0 && multiset(s) == multiset(t)
    ensures |t| > 0
    ensures IsSatisfied(EvenDistribution, s) == IsSatisfied(EvenDistribution, t)
  {
    assert s[0] in multiset(t);
    if IsSatisfied(EvenDistribution, s) {
      AllEqualImpliesSame(s, t);
    }
    if IsSatisfied(EvenDistribution, t) {
      AllEqualImpliesSame(t, s);
    }
  }

  /** When every volume of s is s[0], every volume of a permutation t of s is t[0]. */
  lemma AllEqualImpliesSame(s: State, t: State)
    requires |s| > 0 && |t| > 0 && multiset(s) == multiset(t)
    requires forall k :: 0 <= k < |s| ==> s[k] == s[0]
    ensures forall k :: 0 <= k < |t| ==> t[k] == t[0]
  {
    forall k | 0 <= k < |t| ensures t[k] == s[0] {
      assert t[k] in multiset(s);
    }
  }
}
