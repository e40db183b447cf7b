/**
 * State: a snapshot of the volume held by every container.
 *
 * The Java class keeps a private int[] that it copies on construction and on
 * every getVolumes call. A Dafny sequence is a value, so that copying is
 * built in: no caller can change a State after it is made.
 */
module States {
  import opened JavaStrings

  type State = seq<int>

  /** The argument of State.equals: either another State or some other object. */
  datatype JavaObject = StateObject(volumes: State) | OtherObject

  /** State.matchesGoal: Arrays.equals(volumes, target). */
  function MatchesGoal(s: State, target: seq<int>): (r: bool)
    ensures r <==> |s| == |target| && forall i :: 0 <= i < |s| ==> s[i] == target[i]
  {
    s == target
  }

  /** State.equals: true exactly for another State with the same volumes. */
  function Equals(s: State, o: JavaObject): (r: bool)
    ensures r <==> o.StateObject? && |o.volumes| == |s| && forall i :: 0 <= i < |s| ==> s[i] == o.volumes[i]
  {
    match o
    case StateObject(v) => s == v
    case OtherObject => false
  }

  /** State.equals is an equivalence relation on states. */
  lemma EqualsIsEquivalence(a: State, b: State, c: State)
    ensures Equals(a, StateObject(a))
    ensures Equals(a, StateObject(b)) <==> Equals(b, StateObject(a))
    ensures Equals(a, StateObject(b)) && Equals(b, StateObject(c)) ==> Equals(a, StateObject(c))
  {
  }

  /** Java's int arithmetic: the 32-bit two's-complement value of x. */
  function Wrap32(x: int): (r: int)
    ensures IntMin <= r <= IntMax
    ensures IntMin <= x <= IntMax ==> r == x
  {
    (x - IntMin) % 0x1_0000_0000 + IntMin
  }

  /** State.hashCode: Arrays.hashCode, 31 * h + v over the volumes starting from 1, in int arithmetic. */
  function HashCode(s: State): (r: int)
    ensures IntMin <= r <= IntMax
  {
    if s == [] then 1 else Wrap32(31 * HashCode(s[..|s| - 1]) + s[|s| - 1])
  }

  /** Equal states hash equally, so a HashSet of states deduplicates by value. */
  lemma HashCodeConsistent(a: State, b: State)
    requires Equals(a, StateObject(b))
    ensures HashCode(a) == HashCode(b)
  {
  }

  /** State.toString: Arrays.toString, "[v0, v1, ...]". */
  function ToString(s: State): (r: string)
    ensures |r| >= 2 && r[0] == '[' && r[|r| - 1] == ']'
  {
    "[" + JoinInts(s) + "]"
  }

  function JoinInts(s: seq<int>): string {
    if s == [] then "" else if |s| == 1 then IntToString(s[0]) else IntToString(s[0]) + ", " + JoinInts(s[1..])
  }

  /** The text Arrays.toString writes determines the state. */
  lemma ToStringInjective(a: State, b: State)
    requires ToString(a) == ToString(b)
    ensures a == b
  {
    var ta, tb := ToString(a), ToString(b);
    assert JoinInts(a) == ta[1..|ta| - 1];
    assert JoinInts(b) == tb[1..|tb| - 1];
    JoinIntsInjective(a, b);
  }

  lemma {:induction false} JoinIntsInjective(a: seq<int>, b: seq<int>)
    requires JoinInts(a) == JoinInts(b)
    ensures a == b
    decreases |a|
  {
    JoinIntsShape(a);
    JoinIntsShape(b);
    if |a| >= 2 {
      var x, y := IntToString(a[0]), IntToString(b[0]);
      CutAtDelimiter(x, " " + JoinInts(a[1..]), y, " " + JoinInts(b[1..]), ',');
      IntToStringInjective(a[0], b[0]);
      assert JoinInts(a[1..]) == (" " + JoinInts(a[1..]))[1..];
      assert JoinInts(b[1..]) == (" " + JoinInts(b[1..]))[1..];
      JoinIntsInjective(a[1..], b[1..]);
      assert a == [a[0]] + a[1..];
      assert b == [b[0]] + b[1..];
    } else if |a| == 1 {
      IntToStringInjective(a[0], b[0]);
    }
  }

  /** A comma appears exactly when there are two or more volumes, right after the first one. */
  lemma JoinIntsShape(s: seq<int>)
    ensures s == [] <==> JoinInts(s) == ""
    ensures |s| == 1 ==> ',' !in JoinInts(s)
    ensures |s| >= 2 ==> ',' in JoinInts(s) && ',' !in IntToString(s[0])
    ensures |s| >= 2 ==> JoinInts(s) == IntToString(s[0]) + [','] + (" " + JoinInts(s[1..]))
  {
    if s != [] {
      assert |IntToString(s[0])| > 0;
      IntToStringChars(s[0]);
      if |s| >= 2 {
        JoinIntsCons(s);
      }
    }
  }

  lemma JoinIntsCons(s: seq<int>)
    requires |s| >= 2
    ensures JoinInts(s) == IntToString(s[0]) + [','] + (" " + JoinInts(s[1..]))
    ensures ',' in JoinInts(s)
  {
    JoinIntsUnfold(s);
    assert JoinInts(s)[|IntToString(s[0])|] == ',';
  }

  lemma JoinIntsUnfold(s: seq<int>)
    requires |s| >= 2
    ensures JoinInts(s) == IntToString(s[0]) + [','] + (" " + JoinInts(s[1..]))
  {
    CommaSpace(IntToString(s[0]), JoinInts(s[1..]));
  }

  lemma CommaSpace(x: string, y: string)
    ensures x + ", " + y == x + [','] + (" " + y)
  {
    assert ", " == [','] + " ";
  }

  /** Σ s, accumulated left to right as the Java loops and Arrays.stream(...).sum() do. */
  function Sum(s: seq<int>): int {
    SumTo(s, |s|)
  }

  /** s[0] + ... + s[n-1]. */
  function SumTo(s: seq<int>, n: nat): int
    requires n <= |s|
  {
    if n == 0 then 0 else SumTo(s, n - 1) + s[n - 1]
  }

  /** The first n entries alone decide the partial sum. */
  lemma {:induction false} SumToAgree(s: seq<int>, t: seq<int>, n: nat)
    requires n <= |s| && n <= |t|
    requires forall k :: 0 <= k < n ==> s[k] == t[k]
    ensures SumTo(s, n) == SumTo(t, n)
  {
    if n > 0 {
      SumToAgree(s, t, n - 1);
    }
  }

  lemma {:induction false} SumToUpdate(s: seq<int>, i: int, x: int, n: nat)
    requires 0 <= i < |s| && n <= |s|
    ensures SumTo(s[i := x], n) == SumTo(s, n) + (if i < n then x - s[i] else 0)
  {
    if n > 0 {
      SumToUpdate(s, i, x, n - 1);
    }
  }

  /** Changing one entry changes the sum by the difference. */
  lemma SumUpdate(s: seq<int>, i: int, x: int)
    requires 0 <= i < |s|
    ensures Sum(s[i := x]) == Sum(s) - s[i] + x
  {
    SumToUpdate(s, i, x, |s|);
  }

  /** The sum of a concatenation is the sum of the sums. */
  lemma SumAppend(a: seq<int>, b: seq<int>)
    ensures Sum(a + b) == Sum(a) + Sum(b)
  {
    SumToAgree(a + b, a, |a|);
    SumAppendFrom(a, b, |b|);
  }

  lemma {:induction false} SumAppendFrom(a: seq<int>, b: seq<int>, k: nat)
    requires k <= |b|
    requires SumTo(a + b, |a|) == Sum(a)
    ensures SumTo(a + b, |a| + k) == Sum(a) + SumTo(b, k)
  {
    if k > 0 {
      SumAppendFrom(a, b, k - 1);
      assert (a + b)[|a| + k - 1] == b[k - 1];
    }
  }

  lemma SumSingleton(x: int)
    ensures Sum([x]) == x
  {
    assert SumTo([x], 0) == 0;
  }

  /** The sum does not depend on the order of the containers. */
  lemma {:induction false} SumPermutation(a: seq<int>, b: seq<int>)
    requires multiset(a) == multiset(b)
    ensures Sum(a) == Sum(b)
    decreases |a|
  {
    if a != [] {
      var x := a[|a| - 1];
      assert x in multiset(b);
      var k :| 0 <= k < |b| && b[k] == x;
      var a', b' := a[..|a| - 1], b[..k] + b[k + 1..];
      MultisetRemoveAt(b, k);
      MultisetDropLast(a);
      SumMoveToEnd(b, k);
      SumDropLast(a);
      SumPermutation(a', b');
    } else {
      assert b == [];
    }
  }

  lemma SumDropLast(a: seq<int>)
    requires a != []
    ensures Sum(a) == Sum(a[..|a| - 1]) + a[|a| - 1]
  {
    SumToAgree(a, a[..|a| - 1], |a| - 1);
  }

  lemma MultisetDropLast(a: seq<int>)
    requires a != []
    ensures multiset(a[..|a| - 1]) == multiset(a) - multiset{a[|a| - 1]}
  {
    assert a == a[..|a| - 1] + [a[|a| - 1]];
  }

  lemma MultisetRemoveAt(b: seq<int>, k: int)
    requires 0 <= k < |b|
    ensures multiset(b[..k] + b[k + 1..]) == multiset(b) - multiset{b[k]}
  {
    assert b == b[..k] + [b[k]] + b[k + 1..];
    assert multiset(b) == multiset(b[..k]) + multiset{b[k]} + multiset(b[k + 1..]);
  }

  /** Taking element k out and putting it last keeps the sum. */
  lemma SumMoveToEnd(b: seq<int>, k: int)
    requires 0 <= k < |b|
    ensures Sum(b) == Sum(b[..k] + b[k + 1..]) + b[k]
  {
    var front, back := b[..k], b[k + 1..];
    assert b == front + ([b[k]] + back);
    SumAppend(front, [b[k]] + back);
    SumAppend([b[k]], back);
    SumSingleton(b[k]);
    SumAppend(front, back);
  }
}
