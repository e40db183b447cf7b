/**
 * The map of GridPathSolver and what a route over it is: the labels, the
 * table of jump lengths between them, which jumps a runner may take, what
 * each costs, and the walks from the door together with their costs. The
 * search is stated for any well-formed map; TheGrid is the fixed one the
 * Java class holds in its two static arrays.
 */
module GridSpec {

  /** A map: the label of each position and the jump length between every two positions. */
  datatype Grid = Grid(labels: seq<string>, jumps: seq<seq<int>>)

  const Labels: seq<string> :=
    ["Door", "A", "B", "C", "D", "E", "F", "G", "H", "I", "J", "K", "L", "M", "N", "Fridge"]

  /** The jump lengths, row by row in the order of Labels; 10 marks pairs too far apart to jump. */
  const Distances: seq<seq<int>> := [
    [0, 2, 3, 4, 8, 10, 10, 10, 10, 10, 10, 10, 10, 10, 10, 10],
    [2, 0, 5, 3, 7, 10, 10, 10, 10, 10, 10, 10, 10, 10, 10, 10],
    [3, 5, 0, 6, 10, 6, 10, 10, 10, 10, 10, 10, 10, 10, 10, 10],
    [4, 3, 6, 0, 5, 6, 4, 5, 10, 10, 10, 10, 10, 10, 10, 10],
    [8, 7, 10, 5, 0, 3, 10, 10, 10, 10, 10, 10, 10, 10, 10, 10],
    [10, 10, 6, 6, 3, 0, 5, 3, 4, 10, 10, 10, 10, 10, 10, 10],
    [10, 10, 10, 4, 10, 5, 0, 3, 5, 10, 10, 10, 10, 10, 10, 10],
    [10, 10, 10, 5, 10, 3, 3, 0, 3, 4, 10, 10, 10, 10, 10, 10],
    [10, 10, 10, 10, 10, 4, 5, 3, 0, 3, 4, 10, 10, 10, 10, 10],
    [10, 10, 10, 10, 10, 10, 10, 4, 3, 0, 3, 4, 10, 10, 10, 10],
    [10, 10, 10, 10, 10, 10, 10, 10, 4, 3, 0, 3, 4, 10, 10, 10],
    [10, 10, 10, 10, 10, 10, 10, 10, 10, 4, 3, 0, 3, 4, 10, 10],
    [10, 10, 10, 10, 10, 10, 10, 10, 10, 10, 4, 3, 0, 3, 4, 10],
    [10, 10, 10, 10, 10, 10, 10, 10, 10, 10, 10, 4, 3, 0, 3, 4],
    [10, 10, 10, 10, 10, 10, 10, 10, 10, 10, 10, 10, 4, 3, 0, 3],
    [10, 10, 10, 10, 10, 10, 10, 10, 10, 10, 10, 10, 10, 4, 3, 0]
  ]

  /** The map of GridPathSolver. */
  const TheGrid: Grid := Grid(Labels, Distances)

  // ---------------------------------------------------------------------------
  // Finding a label's position
  // ---------------------------------------------------------------------------

  /** The scan of getIndex from position k on: the first position holding s, or |labels| when none does. */
  function IndexFrom(labels: seq<string>, s: string, k: nat): (r: nat)
    requires k <= |labels|
    ensures k <= r <= |labels|
    decreases |labels| - k
  {
    if k == |labels| then k else if labels[k] == s then k else IndexFrom(labels, s, k + 1)
  }

  function Index(labels: seq<string>, s: string): nat {
    IndexFrom(labels, s, 0)
  }

  predicate Known(labels: seq<string>, s: string) {
    Index(labels, s) < |labels|
  }

  /** The scan finds s exactly when s is a label, and then finds its position. */
  lemma {:induction false} IndexFromSpec(labels: seq<string>, s: string, k: nat)
    requires k <= |labels|
    ensures IndexFrom(labels, s, k) < |labels| ==> labels[IndexFrom(labels, s, k)] == s
    ensures IndexFrom(labels, s, k) == |labels| <==> forall j :: k <= j < |labels| ==> labels[j] != s
    decreases |labels| - k
  {
    if k < |labels| && labels[k] != s {
      IndexFromSpec(labels, s, k + 1);
    }
  }

  lemma IndexSpec(labels: seq<string>, s: string)
    ensures Known(labels, s) <==> s in labels
    ensures Known(labels, s) ==> labels[Index(labels, s)] == s
  {
    IndexFromSpec(labels, s, 0);
    if s in labels {
      var j :| 0 <= j < |labels| && labels[j] == s;
      assert !(forall i :: 0 <= i < |labels| ==> labels[i] != s);
    }
  }

  // ---------------------------------------------------------------------------
  // Well-formed maps
  // ---------------------------------------------------------------------------

  /**
   * The map starts at the door, the table is square over the labels with no
   * negative length, and every label sits at its own position, so that no
   * label occurs twice.
   */
  predicate WellFormed(g: Grid) {
    && |g.labels| > 0 && g.labels[0] == "Door"
    && |g.jumps| == |g.labels|
    && (forall i :: 0 <= i < |g.labels| ==> |g.jumps[i]| == |g.labels|)
    && (forall i, j :: 0 <= i < |g.labels| && 0 <= j < |g.labels| ==> 0 <= g.jumps[i][j])
    && (forall i :: 0 <= i < |g.labels| ==> Index(g.labels, g.labels[i]) == i)
  }

  /** No label occurs twice in Labels. */
  lemma LabelsDistinct()
    ensures forall i, j :: 0 <= i < j < |Labels| ==> Labels[i] != Labels[j]
  {
    forall i, j | 0 <= i < j < |Labels| ensures Labels[i] != Labels[j] {
      if |Labels[i]| == 1 && |Labels[j]| == 1 {
        assert Labels[i][0] != Labels[j][0];
      }
    }
  }

  /** The table is square over the labels and every jump length is between 0 and 10. */
  lemma DistancesShape()
    ensures |Distances| == |Labels|
    ensures forall i :: 0 <= i < |Labels| ==> |Distances[i]| == |Labels|
    ensures forall i, j :: 0 <= i < |Labels| && 0 <= j < |Labels| ==> 0 <= Distances[i][j] <= 10
  {
  }

  /** The map of GridPathSolver is well formed. */
  lemma TheGridWellFormed()
    ensures WellFormed(TheGrid)
  {
    DistancesShape();
    LabelsDistinct();
    forall i | 0 <= i < |Labels| ensures Index(Labels, Labels[i]) == i {
      IndexSpec(Labels, Labels[i]);
    }
  }

  // ---------------------------------------------------------------------------
  // Jumps, their costs, and walks
  // ---------------------------------------------------------------------------

  /** distances[i][j]. */
  function Jump(g: Grid, i: int, j: int): (d: int)
    requires WellFormed(g) && 0 <= i < |g.labels| && 0 <= j < |g.labels|
    ensures d >= 0
  {
    g.jumps[i][j]
  }

  /** The rules of one run: the longest jump allowed and whether a long jump risks a fall. */
  datatype Rules = Rules(maxJump: int, probableFall: bool)

  /** A jump is taken only when it is within the runner's reach and the table does not mark it 10. */
  predicate Allowed(d: int, rules: Rules) {
    d <= rules.maxJump && d < 10
  }

  /** The fall penalty: 1 for a jump longer than 5.5 when falls are possible. */
  function Risk(d: int, rules: Rules): int {
    if rules.probableFall && (d as real) > 5.5 then 1 else 0
  }

  /** For whole jump lengths the threshold 5.5 means a length of 6 or more. */
  lemma RiskThreshold(d: int, rules: Rules)
    ensures Risk(d, rules) == (if rules.probableFall && d >= 6 then 1 else 0)
  {
  }

  /** What a jump adds to the cost of a route: its length plus its fall penalty. */
  function StepCost(d: int, rules: Rules): (c: int)
    ensures d >= 0 ==> c >= d
  {
    d + Risk(d, rules)
  }

  /** The jump from a to b, for labels a and b. */
  function JumpBetween(g: Grid, a: string, b: string): int
    requires WellFormed(g) && Known(g.labels, a) && Known(g.labels, b)
  {
    Jump(g, Index(g.labels, a), Index(g.labels, b))
  }

  /** A walk: labels, each reached from the one before by an allowed jump. */
  predicate IsWalk(g: Grid, p: seq<string>, rules: Rules)
    requires WellFormed(g)
    decreases |p|
  {
    && |p| > 0
    && Known(g.labels, p[|p| - 1])
    && (|p| == 1 ||
        (IsWalk(g, p[..|p| - 1], rules) && Known(g.labels, p[|p| - 2]) &&
         Allowed(JumpBetween(g, p[|p| - 2], p[|p| - 1]), rules)))
  }

  /** The cost of a walk: the sum of its step costs. */
  function WalkCost(g: Grid, p: seq<string>, rules: Rules): int
    requires WellFormed(g) && IsWalk(g, p, rules)
    decreases |p|
  {
    if |p| == 1 then 0
    else WalkCost(g, p[..|p| - 1], rules) + StepCost(JumpBetween(g, p[|p| - 2], p[|p| - 1]), rules)
  }

  /** A route of the search: a walk that starts at the door. */
  predicate FromDoor(g: Grid, p: seq<string>, rules: Rules)
    requires WellFormed(g)
  {
    IsWalk(g, p, rules) && p[0] == "Door"
  }

  /** Every walk costs at least nothing. */
  lemma {:induction false} WalkCostNonNegative(g: Grid, p: seq<string>, rules: Rules)
    requires WellFormed(g) && IsWalk(g, p, rules)
    ensures WalkCost(g, p, rules) >= 0
    decreases |p|
  {
    if |p| > 1 {
      WalkCostNonNegative(g, p[..|p| - 1], rules);
    }
  }

  /** One more allowed jump extends a walk from the door, adding its step cost. */
  lemma WalkExtend(g: Grid, p: seq<string>, w: string, rules: Rules)
    requires WellFormed(g) && FromDoor(g, p, rules) && Known(g.labels, w)
    requires Allowed(JumpBetween(g, p[|p| - 1], w), rules)
    ensures FromDoor(g, p + [w], rules)
    ensures WalkCost(g, p + [w], rules) == WalkCost(g, p, rules) + StepCost(JumpBetween(g, p[|p| - 1], w), rules)
  {
    var q := p + [w];
    assert q[..|q| - 1] == p;
  }
}
