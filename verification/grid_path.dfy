/**
 * GridPathSolver.findShortestPath: Dijkstra's algorithm with lazy deletion
 * over a map. dist and paths are the two HashMaps, the PriorityQueue is a
 * multiset from which a least-cost node is taken (which one among equal
 * costs Java's queue returns is left open), and stale queue entries are
 * skipped when they come out. The search is proved for every well-formed
 * map and then run on the map of the Java class.
 */
module GridPath {
  import opened Wrappers
  import JavaStrings
  import opened GridSpec

  /** The IllegalArgumentException getIndex throws for a name that is not a label. */
  datatype GridError = InvalidLabel(name: string)

  /** getIndex: the position of a label, by a scan of the labels. */
  method GetIndex(g: Grid, s: string) returns (r: Result<nat, GridError>)
    ensures r.Ok? <==> s in g.labels
    ensures r.Ok? ==> r.value < |g.labels| && g.labels[r.value] == s
    ensures r.Err? ==> r.error == InvalidLabel(s)
  {
    IndexSpec(g.labels, s);
    for i := 0 to |g.labels|
      invariant IndexFrom(g.labels, s, i) == Index(g.labels, s)
    {
      if s == g.labels[i] {
        return Ok(i);
      }
    }
    return Err(InvalidLabel(s));
  }

  /** A queue entry: a label, the cost of the route to it, and that route, which ends with the label. */
  datatype GridNode = GridNode(name: string, cost: int, path: seq<string>)

  /** The Node constructor: the parent's route copied, with the node's own name added. */
  function MakeNode(name: string, cost: int, parentPath: seq<string>): (n: GridNode)
    ensures n.name == name && n.cost == cost
    ensures |n.path| == |parentPath| + 1 && n.path[..|parentPath|] == parentPath && n.path[|parentPath|] == name
  {
    GridNode(name, cost, parentPath + [name])
  }

  /** The node every run starts from: the door, at cost 0, on the route that is just the door. */
  const DoorNode: GridNode := MakeNode("Door", 0, [])

  /** paths.getOrDefault(v, []) followed by v: the route the run reports for v. */
  function RouteTo(paths: map<string, seq<string>>, v: string): (p: seq<string>)
    ensures |p| > 0 && p[|p| - 1] == v
  {
    (if v in paths then paths[v] else []) + [v]
  }

  /** The queue entry that stands for v's current distance and route. */
  function Entry(dist: map<string, int>, paths: map<string, seq<string>>, v: string): GridNode
    requires v in dist
  {
    MakeNode(v, dist[v], if v in paths then paths[v] else [])
  }

  // ---------------------------------------------------------------------------
  // The invariant of the search, stated over the positions of the labels
  // ---------------------------------------------------------------------------

  /** dist has an entry between 0 and Integer.MAX_VALUE for every label, and the door's is 0. */
  ghost predicate DistShape(g: Grid, dist: map<string, int>)
    requires WellFormed(g)
  {
    && (forall i :: 0 <= i < |g.labels| ==> g.labels[i] in dist && 0 <= dist[g.labels[i]] <= JavaStrings.IntMax)
    && g.labels[0] in dist && dist[g.labels[0]] == 0
  }

  /** A queued node holds a route from the door to its label whose cost is the node's cost, no less than dist. */
  ghost predicate NodeSound(g: Grid, n: GridNode, dist: map<string, int>, rules: Rules)
    requires WellFormed(g)
  {
    && n.name in dist && n.cost >= dist[n.name]
    && FromDoor(g, n.path, rules) && n.path[|n.path| - 1] == n.name && WalkCost(g, n.path, rules) == n.cost
  }

  ghost predicate QueueSound(g: Grid, pq: multiset<GridNode>, dist: map<string, int>, rules: Rules)
    requires WellFormed(g)
  {
    forall n {:trigger NodeSound(g, n, dist, rules)} :: n in pq ==> NodeSound(g, n, dist, rules)
  }

  /** A label with a finite distance has a route from the door of exactly that cost. */
  ghost predicate RouteSound(g: Grid, dist: map<string, int>, paths: map<string, seq<string>>, i: int, rules: Rules)
    requires WellFormed(g) && DistShape(g, dist) && 0 <= i < |g.labels|
  {
    dist[g.labels[i]] < JavaStrings.IntMax ==>
      FromDoor(g, RouteTo(paths, g.labels[i]), rules) && WalkCost(g, RouteTo(paths, g.labels[i]), rules) == dist[g.labels[i]]
  }

  /** Every label's route is sound, and the door keeps its trivial route. */
  ghost predicate RoutesSound(g: Grid, dist: map<string, int>, paths: map<string, seq<string>>, rules: Rules)
    requires WellFormed(g) && DistShape(g, dist)
  {
    && g.labels[0] !in paths
    && forall i {:trigger RouteSound(g, dist, paths, i, rules)} :: 0 <= i < |g.labels| ==> RouteSound(g, dist, paths, i, rules)
  }

  /** The first upTo jumps from the label at u are relaxed: none of them can lower a distance. */
  ghost predicate RelaxedUpTo(g: Grid, dist: map<string, int>, u: int, upTo: int, rules: Rules)
    requires WellFormed(g) && DistShape(g, dist) && 0 <= u < |g.labels|
  {
    forall i :: 0 <= i < upTo && i < |g.labels| && Allowed(Jump(g, u, i), rules) ==>
      dist[g.labels[i]] <= dist[g.labels[u]] + StepCost(Jump(g, u, i), rules)
  }

  /** The label at u still has its current entry queued, or all its jumps are relaxed. */
  ghost predicate Settled(g: Grid, pq: multiset<GridNode>, dist: map<string, int>, paths: map<string, seq<string>>,
                          rules: Rules, u: int)
    requires WellFormed(g) && DistShape(g, dist) && 0 <= u < |g.labels|
  {
    Entry(dist, paths, g.labels[u]) in pq || RelaxedUpTo(g, dist, u, |g.labels|, rules)
  }

  /** Every label other than the one at skip is settled. */
  ghost predicate PendingOrRelaxed(g: Grid, pq: multiset<GridNode>, dist: map<string, int>,
                                   paths: map<string, seq<string>>, rules: Rules, skip: int)
    requires WellFormed(g) && DistShape(g, dist)
  {
    forall u {:trigger Settled(g, pq, dist, paths, rules, u)} :: 0 <= u < |g.labels| && u != skip ==>
      Settled(g, pq, dist, paths, rules, u)
  }

  /** The invariant of the while loop. */
  ghost predicate Invariant(g: Grid, pq: multiset<GridNode>, dist: map<string, int>, paths: map<string, seq<string>>,
                            rules: Rules)
    requires WellFormed(g)
  {
    && DistShape(g, dist)
    && QueueSound(g, pq, dist, rules)
    && RoutesSound(g, dist, paths, rules)
    && PendingOrRelaxed(g, pq, dist, paths, rules, -1)
  }

  /** The invariant of the for loop over the jumps from cur's label u, after the first i of them. */
  ghost predicate Relaxing(g: Grid, pq: multiset<GridNode>, dist: map<string, int>, paths: map<string, seq<string>>,
                           rules: Rules, cur: GridNode, u: int, i: int)
    requires WellFormed(g)
  {
    && DistShape(g, dist)
    && QueueSound(g, pq, dist, rules)
    && RoutesSound(g, dist, paths, rules)
    && 0 <= u < |g.labels| && cur.name == g.labels[u] && cur.cost == dist[g.labels[u]]
    && FromDoor(g, cur.path, rules) && cur.path[|cur.path| - 1] == cur.name && WalkCost(g, cur.path, rules) == cur.cost
    && PendingOrRelaxed(g, pq, dist, paths, rules, u)
    && RelaxedUpTo(g, dist, u, i, rules)
  }

  /** The sum of dist over the first n labels: it falls with every improvement, which bounds the run. */
  function DistSum(g: Grid, dist: map<string, int>, n: nat): int
    requires n <= |g.labels| && forall i :: 0 <= i < n ==> g.labels[i] in dist
  {
    if n == 0 then 0 else DistSum(g, dist, n - 1) + dist[g.labels[n - 1]]
  }

  // ---------------------------------------------------------------------------
  // The search
  // ---------------------------------------------------------------------------

  /**
   * findShortestPath without its printing, on the map of the Java class:
   * the final dist and paths maps, with the guarantees of Search.
   */
  method FindShortestPath(rules: Rules) returns (dist: map<string, int>, paths: map<string, seq<string>>)
    // Stated first so that the clauses below, which call FromDoor and WalkCost, are well formed.
    ensures WellFormed(TheGrid)
    ensures forall i :: 0 <= i < |Labels| ==> Labels[i] in dist && 0 <= dist[Labels[i]] <= JavaStrings.IntMax
    ensures "Door" in dist && dist["Door"] == 0
    ensures forall i :: 0 <= i < |Labels| && dist[Labels[i]] < JavaStrings.IntMax ==>
      FromDoor(TheGrid, RouteTo(paths, Labels[i]), rules) &&
      WalkCost(TheGrid, RouteTo(paths, Labels[i]), rules) == dist[Labels[i]]
    ensures forall p :: FromDoor(TheGrid, p, rules) ==> p[|p| - 1] in dist && dist[p[|p| - 1]] <= WalkCost(TheGrid, p, rules)
  {
    TheGridWellFormed();
    dist, paths := Search(TheGrid, rules);
  }

  /**
   * The search of findShortestPath on a well-formed map g. Every label has
   * a distance and the door's is 0; every finite distance is the cost of
   * the route the run reports, which starts at the door and ends at that
   * label; and no walk from the door to a label costs less than its
   * distance.
   */
  method Search(g: Grid, rules: Rules) returns (dist: map<string, int>, paths: map<string, seq<string>>)
    requires WellFormed(g)
    ensures forall i :: 0 <= i < |g.labels| ==> g.labels[i] in dist && 0 <= dist[g.labels[i]] <= JavaStrings.IntMax
    ensures "Door" in dist && dist["Door"] == 0
    ensures forall i :: 0 <= i < |g.labels| && dist[g.labels[i]] < JavaStrings.IntMax ==>
      FromDoor(g, RouteTo(paths, g.labels[i]), rules) && WalkCost(g, RouteTo(paths, g.labels[i]), rules) == dist[g.labels[i]]
    ensures forall p :: FromDoor(g, p, rules) ==> p[|p| - 1] in dist && dist[p[|p| - 1]] <= WalkCost(g, p, rules)
  {
    dist := map[];
    paths := map[];
    var pq: multiset<GridNode> := multiset{};
    for k := 0 to |g.labels|
      invariant forall i :: 0 <= i < k ==> g.labels[i] in dist && dist[g.labels[i]] == if i == 0 then 0 else JavaStrings.IntMax
      invariant forall n :: n in pq ==> n == DoorNode
      invariant pq[DoorNode] == k
    {
      dist := dist[g.labels[k] := JavaStrings.IntMax];
      dist := dist["Door" := 0];
      pq := pq + multiset{DoorNode};
    }
    InitialInvariant(g, pq, dist, rules);

    while pq != multiset{}
      invariant Invariant(g, pq, dist, paths, rules)
      decreases DistSum(g, dist, |g.labels|), |pq|
    {
      DistSumNonNegative(g, dist, |g.labels|);
      ghost var queued := pq;
      var cur;
      cur, pq := Poll(pq);
      QueuedIsLabel(g, queued, dist, rules, cur);
      var idx := GetIndex(g, cur.name);
      if idx.Err? {
        assert false;
        break;
      }
      if cur.cost > dist[cur.name] {
        StaleEntry(g, queued, dist, paths, rules, cur);
        continue;
      }
      StartRelaxing(g, queued, dist, paths, rules, cur, idx.value);
      pq, dist, paths := RelaxJumps(g, rules, cur, idx.value, pq, dist, paths);
    }
    FinalOptimal(g, dist, paths, rules);
  }

  /**
   * The for loop of findShortestPath: every allowed jump from cur's label u
   * that lowers a label's distance records the new distance, queues a node
   * for it and records cur's route as its parent route. Afterwards every
   * jump from u is relaxed, and the distances have fallen or the queue is
   * as it was.
   */
  method RelaxJumps(g: Grid, rules: Rules, cur: GridNode, u: nat, pq0: multiset<GridNode>, dist0: map<string, int>,
                    paths0: map<string, seq<string>>)
    returns (pq: multiset<GridNode>, dist: map<string, int>, paths: map<string, seq<string>>)
    requires WellFormed(g) && Relaxing(g, pq0, dist0, paths0, rules, cur, u, 0)
    ensures Invariant(g, pq, dist, paths, rules)
    ensures forall k :: 0 <= k < |g.labels| ==> dist[g.labels[k]] <= dist0[g.labels[k]]
    ensures DistSum(g, dist, |g.labels|) <= DistSum(g, dist0, |g.labels|)
    ensures DistSum(g, dist, |g.labels|) < DistSum(g, dist0, |g.labels|) || pq == pq0
  {
    pq, dist, paths := pq0, dist0, paths0;
    for i := 0 to |g.labels|
      invariant Relaxing(g, pq, dist, paths, rules, cur, u, i)
      invariant forall k :: 0 <= k < |g.labels| ==> dist[g.labels[k]] <= dist0[g.labels[k]]
      invariant DistSum(g, dist, |g.labels|) <= DistSum(g, dist0, |g.labels|)
      invariant DistSum(g, dist, |g.labels|) < DistSum(g, dist0, |g.labels|) || pq == pq0
    {
      var d := g.jumps[u][i];
      if d <= rules.maxJump && d < 10 {
        var risk := if rules.probableFall && (d as real) > 5.5 then 1 else 0;
        var newCost := cur.cost + risk + d;
        if newCost < dist[g.labels[i]] {
          RelaxStep(g, pq, dist, paths, rules, cur, u, i, newCost);
          DistSumUpdate(g, dist, i, newCost);
          dist := dist[g.labels[i] := newCost];
          pq := pq + multiset{MakeNode(g.labels[i], newCost, cur.path)};
          paths := paths[g.labels[i] := cur.path];
        } else {
          SkipStep(g, pq, dist, paths, rules, cur, u, i);
        }
      } else {
        SkipStep(g, pq, dist, paths, rules, cur, u, i);
      }
    }
  }

  /** PriorityQueue.poll: takes out a node of least cost (which of several is not fixed). */
  method Poll(pq: multiset<GridNode>) returns (n: GridNode, rest: multiset<GridNode>)
    requires pq != multiset{}
    ensures n in pq && rest == pq - multiset{n} && |rest| == |pq| - 1
    ensures forall m :: m in pq ==> n.cost <= m.cost
  {
    n :| n in pq;
    var unseen := pq - multiset{n};
    while unseen != multiset{}
      invariant n in pq && unseen <= pq
      invariant forall m :: m in pq && m !in unseen ==> n.cost <= m.cost
      decreases |unseen|
    {
      var x :| x in unseen;
      if x.cost < n.cost {
        n := x;
      }
      unseen := unseen - multiset{x};
    }
    rest := pq - multiset{n};
    RemoveOne(pq, n);
  }

  // ---------------------------------------------------------------------------
  // The steps of the proof
  // ---------------------------------------------------------------------------

  lemma RemoveOne(pq: multiset<GridNode>, n: GridNode)
    requires n in pq
    ensures |pq - multiset{n}| == |pq| - 1
  {
    assert pq == (pq - multiset{n}) + multiset{n};
  }

  lemma {:induction false} DistSumNonNegative(g: Grid, dist: map<string, int>, n: nat)
    requires WellFormed(g) && n <= |g.labels| && DistShape(g, dist)
    ensures DistSum(g, dist, n) >= 0
  {
    if n > 0 {
      DistSumNonNegative(g, dist, n - 1);
    }
  }

  /** Changing the distance of label i changes the sum by the difference. */
  lemma DistSumUpdate(g: Grid, dist: map<string, int>, i: int, x: int)
    requires WellFormed(g) && DistShape(g, dist) && 0 <= i < |g.labels|
    ensures DistSum(g, dist[g.labels[i] := x], |g.labels|) == DistSum(g, dist, |g.labels|) - dist[g.labels[i]] + x
  {
    DistSumUpdateTo(g, dist, i, x, |g.labels|);
  }

  lemma {:induction false} DistSumUpdateTo(g: Grid, dist: map<string, int>, i: int, x: int, n: nat)
    requires WellFormed(g) && (forall k :: 0 <= k < |g.labels| ==> g.labels[k] in dist)
    requires 0 <= i < |g.labels| && n <= |g.labels|
    ensures DistSum(g, dist[g.labels[i] := x], n) == DistSum(g, dist, n) - (if i < n then dist[g.labels[i]] - x else 0)
  {
    if n > 0 {
      DistSumUpdateTo(g, dist, i, x, n - 1);
      if n - 1 != i {
        assert Index(g.labels, g.labels[n - 1]) == n - 1;
        assert g.labels[n - 1] != g.labels[i];
      }
    }
  }

  /** The invariant after the initialisation loop: the door at 0 and queued, every other label at Integer.MAX_VALUE. */
  lemma InitialInvariant(g: Grid, pq: multiset<GridNode>, dist: map<string, int>, rules: Rules)
    requires WellFormed(g)
    requires forall i :: 0 <= i < |g.labels| ==> g.labels[i] in dist && dist[g.labels[i]] == if i == 0 then 0 else JavaStrings.IntMax
    requires forall n :: n in pq ==> n == DoorNode
    requires pq[DoorNode] == |g.labels|
    ensures Invariant(g, pq, dist, map[], rules)
  {
    assert Index(g.labels, g.labels[0]) == 0;
    assert IsWalk(g, ["Door"], rules);
    assert DoorNode.path == ["Door"];
    forall n | n in pq ensures NodeSound(g, n, dist, rules) {
      assert n == DoorNode;
    }
    forall i | 0 <= i < |g.labels| ensures RouteSound(g, dist, map[], i, rules) {
      if i == 0 {
        assert RouteTo(map[], g.labels[0]) == ["Door"];
      }
    }
    forall u | 0 <= u < |g.labels| ensures Settled(g, pq, dist, map[], rules, u) {
      if u == 0 {
        assert Entry(dist, map[], g.labels[0]) == DoorNode;
      }
    }
  }

  /** A node taken from the queue names a label that has a distance. */
  lemma QueuedIsLabel(g: Grid, pq: multiset<GridNode>, dist: map<string, int>, rules: Rules, cur: GridNode)
    requires WellFormed(g) && QueueSound(g, pq, dist, rules) && cur in pq
    ensures NodeSound(g, cur, dist, rules)
    ensures cur.name in g.labels && cur.name in dist && cur.cost >= dist[cur.name]
  {
    assert NodeSound(g, cur, dist, rules);
    assert Known(g.labels, cur.path[|cur.path| - 1]);
    IndexSpec(g.labels, cur.name);
  }

  /** A stale entry (its cost above the label's distance) is nobody's entry: dropping it keeps the invariant. */
  lemma StaleEntry(g: Grid, pq: multiset<GridNode>, dist: map<string, int>, paths: map<string, seq<string>>,
                   rules: Rules, cur: GridNode)
    requires WellFormed(g) && Invariant(g, pq, dist, paths, rules)
    requires cur in pq && cur.name in dist && cur.cost > dist[cur.name]
    ensures Invariant(g, pq - multiset{cur}, dist, paths, rules)
  {
    var rest := pq - multiset{cur};
    forall n | n in rest ensures NodeSound(g, n, dist, rules) {
      assert n in pq;
    }
    forall u | 0 <= u < |g.labels| ensures Settled(g, rest, dist, paths, rules, u) {
      assert Settled(g, pq, dist, paths, rules, u);
      assert Entry(dist, paths, g.labels[u]) != cur;
    }
  }

  /** A current entry for the label at u starts the for loop: every other label keeps its entry or is relaxed. */
  lemma StartRelaxing(g: Grid, pq: multiset<GridNode>, dist: map<string, int>, paths: map<string, seq<string>>,
                      rules: Rules, cur: GridNode, u: int)
    requires WellFormed(g) && Invariant(g, pq, dist, paths, rules) && NodeSound(g, cur, dist, rules)
    requires cur in pq && 0 <= u < |g.labels| && cur.name == g.labels[u] && cur.cost == dist[g.labels[u]]
    ensures Relaxing(g, pq - multiset{cur}, dist, paths, rules, cur, u, 0)
  {
    var rest := pq - multiset{cur};
    forall n | n in rest ensures NodeSound(g, n, dist, rules) {
      assert n in pq;
    }
    forall v | 0 <= v < |g.labels| && v != u ensures Settled(g, rest, dist, paths, rules, v) {
      assert Settled(g, pq, dist, paths, rules, v);
      assert Index(g.labels, g.labels[v]) == v;
      assert Entry(dist, paths, g.labels[v]).name != cur.name;
    }
  }

  /** A jump that is not allowed, or that does not improve, changes nothing and is relaxed already. */
  lemma SkipStep(g: Grid, pq: multiset<GridNode>, dist: map<string, int>, paths: map<string, seq<string>>,
                 rules: Rules, cur: GridNode, u: int, i: int)
    requires WellFormed(g) && 0 <= i < |g.labels| && Relaxing(g, pq, dist, paths, rules, cur, u, i)
    requires Allowed(Jump(g, u, i), rules) ==> cur.cost + StepCost(Jump(g, u, i), rules) >= dist[g.labels[i]]
    ensures Relaxing(g, pq, dist, paths, rules, cur, u, i + 1)
  {
  }

  /** One improvement: label i gets the cost through cur, a node for it is queued, and its route is cur's. */
  lemma RelaxStep(g: Grid, pq: multiset<GridNode>, dist: map<string, int>, paths: map<string, seq<string>>,
                  rules: Rules, cur: GridNode, u: int, i: int, newCost: int)
    requires WellFormed(g) && 0 <= i < |g.labels| && Relaxing(g, pq, dist, paths, rules, cur, u, i)
    requires Allowed(Jump(g, u, i), rules)
    requires newCost == cur.cost + StepCost(Jump(g, u, i), rules)
    requires newCost < dist[g.labels[i]]
    ensures Relaxing(g, pq + multiset{MakeNode(g.labels[i], newCost, cur.path)}, dist[g.labels[i] := newCost],
                     paths[g.labels[i] := cur.path], rules, cur, u, i + 1)
  {
    var w := g.labels[i];
    assert i != u && i != 0;
    assert Index(g.labels, w) == i;
    WalkExtend(g, cur.path, w, rules);
    RelaxQueue(g, pq, dist, rules, MakeNode(w, newCost, cur.path));
    RelaxRoutes(g, dist, paths, rules, i, cur.path, newCost);
    RelaxPending(g, pq, dist, paths, rules, cur, u, i, newCost);
  }

  /** Queuing a node for w at a cost below dist[w], and lowering dist[w] to it, keeps the queue sound. */
  lemma RelaxQueue(g: Grid, pq: multiset<GridNode>, dist: map<string, int>, rules: Rules, node: GridNode)
    requires WellFormed(g) && QueueSound(g, pq, dist, rules)
    requires node.name in dist && node.cost < dist[node.name]
    requires FromDoor(g, node.path, rules) && node.path[|node.path| - 1] == node.name
    requires WalkCost(g, node.path, rules) == node.cost
    ensures QueueSound(g, pq + multiset{node}, dist[node.name := node.cost], rules)
  {
    var dist' := dist[node.name := node.cost];
    forall n | n in pq + multiset{node} ensures NodeSound(g, n, dist', rules) {
      if n != node {
        assert n in pq;
        assert NodeSound(g, n, dist, rules);
      }
    }
  }

  /** Recording the parent's route for label i, at the cost of that route extended to i, keeps every route sound. */
  lemma RelaxRoutes(g: Grid, dist: map<string, int>, paths: map<string, seq<string>>, rules: Rules, i: int,
                    parentPath: seq<string>, newCost: int)
    requires WellFormed(g) && DistShape(g, dist) && RoutesSound(g, dist, paths, rules)
    requires 0 < i < |g.labels| && 0 <= newCost <= dist[g.labels[i]]
    requires FromDoor(g, parentPath + [g.labels[i]], rules) && WalkCost(g, parentPath + [g.labels[i]], rules) == newCost
    ensures DistShape(g, dist[g.labels[i] := newCost])
    ensures RoutesSound(g, dist[g.labels[i] := newCost], paths[g.labels[i] := parentPath], rules)
  {
    var w := g.labels[i];
    var dist', paths' := dist[w := newCost], paths[w := parentPath];
    assert Index(g.labels, w) == i;
    assert g.labels[0] != w by {
      assert Index(g.labels, g.labels[0]) == 0;
    }
    assert DistShape(g, dist');
    forall j | 0 <= j < |g.labels| ensures RouteSound(g, dist', paths', j, rules) {
      if j != i {
        assert Index(g.labels, g.labels[j]) == j;
        assert g.labels[j] != w;
        assert RouteSound(g, dist, paths, j, rules);
        assert RouteTo(paths', g.labels[j]) == RouteTo(paths, g.labels[j]);
      } else {
        assert RouteTo(paths', w) == parentPath + [w];
      }
    }
  }

  /** Every label other than cur's keeps its entry or stays relaxed, i's new entry is queued, and jump i from cur is relaxed. */
  lemma RelaxPending(g: Grid, pq: multiset<GridNode>, dist: map<string, int>, paths: map<string, seq<string>>,
                     rules: Rules, cur: GridNode, u: int, i: int, newCost: int)
    requires WellFormed(g) && 0 <= i < |g.labels| && Relaxing(g, pq, dist, paths, rules, cur, u, i)
    requires i != u && i != 0 && 0 <= newCost < dist[g.labels[i]]
    requires Allowed(Jump(g, u, i), rules)
    requires newCost == cur.cost + StepCost(Jump(g, u, i), rules)
    ensures DistShape(g, dist[g.labels[i] := newCost])
    ensures PendingOrRelaxed(g, pq + multiset{MakeNode(g.labels[i], newCost, cur.path)}, dist[g.labels[i] := newCost],
                             paths[g.labels[i] := cur.path], rules, u)
    ensures RelaxedUpTo(g, dist[g.labels[i] := newCost], u, i + 1, rules)
  {
    var w := g.labels[i];
    var node := MakeNode(w, newCost, cur.path);
    var dist', paths' := dist[w := newCost], paths[w := cur.path];
    RelaxedLowered(g, dist, u, i, rules, i, newCost);
    forall v | 0 <= v < |g.labels| && v != u ensures Settled(g, pq + multiset{node}, dist', paths', rules, v) {
      if v == i {
        assert Entry(dist', paths', w) == node;
      } else {
        assert Settled(g, pq, dist, paths, rules, v);
        PendingKept(g, pq, dist, paths, rules, v, i, newCost, cur.path);
      }
    }
  }

  /** A label other than the improved one keeps its queued entry, or stays relaxed. */
  lemma PendingKept(g: Grid, pq: multiset<GridNode>, dist: map<string, int>, paths: map<string, seq<string>>,
                    rules: Rules, v: int, i: int, x: int, parentPath: seq<string>)
    requires WellFormed(g) && DistShape(g, dist)
    requires 0 <= v < |g.labels| && 0 < i < |g.labels| && v != i && 0 <= x <= dist[g.labels[i]]
    requires Settled(g, pq, dist, paths, rules, v)
    ensures DistShape(g, dist[g.labels[i] := x])
    ensures Settled(g, pq + multiset{MakeNode(g.labels[i], x, parentPath)}, dist[g.labels[i] := x],
                    paths[g.labels[i] := parentPath], rules, v)
  {
    assert Index(g.labels, g.labels[v]) == v;
    assert g.labels[v] != g.labels[i];
    assert Entry(dist[g.labels[i] := x], paths[g.labels[i] := parentPath], g.labels[v]) == Entry(dist, paths, g.labels[v]);
    if RelaxedUpTo(g, dist, v, |g.labels|, rules) {
      RelaxedLowered(g, dist, v, |g.labels|, rules, i, x);
    }
  }

  /** Lowering the distance of a label other than the door and other than u keeps u's jumps relaxed. */
  lemma RelaxedLowered(g: Grid, dist: map<string, int>, u: int, n: int, rules: Rules, i: int, x: int)
    requires WellFormed(g) && DistShape(g, dist)
    requires 0 <= u < |g.labels| && 0 < i < |g.labels| && u != i && 0 <= x <= dist[g.labels[i]]
    requires RelaxedUpTo(g, dist, u, n, rules)
    ensures DistShape(g, dist[g.labels[i] := x]) && RelaxedUpTo(g, dist[g.labels[i] := x], u, n, rules)
  {
    assert Index(g.labels, g.labels[u]) == u;
    assert Index(g.labels, g.labels[0]) == 0;
    assert g.labels[u] != g.labels[i];
    assert g.labels[0] != g.labels[i];
  }

  /**
   * At the end of the search the door is at 0, every route is sound, and,
   * every label being relaxed, no walk from the door beats the distance of
   * the label it ends at.
   */
  lemma FinalOptimal(g: Grid, dist: map<string, int>, paths: map<string, seq<string>>, rules: Rules)
    requires WellFormed(g) && Invariant(g, multiset{}, dist, paths, rules)
    ensures "Door" in dist && dist["Door"] == 0
    ensures forall i :: 0 <= i < |g.labels| ==> 0 <= dist[g.labels[i]] <= JavaStrings.IntMax
    ensures forall i :: 0 <= i < |g.labels| && dist[g.labels[i]] < JavaStrings.IntMax ==>
      FromDoor(g, RouteTo(paths, g.labels[i]), rules) && WalkCost(g, RouteTo(paths, g.labels[i]), rules) == dist[g.labels[i]]
    ensures forall p :: FromDoor(g, p, rules) ==> p[|p| - 1] in dist && dist[p[|p| - 1]] <= WalkCost(g, p, rules)
  {
    forall i | 0 <= i < |g.labels| && dist[g.labels[i]] < JavaStrings.IntMax
      ensures FromDoor(g, RouteTo(paths, g.labels[i]), rules) && WalkCost(g, RouteTo(paths, g.labels[i]), rules) == dist[g.labels[i]]
    {
      assert RouteSound(g, dist, paths, i, rules);
    }
    forall u | 0 <= u < |g.labels| ensures RelaxedUpTo(g, dist, u, |g.labels|, rules) {
      assert Settled(g, multiset{}, dist, paths, rules, u);
    }
    forall p | FromDoor(g, p, rules) ensures p[|p| - 1] in dist && dist[p[|p| - 1]] <= WalkCost(g, p, rules) {
      WalkBound(g, dist, rules, p);
    }
  }

  /** A walk from the door costs no less than the distance of the label it ends at, once every label is relaxed. */
  lemma {:induction false} WalkBound(g: Grid, dist: map<string, int>, rules: Rules, p: seq<string>)
    requires WellFormed(g) && DistShape(g, dist)
    requires forall u :: 0 <= u < |g.labels| ==> RelaxedUpTo(g, dist, u, |g.labels|, rules)
    requires FromDoor(g, p, rules)
    ensures p[|p| - 1] in dist && dist[p[|p| - 1]] <= WalkCost(g, p, rules)
    decreases |p|
  {
    if |p| == 1 {
      assert p[|p| - 1] == g.labels[0];
    } else {
      var init := p[..|p| - 1];
      assert init[0] == "Door" && IsWalk(g, init, rules) && init[|init| - 1] == p[|p| - 2];
      WalkBound(g, dist, rules, init);
      WalkStep(g, dist, rules, p);
    }
  }

  /** The last jump of a walk: a relaxed label passes its bound on to the next one. */
  lemma WalkStep(g: Grid, dist: map<string, int>, rules: Rules, p: seq<string>)
    requires WellFormed(g) && DistShape(g, dist)
    requires forall u :: 0 <= u < |g.labels| ==> RelaxedUpTo(g, dist, u, |g.labels|, rules)
    requires IsWalk(g, p, rules) && |p| > 1
    requires p[|p| - 2] in dist && dist[p[|p| - 2]] <= WalkCost(g, p[..|p| - 1], rules)
    ensures p[|p| - 1] in dist && dist[p[|p| - 1]] <= WalkCost(g, p, rules)
  {
    var prev, last := p[|p| - 2], p[|p| - 1];
    assert Known(g.labels, prev) && Known(g.labels, last) && Allowed(JumpBetween(g, prev, last), rules);
    IndexSpec(g.labels, prev);
    IndexSpec(g.labels, last);
    UseRelaxed(g, dist, Index(g.labels, prev), Index(g.labels, last), rules);
  }

  /** The one jump of a relaxed label that WalkStep needs. */
  lemma UseRelaxed(g: Grid, dist: map<string, int>, u: int, i: int, rules: Rules)
    requires WellFormed(g) && DistShape(g, dist) && 0 <= u < |g.labels| && RelaxedUpTo(g, dist, u, |g.labels|, rules)
    requires 0 <= i < |g.labels| && Allowed(Jump(g, u, i), rules)
    ensures dist[g.labels[i]] <= dist[g.labels[u]] + StepCost(Jump(g, u, i), rules)
  {
  }
}
