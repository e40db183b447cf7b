/**
 * The specification of AStar: the move generator as functions that list its
 * results in the order its two loops produce them, Replay (the state a
 * sequence of generator moves reaches from the start state), and the loop
 * invariant of the search with the lemmas that it is kept.
 */
module AStarSpec {
  import opened Wrappers
  import opened States
  import opened Transfers
  import opened SearchNodes

  /** Math.min. */
  function Min(a: int, b: int): (r: int)
    ensures r <= a && r <= b && (r == a || r == b)
  {
    if a <= b then a else b
  }

  /** How much the generator pours from i into j: all of i, or as much as j still holds. */
  function PourAmount(v: State, cap: seq<int>, i: nat, j: nat): int
    requires i < |v| && j < |v| && |v| <= |cap|
  {
    Min(v[i], cap[j] - v[j])
  }

  /** The pours the generator emits: two distinct containers, a nonempty source, and a positive amount. */
  predicate IsGeneratedMove(v: State, cap: seq<int>, t: Transfer)
    requires |v| <= |cap|
  {
    && 0 <= t.fromContainer < |v|
    && 0 <= t.toContainer < |v|
    && t.fromContainer != t.toContainer
    && v[t.fromContainer] > 0
    && t.amount == PourAmount(v, cap, t.fromContainer, t.toContainer)
    && t.amount > 0
  }

  /** What the inner loop body adds for the pair (i, j): the pour from i into j, if the guards admit it. */
  function Candidate(v: State, cap: seq<int>, i: nat, j: nat): seq<MoveResult>
    requires i < |v| && j < |v| && |v| <= |cap|
  {
    if i != j && v[i] > 0 && PourAmount(v, cap, i, j) > 0 then
      var t := Transfer(i, j, PourAmount(v, cap, i, j));
      [MoveResult(Apply(v, t), t)]
    else
      []
  }

  /**
   * The two loops of generateNextStates run from the pair (i, j) onwards, on
   * top of the moves acc collected so far: the rest of row i, then the rows
   * after it.
   */
  function Gen(v: State, cap: seq<int>, i: nat, j: nat, acc: seq<MoveResult>): seq<MoveResult>
    requires i <= |v| && j <= |v| && |v| <= |cap|
    decreases |v| - i, |v| - j
  {
    if i == |v| then acc
    else if j == |v| then Gen(v, cap, i + 1, 0, acc)
    else Gen(v, cap, i, j + 1, acc + Candidate(v, cap, i, j))
  }

  /** Everything generateNextStates returns for v, in its order. */
  function NextStates(v: State, cap: seq<int>): seq<MoveResult>
    requires |v| <= |cap|
  {
    Gen(v, cap, 0, 0, [])
  }

  /** A move the generator emits at v: an admissible pour together with the state it produces. */
  predicate Generated(v: State, cap: seq<int>, m: MoveResult)
    requires |v| <= |cap|
  {
    IsGeneratedMove(v, cap, m.action) && m.newState == Apply(v, m.action)
  }

  /** The pair of t is (i, j) or comes after it in loop order. */
  predicate NotYetTried(t: Transfer, i: int, j: int) {
    t.fromContainer > i || (t.fromContainer == i && t.toContainer >= j)
  }

  lemma CandidateMembers(v: State, cap: seq<int>, i: nat, j: nat, m: MoveResult)
    requires i < |v| && j < |v| && |v| <= |cap|
    ensures m in Candidate(v, cap, i, j) <==>
      Generated(v, cap, m) && m.action.fromContainer == i && m.action.toContainer == j
  {
  }

  lemma {:induction false} GenMembers(v: State, cap: seq<int>, i: nat, j: nat, acc: seq<MoveResult>, m: MoveResult)
    requires i <= |v| && j <= |v| && |v| <= |cap|
    ensures m in Gen(v, cap, i, j, acc) <==> m in acc || (Generated(v, cap, m) && NotYetTried(m.action, i, j))
    decreases |v| - i, |v| - j
  {
    if i == |v| {
    } else if j == |v| {
      GenMembers(v, cap, i + 1, 0, acc, m);
    } else {
      var c := Candidate(v, cap, i, j);
      GenMembers(v, cap, i, j + 1, acc + c, m);
      CandidateMembers(v, cap, i, j, m);
      assert m in acc + c <==> m in acc || m in c;
    }
  }

  /**
   * The generator is exact: a move is returned if and only if it is a pour the
   * loop conditions admit, paired with the state that pour produces.
   */
  lemma NextStatesMembers(v: State, cap: seq<int>, m: MoveResult)
    requires |v| <= |cap|
    ensures m in NextStates(v, cap) <==> IsGeneratedMove(v, cap, m.action) && m.newState == Apply(v, m.action)
  {
    GenMembers(v, cap, 0, 0, [], m);
  }

  /** Lexicographic order on (source, destination), the order of the two loops. */
  predicate PairBefore(s: Transfer, t: Transfer) {
    s.fromContainer < t.fromContainer || (s.fromContainer == t.fromContainer && s.toContainer < t.toContainer)
  }

  /** Each move comes strictly before the next in (source, destination) order; an empty list is ordered. */
  predicate Ordered(ms: seq<MoveResult>) {
    match |ms|
    case 0 => true
    case _ => forall a :: 0 <= a < |ms| - 1 ==> PairBefore(ms[a].action, ms[a + 1].action)
  }

  /** The last move collected so far was tried before the pair (i, j). */
  predicate LastBefore(acc: seq<MoveResult>, i: int, j: int) {
    acc != [] ==> PairBefore(acc[|acc| - 1].action, Transfer(i, j, 0))
  }

  lemma CandidateShape(v: State, cap: seq<int>, i: nat, j: nat)
    requires i < |v| && j < |v| && |v| <= |cap|
    ensures |Candidate(v, cap, i, j)| <= 1
    ensures Candidate(v, cap, i, j) != [] ==>
      Candidate(v, cap, i, j)[0].action.fromContainer == i && Candidate(v, cap, i, j)[0].action.toContainer == j
  {
  }

  /** Appending the move for (i, j), if any, keeps the list ordered and tried before (i, j + 1). */
  lemma OrderedStep(acc: seq<MoveResult>, c: seq<MoveResult>, i: int, j: int)
    requires Ordered(acc) && LastBefore(acc, i, j)
    requires |c| <= 1 && (c != [] ==> c[0].action.fromContainer == i && c[0].action.toContainer == j)
    ensures Ordered(acc + c) && LastBefore(acc + c, i, j + 1)
  {
    var zs := acc + c;
    forall a | 0 <= a < |zs| - 1
      ensures PairBefore(zs[a].action, zs[a + 1].action)
    {
      if a + 1 < |acc| {
        assert zs[a] == acc[a] && zs[a + 1] == acc[a + 1];
      } else {
        assert zs[a] == acc[|acc| - 1] && zs[a + 1] == c[0];
      }
    }
  }

  lemma {:induction false} GenOrdered(v: State, cap: seq<int>, i: nat, j: nat, acc: seq<MoveResult>)
    requires i <= |v| && j <= |v| && |v| <= |cap|
    requires Ordered(acc) && LastBefore(acc, i, j)
    ensures Ordered(Gen(v, cap, i, j, acc))
    decreases |v| - i, |v| - j
  {
    if i == |v| {
    } else if j == |v| {
      GenOrdered(v, cap, i + 1, 0, acc);
    } else {
      var c := Candidate(v, cap, i, j);
      CandidateShape(v, cap, i, j);
      OrderedStep(acc, c, i, j);
      GenOrdered(v, cap, i, j + 1, acc + c);
    }
  }

  /** Adjacent order extends along the sequence: any earlier move precedes any later one. */
  lemma {:induction false} OrderedChain(ms: seq<MoveResult>, a: nat, b: nat)
    requires Ordered(ms) && a < b < |ms|
    ensures PairBefore(ms[a].action, ms[b].action)
    decreases b - a
  {
    if a + 1 < b {
      OrderedChain(ms, a, b - 1);
      assert PairBefore(ms[b - 1].action, ms[b].action);
    }
  }

  /** The moves come out in strictly increasing (source, destination) order, so no pair is tried twice. */
  lemma NextStatesOrdered(v: State, cap: seq<int>)
    requires |v| <= |cap|
    ensures forall a, b :: 0 <= a < b < |NextStates(v, cap)| ==>
      PairBefore(NextStates(v, cap)[a].action, NextStates(v, cap)[b].action)
  {
    var ms := NextStates(v, cap);
    GenOrdered(v, cap, 0, 0, []);
    forall a, b | 0 <= a < b < |ms|
      ensures PairBefore(ms[a].action, ms[b].action)
    {
      OrderedChain(ms, a, b);
    }
  }

  /** How many ordered pairs of distinct containers the loops still visit from (i, j). */
  function UntriedPairs(n: nat, i: nat, j: nat): nat
    requires i <= n && j <= n
    decreases n - i, n - j
  {
    if i == n then 0
    else if j == n then UntriedPairs(n, i + 1, 0)
    else (if i != j then 1 else 0) + UntriedPairs(n, i, j + 1)
  }

  lemma {:induction false} GenCount(v: State, cap: seq<int>, i: nat, j: nat, acc: seq<MoveResult>)
    requires i <= |v| && j <= |v| && |v| <= |cap|
    ensures |Gen(v, cap, i, j, acc)| <= |acc| + UntriedPairs(|v|, i, j)
    decreases |v| - i, |v| - j
  {
    if i == |v| {
    } else if j == |v| {
      GenCount(v, cap, i + 1, 0, acc);
    } else {
      CandidateShape(v, cap, i, j);
      GenCount(v, cap, i, j + 1, acc + Candidate(v, cap, i, j));
    }
  }

  /** The rest of row i holds n - j destinations, less the diagonal if it is still ahead. */
  lemma {:induction false} UntriedRow(n: nat, i: nat, j: nat)
    requires i < n && j <= n
    ensures UntriedPairs(n, i, j) == (n - j) - (if j <= i then 1 else 0) + UntriedPairs(n, i + 1, 0)
    decreases n - j
  {
    if j < n {
      UntriedRow(n, i, j + 1);
    }
  }

  lemma {:induction false} UntriedFrom(n: nat, i: nat)
    requires i <= n
    ensures UntriedPairs(n, i, 0) == (n - i) * (n - 1)
    decreases n - i
  {
    if i < n {
      UntriedRow(n, i, 0);
      UntriedFrom(n, i + 1);
      assert (n - i) * (n - 1) == (n - 1) + (n - (i + 1)) * (n - 1);
    }
  }

  /** At most n(n-1) moves: one per ordered pair of distinct containers. */
  lemma NextStatesCount(v: State, cap: seq<int>)
    requires |v| <= |cap|
    ensures |NextStates(v, cap)| <= |v| * (|v| - 1)
  {
    GenCount(v, cap, 0, 0, []);
    UntriedFrom(|v|, 0);
  }

  /** Volumes within 0 .. capacity, one per container. */
  predicate InBox(v: State, cap: seq<int>) {
    |v| == |cap| && forall k :: 0 <= k < |v| ==> 0 <= v[k] <= cap[k]
  }

  /**
   * Every generated move keeps the volumes within bounds and the total
   * unchanged, and afterwards the source is empty or the destination full.
   */
  lemma GeneratedMoveEffect(v: State, cap: seq<int>, m: MoveResult)
    requires InBox(v, cap)
    requires m in NextStates(v, cap)
    ensures IsGeneratedMove(v, cap, m.action) && m.newState == Apply(v, m.action)
    ensures InBox(m.newState, cap)
    ensures Sum(m.newState) == Sum(v)
    ensures m.newState[m.action.fromContainer] == 0 || m.newState[m.action.toContainer] == cap[m.action.toContainer]
  {
    NextStatesMembers(v, cap, m);
    ApplyEffect(v, m.action);
    ApplyKeepsSum(v, m.action);
  }

  /**
   * The state reached from s by the pours of path, each of which must be one
   * the generator emits at the state it is applied to; None otherwise.
   */
  function Replay(cap: seq<int>, s: State, path: seq<Transfer>): (r: Option<State>)
    requires |s| <= |cap|
    ensures r.Some? ==> |r.value| == |s|
    decreases |path|
  {
    if path == [] then Some(s)
    else
      match Replay(cap, s, path[..|path| - 1])
      case None => None
      case Some(w) =>
        var t := path[|path| - 1];
        if IsGeneratedMove(w, cap, t) then Some(Apply(w, t)) else None
  }

  /** Replay one more pour. */
  lemma ReplayStep(cap: seq<int>, s: State, path: seq<Transfer>, w: State, m: MoveResult)
    requires |s| <= |cap|
    requires Replay(cap, s, path) == Some(w)
    requires m in NextStates(w, cap)
    ensures Replay(cap, s, path + [m.action]) == Some(m.newState)
  {
    assert (path + [m.action])[..|path|] == path;
    NextStatesMembers(w, cap, m);
  }

  /** A replayed pour is one of the generator's moves at the state before it. */
  lemma ReplayLast(cap: seq<int>, s: State, path: seq<Transfer>)
    requires |s| <= |cap|
    requires path != [] && Replay(cap, s, path).Some?
    ensures Replay(cap, s, path[..|path| - 1]).Some?
    ensures var w := Replay(cap, s, path[..|path| - 1]).value;
      MoveResult(Replay(cap, s, path).value, path[|path| - 1]) in NextStates(w, cap)
  {
    var w := Replay(cap, s, path[..|path| - 1]).value;
    NextStatesMembers(w, cap, MoveResult(Replay(cap, s, path).value, path[|path| - 1]));
  }

  /** The finite set of states within the capacities. */
  ghost function Box(cap: seq<int>): set<State>
    decreases |cap|
  {
    if cap == [] then {[]}
    else set x, rest | 0 <= x <= cap[0] && rest in Box(cap[1..]) :: [x] + rest
  }

  lemma {:induction false} BoxMembers(cap: seq<int>, v: State)
    ensures v in Box(cap) <==> InBox(v, cap)
    decreases |cap|
  {
    if cap != [] {
      if v in Box(cap) {
        var x, rest :| 0 <= x <= cap[0] && rest in Box(cap[1..]) && v == [x] + rest;
        BoxMembers(cap[1..], rest);
      }
      if InBox(v, cap) {
        BoxMembers(cap[1..], v[1..]);
        assert v == [v[0]] + v[1..];
      }
    }
  }

  /** There are finitely many states within the capacities. */
  lemma FiniteBox(cap: seq<int>) returns (box: set<State>)
    ensures forall v :: v in box <==> InBox(v, cap)
  {
    box := Box(cap);
    forall v
      ensures v in box <==> InBox(v, cap)
    {
      BoxMembers(cap, v);
    }
  }

  /** The states of the frontier's nodes. */
  ghost function NodeStates(frontier: seq<Node>): set<State> {
    set nd | nd in frontier :: nd.state
  }

  lemma NodeStatesAppend(frontier: seq<Node>, nd: Node)
    ensures NodeStates(frontier + [nd]) == NodeStates(frontier) + {nd.state}
  {
    assert forall x :: x in frontier + [nd] <==> x in frontier || x == nd;
  }

  /** Each node's path replays to its state, and its cost is its path's length. */
  ghost predicate PathsReplay(cap: seq<int>, start: State, frontier: seq<Node>)
    requires |start| <= |cap|
  {
    forall nd :: nd in frontier ==> Replay(cap, start, nd.path) == Some(nd.state) && nd.cost == |nd.path|
  }

  /** No path reaches a node's state in fewer moves than the node's cost. */
  ghost predicate PathsShortest(cap: seq<int>, start: State, frontier: seq<Node>)
    requires |start| <= |cap|
  {
    forall nd, p :: nd in frontier && Replay(cap, start, p) == Some(nd.state) ==> nd.cost <= |p|
  }

  /** Every successor of an expanded state has been seen. */
  ghost predicate SuccessorsSeen(cap: seq<int>, expanded: set<State>, visited: set<State>) {
    forall w, m :: w in expanded && |w| <= |cap| && m in NextStates(w, cap) ==> m.newState in visited
  }

  /** Every state some path of fewer than level moves reaches has been expanded. */
  ghost predicate ShorterExpanded(cap: seq<int>, start: State, expanded: set<State>, level: int)
    requires |start| <= |cap|
  {
    forall p :: Replay(cap, start, p).Some? && |p| < level ==> Replay(cap, start, p).value in expanded
  }

  /** Removing the k-th node keeps the others and nothing else. */
  lemma RemoveAt(frontier: seq<Node>, k: nat)
    requires k < |frontier|
    ensures var rest := frontier[..k] + frontier[k + 1..];
      |rest| == |frontier| - 1 &&
      (forall nd :: nd in rest ==> nd in frontier) &&
      (forall nd :: nd in frontier ==> nd == frontier[k] || nd in rest) &&
      multiset(rest) == multiset(frontier) - multiset{frontier[k]}
  {
    var rest := frontier[..k] + frontier[k + 1..];
    assert frontier == frontier[..k] + [frontier[k]] + frontier[k + 1..];
    forall nd | nd in frontier
      ensures nd == frontier[k] || nd in rest
    {
      var i :| 0 <= i < |frontier| && frontier[i] == nd;
      if i < k {
        assert rest[i] == nd;
      } else if i > k {
        assert rest[i - 1] == nd;
      }
    }
  }

  /** A nonempty frontier has a node of least cost: what PriorityQueue.poll returns. */
  lemma {:induction false} LeastCostExists(frontier: seq<Node>)
    requires frontier != []
    ensures exists k :: 0 <= k < |frontier| && forall i :: 0 <= i < |frontier| ==> frontier[k].cost <= frontier[i].cost
  {
    if |frontier| > 1 {
      var init := frontier[..|frontier| - 1];
      LeastCostExists(init);
      var k :| 0 <= k < |init| && forall i :: 0 <= i < |init| ==> init[k].cost <= init[i].cost;
      if frontier[k].cost <= frontier[|frontier| - 1].cost {
        assert forall i :: 0 <= i < |frontier| ==> frontier[k].cost <= frontier[i].cost;
      } else {
        assert forall i :: 0 <= i < |frontier| ==> frontier[|frontier| - 1].cost <= frontier[i].cost;
      }
    } else {
      assert forall i :: 0 <= i < |frontier| ==> frontier[0].cost <= frontier[i].cost;
    }
  }

  /**
   * When every frontier node costs at least c, every state some path of
   * fewer than c moves reaches has been expanded: the queue handles the
   * states level by level.
   */
  lemma LevelAdvance(cap: seq<int>, start: State, expanded: set<State>, visited: set<State>,
                     frontier: seq<Node>, level: int, c: int)
    requires |start| <= |cap|
    requires start in visited && visited <= expanded + NodeStates(frontier)
    requires SuccessorsSeen(cap, expanded, visited)
    requires ShorterExpanded(cap, start, expanded, level)
    requires PathsShortest(cap, start, frontier)
    requires level <= c <= level + 1
    requires forall nd :: nd in frontier ==> c <= nd.cost
    ensures ShorterExpanded(cap, start, expanded, c)
  {
    forall p | Replay(cap, start, p).Some? && |p| < c
      ensures Replay(cap, start, p).value in expanded
    {
      if |p| >= level {
        var u := Replay(cap, start, p).value;
        if p != [] {
          ReplayLast(cap, start, p);
        }
        assert u in visited;
        assert forall nd :: nd in frontier && nd.state == u ==> nd.cost <= |p|;
      }
    }
  }

  /** A state not yet seen is not reached by any path of at most c moves. */
  lemma UnseenIsFar(cap: seq<int>, start: State, expanded: set<State>, visited: set<State>, c: int, t: State)
    requires |start| <= |cap|
    requires start in visited && t !in visited
    requires SuccessorsSeen(cap, expanded, visited)
    requires ShorterExpanded(cap, start, expanded, c)
    ensures forall p :: Replay(cap, start, p) == Some(t) ==> c + 1 <= |p|
  {
    forall p | Replay(cap, start, p) == Some(t)
      ensures c + 1 <= |p|
    {
      if p != [] {
        ReplayLast(cap, start, p);
      }
    }
  }

  /** Once nothing is left to expand, every reachable state has been expanded. */
  lemma {:induction false} ReachableExpanded(cap: seq<int>, start: State, expanded: set<State>, p: seq<Transfer>)
    requires |start| <= |cap|
    requires start in expanded
    requires SuccessorsSeen(cap, expanded, expanded)
    requires Replay(cap, start, p).Some?
    ensures Replay(cap, start, p).value in expanded
    decreases |p|
  {
    if p != [] {
      ReachableExpanded(cap, start, expanded, p[..|p| - 1]);
      ReplayLast(cap, start, p);
    }
  }

  lemma NodeStatesConcat(a: seq<Node>, b: seq<Node>)
    ensures NodeStates(a + b) == NodeStates(a) + NodeStates(b)
  {
    assert forall x :: x in a + b <==> x in a || x in b;
  }

  lemma PathsReplayConcat(cap: seq<int>, start: State, a: seq<Node>, b: seq<Node>)
    requires |start| <= |cap|
    requires PathsReplay(cap, start, a) && PathsReplay(cap, start, b)
    ensures PathsReplay(cap, start, a + b)
  {
    assert forall nd :: nd in a + b ==> nd in a || nd in b;
  }

  lemma PathsShortestConcat(cap: seq<int>, start: State, a: seq<Node>, b: seq<Node>)
    requires |start| <= |cap|
    requires PathsShortest(cap, start, a) && PathsShortest(cap, start, b)
    ensures PathsShortest(cap, start, a + b)
  {
    assert forall nd :: nd in a + b ==> nd in a || nd in b;
  }

  /** The nodes added for unseen states are shortest, because their states were unseen. */
  lemma AddedAreShortest(cap: seq<int>, start: State, before: set<State>, seen: set<State>, c: int, added: seq<Node>)
    requires |start| <= |cap|
    requires start in seen
    requires SuccessorsSeen(cap, before, seen)
    requires ShorterExpanded(cap, start, before, c)
    requires forall nd :: nd in added ==> nd.cost == c + 1 && nd.state !in seen
    ensures PathsShortest(cap, start, added)
  {
    forall nd | nd in added
      ensures forall p :: Replay(cap, start, p) == Some(nd.state) ==> nd.cost <= |p|
    {
      UnseenIsFar(cap, start, before, seen, c, nd.state);
    }
  }

  /** Expanding current makes its successors seen, and keeps those of earlier expansions seen. */
  lemma ExpandedSuccessorsSeen(cap: seq<int>, before: set<State>, seen: set<State>, visited: set<State>, w: State)
    requires seen <= visited && |w| <= |cap|
    requires SuccessorsSeen(cap, before, seen)
    requires forall m :: m in NextStates(w, cap) ==> m.newState in visited
    ensures SuccessorsSeen(cap, before + {w}, visited)
  {
  }

  lemma SubsetsShrinkDifference(box: set<State>, a: set<State>, b: set<State>)
    requires a <= b <= box && a != b
    ensures |box - b| < |box - a|
  {
    var x :| x in b && x !in a;
    assert box - a == (box - b) + (b - a);
    assert (box - b) * (b - a) == {};
    assert x in b - a;
  }

  /** A node queued while expanding a node of cost c: a shortest-path candidate for a state not seen before. */
  ghost predicate QueuedSuccessor(cap: seq<int>, start: State, c: int, seen: set<State>, nd: Node)
    requires |start| <= |cap|
  {
    Replay(cap, start, nd.path) == Some(nd.state) && nd.cost == |nd.path| &&
    nd.cost == c + 1 && nd.state !in seen && InBox(nd.state, cap)
  }

  /** The node solve queues for move m out of current: its state, current's path plus the pour, one more move. */
  function SuccessorNode(current: Node, m: MoveResult): Node {
    Node(m.newState, current.path + [m.action], current.cost + 1)
  }

  /** Node k of added is the successor node for move from[k], below bound, whose state was not visited before. */
  ghost predicate FromMoves(current: Node, moves: seq<MoveResult>, visited0: set<State>, added: seq<Node>,
                            from: seq<int>, bound: int)
  {
    && |from| == |added|
    && forall k :: 0 <= k < |added| ==>
         0 <= from[k] < bound && bound <= |moves| && moves[from[k]].newState !in visited0
         && added[k] == SuccessorNode(current, moves[from[k]])
  }

  /** No state is queued twice. */
  ghost predicate DistinctStates(added: seq<Node>) {
    forall a, b :: 0 <= a < b < |added| ==> added[a].state != added[b].state
  }

  /** Each node of added is the successor node of some move to a state not visited before. */
  lemma FromMovesWitness(current: Node, moves: seq<MoveResult>, visited0: set<State>, added: seq<Node>,
                         from: seq<int>, bound: int)
    requires FromMoves(current, moves, visited0, added, from, bound)
    ensures forall nd :: nd in added ==>
      exists i :: 0 <= i < |moves| && moves[i].newState !in visited0 && nd == SuccessorNode(current, moves[i])
  {
    forall nd | nd in added
      ensures exists i :: 0 <= i < |moves| && moves[i].newState !in visited0 && nd == SuccessorNode(current, moves[i])
    {
      var k :| 0 <= k < |added| && added[k] == nd;
      assert moves[from[k]].newState !in visited0 && nd == SuccessorNode(current, moves[from[k]]);
    }
  }

  /** Queuing the successor for move idx, whose state is not yet visited, keeps both properties. */
  lemma AppendSuccessor(current: Node, moves: seq<MoveResult>, visited0: set<State>, added: seq<Node>,
                        from: seq<int>, idx: int)
    requires 0 <= idx < |moves|
    requires FromMoves(current, moves, visited0, added, from, idx) && DistinctStates(added)
    requires moves[idx].newState !in visited0 + NodeStates(added)
    ensures FromMoves(current, moves, visited0, added + [SuccessorNode(current, moves[idx])], from + [idx], idx + 1)
    ensures DistinctStates(added + [SuccessorNode(current, moves[idx])])
  {
    assert forall a :: 0 <= a < |added| ==> added[a].state in NodeStates(added);
  }

  /** The node the for loop of solve queues for a move to an unvisited state. */
  lemma SuccessorIsQueued(cap: seq<int>, start: State, current: Node, m: MoveResult,
                          seen: set<State>, visited: set<State>)
    requires |start| <= |cap| && InBox(current.state, cap)
    requires Replay(cap, start, current.path) == Some(current.state) && current.cost == |current.path|
    requires m in NextStates(current.state, cap)
    requires seen <= visited && m.newState !in visited
    ensures QueuedSuccessor(cap, start, current.cost, seen, Node(m.newState, current.path + [m.action], current.cost + 1))
  {
    GeneratedMoveEffect(current.state, cap, m);
    ReplayStep(cap, start, current.path, current.state, m);
  }

  /** The loop invariant of solve, for the visited set, the expanded states and the frontier. */
  ghost predicate SearchInvariant(cap: seq<int>, start: State, goal: seq<int>, box: set<State>, visited: set<State>,
                                  expanded: set<State>, frontier: seq<Node>, level: int)
    requires |start| <= |cap|
  {
    && visited <= box
    && start in visited
    && expanded <= visited
    && NodeStates(frontier) <= visited
    && visited <= expanded + NodeStates(frontier)
    && PathsReplay(cap, start, frontier)
    && PathsShortest(cap, start, frontier)
    && (forall nd :: nd in frontier ==> level <= nd.cost <= level + 1)
    && SuccessorsSeen(cap, expanded, visited)
    && goal !in expanded
    && ShorterExpanded(cap, start, expanded, level)
  }

  /** The invariant holds when solve has queued and visited only the start state. */
  lemma InitialInvariant(cap: seq<int>, start: State, goal: seq<int>, box: set<State>)
    requires forall v :: v in box <==> InBox(v, cap)
    requires InBox(start, cap)
    ensures SearchInvariant(cap, start, goal, box, {start}, {}, [Node(start, [], 0)], 0)
  {
    assert NodeStates([Node(start, [], 0)]) == {start};
  }

  /** When the frontier runs empty, every reachable state has been expanded, so the goal is unreachable. */
  lemma ExhaustedMeansUnreachable(cap: seq<int>, start: State, goal: seq<int>, box: set<State>,
                                  visited: set<State>, expanded: set<State>, level: int)
    requires |start| <= |cap|
    requires SearchInvariant(cap, start, goal, box, visited, expanded, [], level)
    ensures forall p :: Replay(cap, start, p) != Some(goal)
  {
    assert NodeStates([]) == {};
    forall p | Replay(cap, start, p).Some?
      ensures Replay(cap, start, p).value in expanded
    {
      ReachableExpanded(cap, start, expanded, p);
    }
  }

  /** What solve knows of a node on its frontier: it is reached by its path, which is shortest and in bounds. */
  lemma FrontierNode(cap: seq<int>, start: State, goal: seq<int>, box: set<State>, visited: set<State>,
                     expanded: set<State>, frontier: seq<Node>, level: int, current: Node)
    requires |start| <= |cap|
    requires forall v :: v in box <==> InBox(v, cap)
    requires SearchInvariant(cap, start, goal, box, visited, expanded, frontier, level)
    requires current in frontier
    ensures Replay(cap, start, current.path) == Some(current.state) && current.cost == |current.path|
    ensures forall p :: Replay(cap, start, p) == Some(current.state) ==> |current.path| <= |p|
    ensures InBox(current.state, cap)
  {
    assert current.state in NodeStates(frontier);
  }

  /**
   * One iteration of solve keeps its invariant: the least-cost node, which is
   * not the goal, is expanded and its unseen successors are queued one level on.
   */
  lemma ExpansionStep(cap: seq<int>, start: State, goal: seq<int>, box: set<State>, visited: set<State>,
                      expanded: set<State>, frontier: seq<Node>, level: int,
                      current: Node, rest: seq<Node>, added: seq<Node>)
    requires |start| <= |cap|
    requires forall v :: v in box <==> InBox(v, cap)
    requires SearchInvariant(cap, start, goal, box, visited, expanded, frontier, level)
    requires current in frontier && |rest| == |frontier| - 1
    requires forall nd :: nd in frontier ==> CompareTo(current, nd) <= 0
    requires forall nd :: nd in rest ==> nd in frontier
    requires NodeStates(rest) <= NodeStates(frontier) <= NodeStates(rest) + {current.state}
    requires !MatchesGoal(current.state, goal)
    requires |current.state| <= |cap|
    requires forall nd :: nd in added ==> QueuedSuccessor(cap, start, current.cost, visited, nd)
    requires forall m :: m in NextStates(current.state, cap) ==> m.newState in visited + NodeStates(added)
    ensures SearchInvariant(cap, start, goal, box, visited + NodeStates(added), expanded + {current.state},
                            rest + added, current.cost)
  {
    assert current.state in NodeStates(frontier);
    LevelAdvance(cap, start, expanded, visited, frontier, level, current.cost);
    var visited' := visited + NodeStates(added);
    NodeStatesConcat(rest, added);
    assert PathsReplay(cap, start, added);
    PathsReplayConcat(cap, start, rest, added);
    AddedAreShortest(cap, start, expanded, visited, current.cost, added);
    PathsShortestConcat(cap, start, rest, added);
    ExpandedSuccessorsSeen(cap, expanded, visited, visited', current.state);
  }

  /** Each iteration of solve makes progress: some state in the box is newly visited, or the frontier shrank. */
  lemma ExpansionProgress(cap: seq<int>, start: State, box: set<State>, visited: set<State>,
                          frontier: seq<Node>, current: Node, rest: seq<Node>, added: seq<Node>)
    requires |start| <= |cap|
    requires forall v :: v in box <==> InBox(v, cap)
    requires visited <= box && |rest| == |frontier| - 1
    requires forall nd :: nd in added ==> QueuedSuccessor(cap, start, current.cost, visited, nd)
    ensures |box - (visited + NodeStates(added))| < |box - visited| || (added == [] && |rest| < |frontier|)
  {
    if added != [] {
      assert added[0].state in NodeStates(added) && added[0] in added;
      SubsetsShrinkDifference(box, visited, visited + NodeStates(added));
    }
  }

  /**
   * Any answer meeting the contract of solve is the empty path when the start
   * state already matches the goal: solve checks the goal before expanding.
   */
  lemma SolvedAtStart(cap: seq<int>, start: State, goal: seq<int>, r: Option<seq<Transfer>>)
    requires |start| <= |cap| && MatchesGoal(start, goal)
    requires r.Some? ==> Replay(cap, start, r.value) == Some(goal)
    requires r.Some? ==> forall p :: Replay(cap, start, p) == Some(goal) ==> |r.value| <= |p|
    requires r.None? ==> forall p :: Replay(cap, start, p) != Some(goal)
    ensures r == Some([])
  {
    assert Replay(cap, start, []) == Some(start);
  }
}
