/**
 * AStar: breadth-first search by move count over container states, with the
 * move generator that tries every ordered pair of containers.
 */
module AStarSearch {
  import opened Wrappers
  import opened States
  import opened Transfers
  import opened SearchNodes
  import opened AStarSpec

  /**
   * PriorityQueue.poll on a queue ordered by Node.compareTo: removes and
   * returns a node of least cost; which one among equal costs is unspecified.
   */
  method Poll(frontier: seq<Node>) returns (current: Node, rest: seq<Node>)
    requires frontier != []
    ensures current in frontier && |rest| == |frontier| - 1
    ensures forall nd :: nd in frontier ==> CompareTo(current, nd) <= 0
    ensures forall nd :: nd in rest ==> nd in frontier
    ensures forall nd :: nd in frontier ==> nd == current || nd in rest
    ensures multiset(rest) == multiset(frontier) - multiset{current}
    ensures NodeStates(rest) <= NodeStates(frontier) <= NodeStates(rest) + {current.state}
  {
    LeastCostExists(frontier);
    var k :| 0 <= k < |frontier| && forall i :: 0 <= i < |frontier| ==> frontier[k].cost <= frontier[i].cost;
    current := frontier[k];
    RemoveAt(frontier, k);
    rest := frontier[..k] + frontier[k + 1..];
  }

  /** The solver; it keeps its own copy of the capacities. */
  class AStar {
    const capacities: seq<int>

    constructor (capacity: array<int>)
      ensures capacities == capacity[..]
    {
      capacities := capacity[..];
    }

    /** generateNextStates: every pour the two loops admit, in their order. */
    method GenerateNextStates(current: State) returns (results: seq<MoveResult>)
      requires |current| <= |capacities|
      ensures results == NextStates(current, capacities)
    {
      results := [];
      var volumes := current;
      var n := |volumes|;
      for i := 0 to n
        invariant Gen(volumes, capacities, i, 0, results) == NextStates(volumes, capacities)
      {
        for j := 0 to n
          invariant Gen(volumes, capacities, i, j, results) == NextStates(volumes, capacities)
        {
          ghost var before := results;
          if i != j && volumes[i] > 0 {
            var transferAmount := Min(volumes[i], capacities[j] - volumes[j]);
            if transferAmount > 0 {
              var transfer := Transfer(i, j, transferAmount);
              var newState := Pour(volumes, transfer);
              results := results + [MoveResult(newState, transfer)];
            }
          }
          assert results == before + Candidate(volumes, capacities, i, j);
        }
      }
    }

    /** The body of the inner loop: copy the volumes, then move the amount. */
    static method Pour(volumes: State, t: Transfer) returns (newState: State)
      requires 0 <= t.fromContainer < |volumes| && 0 <= t.toContainer < |volumes|
      ensures newState == Apply(volumes, t)
    {
      var newVolumes := new int[|volumes|](k requires 0 <= k < |volumes| => volumes[k]);
      newVolumes[t.fromContainer] := newVolumes[t.fromContainer] - t.amount;
      newVolumes[t.toContainer] := newVolumes[t.toContainer] + t.amount;
      newState := newVolumes[..];
    }

    /**
     * The for loop of solve over the moves out of current: each move to a
     * state not yet visited marks it visited and queues a node one move
     * further along.
     */
    method VisitNeighbours(ghost start: State, current: Node, moves: seq<MoveResult>,
                           visited0: set<State>, frontier0: seq<Node>)
      returns (visited: set<State>, frontier: seq<Node>, ghost added: seq<Node>)
      requires |start| <= |capacities| && InBox(current.state, capacities)
      requires moves == NextStates(current.state, capacities)
      requires Replay(capacities, start, current.path) == Some(current.state) && current.cost == |current.path|
      ensures visited == visited0 + NodeStates(added)
      ensures frontier == frontier0 + added
      ensures forall nd :: nd in added ==> QueuedSuccessor(capacities, start, current.cost, visited0, nd)
      ensures forall m :: m in moves ==> m.newState in visited
      ensures forall nd :: nd in added ==>
        exists i :: 0 <= i < |moves| && moves[i].newState !in visited0 && nd == SuccessorNode(current, moves[i])
      ensures forall a, b :: 0 <= a < b < |added| ==> added[a].state != added[b].state
    {
      visited, frontier, added := visited0, frontier0, [];
      ghost var from: seq<int> := [];
      for idx := 0 to |moves|
        invariant visited == visited0 + NodeStates(added)
        invariant frontier == frontier0 + added
        invariant forall nd :: nd in added ==> QueuedSuccessor(capacities, start, current.cost, visited0, nd)
        invariant forall i :: 0 <= i < idx ==> moves[i].newState in visited
        invariant FromMoves(current, moves, visited0, added, from, idx)
        invariant DistinctStates(added)
      {
        var nextState := moves[idx].newState;
        var action := moves[idx].action;
        if nextState !in visited {
          var newPath := current.path + [action];
          var node := Node(nextState, newPath, current.cost + 1);
          assert node == SuccessorNode(current, moves[idx]);
          AppendSuccessor(current, moves, visited0, added, from, idx);
          SuccessorIsQueued(capacities, start, current, moves[idx], visited0, visited);
          NodeStatesAppend(added, node);
          visited := visited + {nextState};
          frontier := frontier + [node];
          added := added + [node];
          from := from + [idx];
        }
      }
      FromMovesWitness(current, moves, visited0, added, from, |moves|);
    }

    /**
     * solve: Some(path) is a shortest sequence of generator pours from start
     * to goal; None means no sequence of pours reaches goal.
     */
    method Solve(start: State, goal: seq<int>) returns (r: Option<seq<Transfer>>)
      requires InBox(start, capacities)
      ensures r.Some? ==> Replay(capacities, start, r.value) == Some(goal)
      ensures r.Some? ==> forall p :: Replay(capacities, start, p) == Some(goal) ==> |r.value| <= |p|
      ensures r.None? ==> forall p :: Replay(capacities, start, p) != Some(goal)
    {
      var frontier := [Node(start, [], 0)];
      var visited := {start};
      ghost var expanded: set<State> := {};
      ghost var level := 0;
      ghost var box := FiniteBox(capacities);
      InitialInvariant(capacities, start, goal, box);

      while frontier != []
        invariant SearchInvariant(capacities, start, goal, box, visited, expanded, frontier, level)
        decreases |box - visited|, |frontier|
      {
        var current, rest := Poll(frontier);
        FrontierNode(capacities, start, goal, box, visited, expanded, frontier, level, current);
        var currentState := current.state;

        if MatchesGoal(currentState, goal) {
          return Some(current.path);
        }

        var moves := GenerateNextStates(currentState);
        ghost var added;
        ghost var visited0, frontier0 := visited, frontier;
        visited, frontier, added := VisitNeighbours(start, current, moves, visited, rest);
        ExpansionStep(capacities, start, goal, box, visited0, expanded, frontier0, level, current, rest, added);
        ExpansionProgress(capacities, start, box, visited0, frontier0, current, rest, added);
        expanded := expanded + {currentState};
        level := current.cost;
      }
      ExhaustedMeansUnreachable(capacities, start, goal, box, visited, expanded, level);
      return None;
    }
  }
}
