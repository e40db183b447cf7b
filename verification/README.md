# OptimumTransfer in Dafny

OptimumTransfer solves liquid-transfer puzzles. There is a row of containers, each with a
capacity and a current volume. A move pours from one container into another until the
source is empty or the destination is full. `AStar` searches for a shortest sequence of
such pours from a start state to a target state.

Around the search the repository has:

- the value classes `State`, `Transfer`, `MoveResult` and `Node`;
- `Container`, whose volume changes through a checked setter;
- three goal conditions (exact match, one container at a volume, all volumes equal);
- four heuristics (total volume, one container, even distribution, zero);
- `SimpleGoalParser`, which turns text such as `v[0] + v[1] == 4 && v[2] >= 1` into a
  goal condition;
- `GridPathSolver`, an unrelated Dijkstra search for the cheapest jump route from the
  "Door" to the "Fridge" over a fixed 16-label map.

The model takes the form of the Java code:

- Immutable value classes become datatypes: `States.State`, `Transfers.Transfer`,
  `Transfers.MoveResult`, `SearchNodes.Node`, `Goals.Goal`.
- `Container` becomes a class with a mutable `currentVol` field.
- `AStar` becomes a class holding its copy of the capacities.
- Code that loops in Java is a method with a loop. That covers the move generator, the
  search loop of `solve`, the summing loops of the heuristics, the even-distribution check,
  the operator loop and side evaluation of the parser, `getIndex`, and the search and
  relax loops of `findShortestPath`.
- Each loop method is proved against a function or a predicate that states its result.
- The parser's closures become a condition tree `GoalParser.Cond`, evaluated by
  `GoalParser.Eval`.

The main results:

- **`solve` is sound, optimal and complete** (`AStarSearch.AStar.Solve`). A returned path
  is a sequence of generator pours that turns the start into the goal. No such sequence is
  shorter. `null` is returned only when no sequence of pours reaches the goal. The proof
  uses a breadth-first level invariant over the finite set of in-bounds states.
- **`generateNextStates` is exactly specified.** It emits every pour with a positive
  amount between two distinct containers, in the order of its two loops, at most
  n·(n−1) moves. Every move keeps the total volume and the bounds.
- **`findShortestPath` is correct for every well-formed map** (`GridPath.Search`). Every
  finite distance is the cost of the route the run reports, a walk from the door. No walk
  from the door is cheaper than the recorded distance. The map of the Java class is
  proved well formed (`GridSpec.TheGridWellFormed`).
- **The parser reads back what it is given** (`GoalParser.ParseRender`). It also ignores
  whitespace and ignores everything after a second `&&`. Its error cases are modelled: no
  operator, a bad split, a missing part. So are the errors raised only at evaluation: a
  bad number, an index out of range, and the token `v[`.

Java `int` arithmetic is kept where the source depends on it. `hashCode` wraps to 32 bits.
`Integer.parseInt` refuses values outside the `int` range. `Integer.MAX_VALUE` stands for
"unreached" in `findShortestPath`.

## Model

| member | source | states |
|---|---|---|
| States.MatchesGoal | src/State.java:43-45 | true exactly when the two arrays have the same length and agree at every position |
| States.Equals | src/State.java:58-64 | true exactly for another State whose volumes are element-wise equal; false for any other object |
| States.EqualsIsEquivalence | src/State.java:58-64 | equals is reflexive, symmetric and transitive on states |
| States.Wrap32 | src/State.java:70-72 | the result is a 32-bit int, and any value already in range is left unchanged |
| States.HashCode | src/State.java:70-72 | Arrays.hashCode over the volumes always gives a 32-bit int |
| States.HashCodeConsistent | src/State.java:70-72 | states that are equal under equals have equal hash codes, so the visited HashSet deduplicates by value |
| States.ToString | src/State.java:51-53 | the text is bracketed by '[' and ']' |
| States.ToStringInjective | src/State.java:51-53 | two states with the same Arrays.toString text are the same state |
| States.SumPermutation | src/TotalVolumeHeuristic.java:21-24 | the summing loop gives the same total for any reordering of the volumes |
| States.SumUpdate | src/AStar.java:85-87 | replacing one volume changes the total by the difference |
| Transfers.Apply | src/AStar.java:85-87 | a pour keeps the number of containers |
| Transfers.ApplyEffect | src/AStar.java:85-87 | the source loses the amount, the destination gains it, every other container is untouched |
| Transfers.ApplyKeepsSum | src/AStar.java:85-87 | a pour does not change the total volume |
| Transfers.ToStringInjective | src/Transfer.java:55-57 | the toString text determines source, destination and amount |
| SearchNodes.CompareTo | src/Node.java:56-58 | the result is -1, 0 or 1, and its sign is that of the difference of the two costs |
| SearchNodes.CompareToIsTotalPreorder | src/Node.java:56-58 | compareTo is antisymmetric, total and transitive |
| Containers.ConstructorCheck | src/Container.java:6-12 | the guards pass exactly when 0 <= vol <= cap; vol > cap always gives the capacity message, so that guard runs first; the sign message comes exactly when vol <= cap and a value is negative |
| Containers.Container.constructor | src/Container.java:6-15 | once the guards pass, the container holds the given capacity and volume and its invariant holds |
| Containers.Container.New | src/Container.java:6-15 | construction fails exactly when a guard fails, with that guard's error; otherwise it gives a fresh valid container with the given values |
| Containers.Container.GetCurrentVol | src/Container.java:17-19 | the volume is between 0 and the capacity |
| Containers.Container.GetCapacity | src/Container.java:21-23 | the capacity is non-negative and at least the volume |
| Containers.Container.SetCurrentVol | src/Container.java:25-30 | a volume within 0..capacity is stored; any other fails with the range error and leaves the volume unchanged; the invariant is kept |
| Containers.Container.ToString | src/Container.java:32-34 | the text is bracketed by '(' and ')' |
| Containers.TextInjective | src/Container.java:32-34 | the "(vol/cap)" text determines volume and capacity |
| Goals.IsSatisfied | src/ExactMatchGoal.java:25-28 | isSatisfied of the three goal classes: the exact-match goal holds exactly when the state matches the target; the single-container goal exactly when the indexed volume is the desired one (SingleContainerGoal.java, lines 28-30); even distribution exactly when every volume equals the first (EvenDistributionGoal.java, lines 14-23) |
| Goals.EvenDistributionCheck | src/EvenDistributionGoal.java:14-23 | the loop with its early return computes the even-distribution goal |
| Goals.AllEqualFromSpec | src/EvenDistributionGoal.java:17-21 | the loop returns true exactly when every remaining volume equals the first |
| Goals.ExactMatchNeedsLength | src/ExactMatchGoal.java:25-28 | a state with a different number of containers never matches exactly |
| Goals.SingleContainerMeaning | src/SingleContainerGoal.java:27-30 | the goal holds exactly when the indexed container holds the desired volume, so setting that container to that volume satisfies it |
| Goals.SingleContainerReadsOne | src/SingleContainerGoal.java:27-30 | states that agree at the indexed container agree on the goal |
| Goals.EvenDistributionSingle | src/EvenDistributionGoal.java:14-23 | a single container is always evenly distributed |
| Goals.EvenDistributionPermutation | src/EvenDistributionGoal.java:14-23 | reordering the volumes does not change whether the goal holds |
| Heuristics.TotalVolumeValue | src/TotalVolumeHeuristic.java:20-26 | the estimate is 0 exactly when the total equals the goal total, and it bounds the difference from both sides |
| Heuristics.TotalVolumeEstimate | src/TotalVolumeHeuristic.java:20-26 | the summing loop followed by Math.abs computes that estimate |
| Heuristics.TotalVolumeUnchangedByMoves | src/TotalVolumeHeuristic.java:20-26 | no generated pour changes the estimate |
| Heuristics.TotalVolumeConstantOnPaths | src/TotalVolumeHeuristic.java:20-26 | along any replayed sequence of pours the estimate stays at its starting value |
| Heuristics.JavaDivExact | src/EvenDistributionHeuristic.java:20 | Java's truncating division gives back c when dividing n·c by n, for either sign of c |
| Heuristics.JavaDivTruncates | src/EvenDistributionHeuristic.java:20 | for every dividend and positive divisor, Java's division agrees with Dafny's on a non-negative dividend, is odd in the dividend, and divisor times quotient lies on the dividend's side of zero, less than one divisor closer to zero than the dividend |
| Heuristics.EvenDistributionEstimate | src/EvenDistributionHeuristic.java:14-26 | the two loops, the truncating average and the final halving compute half the total deviation from the average |
| Heuristics.EvenDistributionNonNegative | src/EvenDistributionHeuristic.java:21-25 | the estimate is never negative |
| Heuristics.EvenDistributionZeroAtGoal | src/EvenDistributionHeuristic.java:14-26 | an evenly distributed state has estimate 0 |
| Heuristics.EvenDistributionZeroAwayFromGoal | src/EvenDistributionHeuristic.java:25 | the converse fails: [0, 1] has estimate 0 but is not evenly distributed |
| Heuristics.EvenDistributionPermutation | src/EvenDistributionHeuristic.java:14-26 | reordering the volumes does not change the estimate |
| Heuristics.DeviationSumPermutation | src/EvenDistributionHeuristic.java:22-24 | the deviation loop gives the same sum for any reordering of the volumes |
| Heuristics.SingleContainerEstimate | src/SingleContainerHeuristic.java:22-24 | the estimate is 0 exactly when the matching single-container goal holds, and it bounds the difference from both sides |
| Heuristics.SingleContainerEstimateReadsOne | src/SingleContainerHeuristic.java:22-24 | only the target container is read |
| Heuristics.ZeroEstimate | src/ZeroHeuristic.java:13-15 | the estimate is 0 for every state, the empty one included, so it never exceeds the pours still needed |
| AStarSpec.GenMembers | src/AStar.java:80-95 | after the loops have reached (i, j), a move is emitted exactly when it was already emitted or is a generator move for a pair not yet tried |
| AStarSpec.NextStatesMembers | src/AStar.java:75-98 | a move is emitted exactly when i != j, volume i > 0, the amount is min(volume i, free space of j) and positive, and the new state is the pour applied |
| AStarSpec.CandidateShape | src/AStar.java:82-92 | one pair of containers yields at most one move, for that pair |
| AStarSpec.NextStatesOrdered | src/AStar.java:80-81 | moves come in the order of the two loops: by source, then by destination |
| AStarSpec.NextStatesCount | src/AStar.java:80-81 | n containers yield at most n·(n−1) moves |
| AStarSpec.GeneratedMoveEffect | src/AStar.java:82-91 | each emitted move keeps the volumes within their capacities and the total unchanged, and leaves the source empty or the destination full |
| AStarSpec.Replay | src/AStar.java:57-60 | replaying a path of pours keeps the number of containers |
| AStarSpec.ReplayStep | src/AStar.java:57-60 | a path followed by an emitted move replays to the move's new state |
| AStarSpec.FiniteBox | src/AStar.java:54-55 | the states within the capacities form a finite set, which bounds the visited set |
| AStarSpec.LeastCostExists | src/AStar.java:43 | a non-empty frontier has a node of least cost |
| AStarSpec.InitialInvariant | src/AStar.java:39-40 | the search invariant holds once only the start node is queued and visited |
| AStarSpec.FrontierNode | src/AStar.java:43-44 | a frontier node is reached by its path, that path is shortest, and its state is within bounds |
| AStarSpec.SuccessorIsQueued | src/AStar.java:54-60 | the node queued for an unvisited successor replays to it with cost equal to its path length |
| AStarSpec.ExpansionStep | src/AStar.java:42-62 | one iteration keeps the invariant: the frontier holds shortest paths, successors of expanded states are seen, and the goal has not been expanded |
| AStarSpec.ExpansionProgress | src/AStar.java:54-61 | each iteration visits a new state within bounds or shrinks the frontier |
| AStarSpec.ExhaustedMeansUnreachable | src/AStar.java:63-66 | when the frontier is empty, no path of pours reaches the goal |
| AStarSpec.SolvedAtStart | src/AStar.java:46-48 | any answer meeting solve's contract is the empty path when the start already matches the goal |
| AStarSearch.Poll | src/AStar.java:43 | removes a node of least cost; what remains is the frontier as a multiset less exactly that one node |
| AStarSearch.AStar.constructor | src/AStar.java:23-26 | the solver holds a copy of the capacities |
| AStarSearch.AStar.GenerateNextStates | src/AStar.java:75-98 | the two loops build exactly the specified move list |
| AStarSearch.AStar.Pour | src/AStar.java:85-87 | the cloned array, with the amount moved, is the pour applied to the state |
| AStarSearch.AStar.VisitNeighbours | src/AStar.java:50-62 | every successor ends up visited; each queued node is the current node extended by a generated move to a state not visited before (new state, path plus the move, cost plus one), no two queued nodes share a state, and each replays to its state |
| AStarSearch.AStar.Solve | src/AStar.java:35-67 | a returned path replays to the goal and no replaying path is shorter; None only when no path reaches the goal |
| JavaStrings.IntToStringRoundTrip | src/SimpleGoalParser.java:112 | Integer.parseInt reads back every int that Integer.toString writes |
| JavaStrings.IntToStringInjective | src/Transfer.java:55-57 | distinct ints are rendered as distinct decimal strings |
| JavaStrings.ParseInt | src/SimpleGoalParser.java:112 | an accepted value is a 32-bit int, and a negative one comes from a text starting with '-' |
| JavaStrings.ParseIntAccepts | src/SimpleGoalParser.java:112 | parseInt accepts only an optional sign followed by at least one digit |
| JavaStrings.IndexOfSpec | src/SimpleGoalParser.java:44 | indexOf finds the first occurrence, and gives -1 exactly when there is none |
| JavaStrings.SplitPiecesJoin | src/SimpleGoalParser.java:54 | the pieces of a split, joined by the separator, give back the text |
| JavaStrings.SplitPiecesFree | src/SimpleGoalParser.java:54 | no piece of a split contains the separator |
| JavaStrings.SplitTwo | src/SimpleGoalParser.java:54-57 | splitting x + sep + y gives exactly [x, y] when neither holds the separator's first character and y is non-empty |
| JavaStrings.SplitTrailing | src/SimpleGoalParser.java:54-57 | a separator at the very end leaves no piece after it |
| JavaStrings.SignChunksAppend | src/SimpleGoalParser.java:90 | the look-ahead split of a + b, where b starts with a sign, is a's tokens followed by b's |
| JavaStrings.SignChunksShape | src/SimpleGoalParser.java:90 | the look-ahead split gives non-empty tokens that concatenate back to the side, each with a sign only in front, every token after the first starting with one |
| JavaStrings.StripWhitespace | src/SimpleGoalParser.java:24 | the result has no whitespace and keeps only characters of the input |
| JavaStrings.StripWhitespaceAppend | src/SimpleGoalParser.java:24 | removing whitespace distributes over concatenation |
| JavaStrings.StripWhitespaceNoop | src/SimpleGoalParser.java:24 | a text without whitespace is left as it is, so the removal is idempotent |
| JavaStrings.Trim | src/SimpleGoalParser.java:93 | the result is no longer than the input, starts and ends above ' ', and equals a text that already does |
| JavaStrings.TrimRemovesEnds | src/SimpleGoalParser.java:93 | the result is a slice of the input with only characters up to ' ' before it and after it, so with Trim's own contract exactly the blank ends are removed |
| GoalParser.FirstOperatorSpec | src/SimpleGoalParser.java:40-48 | the chosen operator occurs and none tried before it does; there is no choice exactly when none occurs |
| GoalParser.SelectOperator | src/SimpleGoalParser.java:43-48 | the loop with its break selects that operator |
| GoalParser.UnsupportedWithoutOperator | src/SimpleGoalParser.java:50-52 | parseSingle fails with "Unsupported operation" exactly when none of ==, >=, <= occurs |
| GoalParser.MissingRightSide | src/SimpleGoalParser.java:54-57 | "v[0]==" is an invalid format, because Java drops the trailing empty piece |
| GoalParser.MissingLeftSide | src/SimpleGoalParser.java:54-65 | "==3" parses, with an empty left side that evaluates to 0 |
| GoalParser.ParseIgnoresWhitespace | src/SimpleGoalParser.java:24 | whitespace inserted anywhere does not change the result of parse |
| GoalParser.OperatorOfRender | src/SimpleGoalParser.java:43-48 | the operator written between two plain sides is the one selected |
| GoalParser.ParseSingleRender | src/SimpleGoalParser.java:39-61 | parseSingle reads back a comparison with its operator and both sides |
| GoalParser.ParseConjunction | src/SimpleGoalParser.java:26-31 | with "&&", the first two pieces are parsed in order, and the first one's error wins |
| GoalParser.ParseRender | src/SimpleGoalParser.java:23-36 | parsing the text of a condition gives the condition back |
| GoalParser.ParseIgnoresExtraParts | src/SimpleGoalParser.java:28-31 | a third "&&" part and everything after it are ignored |
| GoalParser.ReadToken | src/SimpleGoalParser.java:93-113 | one pass of the token loop gives the token's value or its error |
| GoalParser.EvaluateSide | src/SimpleGoalParser.java:83-116 | the loop gives the sum of the volumes for "sum", otherwise the signed sum of the tokens, stopping at the first error |
| GoalParser.EmptySide | src/SimpleGoalParser.java:88-94 | an empty side evaluates to 0 |
| GoalParser.LiteralSide | src/SimpleGoalParser.java:112 | an int literal other than Integer.MIN_VALUE evaluates to its value |
| GoalParser.NumberTerm | src/SimpleGoalParser.java:104-113 | a token starting with a digit is read as a number, never as an index |
| GoalParser.OneTokenSide | src/SimpleGoalParser.java:90-114 | a side with no sign after its first character is one token, and its value is that token's |
| GoalParser.SumTokensIsSumResults | src/SimpleGoalParser.java:92-114 | the token loop is the sum of the tokens' values, in order, up to the first error |
| GoalParser.SumResultsConcat | src/SimpleGoalParser.java:92-114 | summing two runs of token values one after the other gives the first run's error, else the second's, else the sum of both |
| GoalParser.SideValueJoin | src/SimpleGoalParser.java:88-114 | the value of a side a + b, where b starts with a sign, joins the values of a and b |
| GoalParser.SideValueAppend | src/SimpleGoalParser.java:88-114 | a side is additive in its signed parts: a + b evaluates to a's value plus b's, and an error in a is reported before any error in b |
| GoalParser.IndexSideValue | src/SimpleGoalParser.java:104-110 | "v[k]" with k below the container count evaluates to volume k, or to the array-index error when the state has no volume k |
| GoalParser.SignedIndexSideValue | src/SimpleGoalParser.java:96-110 | "+v[k]" evaluates to volume k and "-v[k]" to its negation, with the same array-index error |
| GoalParser.SideSum | src/SimpleGoalParser.java:88-114 | two sides that evaluate, the second led by a sign, evaluate together to the sum of their values |
| GoalParser.IndexSumSide | src/SimpleGoalParser.java:88-114 | the side "v[i]+v[j]" with both indices in range evaluates to volume i plus volume j |
| GoalParser.IndexSideRefused | src/SimpleGoalParser.java:104-108 | "v[k]" with k at or beyond the container count is refused with that index |
| GoalParser.IndexCheckedAtEval | src/SimpleGoalParser.java:63-108 | such an index is accepted by parse and refused only when the condition is evaluated |
| GoalParser.MinIntLiteral | src/SimpleGoalParser.java:99-112 | parseInt accepts Integer.MIN_VALUE's text, yet that text as a side is a number error, because the sign is cut off first |
| GoalParser.EvalAnd | src/SimpleGoalParser.java:31 | a conjunction holds exactly when both parts hold; a false or failing first part decides without the second |
| GridSpec.IndexFromSpec | src/GridPathSolver.java:101-106 | the scan stops at a position holding the label, and runs to the end exactly when no later position holds it |
| GridSpec.IndexSpec | src/GridPathSolver.java:101-106 | a name is found exactly when it is a label, at a position holding it |
| GridSpec.LabelsDistinct | src/GridPathSolver.java:23-25 | no label occurs twice |
| GridSpec.DistancesShape | src/GridPathSolver.java:27-46 | the table is 16 by 16 with every length between 0 and 10 |
| GridSpec.TheGridWellFormed | src/GridPathSolver.java:23-46 | the map of the class is well formed: it starts at the door, is square, has no negative length and no repeated label |
| GridSpec.RiskThreshold | src/GridPathSolver.java:70 | for whole lengths, "d > 5.5" means a length of at least 6 |
| GridSpec.StepCost | src/GridPathSolver.java:70-71 | a jump costs at least its length |
| GridSpec.WalkCostNonNegative | src/GridPathSolver.java:71 | no walk costs less than nothing |
| GridSpec.WalkExtend | src/GridPathSolver.java:71-75 | an allowed jump extends a route from the door, adding its step cost |
| GridPath.GetIndex | src/GridPathSolver.java:101-106 | the scan returns a name's position exactly when it is a label, and otherwise fails with that name |
| GridPath.MakeNode | src/GridPathSolver.java:10-15 | the node's route is the parent's route with the node's name appended |
| GridPath.RouteTo | src/GridPathSolver.java:83-84 | the reported route ends with the label asked for |
| GridPath.Poll | src/GridPathSolver.java:60 | removes one node of least cost from the queue |
| GridPath.InitialInvariant | src/GridPathSolver.java:53-57 | after the first loop, which queues the door once per label, the invariant holds |
| GridPath.StaleEntry | src/GridPathSolver.java:63-65 | skipping a node dearer than its label's distance keeps the invariant |
| GridPath.RelaxStep | src/GridPathSolver.java:72-75 | recording a lower distance, queueing its node and recording its route keeps the loop invariant one position on |
| GridPath.RelaxJumps | src/GridPathSolver.java:67-78 | the relax loop restores the invariant, never raises a distance, and lowers the distance sum unless the queue is unchanged |
| GridPath.FinalOptimal | src/GridPathSolver.java:59-79 | when the queue is empty, no walk from the door is cheaper than any label's distance |
| GridPath.Search | src/GridPathSolver.java:48-79 | for any well-formed map, every label has a distance between 0 and Integer.MAX_VALUE and the door's is 0; each distance below Integer.MAX_VALUE is the cost of the reported route from the door; no walk from the door is cheaper, so an unreachable label keeps exactly Integer.MAX_VALUE |
| GridPath.FindShortestPath | src/GridPathSolver.java:48-79 | the same guarantees on the map of the class, distances bounded by Integer.MAX_VALUE included |

## Left out

- Printing is left out:
  - `findShortestPath` prints its results (GridPathSolver.java:81-98);
  - this includes counting the risky jumps of the reported route and the fall probability
    `Math.pow(0.8, riskyJumps)`, a floating-point value that is only printed;
  - the `name` parameter is used only in that printing, so `GridPath.FindShortestPath`
    has no such parameter.
- When falls are possible and the Fridge was never reached, `paths.get("Fridge")` is null
  and the printing part of `findShortestPath` throws. That part is not modelled. For such
  a label, `GridPath.RouteTo` gives the route `getOrDefault` yields, the label alone,
  and `GridPath.Search` promises nothing about that route. It does pin the distance:
  at most Integer.MAX_VALUE, and any smaller value would come with a walk from the
  door, so the distance is exactly Integer.MAX_VALUE.
- Main, TransferGUI and Visualizer (console and GUI input and output) are not part of this
  model.
- The interfaces GoalCondition, Heuristic and TransferConstraint have no code of their own.
  A goal is the datatype `Goals.Goal`, each heuristic is a function or method, and
  TransferConstraint has no implementation.
- `AStar.solve` takes a target array, so it is modelled against `States.MatchesGoal`.
  Main.java:131 passes it a GoalCondition, which does not match that signature. No code
  hands the heuristics to the search, so they are modelled and proved on their own.
- Java `int` overflow is not modelled in these sums, which use unbounded integers:
  - the volume sums of the heuristics and of `evaluateSide`;
  - `sign * value` in `evaluateSide`;
  - `cur.cost + risk + d` in `findShortestPath`;
  - `capacities[j] - volumes[j]` in `generateNextStates`.
- Heuristics.Abs: it is Math.abs only for arguments whose negation is an int. For
  Integer.MIN_VALUE, Java's Math.abs returns MIN_VALUE itself, which the model does not
  reproduce.
- `PriorityQueue` tie-breaking is left open: both `Poll` methods return some node of least
  cost. So the proofs hold for every order among equal costs, but which of several
  shortest paths is returned is not fixed.
- JavaStrings.ParseInt: reads ASCII digits only, while Java's `Integer.parseInt` also
  accepts other Unicode decimal digits.
- JavaStrings.IsWhitespace covers the six ASCII characters that the regular expression
  `\s` matches by default.
- GridPath.FindShortestPath: the map is the value `GridSpec.TheGrid`, built from the two
  static arrays of the class. The search itself, `GridPath.Search`, takes the map as a
  parameter.
- AStarSearch.AStar.Solve: requires a start state that is within the capacities and has
  one volume per container (`AStarSpec.InBox`). Java only needs at most one volume per
  capacity. The requirement makes the set of reachable states finite, which the proof of
  termination uses. Main (src/Main.java, lines 49-51) reads each starting volume with
  `getValidInt(..., 0, capacity[i])` before it builds the start state, so the state it
  passes to solve meets it.
- Containers.Container.constructor: requires the guards to pass. `Containers.Container.New`
  models the constructor together with its exceptions, and `Containers.ConstructorCheck`
  says which exception comes first.
- Containers.Container.GetCurrentVol and Containers.Container.GetCapacity: require the
  class invariant, which every construction and every call of `SetCurrentVol` establish.
- Goals.IsSatisfied: requires `Goals.CanCheck`, because Java throws
  ArrayIndexOutOfBoundsException in two cases:
  - the single-container goal with an index outside the state;
  - the even-distribution goal on an empty state.
- Goals.EvenDistributionCheck: requires a non-empty state, for the same reason.
- Heuristics.EvenDistributionEstimate: requires a non-empty state, because Java divides by
  the number of containers, which throws ArithmeticException for zero.
- Heuristics.SingleContainerEstimate: requires the target index to lie within the state,
  because Java throws ArrayIndexOutOfBoundsException otherwise.
- The defensive copies need no code in the model, because sequences are values:
  - State copies its volumes on construction and on each call of `getVolumes`;
  - ExactMatchGoal copies its target;
  - AStar copies its capacities (the constructor reads the array once).
- Reference identity (`this == o` in `State.equals`) is subsumed by value equality.
