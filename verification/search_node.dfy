/**
 * Node: an entry of the search frontier. Its fields are final; cost is the
 * number of moves made so far, and nodes are ordered by cost alone.
 */
module SearchNodes {
  import opened States
  import opened Transfers

  datatype Node = Node(state: State, path: seq<Transfer>, cost: int)

  /** Node.compareTo: Integer.compare on the two costs. */
  function CompareTo(a: Node, b: Node): (r: int)
    ensures r == -1 || r == 0 || r == 1
    ensures r < 0 <==> a.cost < b.cost
    ensures r == 0 <==> a.cost == b.cost
    ensures r > 0 <==> a.cost > b.cost
  {
    if a.cost < b.cost then -1 else if a.cost == b.cost then 0 else 1
  }

  /** compareTo is antisymmetric, total and transitive: a total preorder on nodes by cost. */
  lemma CompareToIsTotalPreorder(a: Node, b: Node, c: Node)
    ensures CompareTo(a, b) == -CompareTo(b, a)
    ensures CompareTo(a, b) <= 0 || CompareTo(b, a) <= 0
    ensures CompareTo(a, b) <= 0 && CompareTo(b, c) <= 0 ==> CompareTo(a, c) <= 0
  {
  }
}
