/** Node identifiers, edges and directed reachability, shared by every graph algorithm. */
module Graphs {

  type Id = string

  datatype Edge = Edge(source: Id, target: Id, kind: string, line: int,
                       confidence: real, isCycle: bool, properties: map<string, string>)

  /** An adjacency view: source ID to its outbound edges, as OutboundEdges stores it. */
  type Adjacency = map<Id, seq<Edge>>

  /** The edges stored under `v`; a missing key reads as the empty list. */
  function Edges(g: Adjacency, v: Id): seq<Edge> {
    if v in g then g[v] else []
  }

  lemma CountMore<T>(list: seq<T>, last: T, x: T)
    ensures multiset(list + [last])[x] == multiset(list)[x] + if x == last then 1 else 0
  {
  }

  ghost predicate HasEdge(g: Adjacency, x: Id, y: Id) {
    exists k :: 0 <= k < |Edges(g, x)| && Edges(g, x)[k].target == y
  }

  lemma EdgesAreStored(g: Adjacency, x: Id, y: Id)
    ensures HasEdge(g, x, y) <==> x in g && exists k :: 0 <= k < |g[x]| && g[x][k].target == y
  {
    if HasEdge(g, x, y) {
      var k :| 0 <= k < |Edges(g, x)| && Edges(g, x)[k].target == y;
      assert g[x][k].target == y;
    }
    if k :| x in g && 0 <= k < |g[x]| && g[x][k].target == y {
      assert Edges(g, x)[k].target == y;
    }
  }

  /** Every edge that starts inside `nodes` ends inside `nodes`. */
  ghost predicate Closed(g: Adjacency, nodes: set<Id>) {
    forall x, y :: x in nodes && HasEdge(g, x, y) ==> y in nodes
  }

  /** `y` can be reached from `x` along exactly `n` edges. */
  ghost predicate ReachIn(g: Adjacency, n: nat, x: Id, y: Id) {
    if n == 0 then x == y else exists z :: ReachIn(g, n - 1, x, z) && HasEdge(g, z, y)
  }

  ghost predicate Reach(g: Adjacency, x: Id, y: Id) {
    exists n: nat :: ReachIn(g, n, x, y)
  }

  lemma ReachRefl(g: Adjacency, x: Id)
    ensures Reach(g, x, x)
  {
    assert ReachIn(g, 0, x, x);
  }

  lemma ReachStep(g: Adjacency, x: Id, y: Id, z: Id)
    requires Reach(g, x, y) && HasEdge(g, y, z)
    ensures Reach(g, x, z)
  {
    var n: nat :| ReachIn(g, n, x, y);
    assert ReachIn(g, n + 1, x, z);
  }

  lemma ReachEdge(g: Adjacency, x: Id, y: Id)
    requires HasEdge(g, x, y)
    ensures Reach(g, x, y)
  {
    ReachRefl(g, x);
    ReachStep(g, x, x, y);
  }

  lemma ReachTransIn(g: Adjacency, x: Id, y: Id, n: nat, z: Id)
    requires Reach(g, x, y) && ReachIn(g, n, y, z)
    ensures Reach(g, x, z)
    decreases n
  {
    if n > 0 {
      var u :| ReachIn(g, n - 1, y, u) && HasEdge(g, u, z);
      ReachTransIn(g, x, y, n - 1, u);
      ReachStep(g, x, u, z);
    }
  }

  lemma ReachTrans(g: Adjacency, x: Id, y: Id, z: Id)
    requires Reach(g, x, y) && Reach(g, y, z)
    ensures Reach(g, x, z)
  {
    var n: nat :| ReachIn(g, n, y, z);
    ReachTransIn(g, x, y, n, z);
  }

  lemma ReachInStaysIn(g: Adjacency, nodes: set<Id>, n: nat, x: Id, y: Id)
    requires Closed(g, nodes) && x in nodes && ReachIn(g, n, x, y)
    ensures y in nodes
    decreases n
  {
    if n > 0 {
      var z :| ReachIn(g, n - 1, x, z) && HasEdge(g, z, y);
      ReachInStaysIn(g, nodes, n - 1, x, z);
    }
  }

  /** No path leaves a closed set. */
  lemma ReachStaysIn(g: Adjacency, nodes: set<Id>, x: Id, y: Id)
    requires Closed(g, nodes) && x in nodes && Reach(g, x, y)
    ensures y in nodes
  {
    var n: nat :| ReachIn(g, n, x, y);
    ReachInStaysIn(g, nodes, n, x, y);
  }

  /** Mutually reachable nodes that no further node can join. */
  ghost predicate IsScc(g: Adjacency, c: set<Id>) {
    (forall x, y :: x in c && y in c ==> Reach(g, x, y))
    && (forall x, z :: x in c && Reach(g, x, z) && Reach(g, z, x) ==> z in c)
  }
}
