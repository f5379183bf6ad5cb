/** A committed transaction leaves exactly what the graph algorithms assume. */
module AlgorithmInputs {
  import opened Graphs
  import opened AkgStore
  import opened Ordering
  import opened DeltaEdges
  import opened DeltaStep
  import opened NodeStores
  import opened DeltaIndexes
  import opened GraphJson
  import opened Transactions
  import opened CutVertices
  import CutVertexSearch
  import TopologicalSort
  import PageRanks
  import Scc

  lemma MirroredViews(outbound: Adjacency, inbound: Adjacency, ids: seq<Id>)
    requires FiledBySource(outbound) && FiledByTarget(inbound) && AllEdges(inbound) == AllEdges(outbound)
    ensures Mirrored(EdgeStore(ids, outbound, inbound))
  {
    hide AllEdges;
    forall x, y
      ensures (exists k :: 0 <= k < |Edges(outbound, x)| && Edges(outbound, x)[k].target == y)
              <==> (exists k :: 0 <= k < |Edges(inbound, y)| && Edges(inbound, y)[k].source == x)
    {
      if k :| 0 <= k < |Edges(outbound, x)| && Edges(outbound, x)[k].target == y {
        MirroredEdge(outbound, inbound, Edges(outbound, x)[k]);
      }
      if k :| 0 <= k < |Edges(inbound, y)| && Edges(inbound, y)[k].source == x {
        MirroredEdge(outbound, inbound, Edges(inbound, y)[k]);
      }
    }
  }

  lemma MirroredEdge(outbound: Adjacency, inbound: Adjacency, e: Edge)
    requires FiledBySource(outbound) && FiledByTarget(inbound) && AllEdges(inbound) == AllEdges(outbound)
    ensures e in Edges(outbound, e.source) <==> e in Edges(inbound, e.target)
  {
    ViewsMirror(outbound, inbound, e);
    assert e in Edges(outbound, e.source) <==> e in multiset(Edges(outbound, e.source));
    assert e in Edges(inbound, e.target) <==> e in multiset(Edges(inbound, e.target));
  }

  /** What the algorithms ask of the two edge views over a set of node IDs. */
  ghost predicate Ready(ids: set<Id>, outbound: Adjacency, inbound: Adjacency) {
    var store := EdgeStore(Ascending(ids), outbound, inbound);
    Mirrored(store) && CutVertexSearch.NonEmptyIds(store)         // FindArticulationPoints
    && (forall x, y :: y in Neighbors(store, x) ==> x in store.nodeIds)
    && Closed(outbound, ids)                                      // the two Tarjan versions agree
    && TopologicalSort.EndsIn(outbound, ids)                      // Kahn's sort
    && PageRanks.Balanced(Ascending(ids), outbound, inbound)      // rank is conserved
    && StructuralReady(ids, outbound, inbound)                    // the snapshot versions
  }

  /** What the snapshot versions read: structural edges and counted incoming edges. Rank is conserved
      there too. */
  ghost predicate StructuralReady(ids: set<Id>, outbound: Adjacency, inbound: Adjacency) {
    var snap := Scc.GraphSnapshot(Ascending(ids), ids, outbound);
    Scc.WellFormed(snap) && PageRanks.Balanced(snap.nodeIds, Scc.Structural(snap), PageRanks.CountedIn(inbound, ids))
  }

  lemma EndsAreNodes(ids: set<Id>, outbound: Adjacency, x: Id, y: Id)
    requires NoDangling(ids, outbound) && HasEdge(outbound, x, y)
    ensures x in ids && y in ids
  {
    var k :| 0 <= k < |Edges(outbound, x)| && Edges(outbound, x)[k].target == y;
    assert BothEnds(ids, x, outbound[x][k]);
  }

  lemma NeighborsAreNodes(ids: set<Id>, outbound: Adjacency, inbound: Adjacency, x: Id, y: Id)
    requires NoDangling(ids, outbound) && FiledBySource(outbound) && FiledByTarget(inbound) && AllEdges(inbound) == AllEdges(outbound)
    requires y in Neighbors(EdgeStore(Ascending(ids), outbound, inbound), x)
    ensures y in ids
  {
    hide AllEdges;
    if k :| 0 <= k < |Edges(outbound, x)| && Edges(outbound, x)[k].target == y {
      EndsAreNodes(ids, outbound, x, y);
    } else {
      var k :| 0 <= k < |Edges(inbound, x)| && Edges(inbound, x)[k].source == y;
      var e := Edges(inbound, x)[k];
      MirroredEdge(outbound, inbound, e);
      var j :| 0 <= j < |Edges(outbound, y)| && Edges(outbound, y)[j] == e;
      EndsAreNodes(ids, outbound, y, x);
    }
  }

  lemma InboundKeysAreNodes(ids: set<Id>, outbound: Adjacency, inbound: Adjacency, t: Id)
    requires NoDangling(ids, outbound) && FiledBySource(outbound) && FiledByTarget(inbound) && AllEdges(inbound) == AllEdges(outbound)
    requires t in inbound
    ensures t in ids
  {
    hide AllEdges;
    var e := inbound[t][0];
    assert e.target == t && e in Edges(inbound, t);
    MirroredEdge(outbound, inbound, e);
    var j :| 0 <= j < |Edges(outbound, e.source)| && Edges(outbound, e.source)[j] == e;
    EndsAreNodes(ids, outbound, e.source, t);
  }

  lemma ViewsReady(ids: set<Id>, outbound: Adjacency, inbound: Adjacency)
    requires NoDangling(ids, outbound) && FiledBySource(outbound) && FiledByTarget(inbound) && AllEdges(inbound) == AllEdges(outbound)
    requires "" !in ids && forall s :: s in outbound ==> outbound[s] != []
    ensures Ready(ids, outbound, inbound)
  {
    var order := Ascending(ids);
    var store := EdgeStore(order, outbound, inbound);
    hide AllEdges, Less;
    MirroredViews(outbound, inbound, order);
    MirroredIsSymmetric(store);
    forall x, y | y in Neighbors(store, x)
      ensures y != "" && x in order
    {
      NeighborsAreNodes(ids, outbound, inbound, x, y);
      assert x in Neighbors(store, y);
      NeighborsAreNodes(ids, outbound, inbound, y, x);
    }
    forall x, y | x in ids && HasEdge(outbound, x, y)
      ensures y in ids
    {
      EndsAreNodes(ids, outbound, x, y);
    }
    forall p | p in TopologicalSort.Slots(outbound)
      ensures p.0 in ids && TopologicalSort.Target(outbound, p) in ids
    {
      assert BothEnds(ids, p.0, outbound[p.0][p.1]);
    }
    forall s | s in outbound
      ensures s in order
    {
      assert BothEnds(ids, s, outbound[s][0]);
    }
    forall t | t in inbound
      ensures t in order
    {
      InboundKeysAreNodes(ids, outbound, inbound, t);
    }
    LessIsTotalOrder();
    assert Distinct(order);
    assert ids == set id | id in order;
    PageRanks.StructuralBalance(order, Scc.GraphSnapshot(order, ids, outbound), inbound);
    hide Mirrored, Neighbors, HasEdge;
  }

  /** What a transaction leaves is exactly what the graph algorithms assume. */
  lemma AlgorithmsApply(s0: Snapshot, step: Step, norm: string -> string, s1: Snapshot)
    requires Sound(s0, norm) && GoodStep(s0, step, norm) && Committed(s0, step, norm, s1)
    ensures Ready(s1.store.nodes.Keys, s1.value.outbound, s1.inbound)
  {
    StepIsSound(s0, step, norm, s1);
    assert forall s :: s in s1.value.outbound ==> s1.value.outbound[s] != [];
    hide Stepped, Exact, Stable, Survivors, Recorded, Listed, OwnIds, AllEdges, OwnSources, Ready, FiledBySource, FiledByTarget, NoDangling;
    ViewsReady(s1.store.nodes.Keys, s1.value.outbound, s1.inbound);
  }
}
