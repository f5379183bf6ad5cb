/** Louvain community detection on a snapshot: building the weighted graph, the local-moving phase,
    aggregation, and the assignment of the original nodes. Gains are computed over the reals. */
module Louvain {
  import opened Graphs
  import opened Ordering
  import opened TarjanMachine
  import opened Scc
  import opened LouvainGraphs
  import opened LouvainPhases
  import opened LouvainCollapse

  /* ---- the graph of a snapshot ---- */

  /** How many of `edges` end in `y`. */
  ghost function CountTo(edges: seq<Edge>, y: Id): nat {
    if edges == [] then 0 else CountTo(edges[..|edges| - 1], y) + if edges[|edges| - 1].target == y then 1 else 0
  }

  /** The structural edges stored under the `i`-th node. */
  ghost function OutOf(snap: GraphSnapshot, i: nat): seq<Edge>
    requires i < |snap.nodeIds|
  {
    Edges(Structural(snap), snap.nodeIds[i])
  }

  /** The structural edges between two nodes, both directions together. */
  ghost function Between(snap: GraphSnapshot, a: nat, b: nat): nat
    requires a < |snap.nodeIds| && b < |snap.nodeIds|
  {
    CountTo(OutOf(snap, a), snap.nodeIds[b]) + CountTo(OutOf(snap, b), snap.nodeIds[a])
  }

  type Pairs = map<(nat, nat), nat>

  ghost function PairAt(seen: Pairs, a: nat, b: nat): nat { if (a, b) in seen then seen[(a, b)] else 0 }

  /** How far the edges of node `x` have been read when node `i` is at edge `k`. */
  ghost function Read(snap: GraphSnapshot, i: nat, k: nat, x: nat): seq<Edge>
    requires i <= |snap.nodeIds| && x < |snap.nodeIds| && (i < |snap.nodeIds| ==> k <= |OutOf(snap, i)|)
  {
    if x < i then OutOf(snap, x) else if x == i then OutOf(snap, x)[..k] else []
  }

  /** Each pair is counted once per edge read between its nodes, in either direction. */
  ghost predicate SeenSoFar(snap: GraphSnapshot, seen: Pairs, i: nat, k: nat) {
    i <= |snap.nodeIds| && (i < |snap.nodeIds| ==> k <= |OutOf(snap, i)|)
    && (forall a, b :: (a, b) in seen ==> a < b < |snap.nodeIds| && seen[(a, b)] > 0)
    && (forall a, b :: 0 <= a < b < |snap.nodeIds| ==>
          PairAt(seen, a, b) == CountTo(Read(snap, i, k, a), snap.nodeIds[b]) + CountTo(Read(snap, i, k, b), snap.nodeIds[a]))
  }

  function Ordered(i: nat, j: nat): (nat, nat) { if i > j then (j, i) else (i, j) }

  function Bumped(seen: Pairs, p: (nat, nat)): Pairs { seen[p := (if p in seen then seen[p] else 0) + 1] }

  lemma CountMore(edges: seq<Edge>, k: nat, y: Id)
    requires k < |edges|
    ensures CountTo(edges[..k + 1], y) == CountTo(edges[..k], y) + if edges[k].target == y then 1 else 0
  {
    assert edges[..k + 1][..k] == edges[..k];
  }

  lemma ReadMore(snap: GraphSnapshot, i: nat, k: nat, x: nat, y: nat)
    requires i < |snap.nodeIds| && k < |OutOf(snap, i)| && x < |snap.nodeIds| && y < |snap.nodeIds|
    ensures CountTo(Read(snap, i, k + 1, x), snap.nodeIds[y])
            == CountTo(Read(snap, i, k, x), snap.nodeIds[y]) + if x == i && OutOf(snap, i)[k].target == snap.nodeIds[y] then 1 else 0
  {
    hide OutOf;
    if x == i {
      CountMore(OutOf(snap, i), k, snap.nodeIds[y]);
    }
  }

  /** One edge: a self-loop or an edge to an unknown node is skipped, any other bumps its pair. */
  lemma SeeEdge(snap: GraphSnapshot, seen: Pairs, i: nat, k: nat, j: nat)
    requires SeenSoFar(snap, seen, i, k) && Distinct(snap.nodeIds) && i < |snap.nodeIds| && k < |OutOf(snap, i)|
    requires j < |snap.nodeIds| && OutOf(snap, i)[k].target == snap.nodeIds[j]
    ensures SeenSoFar(snap, if i == j then seen else Bumped(seen, Ordered(i, j)), i, k + 1)
  {
    var seen' := if i == j then seen else Bumped(seen, Ordered(i, j));
    forall a, b | 0 <= a < b < |snap.nodeIds|
      ensures PairAt(seen', a, b) == CountTo(Read(snap, i, k + 1, a), snap.nodeIds[b]) + CountTo(Read(snap, i, k + 1, b), snap.nodeIds[a])
    {
      SeePair(snap, seen, i, k, j, a, b);
    }
    hide CountTo, Read, OutOf, Distinct, PairAt;
  }

  lemma SeePair(snap: GraphSnapshot, seen: Pairs, i: nat, k: nat, j: nat, a: nat, b: nat)
    requires Distinct(snap.nodeIds) && i < |snap.nodeIds| && k < |OutOf(snap, i)| && a < b < |snap.nodeIds|
    requires j < |snap.nodeIds| && OutOf(snap, i)[k].target == snap.nodeIds[j]
    requires PairAt(seen, a, b) == CountTo(Read(snap, i, k, a), snap.nodeIds[b]) + CountTo(Read(snap, i, k, b), snap.nodeIds[a])
    ensures PairAt(if i == j then seen else Bumped(seen, Ordered(i, j)), a, b)
            == CountTo(Read(snap, i, k + 1, a), snap.nodeIds[b]) + CountTo(Read(snap, i, k + 1, b), snap.nodeIds[a])
  {
    hide CountTo, Read, OutOf;
    ReadMore(snap, i, k, a, b);
    ReadMore(snap, i, k, b, a);
  }

  lemma NextNode(snap: GraphSnapshot, seen: Pairs, i: nat)
    requires i < |snap.nodeIds| && SeenSoFar(snap, seen, i, |OutOf(snap, i)|)
    ensures SeenSoFar(snap, seen, i + 1, 0)
  {
    hide CountTo, OutOf;
    assert OutOf(snap, i)[..|OutOf(snap, i)|] == OutOf(snap, i);
    forall x | 0 <= x < |snap.nodeIds|
      ensures Read(snap, i + 1, 0, x) == Read(snap, i, |OutOf(snap, i)|, x)
    {
    }
    hide Read;
  }

  lemma NothingSeen(snap: GraphSnapshot)
    ensures SeenSoFar(snap, map[], 0, 0)
  {
  }

  /** The symmetrised edge counts; a pair stands for the string key the code builds from two indexes. */
  method CountPairs(snap: GraphSnapshot, idx: map<Id, nat>) returns (seen: Pairs)
    requires Distinct(snap.nodeIds) && IsIndex(idx, snap.nodeIds)
    ensures SeenSoFar(snap, seen, |snap.nodeIds|, 0)
  {
    seen := map[];
    NothingSeen(snap);
    hide SeenSoFar;
    for i := 0 to |snap.nodeIds|
      invariant SeenSoFar(snap, seen, i, 0)
    {
      var edges := Edges(Structural(snap), snap.nodeIds[i]);
      for k := 0 to |edges|
        invariant SeenSoFar(snap, seen, i, k)
      {
        var e := edges[k];
        if e.target in idx {
          SeeEdge(snap, seen, i, k, idx[e.target]);
          if i != idx[e.target] {
            seen := Bumped(seen, Ordered(i, idx[e.target]));
          }
        } else {
          SkipEdge(snap, seen, i, k);
        }
      }
      NextNode(snap, seen, i);
    }
  }

  lemma SkipEdge(snap: GraphSnapshot, seen: Pairs, i: nat, k: nat)
    requires SeenSoFar(snap, seen, i, k) && i < |snap.nodeIds| && k < |OutOf(snap, i)| && OutOf(snap, i)[k].target !in snap.nodeIds
    ensures SeenSoFar(snap, seen, i, k + 1)
  {
    forall a, b | 0 <= a < |snap.nodeIds| && 0 <= b < |snap.nodeIds|
      ensures CountTo(Read(snap, i, k + 1, a), snap.nodeIds[b]) == CountTo(Read(snap, i, k, a), snap.nodeIds[b])
    {
      ReadMore(snap, i, k, a, b);
    }
    hide CountTo, Read, OutOf;
  }

  ghost predicate IsIndex(idx: map<Id, nat>, ids: seq<Id>) {
    (forall i :: 0 <= i < |ids| ==> ids[i] in idx && idx[ids[i]] == i) && forall id :: id in idx ==> idx[id] < |ids| && ids[idx[id]] == id
  }

  /** `g` carries the pairs in `done`, each with its count as weight. */
  ghost predicate Carries(snap: GraphSnapshot, seen: Pairs, done: set<(nat, nat)>, g: LouvainGraph) {
    LouvainGraphs.WellFormed(g) && g.size == |snap.nodeIds|
    && forall i, j :: 0 <= i < g.size && 0 <= j < g.size ==>
         (j in g.adj[i] <==> Ordered(i, j) in done) && (Ordered(i, j) in done ==> i != j && g.adj[i][j] == PairAt(seen, Ordered(i, j).0, Ordered(i, j).1))
  }

  lemma CarryMore(snap: GraphSnapshot, seen: Pairs, done: set<(nat, nat)>, g: LouvainGraph, a: nat, b: nat)
    requires Carries(snap, seen, done, g) && (a, b) in seen && (a, b) !in done && a < b < g.size
    ensures Carries(snap, seen, done + {(a, b)}, WithEdge(g, a, b, seen[(a, b)]))
  {
    var w, g' := seen[(a, b)], WithEdge(g, a, b, seen[(a, b)]);
    assert |g.adj| == g.size && |g.deg| == g.size;
    assert Ordered(a, b) == (a, b) && Ordered(b, a) == (a, b) && PairAt(seen, a, b) == w;
    assert b !in g.adj[a] && a !in g.adj[b];
    WithEdgeWellFormed(g, a, b, w);
    hide LouvainGraphs.WellFormed, PairAt;
    forall i, j | 0 <= i < g.size && 0 <= j < g.size
      ensures Ordered(i, j) == (a, b) <==> (i == a && j == b) || (i == b && j == a)
    {
    }
    forall i, j | 0 <= i < g.size && 0 <= j < g.size
      ensures j in g'.adj[i] <==> Ordered(i, j) in done + {(a, b)}
      ensures Ordered(i, j) in done + {(a, b)} ==> i != j && g'.adj[i][j] == PairAt(seen, Ordered(i, j).0, Ordered(i, j).1)
    {
      CarryAt(seen, done, g, a, b, w, i, j);
    }
  }

  lemma CarryAt(seen: Pairs, done: set<(nat, nat)>, g: LouvainGraph, a: nat, b: nat, w: nat, i: nat, j: nat)
    requires |g.adj| == g.size && |g.deg| == g.size && a < b < g.size && i < g.size && j < g.size && PairAt(seen, a, b) == w
    requires Ordered(i, j) == (a, b) <==> (i == a && j == b) || (i == b && j == a)
    requires j in g.adj[i] <==> Ordered(i, j) in done
    requires Ordered(i, j) in done ==> i != j && g.adj[i][j] == PairAt(seen, Ordered(i, j).0, Ordered(i, j).1)
    ensures var g' := WithEdge(g, a, b, w);
            (j in g'.adj[i] <==> Ordered(i, j) in done + {(a, b)})
            && (Ordered(i, j) in done + {(a, b)} ==> i != j && g'.adj[i][j] == PairAt(seen, Ordered(i, j).0, Ordered(i, j).1))
  {
    hide PairAt, Ordered;
  }

  lemma EmptyGraph(n: nat)
    ensures LouvainGraphs.WellFormed(LouvainGraph(n, seq(n, i => map[]), seq(n, i => 0), 0))
  {
    var g := LouvainGraph(n, seq(n, i => map[]), seq(n, i => 0), 0);
    ZeroSum(g.deg);
    forall i | 0 <= i < n
      ensures RowSum(g.adj[i], n) == 0
    {
      ZeroRow(n);
    }
  }

  lemma ZeroSum(deg: seq<nat>)
    requires forall i :: 0 <= i < |deg| ==> deg[i] == 0
    ensures SumOf(deg) == 0
  {
  }

  lemma ZeroRow(n: nat)
    ensures RowSum(map[], n) == 0
  {
  }

  /** What buildLouvainGraph promises: distinct nodes weigh the number of structural edges between them,
      in either direction. */
  ghost predicate WeighsLinks(snap: GraphSnapshot, g: LouvainGraph) {
    g.size == |snap.nodeIds| && |g.adj| == g.size
    && forall i, j :: 0 <= i < g.size && 0 <= j < g.size && i != j ==> At(g.adj[i], j) == Between(snap, i, j)
  }

  /** buildLouvainGraph. */
  method BuildGraph(snap: GraphSnapshot) returns (g: LouvainGraph)
    requires Distinct(snap.nodeIds)
    ensures LouvainGraphs.WellFormed(g) && WeighsLinks(snap, g)
    ensures forall i :: 0 <= i < g.size ==> i !in g.adj[i]
    ensures forall i, j :: 0 <= i < g.size && j in g.adj[i] ==> At(g.adj[i], j) > 0
  {
    var n := |snap.nodeIds|;
    var idx := map i | 0 <= i < n :: snap.nodeIds[i] := i;
    var seen := CountPairs(snap, idx);
    g := LouvainGraph(n, seq(n, i => map[]), seq(n, i => 0), 0);
    EmptyGraph(n);
    var rest := seen.Keys;
    ghost var done: set<(nat, nat)> := {};
    assert Carries(snap, seen, done, g);
    assert forall a, b :: (a, b) in seen ==> a < b < n;
    while rest != {}
      invariant rest !! done && rest + done == seen.Keys && Carries(snap, seen, done, g) && g.size == n
    {
      hide SeenSoFar;
      var p :| p in rest;
      assert p == (p.0, p.1);
      CarryMore(snap, seen, done, g, p.0, p.1);
      hide *;
      g := WithEdge(g, p.0, p.1, seen[p]);
      rest, done := rest - {p}, done + {p};
    }
    assert done == seen.Keys;
    CarriesAll(snap, seen, g);
  }

  lemma CarriesAll(snap: GraphSnapshot, seen: Pairs, g: LouvainGraph)
    requires Carries(snap, seen, seen.Keys, g) && SeenSoFar(snap, seen, |snap.nodeIds|, 0)
    ensures WeighsLinks(snap, g)
    ensures forall i :: 0 <= i < g.size ==> i !in g.adj[i]
    ensures forall i, j :: 0 <= i < g.size && j in g.adj[i] ==> At(g.adj[i], j) > 0
  {
    forall i, j | 0 <= i < g.size && 0 <= j < g.size && i != j
      ensures At(g.adj[i], j) == Between(snap, i, j) && (j in g.adj[i] ==> At(g.adj[i], j) > 0)
    {
      var a, b := Ordered(i, j).0, Ordered(i, j).1;
      assert Read(snap, |snap.nodeIds|, 0, a) == OutOf(snap, a) && Read(snap, |snap.nodeIds|, 0, b) == OutOf(snap, b);
      assert PairAt(seen, a, b) == Between(snap, a, b);
      hide CountTo, OutOf, Read, LouvainGraphs.WellFormed, SeenSoFar;
      assert j in g.adj[i] <==> (a, b) in seen;
    }
    forall i | 0 <= i < g.size
      ensures i !in g.adj[i]
    {
      assert i in g.adj[i] <==> Ordered(i, i) in seen.Keys;
    }
  }

  /* ---- connectivity ---- */

  /** Some structural edge joins the two nodes, in either direction. */
  ghost predicate Linked(snap: GraphSnapshot, x: Id, y: Id) {
    HasEdge(Structural(snap), x, y) || HasEdge(Structural(snap), y, x)
  }

  ghost predicate LinkedIn(snap: GraphSnapshot, n: nat, x: Id, y: Id) {
    if n == 0 then x == y else exists z :: LinkedIn(snap, n - 1, x, z) && Linked(snap, z, y)
  }

  /** A walk along structural edges, their direction ignored. */
  ghost predicate Connected(snap: GraphSnapshot, x: Id, y: Id) {
    exists n: nat :: LinkedIn(snap, n, x, y)
  }

  ghost function ComponentOf(snap: GraphSnapshot, x: Id): Component {
    set y | y in snap.nodeIds && Connected(snap, x, y)
  }

  lemma {:induction false} Prepend(snap: GraphSnapshot, x: Id, y: Id, n: nat, z: Id)
    requires Linked(snap, x, y) && LinkedIn(snap, n, y, z)
    ensures LinkedIn(snap, n + 1, x, z)
  {
    hide Linked;
    if n == 0 {
      assert LinkedIn(snap, 0, x, x) && Linked(snap, x, z);
      StepOn(snap, x, 0, x, z);
    } else {
      var u :| LinkedIn(snap, n - 1, y, u) && Linked(snap, u, z);
      hide LinkedIn;
      Prepend(snap, x, y, n - 1, u);
      StepOn(snap, x, n, u, z);
    }
  }

  lemma StepOn(snap: GraphSnapshot, x: Id, n: nat, u: Id, z: Id)
    requires LinkedIn(snap, n, x, u) && Linked(snap, u, z)
    ensures LinkedIn(snap, n + 1, x, z)
  {
    hide Linked;
  }

  lemma LinkedShareComponent(snap: GraphSnapshot, x: Id, y: Id)
    requires Linked(snap, x, y)
    ensures ComponentOf(snap, x) == ComponentOf(snap, y)
  {
    forall z
      ensures Connected(snap, x, z) <==> Connected(snap, y, z)
    {
      if Connected(snap, x, z) {
        var n: nat :| LinkedIn(snap, n, x, z);
        Prepend(snap, y, x, n, z);
      }
      if Connected(snap, y, z) {
        var n: nat :| LinkedIn(snap, n, y, z);
        Prepend(snap, x, y, n, z);
      }
    }
  }

  lemma ComponentConnects(snap: GraphSnapshot, x: Id, y: Id)
    requires ComponentOf(snap, x) == ComponentOf(snap, y) && y in snap.nodeIds
    ensures Connected(snap, x, y)
  {
    assert LinkedIn(snap, 0, y, y) && y in ComponentOf(snap, y);
  }

  /** The component of every original node. */
  ghost function Base(snap: GraphSnapshot): seq<Component> {
    seq(|snap.nodeIds|, i requires 0 <= i < |snap.nodeIds| => ComponentOf(snap, snap.nodeIds[i]))
  }

  lemma CountedIsLinked(edges: seq<Edge>, y: Id) returns (k: nat)
    requires CountTo(edges, y) > 0
    ensures k < |edges| && edges[k].target == y
  {
    if edges[|edges| - 1].target == y {
      k := |edges| - 1;
    } else {
      k := CountedIsLinked(edges[..|edges| - 1], y);
    }
  }

  lemma BaseColors(snap: GraphSnapshot, g: LouvainGraph)
    requires Shaped(g) && WeighsLinks(snap, g)
    requires forall i :: 0 <= i < g.size ==> i !in g.adj[i]
    requires forall i, j :: 0 <= i < g.size && j in g.adj[i] ==> At(g.adj[i], j) > 0
    ensures Colored(g, Base(snap))
  {
    forall i, j | 0 <= i < g.size && j in g.adj[i]
      ensures j < g.size && Base(snap)[i] == Base(snap)[j]
    {
      var x, y := snap.nodeIds[i], snap.nodeIds[j];
      assert Between(snap, i, j) > 0;
      if CountTo(OutOf(snap, i), y) > 0 {
        var k := CountedIsLinked(OutOf(snap, i), y);
        assert HasEdge(Structural(snap), x, y);
      } else {
        var k := CountedIsLinked(OutOf(snap, j), x);
        assert HasEdge(Structural(snap), y, x);
      }
      LinkedShareComponent(snap, x, y);
    }
  }

  /* ---- the levels ---- */

  /** Each original node sits at a vertex that stands for its component. */
  ghost predicate Placed(orig: seq<nat>, base: seq<Component>, col: seq<Component>) {
    |orig| == |base| && forall i :: 0 <= i < |orig| ==> orig[i] < |col| && col[orig[i]] == base[i]
  }

  /** Original nodes with one label belong to one component. */
  ghost predicate LabelsOk(orig: seq<nat>, base: seq<Component>) {
    |orig| == |base| && forall i, j :: 0 <= i < |orig| && 0 <= j < |orig| && orig[i] == orig[j] ==> base[i] == base[j]
  }

  /** The folding loop: every original node takes the community of its vertex. */
  method Fold(orig: array<nat>, comm: array<nat>)
    requires orig != comm && forall i :: 0 <= i < orig.Length ==> orig[i] < comm.Length
    modifies orig
    ensures forall i :: 0 <= i < orig.Length ==> orig[i] == comm[old(orig[i])]
  {
    for i := 0 to orig.Length
      invariant forall j :: 0 <= j < i ==> orig[j] == comm[old(orig[j])]
      invariant forall j :: i <= j < orig.Length ==> orig[j] == old(orig[j])
    {
      orig[i] := comm[orig[i]];
    }
  }

  /** The relabelling loop. */
  method Renumber(orig: array<nat>, rank: map<nat, nat>)
    requires forall i :: 0 <= i < orig.Length ==> orig[i] in rank
    modifies orig
    ensures forall i :: 0 <= i < orig.Length ==> old(orig[i]) in rank && orig[i] == rank[old(orig[i])]
  {
    for i := 0 to orig.Length
      invariant forall j :: 0 <= j < i ==> old(orig[j]) in rank && orig[j] == rank[old(orig[j])]
      invariant forall j :: i <= j < orig.Length ==> orig[j] == old(orig[j])
    {
      orig[i] := rank[orig[i]];
    }
  }

  lemma FoldedLabels(before: seq<nat>, after: seq<nat>, comm: seq<nat>, base: seq<Component>, col: seq<Component>)
    requires Placed(before, base, col) && Coherent(comm, col) && |after| == |before|
    requires forall i :: 0 <= i < |after| ==> after[i] == comm[before[i]]
    ensures LabelsOk(after, base)
  {
  }

  lemma PlacedLabels(orig: seq<nat>, base: seq<Component>, col: seq<Component>)
    requires Placed(orig, base, col)
    ensures LabelsOk(orig, base)
  {
  }

  lemma Replaced(before: seq<nat>, folded: seq<nat>, after: seq<nat>, comm: seq<nat>, rank: map<nat, nat>, base: seq<Component>, col: seq<Component>, col': seq<Component>)
    requires Placed(before, base, col) && |comm| == |col| && |folded| == |before| && |after| == |before|
    requires forall i :: 0 <= i < |before| ==> folded[i] == comm[before[i]] && folded[i] in rank && after[i] == rank[folded[i]]
    requires forall c :: c in comm ==> c in rank
    requires forall v :: 0 <= v < |comm| ==> Relabel(comm, rank)[v] < |col'| && col'[Relabel(comm, rank)[v]] == col[v]
    ensures Placed(after, base, col')
  {
    forall i | 0 <= i < |after|
      ensures after[i] < |col'| && col'[after[i]] == base[i]
    {
      var v := before[i];
      assert comm[v] in comm && Relabel(comm, rank)[v] == rank[comm[v]];
    }
  }

  /** What holds between levels: the present graph is the first one, collapsed once by the labels. */
  ghost predicate LevelInv(g0: LouvainGraph, g: LouvainGraph, orig: seq<nat>, base: seq<Component>, col: seq<Component>) {
    LouvainGraphs.WellFormed(g) && Colored(g, col) && Placed(orig, base, col) && Collapsed(g0, orig, g)
  }

  /** Nobody is worth moving once every vertex is a community of its own. */
  ghost predicate Stable(g: LouvainGraph) { g.m > 0 ==> Settled(g, Singletons(g.size)) }

  lemma TinyIsStable(g: LouvainGraph)
    requires LouvainGraphs.WellFormed(g) && g.size <= 1
    ensures Stable(g)
  {
    hide Gain, Slack;
    forall i | 0 <= i < g.size && g.m > 0
      ensures IsBestFor(g, Singletons(g.size), i, i)
    {
      assert forall d :: !Neighbouring(g, Singletons(g.size), i, d);
    }
  }

  /** The rest of a level after a change: relabel, aggregate, start over with singletons. */
  method NextLevel(g: LouvainGraph, comm: array<nat>, orig: array<nat>, ghost before: seq<nat>, ghost base: seq<Component>, ghost col: seq<Component>, ghost g0: LouvainGraph)
      returns (ng: LouvainGraph, ghost col': seq<Component>, ghost labels': seq<nat>)
    requires orig != comm && comm.Length == g.size && LevelInv(g0, g, before, base, col) && Coherent(comm[..], col)
    requires (forall i :: 0 <= i < g.size ==> comm[i] < g.size) && exists e: nat :: IsEmpty(comm[..], e)
    requires |before| == orig.Length && forall i :: 0 <= i < orig.Length ==> orig[i] == comm[before[i]]
    modifies orig
    ensures LevelInv(g0, ng, orig[..], base, col') && ng.size < g.size
    ensures SameOrder(comm[..], labels') && Collapsed(g, labels', ng)
  {
    var labels := comm[..];
    var order, rank := RankCommunities(labels);
    RanksFit(labels, order, rank);
    FewerCommunities(labels, order, rank);
    ghost var folded := orig[..];
    forall i | 0 <= i < orig.Length
      ensures orig[i] in rank
    {
      assert labels[before[i]] in labels;
    }
    Renumber(orig, rank);
    ghost var rank2, order2;
    ng, rank2, order2 := Aggregate(g, labels);
    RankingsAgree(labels, order, rank, order2, rank2);
    col' := ColorsCarryOver(g, labels, col, ng, order2, rank2);
    labels' := Relabel(labels, rank);
    RelabelKeepsOrder(labels, order, rank);
    hide IsRanking, Stems, Shaped, LouvainGraphs.WellFormed, Colored, IsEmpty, SameOrder;
    Replaced(before, folded, orig[..], labels, rank, base, col, col');
    CollapseComposes(g0, before, g, Relabel(labels, rank), ng);
    assert orig[..] == Composed(before, Relabel(labels, rank));
  }

  /** Two labellings of the vertices that compare alike. */
  ghost predicate SameOrder(a: seq<nat>, b: seq<nat>) {
    |a| == |b| && forall i, j :: 0 <= i < |a| && 0 <= j < |a| ==> (a[i] < a[j] <==> b[i] < b[j])
  }

  lemma RelabelKeepsOrder(comm: seq<nat>, order: seq<nat>, rank: map<nat, nat>)
    requires IsRanking(comm, order, rank)
    ensures SameOrder(comm, Relabel(comm, rank))
  {
    forall i, j | 0 <= i < |comm| && 0 <= j < |comm|
      ensures comm[i] < comm[j] <==> rank[comm[i]] < rank[comm[j]]
    {
      assert comm[i] in order && comm[j] in order;
      var a :| 0 <= a < |order| && order[a] == comm[i];
      var b :| 0 <= b < |order| && order[b] == comm[j];
    }
  }

  /** A level that moved vertices: its graph, the communities local moving ended with, the vertices of the
      next level these become, and how many passes moved something. */
  datatype Level = Level(graph: LouvainGraph, comm: seq<nat>, labels: seq<nat>, moves: nat)

  /** The vertices of `next` are the communities of the level, which are settled unless the passes ran out. */
  ghost predicate Steps(l: Level, next: LouvainGraph, passes: nat) {
    0 < l.moves <= passes && (l.moves < passes && l.graph.m > 0 ==> Settled(l.graph, l.comm))
    && SameOrder(l.comm, l.labels) && Collapsed(l.graph, l.labels, next) && next.size < l.graph.size
  }

  ghost function GraphAt(run: seq<Level>, last: LouvainGraph, k: nat): LouvainGraph {
    if k < |run| then run[k].graph else last
  }

  /** The levels lead from the first graph to the last. */
  ghost predicate Leads(run: seq<Level>, first: LouvainGraph, last: LouvainGraph, passes: nat) {
    GraphAt(run, last, 0) == first && forall k :: 0 <= k < |run| ==> Steps(run[k], GraphAt(run, last, k + 1), passes)
  }

  lemma LeadsOn(run: seq<Level>, first: LouvainGraph, last: LouvainGraph, passes: nat, l: Level, next: LouvainGraph)
    requires Leads(run, first, last, passes) && l.graph == last && Steps(l, next, passes)
    ensures Leads(run + [l], first, next, passes)
  {
    hide Steps;
    var run' := run + [l];
    forall k | 0 <= k < |run'|
      ensures Steps(run'[k], GraphAt(run', next, k + 1), passes)
    {
      assert k < |run| ==> GraphAt(run', next, k + 1) == GraphAt(run, last, k + 1);
    }
    assert GraphAt(run', next, 0) == GraphAt(run, last, 0);
  }

  /** The level loop. Whatever the limits, the labels collapse the first graph to the last; the run ends
      early only in a stable graph. */
  method Levels(g0: LouvainGraph, orig: array<nat>, maxLevels: nat, maxPasses: nat, ghost base: seq<Component>)
      returns (ghost last: LouvainGraph, ghost run: seq<Level>)
    requires LevelInv(g0, g0, orig[..], base, base) && maxPasses > 0
    modifies orig
    ensures LabelsOk(orig[..], base) && Collapsed(g0, orig[..], last) && LouvainGraphs.WellFormed(last)
    ensures Leads(run, g0, last, maxPasses) && |run| <= maxLevels && (|run| < maxLevels || maxLevels >= g0.size ==> Stable(last))
  {
    hide *;
    var g := g0;
    ghost var col := base;
    last, run := g, [];
    NoLevel(g, maxPasses);
    LevelFacts(g0, g0, orig[..], base, base);
    PlacedLabels(orig[..], base, col);
    for level := 0 to maxLevels
      invariant LevelInv(g0, g, orig[..], base, col) && LabelsOk(orig[..], base) && g.size + level <= g0.size && last == g
      invariant Leads(run, g0, g, maxPasses) && |run| == level
    {
      LevelFacts(g0, g, orig[..], base, col);
      var comm := new nat[g.size](i => i);
      assert comm[..] == Singletons(g.size);
      ghost var before := orig[..];
      ghost var moves;
      var changed;
      changed, moves := Phase1(g, comm, maxPasses, col);
      AloneFacts(comm[..], !changed);
      Fold(orig, comm);
      FoldedLabels(before, orig[..], comm[..], base, col);
      if !changed || comm.Length <= 1 {
        StaysSame(g, comm[..], before, orig[..], base, col);
        return;
      }
      ghost var labels;
      ghost var l := Level(g, comm[..], [], moves);
      g, col, labels := NextLevel(g, comm, orig, before, base, col, g0);
      LevelSteps(l.(labels := labels), g, maxPasses);
      LeadsOn(run, g0, last, maxPasses, l.(labels := labels), g);
      last, run := g, run + [l.(labels := labels)];
      LevelFacts(g0, g, orig[..], base, col);
      PlacedLabels(orig[..], base, col);
    }
    LevelFacts(g0, g, orig[..], base, col);
    if maxLevels >= g0.size {
      TinyIsStable(g);
    }
  }

  lemma NoLevel(g: LouvainGraph, passes: nat)
    ensures Leads([], g, g, passes)
  {
  }

  lemma LevelSteps(l: Level, next: LouvainGraph, passes: nat)
    requires 0 < l.moves <= passes && (l.graph.m > 0 && l.moves < passes ==> Settled(l.graph, l.comm))
    requires SameOrder(l.comm, l.labels) && Collapsed(l.graph, l.labels, next) && next.size < l.graph.size
    ensures Steps(l, next, passes)
  {
    hide Settled, SameOrder, Collapsed;
  }

  lemma LevelFacts(g0: LouvainGraph, g: LouvainGraph, orig: seq<nat>, base: seq<Component>, col: seq<Component>)
    requires LevelInv(g0, g, orig, base, col)
    ensures LouvainGraphs.WellFormed(g) && Shaped(g) && Colored(g, col) && Placed(orig, base, col) && Collapsed(g0, orig, g)
    ensures |col| == g.size && |orig| == |base| && forall i :: 0 <= i < |orig| ==> orig[i] < g.size
  {
  }

  lemma AloneFacts(comm: seq<nat>, alone: bool)
    requires AloneOrEmpty(comm, alone)
    ensures if alone then comm == Singletons(|comm|) else exists e: nat :: IsEmpty(comm, e)
  {
  }

  /** A level that changes nothing, or has nothing to change, leaves the labels alone. */
  lemma StaysSame(g: LouvainGraph, comm: seq<nat>, before: seq<nat>, after: seq<nat>, base: seq<Component>, col: seq<Component>)
    requires LouvainGraphs.WellFormed(g) && Placed(before, base, col) && |col| == |comm| == g.size && (forall i :: 0 <= i < g.size ==> comm[i] < g.size)
    requires comm == Singletons(g.size) || g.size <= 1
    requires comm == Singletons(g.size) && g.m > 0 ==> Settled(g, comm) || g.size <= 1
    requires |after| == |before| && forall i :: 0 <= i < |after| ==> after[i] == comm[before[i]]
    ensures after == before && Stable(g)
  {
    hide Settled;
    if g.size <= 1 {
      TinyIsStable(g);
    }
  }

  /** The labels of the nodes in the order of the snapshot. */
  ghost function Labels(snap: GraphSnapshot, result: map<Id, nat>): seq<nat>
    requires forall x :: x in snap.nodeIds ==> x in result
  {
    seq(|snap.nodeIds|, i requires 0 <= i < |snap.nodeIds| => result[snap.nodeIds[i]])
  }

  /** `last` is the graph `first` of the links, collapsed by the labels and reached by the levels of `run`. It
      is stable, so that no community would rather join another, unless the levels ran out. */
  ghost predicate Clustered(snap: GraphSnapshot, levels: nat, passes: nat, labels: seq<nat>, first: LouvainGraph, run: seq<Level>, last: LouvainGraph) {
    WeighsLinks(snap, first) && LouvainGraphs.WellFormed(first) && Collapsed(first, labels, last) && LouvainGraphs.WellFormed(last)
    && Leads(run, first, last, passes) && |run| <= levels && (|run| < levels || levels >= |snap.nodeIds| ==> Stable(last))
  }

  /** The labels by node. */
  method NameLabels(ids: seq<Id>, labels: seq<nat>) returns (result: map<Id, nat>)
    requires Distinct(ids) && |labels| == |ids|
    ensures forall x :: x in result <==> x in ids
    ensures forall i :: 0 <= i < |ids| ==> ids[i] in result && result[ids[i]] == labels[i]
    ensures forall x :: x in result ==> exists i :: 0 <= i < |labels| && ids[i] == x && result[x] == labels[i]
  {
    result := map i | 0 <= i < |ids| :: ids[i] := labels[i];
  }

  /** LouvainCommunityDetectionSnapshot: every node gets a label, and two nodes with the same label are
      connected by structural edges if their direction is ignored. Four levels and ten passes are the
      defaults. */
  method DetectCommunities(snap: GraphSnapshot, maxLevels: int, maxPasses: int)
      returns (result: map<Id, nat>, ghost first: LouvainGraph, ghost run: seq<Level>, ghost last: LouvainGraph)
    requires Distinct(snap.nodeIds)
    ensures forall x :: x in result <==> x in snap.nodeIds
    ensures forall x, y :: x in result && y in result && result[x] == result[y] ==> Connected(snap, x, y)
    ensures |snap.nodeIds| == 1 ==> result == map[snap.nodeIds[0] := 0]
    ensures |snap.nodeIds| >= 2 ==>
              Clustered(snap, if maxLevels > 0 then maxLevels else 4, if maxPasses > 0 then maxPasses else 10, Labels(snap, result), first, run, last)
  {
    hide *;
    first, run := LouvainGraph(0, [], [], 0), [];
    last := first;
    if |snap.nodeIds| == 0 {
      return map[], first, run, last;
    }
    if |snap.nodeIds| == 1 {
      ConnectedToItself(snap, snap.nodeIds[0]);
      return map[snap.nodeIds[0] := 0], first, run, last;
    }
    var levels: nat := if maxLevels <= 0 then 4 else maxLevels;
    var passes: nat := if maxPasses <= 0 then 10 else maxPasses;
    var g := BuildGraph(snap);
    first := g;
    var orig := new nat[|snap.nodeIds|](i => i);
    FirstLevel(snap, g, orig[..]);
    last, run := Levels(g, orig, levels, passes, Base(snap));
    result := NameLabels(snap.nodeIds, orig[..]);
    LabelsConnect(snap, orig[..], result);
    LabelsAre(snap, orig[..], result);
    AllClustered(snap, levels, passes, orig[..], first, run, last);
  }

  lemma AllClustered(snap: GraphSnapshot, levels: nat, passes: nat, labels: seq<nat>, first: LouvainGraph, run: seq<Level>, last: LouvainGraph)
    requires WeighsLinks(snap, first) && LouvainGraphs.WellFormed(first) && Collapsed(first, labels, last) && LouvainGraphs.WellFormed(last)
    requires Leads(run, first, last, passes) && |run| <= levels && (|run| < levels || levels >= first.size ==> Stable(last)) && first.size == |snap.nodeIds|
    ensures Clustered(snap, levels, passes, labels, first, run, last)
  {
    hide Stable, Leads, WeighsLinks;
  }

  lemma ConnectedToItself(snap: GraphSnapshot, x: Id)
    ensures Connected(snap, x, x)
  {
    assert LinkedIn(snap, 0, x, x);
  }

  lemma FirstLevel(snap: GraphSnapshot, g: LouvainGraph, orig: seq<nat>)
    requires LouvainGraphs.WellFormed(g) && WeighsLinks(snap, g)
    requires forall i :: 0 <= i < g.size ==> i !in g.adj[i]
    requires forall i, j :: 0 <= i < g.size && j in g.adj[i] ==> At(g.adj[i], j) > 0
    requires |orig| == |snap.nodeIds| && forall i :: 0 <= i < |orig| ==> orig[i] == i
    ensures LevelInv(g, g, orig, Base(snap), Base(snap)) && g.size == |snap.nodeIds|
  {
    BaseColors(snap, g);
    CollapsedToItself(g);
    assert orig == Singletons(g.size);
    hide Between, At;
  }

  lemma LabelsAre(snap: GraphSnapshot, orig: seq<nat>, result: map<Id, nat>)
    requires |orig| == |snap.nodeIds| && forall i :: 0 <= i < |orig| ==> snap.nodeIds[i] in result && result[snap.nodeIds[i]] == orig[i]
    ensures (forall x :: x in snap.nodeIds ==> x in result) && Labels(snap, result) == orig
  {
  }

  lemma LabelsConnect(snap: GraphSnapshot, orig: seq<nat>, result: map<Id, nat>)
    requires LabelsOk(orig, Base(snap)) && forall x :: x in result ==> exists i :: 0 <= i < |orig| && snap.nodeIds[i] == x && result[x] == orig[i]
    ensures forall x, y :: x in result && y in result && result[x] == result[y] ==> Connected(snap, x, y)
  {
    forall x, y | x in result && y in result && result[x] == result[y]
      ensures Connected(snap, x, y)
    {
      var i :| 0 <= i < |orig| && snap.nodeIds[i] == x && result[x] == orig[i];
      var j :| 0 <= j < |orig| && snap.nodeIds[j] == y && result[y] == orig[j];
      assert Base(snap)[i] == Base(snap)[j];
      ComponentConnects(snap, x, y);
    }
  }
}
