/** GetTopologicalSort: Kahn's algorithm over the stored outbound edges. */
module TopologicalSort {
  import opened Graphs
  import opened Ordering
  import opened TarjanMachine
  import opened Scc

  /** One stored edge: the source it is stored under and its position there. */
  type Slot = (Id, nat)

  ghost function Slots(g: Adjacency): set<Slot> {
    set s, k | s in g && 0 <= k < |g[s]| :: (s, k)
  }

  ghost predicate IsSlot(g: Adjacency, p: Slot) { p.0 in g && p.1 < |g[p.0]| }

  ghost function Target(g: Adjacency, p: Slot): Id
    requires IsSlot(g, p)
  {
    g[p.0][p.1].target
  }

  ghost function Into(g: Adjacency, left: set<Slot>, y: Id): set<Slot> {
    set p | p in left && IsSlot(g, p) && Target(g, p) == y
  }

  /** The degree table counts the edges in `left`. */
  ghost predicate Counts(g: Adjacency, left: set<Slot>, degree: map<Id, int>) {
    forall y :: y in degree ==> degree[y] == |Into(g, left, y)|
  }

  lemma IntoLess(g: Adjacency, left: set<Slot>, p: Slot, y: Id)
    requires IsSlot(g, p) && p in left
    ensures |Into(g, left - {p}, y)| == |Into(g, left, y)| - if Target(g, p) == y then 1 else 0
  {
    if Target(g, p) == y {
      assert Into(g, left, y) == Into(g, left - {p}, y) + {p};
    } else {
      assert Into(g, left - {p}, y) == Into(g, left, y);
    }
  }

  lemma CountsLess(g: Adjacency, left: set<Slot>, degree: map<Id, int>, p: Slot)
    requires Counts(g, left, degree) && IsSlot(g, p) && p in left && Target(g, p) in degree
    ensures Counts(g, left - {p}, degree[Target(g, p) := degree[Target(g, p)] - 1])
    ensures degree[Target(g, p)] > 0
  {
    assert p in Into(g, left, Target(g, p));
    forall y | y in degree
      ensures |Into(g, left - {p}, y)| == |Into(g, left, y)| - if Target(g, p) == y then 1 else 0
    {
      IntoLess(g, left, p, y);
    }
  }

  lemma CountsMore(g: Adjacency, left: set<Slot>, degree: map<Id, int>, p: Slot)
    requires Counts(g, left, degree) && IsSlot(g, p) && p !in left && (Target(g, p) !in degree ==> Into(g, left, Target(g, p)) == {})
    ensures Counts(g, left + {p}, degree[Target(g, p) := (if Target(g, p) in degree then degree[Target(g, p)] else 0) + 1])
  {
    forall y
      ensures |Into(g, left + {p}, y)| == |Into(g, left, y)| + if Target(g, p) == y then 1 else 0
    {
      IntoLess(g, left + {p}, p, y);
      assert left + {p} - {p} == left;
    }
  }

  ghost function TargetsOf(g: Adjacency, left: set<Slot>): set<Id> {
    set p | p in left && IsSlot(g, p) :: Target(g, p)
  }

  ghost function SlotsOf(s: Id, n: nat): set<Slot> { set k | 0 <= k < n :: (s, k) }

  lemma TargetsMore(g: Adjacency, left: set<Slot>, p: Slot)
    requires IsSlot(g, p)
    ensures TargetsOf(g, left + {p}) == TargetsOf(g, left) + {Target(g, p)}
  {
  }

  lemma OneMoreSlot(g: Adjacency, left: set<Slot>, s: Id, k: nat)
    requires s in g && k < |g[s]| && forall p :: p in left ==> p.0 != s
    ensures left + SlotsOf(s, k + 1) == left + SlotsOf(s, k) + {(s, k)} && (s, k) !in left + SlotsOf(s, k)
    ensures IsSlot(g, (s, k)) && Target(g, (s, k)) == g[s][k].target
  {
  }

  lemma NoTargetNoEdge(g: Adjacency, left: set<Slot>, t: Id)
    requires t !in TargetsOf(g, left)
    ensures Into(g, left, t) == {}
  {
  }

  /** The callback of the first pass: the edges of one source. */
  method CountSource(g: Adjacency, s: Id, degree: map<Id, int>, nodeIds: set<Id>, ghost left: set<Slot>) returns (degree': map<Id, int>)
    requires s in g && Counts(g, left, degree) && degree.Keys == nodeIds + TargetsOf(g, left)
    requires forall p :: p in left ==> p.0 != s
    ensures Counts(g, left + SlotsOf(s, |g[s]|), degree') && degree'.Keys == nodeIds + TargetsOf(g, left + SlotsOf(s, |g[s]|))
  {
    degree' := degree;
    assert left + SlotsOf(s, 0) == left;
    hide *;
    for k := 0 to |g[s]|
      invariant Counts(g, left + SlotsOf(s, k), degree') && degree'.Keys == nodeIds + TargetsOf(g, left + SlotsOf(s, k))
    {
      ghost var now := left + SlotsOf(s, k);
      var t := g[s][k].target;
      OneMoreSlot(g, left, s, k);
      TargetsMore(g, now, (s, k));
      if t !in degree' {
        NoTargetNoEdge(g, now, t);
      }
      CountsMore(g, now, degree', (s, k));
      degree' := degree'[t := (if t in degree' then degree'[t] else 0) + 1];
    }
  }

  /** The slots of the sources in `keys`. */
  ghost function SlotsIn(g: Adjacency, keys: set<Id>): set<Slot> {
    set s, k | s in g && s in keys && 0 <= k < |g[s]| :: (s, k)
  }

  /** The first pass: every node starts at zero, every stored edge counts its target. */
  method InDegrees(nodeIds: set<Id>, g: Adjacency) returns (degree: map<Id, int>)
    ensures Counts(g, Slots(g), degree) && degree.Keys == nodeIds + TargetsOf(g, Slots(g))
  {
    degree := map id | id in nodeIds :: 0;
    var rest := g.Keys;
    ghost var done: set<Id> := {};
    while rest != {}
      invariant rest !! done && rest + done == g.Keys
      invariant Counts(g, SlotsIn(g, done), degree) && degree.Keys == nodeIds + TargetsOf(g, SlotsIn(g, done))
    {
      var s :| s in rest;
      assert SlotsIn(g, done + {s}) == SlotsIn(g, done) + SlotsOf(s, |g[s]|);
      assert forall p :: p in SlotsIn(g, done) ==> p.0 != s;
      hide *;
      degree := CountSource(g, s, degree, nodeIds, SlotsIn(g, done));
      rest, done := rest - {s}, done + {s};
    }
    assert SlotsIn(g, done) == Slots(g);
  }

  /* ---- the main loop ---- */

  /** The edges whose source has not been output. */
  ghost function Left(g: Adjacency, sorted: seq<Id>): set<Slot> {
    set p | p in Slots(g) && p.0 !in sorted
  }

  /** What is output or queued is exactly what has no edge left to wait for. */
  ghost predicate Ready(degree: map<Id, int>, sorted: seq<Id>, queue: seq<Id>) {
    Distinct(sorted + queue) && (forall y :: y in sorted + queue <==> y in degree && degree[y] == 0)
  }

  /** Every source of an edge into an output node was output before it. */
  ghost predicate SourcesFirst(g: Adjacency, sorted: seq<Id>) {
    forall p, j :: p in Slots(g) && 0 <= j < |sorted| && Target(g, p) == sorted[j] ==> p.0 in sorted[..j]
  }

  lemma NothingWaits(g: Adjacency, left: set<Slot>, degree: map<Id, int>, y: Id, p: Slot)
    requires Counts(g, left, degree) && y in degree && degree[y] == 0 && IsSlot(g, p) && Target(g, p) == y
    ensures p !in left
  {
    assert Into(g, left, y) == {};
    assert p in left ==> p in Into(g, left, y);
  }

  lemma OutputNext(g: Adjacency, degree: map<Id, int>, sorted: seq<Id>, queue: seq<Id>)
    requires Counts(g, Left(g, sorted), degree) && Ready(degree, sorted, queue) && queue != [] && SourcesFirst(g, sorted)
    ensures SourcesFirst(g, sorted + [queue[0]])
  {
    var curr := queue[0];
    assert curr in sorted + queue;
    forall p, j | p in Slots(g) && 0 <= j < |sorted + [curr]| && Target(g, p) == (sorted + [curr])[j]
      ensures p.0 in (sorted + [curr])[..j]
    {
      if j == |sorted| {
        NothingWaits(g, Left(g, sorted), degree, curr, p);
        assert (sorted + [curr])[..j] == sorted;
      } else {
        assert p.0 in sorted[..j] && (sorted + [curr])[..j] == sorted[..j];
      }
    }
  }

  /** What is left after the first `k` edges of `curr`. */
  ghost function LeftAfter(g: Adjacency, sorted: seq<Id>, curr: Id, k: nat): set<Slot> { Left(g, sorted) - SlotsOf(curr, k) }

  lemma OneLessSlot(g: Adjacency, sorted: seq<Id>, curr: Id, k: nat)
    requires curr !in sorted && k < |Edges(g, curr)|
    ensures LeftAfter(g, sorted, curr, k + 1) == LeftAfter(g, sorted, curr, k) - {(curr, k)} && (curr, k) in LeftAfter(g, sorted, curr, k)
    ensures IsSlot(g, (curr, k)) && Target(g, (curr, k)) == Edges(g, curr)[k].target && (curr, k) in Slots(g)
  {
  }

  lemma AllTaken(g: Adjacency, sorted: seq<Id>, curr: Id)
    ensures LeftAfter(g, sorted, curr, 0) == Left(g, sorted)
    ensures LeftAfter(g, sorted, curr, |Edges(g, curr)|) == Left(g, sorted + [curr])
  {
  }

  /** The inner loop: the edges of the node just output are taken off their targets. */
  method Relax(g: Adjacency, sorted: seq<Id>, curr: Id, degree: map<Id, int>, queue: seq<Id>) returns (degree': map<Id, int>, queue': seq<Id>)
    requires curr !in sorted && Counts(g, Left(g, sorted), degree) && Ready(degree, sorted + [curr], queue)
    requires forall p :: p in Slots(g) ==> Target(g, p) in degree
    ensures Counts(g, Left(g, sorted + [curr]), degree') && Ready(degree', sorted + [curr], queue') && degree'.Keys == degree.Keys
  {
    degree', queue' := degree, queue;
    AllTaken(g, sorted, curr);
    hide *;
    for k := 0 to |Edges(g, curr)|
      invariant Counts(g, LeftAfter(g, sorted, curr, k), degree') && Ready(degree', sorted + [curr], queue') && degree'.Keys == degree.Keys
    {
      var t := Edges(g, curr)[k].target;
      OneLessSlot(g, sorted, curr, k);
      CountsLess(g, LeftAfter(g, sorted, curr, k), degree', (curr, k));
      ReadyLess(degree', sorted + [curr], queue', t);
      degree' := degree'[t := degree'[t] - 1];
      if degree'[t] == 0 {
        queue' := queue' + [t];
      }
    }
  }

  lemma ReadyLess(degree: map<Id, int>, sorted: seq<Id>, queue: seq<Id>, t: Id)
    requires Ready(degree, sorted, queue) && t in degree && degree[t] > 0
    ensures Ready(degree[t := degree[t] - 1], sorted, if degree[t] == 1 then queue + [t] else queue)
  {
    assert sorted + (queue + [t]) == sorted + queue + [t];
    assert t !in sorted + queue;
  }

  /** `sorted` lists the nodes once each, every edge pointing forward. */
  ghost predicate IsTopologicalOrder(g: Adjacency, nodes: set<Id>, sorted: seq<Id>) {
    Distinct(sorted) && (forall x :: x in sorted <==> x in nodes)
    && forall x, y :: HasEdge(g, x, y) ==> Before(sorted, x, y)
  }

  ghost predicate Before(sorted: seq<Id>, x: Id, y: Id) {
    exists i, j :: 0 <= i < j < |sorted| && sorted[i] == x && sorted[j] == y
  }

  /** Both endpoints of every stored edge are nodes. */
  ghost predicate EndsIn(g: Adjacency, nodes: set<Id>) {
    forall p :: p in Slots(g) ==> p.0 in nodes && Target(g, p) in nodes
  }

  /** Some node can be left and reached again along at least one edge. */
  ghost predicate HasCycle(g: Adjacency) {
    exists x, y :: HasEdge(g, x, y) && Reach(g, y, x)
  }

  /** Collect the nodes without incoming edges, in any order. */
  method StartQueue(degree: map<Id, int>) returns (queue: seq<Id>)
    ensures Ready(degree, [], queue)
  {
    queue := [];
    var rest := degree.Keys;
    while rest != {}
      invariant rest <= degree.Keys && Distinct(queue)
      invariant forall y :: y in queue <==> y in degree && y !in rest && degree[y] == 0
    {
      var id :| id in rest;
      rest := rest - {id};
      if degree[id] == 0 {
        queue := queue + [id];
      }
    }
    assert [] + queue == queue;
  }

  lemma StartLeft(g: Adjacency, nodeIds: set<Id>, degree: map<Id, int>)
    requires degree.Keys == nodeIds + TargetsOf(g, Slots(g))
    ensures Left(g, []) == Slots(g) && SourcesFirst(g, []) && forall p :: p in Slots(g) ==> Target(g, p) in degree
  {
    assert Left(g, []) == Slots(g);
  }

  lemma Dequeue(degree: map<Id, int>, sorted: seq<Id>, queue: seq<Id>)
    requires Ready(degree, sorted, queue) && queue != []
    ensures queue[0] !in sorted && Ready(degree, sorted + [queue[0]], queue[1..])
  {
    assert sorted + [queue[0]] + queue[1..] == sorted + queue;
    assert forall i :: 0 <= i < |sorted| ==> (sorted + queue)[i] == sorted[i];
    assert (sorted + queue)[|sorted|] == queue[0];
  }

  lemma OutputFits(degree: map<Id, int>, sorted: seq<Id>)
    requires Distinct(sorted) && forall y :: y in sorted ==> y in degree
    ensures |sorted| <= |degree.Keys|
  {
    DistinctSize(sorted);
    var s := set y | y in sorted;
    assert s <= degree.Keys;
    SubsetSize(s, degree.Keys);
  }

  lemma DistinctSize(sorted: seq<Id>)
    requires Distinct(sorted)
    ensures |set y | y in sorted| == |sorted|
  {
    if sorted != [] {
      var rest, last := sorted[..|sorted| - 1], sorted[|sorted| - 1];
      DistinctSize(rest);
      assert (set y | y in sorted) == (set y | y in rest) + {last};
    }
  }

  lemma SubsetSize(a: set<Id>, b: set<Id>)
    requires a <= b
    ensures |a| <= |b|
  {
    if a != {} {
      var x :| x in a;
      SubsetSize(a - {x}, b - {x});
    }
  }

  lemma ReadyFits(degree: map<Id, int>, sorted: seq<Id>, queue: seq<Id>)
    requires Ready(degree, sorted, queue)
    ensures |sorted| + |queue| <= |degree.Keys|
  {
    OutputFits(degree, sorted + queue);
  }

  /** The algorithm up to its verdict. */
  method Kahn(nodeIds: set<Id>, g: Adjacency) returns (sorted: seq<Id>, ghost degree': map<Id, int>)
    ensures Counts(g, Left(g, sorted), degree') && Ready(degree', sorted, []) && SourcesFirst(g, sorted)
    ensures degree'.Keys == nodeIds + TargetsOf(g, Slots(g))
  {
    var degree := InDegrees(nodeIds, g);
    StartLeft(g, nodeIds, degree);
    var queue := StartQueue(degree);
    sorted := [];
    hide *;
    while |queue| > 0
      invariant Counts(g, Left(g, sorted), degree) && Ready(degree, sorted, queue) && SourcesFirst(g, sorted)
      invariant degree.Keys == nodeIds + TargetsOf(g, Slots(g)) && forall p :: p in Slots(g) ==> Target(g, p) in degree
      decreases |degree.Keys| - |sorted|
    {
      var curr := queue[0];
      ReadyFits(degree, sorted, queue);
      OutputNext(g, degree, sorted, queue);
      Dequeue(degree, sorted, queue);
      degree, queue := Relax(g, sorted, curr, degree, queue[1..]);
      sorted := sorted + [curr];
    }
    assert queue == [];
    degree' := degree;
  }

  /* ---- the verdict ---- */

  lemma SlotEdge(g: Adjacency, x: Id, y: Id)
    ensures HasEdge(g, x, y) <==> exists p :: p in Slots(g) && p.0 == x && Target(g, p) == y
  {
    if HasEdge(g, x, y) {
      var k :| 0 <= k < |Edges(g, x)| && Edges(g, x)[k].target == y;
      assert (x, k) in Slots(g) && Target(g, (x, k)) == y;
    }
    if p :| p in Slots(g) && p.0 == x && Target(g, p) == y {
      assert Edges(g, x)[p.1].target == y;
    }
  }

  /** A node that is never output waits for another node that is never output. */
  lemma WaitsFor(g: Adjacency, nodes: set<Id>, sorted: seq<Id>, degree: map<Id, int>, y: Id) returns (x: Id)
    requires Counts(g, Left(g, sorted), degree) && Ready(degree, sorted, []) && EndsIn(g, nodes) && nodes <= degree.Keys
    requires y in nodes && y !in sorted
    ensures x in nodes && x !in sorted && HasEdge(g, x, y)
  {
    assert sorted + [] == sorted;
    assert degree[y] != 0 && degree[y] == |Into(g, Left(g, sorted), y)|;
    var p :| p in Into(g, Left(g, sorted), y);
    x := p.0;
    SlotEdge(g, x, y);
  }

  /** `x` lies at least one edge before `y`. */
  ghost predicate Precedes(g: Adjacency, x: Id, y: Id) { exists z :: HasEdge(g, x, z) && Reach(g, z, y) }

  ghost function Predecessors(g: Adjacency, nodes: set<Id>, y: Id): set<Id> { set x | x in nodes && Precedes(g, x, y) }

  /** Walking back from a node that waits must run into a cycle, as predecessor sets cannot shrink
      forever. */
  lemma {:induction false} WaitingIsCyclic(g: Adjacency, nodes: set<Id>, sorted: seq<Id>, degree: map<Id, int>, y: Id)
    requires Counts(g, Left(g, sorted), degree) && Ready(degree, sorted, []) && EndsIn(g, nodes) && nodes <= degree.Keys
    requires y in nodes && y !in sorted
    ensures HasCycle(g)
    decreases |Predecessors(g, nodes, y)|
  {
    var x := WaitsFor(g, nodes, sorted, degree, y);
    hide Counts, Left, Ready, EndsIn, Reach;
    if Precedes(g, x, x) {
      var z :| HasEdge(g, x, z) && Reach(g, z, x);
    } else {
      ReachRefl(g, y);
      assert Precedes(g, x, y);
      forall u | Precedes(g, u, x)
        ensures Precedes(g, u, y)
      {
        var z :| HasEdge(g, u, z) && Reach(g, z, x);
        ReachStep(g, z, x, y);
      }
      assert x in Predecessors(g, nodes, y) && x !in Predecessors(g, nodes, x);
      SubsetSize(Predecessors(g, nodes, x), Predecessors(g, nodes, y) - {x});
      WaitingIsCyclic(g, nodes, sorted, degree, x);
    }
  }

  lemma OrderFromSources(g: Adjacency, nodes: set<Id>, sorted: seq<Id>)
    requires SourcesFirst(g, sorted) && Distinct(sorted) && EndsIn(g, nodes) && forall x :: x in sorted <==> x in nodes
    ensures IsTopologicalOrder(g, nodes, sorted)
  {
    forall x, y | HasEdge(g, x, y)
      ensures Before(sorted, x, y)
    {
      SlotEdge(g, x, y);
      var p :| p in Slots(g) && p.0 == x && Target(g, p) == y;
      assert y in sorted;
      var j :| 0 <= j < |sorted| && sorted[j] == y;
      assert p.0 in sorted[..j];
      var i :| 0 <= i < j && sorted[..j][i] == x;
      assert sorted[i] == x;
    }
  }

  lemma {:induction false} ReachForward(g: Adjacency, nodes: set<Id>, sorted: seq<Id>, x: Id, n: nat, y: Id, i: nat)
    requires IsTopologicalOrder(g, nodes, sorted) && ReachIn(g, n, x, y) && i < |sorted| && sorted[i] == x
    ensures exists j :: i <= j < |sorted| && sorted[j] == y
  {
    if n > 0 {
      var z :| ReachIn(g, n - 1, x, z) && HasEdge(g, z, y);
      ReachForward(g, nodes, sorted, x, n - 1, z, i);
      var j :| i <= j < |sorted| && sorted[j] == z;
      assert Before(sorted, z, y);
      var a, b :| 0 <= a < b < |sorted| && sorted[a] == z && sorted[b] == y;
      assert a == j;
    }
  }

  lemma OrderIsAcyclic(g: Adjacency, nodes: set<Id>, sorted: seq<Id>)
    requires IsTopologicalOrder(g, nodes, sorted)
    ensures !HasCycle(g)
  {
    if x, y :| HasEdge(g, x, y) && Reach(g, y, x) {
      assert Before(sorted, x, y);
      var i, j :| 0 <= i < j < |sorted| && sorted[i] == x && sorted[j] == y;
      var n: nat :| ReachIn(g, n, y, x);
      ReachForward(g, nodes, sorted, y, n, x, j);
      assert false;
    }
  }

  lemma OutputIsWithin(g: Adjacency, nodes: set<Id>, sorted: seq<Id>, degree: map<Id, int>)
    requires Ready(degree, sorted, []) && degree.Keys == nodes + TargetsOf(g, Slots(g)) && EndsIn(g, nodes)
    ensures degree.Keys == nodes && Distinct(sorted) && (forall x :: x in sorted ==> x in nodes)
    ensures |sorted| == |nodes| <==> forall x :: x in nodes ==> x in sorted
  {
    assert sorted + [] == sorted;
    assert TargetsOf(g, Slots(g)) <= nodes;
    assert degree.Keys == nodes;
    hide TargetsOf, Slots, EndsIn;
    OutputSize(nodes, sorted);
  }

  lemma OutputSize(nodes: set<Id>, sorted: seq<Id>)
    requires Distinct(sorted) && forall x :: x in sorted ==> x in nodes
    ensures |sorted| == |nodes| <==> forall x :: x in nodes ==> x in sorted
  {
    var s := set x | x in sorted;
    DistinctSize(sorted);
    assert s <= nodes;
    SameSize(s, nodes);
  }

  lemma SameSize(a: set<Id>, b: set<Id>)
    requires a <= b
    ensures |a| == |b| <==> a == b
  {
    assert b == a + (b - a);
  }

  lemma Verdict(g: Adjacency, nodes: set<Id>, sorted: seq<Id>, degree: map<Id, int>)
    requires Counts(g, Left(g, sorted), degree) && Ready(degree, sorted, []) && SourcesFirst(g, sorted)
    requires degree.Keys == nodes + TargetsOf(g, Slots(g)) && EndsIn(g, nodes)
    ensures |sorted| == |nodes| <==> !HasCycle(g)
    ensures |sorted| == |nodes| ==> IsTopologicalOrder(g, nodes, sorted)
  {
    OutputIsWithin(g, nodes, sorted, degree);
    hide Counts, Left, Ready, SourcesFirst, EndsIn, TargetsOf, Slots, IsTopologicalOrder, HasCycle, Distinct;
    if |sorted| == |nodes| {
      OrderFromSources(g, nodes, sorted);
      OrderIsAcyclic(g, nodes, sorted);
    } else {
      var y :| y in nodes && y !in sorted;
      WaitingIsCyclic(g, nodes, sorted, degree, y);
    }
  }

  /** GetTopologicalSort. Without dangling edges it succeeds exactly on acyclic graphs, and then lists
      every node once with every edge pointing forward. */
  method GetTopologicalSort(nodeIds: set<Id>, g: Adjacency) returns (sorted: seq<Id>, ok: bool)
    ensures EndsIn(g, nodeIds) ==> (ok <==> !HasCycle(g))
    ensures EndsIn(g, nodeIds) && ok ==> IsTopologicalOrder(g, nodeIds, sorted)
  {
    ghost var degree;
    sorted, degree := Kahn(nodeIds, g);
    ok := |sorted| == |nodeIds|;
    hide *;
    if EndsIn(g, nodeIds) {
      Verdict(g, nodeIds, sorted, degree);
    }
  }

  /* ---- agreement with the cycle report ---- */

  lemma {:induction false} FirstEdge(g: Adjacency, n: nat, x: Id, y: Id) returns (z: Id)
    requires ReachIn(g, n, x, y) && x != y
    ensures HasEdge(g, x, z) && Reach(g, z, y)
  {
    var u :| ReachIn(g, n - 1, x, u) && HasEdge(g, u, y);
    if u == x {
      z := y;
      ReachRefl(g, y);
    } else {
      z := FirstEdge(g, n - 1, x, u);
      ReachStep(g, z, u, y);
    }
  }

  /** A cycle in the sense of this module is a self-loop or a cycle through two nodes. */
  lemma CyclesAre(g: Adjacency)
    ensures HasCycle(g) <==> (exists x :: HasEdge(g, x, x)) || (exists x :: OnCycle(g, x))
  {
    if x, y :| HasEdge(g, x, y) && Reach(g, y, x) {
      if x != y {
        ReachEdge(g, x, y);
        assert OnCycle(g, x);
      }
    }
    if x :| HasEdge(g, x, x) {
      ReachRefl(g, x);
    }
    if x :| OnCycle(g, x) {
      var y :| y != x && Reach(g, x, y) && Reach(g, y, x);
      var n: nat :| ReachIn(g, n, x, y);
      var z := FirstEdge(g, n, x, y);
      ReachTrans(g, z, y, x);
      assert HasEdge(g, x, z) && Reach(g, z, x);
    }
  }

  /** Kahn's sort succeeds exactly when recursive Tarjan reports nothing and no node points at itself. */
  lemma SortAgreesWithCycles(g: Adjacency, nodes: set<Id>, cycles: seq<seq<Id>>)
    requires EndsIn(g, nodes) && IsCycleReport(g, nodes, cycles)
    ensures HasCycle(g) <==> cycles != [] || exists x :: HasEdge(g, x, x)
  {
    hide Reach, IsScc;
    CyclesAre(g);
    if cycles != [] {
      assert |cycles[0]| > 1 && Listed(cycles, cycles[0][0]);
    }
    if x :| OnCycle(g, x) {
      CycleStartsIn(g, nodes, x);
      ReachRefl(g, x);
      assert ReachableFrom(g, nodes, x) && Listed(cycles, x);
    }
  }

  lemma CycleStartsIn(g: Adjacency, nodes: set<Id>, x: Id)
    requires EndsIn(g, nodes) && OnCycle(g, x)
    ensures x in nodes
  {
    var y :| y != x && Reach(g, x, y) && Reach(g, y, x);
    var n: nat :| ReachIn(g, n, x, y);
    var z := FirstEdge(g, n, x, y);
    SlotEdge(g, x, z);
  }
}
