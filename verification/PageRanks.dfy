/** PageRank over the reals: redistributed dangling mass and propagated mass balance. */
module PageRanks {
  import opened Graphs
  import opened Ordering
  import opened AkgStore
  import opened DeltaEdges
  import opened Scc

  ghost function Sum(ids: seq<Id>, f: map<Id, real>): real
    requires forall id :: id in ids ==> id in f
  {
    if ids == [] then 0.0 else Sum(ids[..|ids| - 1], f) + f[ids[|ids| - 1]]
  }

  /** What the edges carry, each the share of its source. */
  ghost function Carried(edges: seq<Edge>, share: map<Id, real>): real {
    if edges == [] then 0.0 else Carried(edges[..|edges| - 1], share) + ShareOf(share, edges[|edges| - 1].source)
  }

  ghost function ShareOf(share: map<Id, real>, s: Id): real { if s in share then share[s] else 0.0 }

  ghost function CarriedIn(edges: multiset<Edge>, share: map<Id, real>): real {
    if edges == multiset{} then 0.0
    else
      var e :| e in edges;
      ShareOf(share, e.source) + CarriedIn(edges - multiset{e}, share)
  }

  lemma {:induction false} CarriedOne(edges: multiset<Edge>, share: map<Id, real>, e: Edge)
    requires e in edges
    ensures CarriedIn(edges, share) == ShareOf(share, e.source) + CarriedIn(edges - multiset{e}, share)
    decreases |edges|
  {
    var e0 :| e0 in edges && CarriedIn(edges, share) == ShareOf(share, e0.source) + CarriedIn(edges - multiset{e0}, share);
    if e != e0 {
      assert edges - multiset{e0} - multiset{e} == edges - multiset{e} - multiset{e0};
      hide *;
      CarriedOne(edges - multiset{e0}, share, e);
      CarriedOne(edges - multiset{e}, share, e0);
    }
  }

  lemma {:induction false} CarriedBoth(a: multiset<Edge>, b: multiset<Edge>, share: map<Id, real>)
    ensures CarriedIn(a + b, share) == CarriedIn(a, share) + CarriedIn(b, share)
    decreases |b|
  {
    if b == multiset{} {
      assert a + b == a;
    } else {
      var e :| e in b;
      CarriedOne(a + b, share, e);
      CarriedOne(b, share, e);
      assert a + b - multiset{e} == a + (b - multiset{e});
      CarriedBoth(a, b - multiset{e}, share);
    }
  }

  lemma {:induction false} CarriedAsMultiset(edges: seq<Edge>, share: map<Id, real>)
    ensures Carried(edges, share) == CarriedIn(multiset(edges), share)
  {
    if edges != [] {
      var rest, e := edges[..|edges| - 1], edges[|edges| - 1];
      assert edges == rest + [e];
      CarriedAsMultiset(rest, share);
      CarriedOne(multiset(edges), share, e);
      assert multiset(edges) - multiset{e} == multiset(rest);
    }
  }

  ghost function CarriedAt(ids: seq<Id>, g: Adjacency, share: map<Id, real>): real {
    if ids == [] then 0.0 else CarriedAt(ids[..|ids| - 1], g, share) + Carried(Edges(g, ids[|ids| - 1]), share)
  }

  /** Summing over the keys of a view, whichever way its edges are filed, counts every edge once. */
  lemma {:induction false} CarriedOverall(ids: seq<Id>, g: Adjacency, share: map<Id, real>)
    requires Distinct(ids) && forall s :: s in g ==> s in ids
    ensures CarriedAt(ids, g, share) == CarriedIn(AllEdges(g), share)
  {
    hide AllEdges, CarriedIn;
    if ids == [] {
      assert g == map[];
      NoneCarried(share);
    } else {
      var rest, s := ids[..|ids| - 1], ids[|ids| - 1];
      CarriedOverall(rest, g - {s}, share);
      SameElsewhere(rest, g, s, share);
      CarriedAsMultiset(Edges(g, s), share);
      if s in g {
        AllEdgesSplit(g, s);
        CarriedBoth(multiset(g[s]), AllEdges(g - {s}), share);
      } else {
        assert g - {s} == g;
        NoneCarried(share);
        assert multiset(Edges(g, s)) == multiset{};
      }
    }
  }

  lemma NoneCarried(share: map<Id, real>)
    ensures CarriedIn(multiset{}, share) == 0.0 && CarriedIn(AllEdges(map[]), share) == 0.0
  {
  }

  lemma {:induction false} SameElsewhere(ids: seq<Id>, g: Adjacency, s: Id, share: map<Id, real>)
    requires s !in ids
    ensures CarriedAt(ids, g - {s}, share) == CarriedAt(ids, g, share)
  {
    if ids != [] {
      SameElsewhere(ids[..|ids| - 1], g, s, share);
    }
  }

  /** The shares that leave along the outbound edges arrive along the inbound edges. */
  lemma MassArrives(ids: seq<Id>, outbound: Adjacency, inbound: Adjacency, share: map<Id, real>)
    requires Distinct(ids) && (forall s :: s in outbound ==> s in ids) && (forall t :: t in inbound ==> t in ids)
    requires AllEdges(inbound) == AllEdges(outbound)
    ensures CarriedAt(ids, inbound, share) == CarriedAt(ids, outbound, share)
  {
    CarriedOverall(ids, inbound, share);
    CarriedOverall(ids, outbound, share);
  }

  /* ---- one iteration ---- */

  /** What each out-edge of `s` passes on: nothing if `s` has none. */
  ghost function Shares(ids: seq<Id>, degree: map<Id, nat>, ranks: map<Id, real>, damping: real): map<Id, real>
    requires forall id :: id in ids ==> id in ranks && id in degree
  {
    map id | id in ids :: if degree[id] > 0 then damping * (ranks[id] / degree[id] as real) else 0.0
  }

  /** The nodes without out-edges lose their mass to everybody. */
  ghost function Stuck(ids: seq<Id>, degree: map<Id, nat>, ranks: map<Id, real>): real
    requires forall id :: id in ids ==> id in ranks && id in degree
  {
    if ids == [] then 0.0
    else
      var rest, id := ids[..|ids| - 1], ids[|ids| - 1];
      assert id in ids;
      Stuck(rest, degree, ranks) + if degree[id] == 0 then ranks[id] else 0.0
  }

  method DanglingSum(ids: seq<Id>, degree: map<Id, nat>, ranks: map<Id, real>) returns (sum: real)
    requires forall id :: id in ids ==> id in ranks && id in degree
    ensures sum == Stuck(ids, degree, ranks)
  {
    sum := 0.0;
    for i := 0 to |ids|
      invariant sum == Stuck(ids[..i], degree, ranks)
    {
      assert ids[..i + 1][..i] == ids[..i] && ids[i] in ids;
      if degree[ids[i]] == 0 {
        sum := sum + ranks[ids[i]];
      }
    }
    assert ids[..|ids|] == ids;
  }

  lemma CarriedMore(edges: seq<Edge>, i: nat, share: map<Id, real>)
    requires i < |edges|
    ensures Carried(edges[..i + 1], share) == Carried(edges[..i], share) + ShareOf(share, edges[i].source)
  {
    assert edges[..i + 1][..i] == edges[..i];
  }

  /** The callback of one iteration: the new rank of one node. An edge whose source is unknown or has
      no out-edges brings nothing. */
  method NewRank(base: real, incoming: seq<Edge>, ids: seq<Id>, degree: map<Id, nat>, ranks: map<Id, real>, damping: real) returns (rank: real)
    requires forall id :: id in ids ==> id in ranks && id in degree
    requires forall id :: id in degree ==> id in ids
    ensures rank == base + Carried(incoming, Shares(ids, degree, ranks, damping))
  {
    ghost var share := Shares(ids, degree, ranks, damping);
    rank := base;
    for k := 0 to |incoming|
      invariant rank == base + Carried(incoming[..k], share)
    {
      var e := incoming[k];
      CarriedMore(incoming, k, share);
      if e.source in degree && degree[e.source] > 0 {
        rank := rank + damping * (ranks[e.source] / degree[e.source] as real);
      }
    }
    assert incoming[..|incoming|] == incoming;
  }

  /** What every node gets in an iteration, whatever its edges. */
  ghost function Base(n: nat, damping: real, danglingSum: real): real
    requires n > 0
  {
    (1.0 - damping) / n as real + damping * danglingSum / n as real
  }

  lemma BaseIs(n: nat, damping: real, danglingSum: real, danglingContrib: real, base: real)
    requires n > 0 && danglingContrib == damping * danglingSum / n as real && base == (1.0 - damping) / n as real + danglingContrib
    ensures base == Base(n, damping, danglingSum)
  {
  }

  /** A rank for each of `ids`, and for nothing else. */
  ghost predicate Ranks(ids: seq<Id>, ranks: map<Id, real>) { forall id :: id in ranks <==> id in ids }

  lemma RanksMore(ids: seq<Id>, i: nat, ranks: map<Id, real>, rank: real)
    requires i < |ids| && Ranks(ids[..i], ranks)
    ensures Ranks(ids[..i + 1], ranks[ids[i] := rank])
  {
    assert ids[..i + 1] == ids[..i] + [ids[i]];
  }

  /** One iteration as a relation. */
  ghost predicate Iterated(ids: seq<Id>, inbound: Adjacency, share: map<Id, real>, base: real, ranks': map<Id, real>) {
    forall id :: id in ids ==> id in ranks' && ranks'[id] == base + Carried(Edges(inbound, id), share)
  }

  method Iterate(ids: seq<Id>, inbound: Adjacency, degree: map<Id, nat>, ranks: map<Id, real>, damping: real) returns (ranks': map<Id, real>)
    requires ids != [] && Ranks(ids, ranks) && forall id :: id in degree <==> id in ids
    ensures Iterated(ids, inbound, Shares(ids, degree, ranks, damping), Base(|ids|, damping, Stuck(ids, degree, ranks)), ranks')
    ensures Ranks(ids, ranks')
  {
    var danglingSum := DanglingSum(ids, degree, ranks);
    var danglingContrib := damping * danglingSum / |ids| as real;
    var base := (1.0 - damping) / |ids| as real + danglingContrib;
    BaseIs(|ids|, damping, danglingSum, danglingContrib, base);
    ghost var share := Shares(ids, degree, ranks, damping);
    ranks' := map[];
    assert Ranks([], map[]);
    hide *;
    for i := 0 to |ids|
      invariant Iterated(ids[..i], inbound, share, base, ranks') && Ranks(ids[..i], ranks')
    {
      var rank := NewRank(base, Edges(inbound, ids[i]), ids, degree, ranks, damping);
      IteratedMore(ids, i, inbound, share, base, ranks', rank);
      RanksMore(ids, i, ranks', rank);
      ranks' := ranks'[ids[i] := rank];
    }
    assert ids[..|ids|] == ids;
  }

  lemma IteratedMore(ids: seq<Id>, i: nat, inbound: Adjacency, share: map<Id, real>, base: real, ranks': map<Id, real>, rank: real)
    requires i < |ids| && Iterated(ids[..i], inbound, share, base, ranks') && rank == base + Carried(Edges(inbound, ids[i]), share)
    ensures Iterated(ids[..i + 1], inbound, share, base, ranks'[ids[i] := rank])
  {
    hide Carried;
    assert ids[..i + 1] == ids[..i] + [ids[i]];
  }

  /* ---- the balance ---- */

  /** `r` added up `n` times. */
  ghost function Times(n: nat, r: real): real { n as real * r }

  lemma TimesMore(n: nat, r: real)
    ensures Times(0, r) == 0.0 && Times(n + 1, r) == Times(n, r) + r
  {
  }

  lemma {:induction false} CarriedBySource(edges: seq<Edge>, share: map<Id, real>, s: Id)
    requires forall e :: e in edges ==> e.source == s
    ensures Carried(edges, share) == Times(|edges|, ShareOf(share, s))
  {
    hide Times;
    TimesMore(|edges|, ShareOf(share, s));
    if edges != [] {
      var rest, e := edges[..|edges| - 1], edges[|edges| - 1];
      assert e in edges;
      CarriedBySource(rest, share, s);
      TimesMore(|rest|, ShareOf(share, s));
    }
  }

  /** A node passes on its damped rank, if it has out-edges to pass it along. */
  lemma PassedOn(ids: seq<Id>, degree: map<Id, nat>, ranks: map<Id, real>, damping: real, s: Id)
    requires s in ids && forall id :: id in ids ==> id in ranks && id in degree
    ensures Times(degree[s], ShareOf(Shares(ids, degree, ranks, damping), s)) == Damped(damping, if degree[s] == 0 then 0.0 else ranks[s])
  {
    if degree[s] > 0 {
      ShareTimesDegree(damping, ranks[s], degree[s]);
    }
  }

  lemma ShareTimesDegree(d: real, r: real, n: nat)
    requires n > 0
    ensures n as real * (d * (r / n as real)) == d * r
  {
  }

  ghost function Damped(damping: real, x: real): real { damping * x }

  lemma DampedSum(d: real, a: real, b: real)
    ensures Damped(d, a) + Damped(d, b) == Damped(d, a + b) && Damped(d, 0.0) == 0.0
  {
  }

  lemma LeavesFrom(s: Id, ids: seq<Id>, outbound: Adjacency, degree: map<Id, nat>, ranks: map<Id, real>, damping: real)
    requires (forall id :: id in ids ==> id in ranks && id in degree && degree[id] == |Edges(outbound, id)|) && FiledBySource(outbound) && s in ids
    ensures Carried(Edges(outbound, s), Shares(ids, degree, ranks, damping)) == Damped(damping, if degree[s] == 0 then 0.0 else ranks[s])
  {
    assert forall e :: e in Edges(outbound, s) ==> e.source == s;
    hide Times, Shares, Carried, ShareOf, Damped;
    CarriedBySource(Edges(outbound, s), Shares(ids, degree, ranks, damping), s);
    PassedOn(ids, degree, ranks, damping, s);
  }

  /** What leaves along the outbound edges is the damped mass of the nodes that have any. */
  lemma {:induction false} MassLeaves(some: seq<Id>, ids: seq<Id>, outbound: Adjacency, degree: map<Id, nat>, ranks: map<Id, real>, damping: real)
    requires (forall id :: id in ids ==> id in ranks && id in degree && degree[id] == |Edges(outbound, id)|) && FiledBySource(outbound)
    requires forall id :: id in some ==> id in ids
    ensures CarriedAt(some, outbound, Shares(ids, degree, ranks, damping)) == Damped(damping, Sum(some, ranks) - Stuck(some, degree, ranks))
  {
    DampedSum(damping, 0.0, 0.0);
    hide Damped, Shares, Carried, FiledBySource;
    if some != [] {
      var rest, s := some[..|some| - 1], some[|some| - 1];
      assert s in some;
      MassLeaves(rest, ids, outbound, degree, ranks, damping);
      LeavesFrom(s, ids, outbound, degree, ranks, damping);
      DampedSum(damping, Sum(rest, ranks) - Stuck(rest, degree, ranks), if degree[s] == 0 then 0.0 else ranks[s]);
    }
  }

  lemma {:induction false} SumOfIterated(some: seq<Id>, inbound: Adjacency, share: map<Id, real>, base: real, ranks': map<Id, real>)
    requires Iterated(some, inbound, share, base, ranks')
    ensures Sum(some, ranks') == Times(|some|, base) + CarriedAt(some, inbound, share)
  {
    hide Times, Carried;
    TimesMore(|some|, base);
    if some != [] {
      var rest, s := some[..|some| - 1], some[|some| - 1];
      assert s in some;
      SumOfIterated(rest, inbound, share, base, ranks');
      TimesMore(|rest|, base);
    }
  }

  lemma Balance(n: nat, d: real, stuck: real, total: real)
    requires n > 0 && total == 1.0
    ensures Times(n, Base(n, d, stuck)) + Damped(d, total - stuck) == 1.0
  {
    var x := n as real;
    assert x * ((1.0 - d) / x) == 1.0 - d;
    assert x * (d * stuck / x) == d * stuck;
  }

  /** What the balance needs: every edge joins two of the nodes, sits under its source, and is held by
      both views. */
  ghost predicate Balanced(ids: seq<Id>, outbound: Adjacency, inbound: Adjacency) {
    Distinct(ids) && (forall s :: s in outbound ==> s in ids) && (forall t :: t in inbound ==> t in ids)
    && FiledBySource(outbound) && AllEdges(inbound) == AllEdges(outbound)
  }

  /** An iteration keeps the total rank at one. */
  lemma IterationKeepsMass(ids: seq<Id>, outbound: Adjacency, inbound: Adjacency, degree: map<Id, nat>, ranks: map<Id, real>, damping: real, ranks': map<Id, real>)
    requires ids != [] && Balanced(ids, outbound, inbound)
    requires forall id :: id in ids ==> id in ranks && id in degree && degree[id] == |Edges(outbound, id)|
    requires Iterated(ids, inbound, Shares(ids, degree, ranks, damping), Base(|ids|, damping, Stuck(ids, degree, ranks)), ranks')
    requires Sum(ids, ranks) == 1.0
    ensures Sum(ids, ranks') == 1.0
  {
    hide AllEdges, Carried, CarriedAt, Sum, Stuck, Shares, Times, Base, Damped;
    var stuck, share := Stuck(ids, degree, ranks), Shares(ids, degree, ranks, damping);
    SumOfIterated(ids, inbound, share, Base(|ids|, damping, stuck), ranks');
    MassArrives(ids, outbound, inbound, share);
    MassLeaves(ids, ids, outbound, degree, ranks, damping);
    Balance(|ids|, damping, stuck, Sum(ids, ranks));
  }

  lemma {:induction false} UniformSum(ids: seq<Id>, ranks: map<Id, real>, r: real)
    requires forall id :: id in ids ==> id in ranks && ranks[id] == r
    ensures Sum(ids, ranks) == Times(|ids|, r)
  {
    hide Times;
    TimesMore(|ids|, r);
    if ids != [] {
      assert ids[|ids| - 1] in ids;
      UniformSum(ids[..|ids| - 1], ranks, r);
      TimesMore(|ids| - 1, r);
    }
  }

  lemma OneShared(n: nat)
    requires n > 0
    ensures Times(n, 1.0 / n as real) == 1.0
  {
  }

  /* ---- all iterations ---- */

  ghost function Degrees(ids: seq<Id>, outbound: Adjacency): map<Id, nat> { map id | id in ids :: |Edges(outbound, id)| }

  /** The ranks one iteration later: everybody's base, and the shares that arrive. */
  ghost function Next(ids: seq<Id>, outbound: Adjacency, inbound: Adjacency, damping: real, ranks: map<Id, real>): (ranks': map<Id, real>)
    requires ids != [] && Ranks(ids, ranks)
    ensures Ranks(ids, ranks')
  {
    var degree := Degrees(ids, outbound);
    map id | id in ids :: Base(|ids|, damping, Stuck(ids, degree, ranks)) + Carried(Edges(inbound, id), Shares(ids, degree, ranks, damping))
  }

  /** The ranks after `n` iterations from the uniform start. */
  ghost function RanksAfter(n: nat, ids: seq<Id>, outbound: Adjacency, inbound: Adjacency, damping: real): (ranks: map<Id, real>)
    requires ids != []
    ensures Ranks(ids, ranks)
  {
    if n == 0 then map id | id in ids :: 1.0 / |ids| as real
    else Next(ids, outbound, inbound, damping, RanksAfter(n - 1, ids, outbound, inbound, damping))
  }

  lemma IteratedIsNext(ids: seq<Id>, outbound: Adjacency, inbound: Adjacency, damping: real, ranks: map<Id, real>, ranks': map<Id, real>)
    requires ids != [] && Ranks(ids, ranks) && Ranks(ids, ranks')
    requires Iterated(ids, inbound, Shares(ids, Degrees(ids, outbound), ranks, damping), Base(|ids|, damping, Stuck(ids, Degrees(ids, outbound), ranks)), ranks')
    ensures ranks' == Next(ids, outbound, inbound, damping, ranks)
  {
    hide Shares, Base, Stuck, Carried;
  }

  lemma Unfold(n: nat, ids: seq<Id>, outbound: Adjacency, inbound: Adjacency, damping: real)
    requires ids != []
    ensures RanksAfter(0, ids, outbound, inbound, damping) == map id | id in ids :: 1.0 / |ids| as real
    ensures RanksAfter(n + 1, ids, outbound, inbound, damping) == Next(ids, outbound, inbound, damping, RanksAfter(n, ids, outbound, inbound, damping))
  {
    hide Next;
  }

  lemma NextIsIterated(ids: seq<Id>, outbound: Adjacency, inbound: Adjacency, damping: real, ranks: map<Id, real>)
    requires ids != [] && Ranks(ids, ranks)
    ensures Iterated(ids, inbound, Shares(ids, Degrees(ids, outbound), ranks, damping), Base(|ids|, damping, Stuck(ids, Degrees(ids, outbound), ranks)),
                     Next(ids, outbound, inbound, damping, ranks))
  {
    hide Shares, Base, Stuck, Carried;
  }

  lemma NextKeepsMass(ids: seq<Id>, outbound: Adjacency, inbound: Adjacency, damping: real, ranks: map<Id, real>)
    requires ids != [] && Ranks(ids, ranks) && Balanced(ids, outbound, inbound) && Sum(ids, ranks) == 1.0
    ensures Sum(ids, Next(ids, outbound, inbound, damping, ranks)) == 1.0
  {
    hide Balanced, Sum, Iterated, Shares, Base, Stuck, Next;
    NextIsIterated(ids, outbound, inbound, damping, ranks);
    IterationKeepsMass(ids, outbound, inbound, Degrees(ids, outbound), ranks, damping, Next(ids, outbound, inbound, damping, ranks));
  }

  lemma NextStaysPositive(ids: seq<Id>, outbound: Adjacency, inbound: Adjacency, damping: real, ranks: map<Id, real>)
    requires ids != [] && Ranks(ids, ranks) && Positive(ids, ranks) && 0.0 < damping < 1.0
    ensures Positive(ids, Next(ids, outbound, inbound, damping, ranks))
  {
    hide Positive, Iterated, Shares, Base, Stuck, Next;
    NextIsIterated(ids, outbound, inbound, damping, ranks);
    StaysPositive(ids, inbound, Degrees(ids, outbound), ranks, damping, Next(ids, outbound, inbound, damping, ranks));
  }

  lemma StartsAtOne(ids: seq<Id>, outbound: Adjacency, inbound: Adjacency, damping: real)
    requires ids != []
    ensures Sum(ids, RanksAfter(0, ids, outbound, inbound, damping)) == 1.0
  {
    UniformSum(ids, RanksAfter(0, ids, outbound, inbound, damping), 1.0 / |ids| as real);
    hide *;
    OneShared(|ids|);
  }

  /** However often it is iterated, the total rank is one. */
  lemma {:induction false} MassIsConserved(n: nat, ids: seq<Id>, outbound: Adjacency, inbound: Adjacency, damping: real)
    requires ids != [] && Balanced(ids, outbound, inbound)
    ensures Sum(ids, RanksAfter(n, ids, outbound, inbound, damping)) == 1.0
  {
    hide *;
    if n == 0 {
      StartsAtOne(ids, outbound, inbound, damping);
    } else {
      MassIsConserved(n - 1, ids, outbound, inbound, damping);
      Unfold(n - 1, ids, outbound, inbound, damping);
      NextKeepsMass(ids, outbound, inbound, damping, RanksAfter(n - 1, ids, outbound, inbound, damping));
    }
  }

  /** CalculatePageRank: the ranks after so many iterations, none if the number is negative. They sum to one. */
  method CalculatePageRank(ids: seq<Id>, outbound: Adjacency, inbound: Adjacency, iterations: int, damping: real) returns (ranks: map<Id, real>)
    ensures ids == [] ==> ranks == map[]
    ensures ids != [] ==> ranks == RanksAfter(if iterations > 0 then iterations else 0, ids, outbound, inbound, damping)
    ensures ids != [] && Balanced(ids, outbound, inbound) ==> Sum(ids, ranks) == 1.0
  {
    ranks := map[];
    if |ids| == 0 {
      return;
    }
    var initialRank := 1.0 / |ids| as real;
    ranks := map id | id in ids :: initialRank;
    var degree: map<Id, nat> := map id | id in ids :: |Edges(outbound, id)|;
    assert degree == Degrees(ids, outbound) && (forall id :: id in ids <==> id in degree);
    Unfold(0, ids, outbound, inbound, damping);
    hide *;
    var i := 0;
    while i < iterations
      invariant ranks == RanksAfter(i, ids, outbound, inbound, damping) && (i == 0 || i <= iterations)
    {
      var ranks' := Iterate(ids, inbound, degree, ranks, damping);
      IteratedIsNext(ids, outbound, inbound, damping, ranks, ranks');
      Unfold(i, ids, outbound, inbound, damping);
      ranks, i := ranks', i + 1;
    }
    if Balanced(ids, outbound, inbound) {
      MassIsConserved(i, ids, outbound, inbound, damping);
    }
  }

  /* ---- the snapshot version: structural edges only, normalised ---- */

  /** The incoming edges the snapshot version counts: structural, from a known node. */
  ghost function Counted(edges: seq<Edge>, nodes: set<Id>): seq<Edge> {
    if edges == [] then []
    else
      var rest, e := Counted(edges[..|edges| - 1], nodes), edges[|edges| - 1];
      if IsStructuralEdge(e.kind) && e.source in nodes then rest + [e] else rest
  }

  ghost function CountedIn(inbound: Adjacency, nodes: set<Id>): Adjacency { map t | t in inbound :: Counted(inbound[t], nodes) }

  lemma CountedMore(edges: seq<Edge>, i: nat, nodes: set<Id>, share: map<Id, real>)
    requires i < |edges|
    ensures Carried(Counted(edges[..i + 1], nodes), share)
            == Carried(Counted(edges[..i], nodes), share) + if IsStructuralEdge(edges[i].kind) && edges[i].source in nodes then ShareOf(share, edges[i].source) else 0.0
  {
    assert edges[..i + 1][..i] == edges[..i];
    var rest := Counted(edges[..i], nodes);
    assert (rest + [edges[i]])[..|rest|] == rest;
  }

  method NewSnapshotRank(base: real, incoming: seq<Edge>, nodes: set<Id>, ids: seq<Id>, degree: map<Id, nat>, ranks: map<Id, real>, damping: real) returns (rank: real)
    requires forall id :: id in ids ==> id in ranks && id in degree
    requires forall id :: id in degree <==> id in ids
    ensures rank == base + Carried(Counted(incoming, nodes), Shares(ids, degree, ranks, damping))
  {
    ghost var share := Shares(ids, degree, ranks, damping);
    rank := base;
    for k := 0 to |incoming|
      invariant rank == base + Carried(Counted(incoming[..k], nodes), share)
    {
      var e := incoming[k];
      CountedMore(incoming, k, nodes, share);
      if IsStructuralEdge(e.kind) && e.source in nodes {
        if e.source in degree && degree[e.source] > 0 {
          rank := rank + damping * (ranks[e.source] / degree[e.source] as real);
        }
      }
    }
    assert incoming[..|incoming|] == incoming;
  }

  method IterateSnapshot(ids: seq<Id>, nodes: set<Id>, inbound: Adjacency, degree: map<Id, nat>, ranks: map<Id, real>, damping: real) returns (ranks': map<Id, real>)
    requires ids != [] && Ranks(ids, ranks) && forall id :: id in degree <==> id in ids
    ensures Iterated(ids, CountedIn(inbound, nodes), Shares(ids, degree, ranks, damping), Base(|ids|, damping, Stuck(ids, degree, ranks)), ranks')
    ensures Ranks(ids, ranks')
  {
    var danglingSum := DanglingSum(ids, degree, ranks);
    var danglingContrib := damping * danglingSum / |ids| as real;
    var base := (1.0 - damping) / |ids| as real + danglingContrib;
    BaseIs(|ids|, damping, danglingSum, danglingContrib, base);
    ghost var share := Shares(ids, degree, ranks, damping);
    ranks' := map[];
    assert forall t :: Edges(CountedIn(inbound, nodes), t) == Counted(Edges(inbound, t), nodes);
    hide *;
    for i := 0 to |ids|
      invariant Iterated(ids[..i], CountedIn(inbound, nodes), share, base, ranks') && Ranks(ids[..i], ranks')
    {
      var rank := NewSnapshotRank(base, Edges(inbound, ids[i]), nodes, ids, degree, ranks, damping);
      IteratedMore(ids, i, CountedIn(inbound, nodes), share, base, ranks', rank);
      RanksMore(ids, i, ranks', rank);
      ranks' := ranks'[ids[i] := rank];
    }
    assert ids[..|ids|] == ids;
  }

  ghost predicate Positive(ids: seq<Id>, ranks: map<Id, real>) { forall id :: id in ids ==> id in ranks && ranks[id] > 0.0 }

  lemma {:induction false} CarriedNonNegative(edges: seq<Edge>, share: map<Id, real>)
    requires forall s :: s in share ==> share[s] >= 0.0
    ensures Carried(edges, share) >= 0.0
  {
    if edges != [] {
      CarriedNonNegative(edges[..|edges| - 1], share);
    }
  }

  lemma {:induction false} StuckNonNegative(ids: seq<Id>, degree: map<Id, nat>, ranks: map<Id, real>)
    requires Positive(ids, ranks) && forall id :: id in ids ==> id in degree
    ensures Stuck(ids, degree, ranks) >= 0.0
  {
    if ids != [] {
      assert ids[|ids| - 1] in ids;
      StuckNonNegative(ids[..|ids| - 1], degree, ranks);
    }
  }

  lemma ShareNonNegative(d: real, r: real, n: nat)
    requires n > 0 && d > 0.0 && r > 0.0
    ensures d * (r / n as real) >= 0.0
  {
    assert r / n as real > 0.0;
  }

  lemma BasePositive(n: nat, d: real, stuck: real)
    requires n > 0 && 0.0 < d < 1.0 && stuck >= 0.0
    ensures Base(n, d, stuck) > 0.0
  {
    assert (1.0 - d) / n as real > 0.0;
    assert d * stuck >= 0.0;
    assert d * stuck / n as real >= 0.0;
  }

  lemma StaysPositive(ids: seq<Id>, inbound: Adjacency, degree: map<Id, nat>, ranks: map<Id, real>, damping: real, ranks': map<Id, real>)
    requires ids != [] && Positive(ids, ranks) && 0.0 < damping < 1.0 && forall id :: id in ids ==> id in degree
    requires Iterated(ids, inbound, Shares(ids, degree, ranks, damping), Base(|ids|, damping, Stuck(ids, degree, ranks)), ranks')
    ensures Positive(ids, ranks')
  {
    var share := Shares(ids, degree, ranks, damping);
    forall s | s in share
      ensures share[s] >= 0.0
    {
      if degree[s] > 0 {
        ShareNonNegative(damping, ranks[s], degree[s]);
      }
    }
    hide Shares, Stuck, Carried;
    StuckNonNegative(ids, degree, ranks);
    BasePositive(|ids|, damping, Stuck(ids, degree, ranks));
    forall id | id in ids
      ensures ranks'[id] > 0.0
    {
      CarriedNonNegative(Edges(inbound, id), share);
    }
  }

  lemma UniformPositive(ids: seq<Id>, outbound: Adjacency, inbound: Adjacency, damping: real)
    requires ids != []
    ensures Positive(ids, RanksAfter(0, ids, outbound, inbound, damping))
  {
    Unfold(0, ids, outbound, inbound, damping);
    assert 1.0 / |ids| as real > 0.0;
    hide RanksAfter;
  }

  /** With a damping strictly between zero and one every rank is positive. */
  lemma {:induction false} RanksArePositive(n: nat, ids: seq<Id>, outbound: Adjacency, inbound: Adjacency, damping: real)
    requires ids != [] && 0.0 < damping < 1.0
    ensures Positive(ids, RanksAfter(n, ids, outbound, inbound, damping))
  {
    hide *;
    if n == 0 {
      UniformPositive(ids, outbound, inbound, damping);
    } else {
      RanksArePositive(n - 1, ids, outbound, inbound, damping);
      Unfold(n - 1, ids, outbound, inbound, damping);
      NextStaysPositive(ids, outbound, inbound, damping, RanksAfter(n - 1, ids, outbound, inbound, damping));
    }
  }

  lemma {:induction false} SumPositive(ids: seq<Id>, ranks: map<Id, real>)
    requires Positive(ids, ranks) && ids != []
    ensures Sum(ids, ranks) > 0.0
  {
    assert ids[|ids| - 1] in ids;
    if |ids| > 1 {
      SumPositive(ids[..|ids| - 1], ranks);
    }
  }

  lemma {:induction false} SumDivided(ids: seq<Id>, ranks: map<Id, real>, total: real, scaled: map<Id, real>)
    requires total > 0.0 && forall id :: id in ids ==> id in ranks && id in scaled && scaled[id] == ranks[id] / total
    ensures Sum(ids, scaled) == Sum(ids, ranks) / total
  {
    if ids != [] {
      assert ids[|ids| - 1] in ids;
      SumDivided(ids[..|ids| - 1], ranks, total, scaled);
      DivideSum(Sum(ids[..|ids| - 1], ranks), ranks[ids[|ids| - 1]], total);
    }
  }

  lemma DivideSum(a: real, b: real, total: real)
    requires total > 0.0
    ensures a / total + b / total == (a + b) / total
  {
  }

  method TotalRank(ids: seq<Id>, ranks: map<Id, real>) returns (total: real)
    requires forall id :: id in ids ==> id in ranks
    ensures total == Sum(ids, ranks)
  {
    total := 0.0;
    for i := 0 to |ids|
      invariant total == Sum(ids[..i], ranks)
    {
      assert ids[..i + 1][..i] == ids[..i] && ids[i] in ids;
      total := total + ranks[ids[i]];
    }
    assert ids[..|ids|] == ids;
  }

  /** `scaled` is `raw` divided by its sum, which is positive, and so sums to one. */
  ghost predicate IsScaled(ids: seq<Id>, raw: map<Id, real>, scaled: map<Id, real>) {
    (forall id :: id in ids ==> id in raw && id in scaled) && Sum(ids, raw) > 0.0 && Sum(ids, scaled) == 1.0
    && forall id :: id in ids ==> scaled[id] == raw[id] / Sum(ids, raw)
  }

  /** The closing normalisation; with distinct IDs every rank is divided once. */
  method Normalise(ids: seq<Id>, ranks: map<Id, real>) returns (ranks': map<Id, real>)
    requires Positive(ids, ranks) && ids != []
    ensures IsScaled(ids, ranks, ranks') && Ranks(ids, ranks')
  {
    var total := TotalRank(ids, ranks);
    SumPositive(ids, ranks);
    ranks' := map id | id in ids :: ranks[id] / total;
    SumDivided(ids, ranks, total, ranks');
    OverItself(total);
  }

  lemma OverItself(x: real)
    requires x > 0.0
    ensures x / x == 1.0
  {
  }

  /** What the iterations of the snapshot version leave to normalise. A damping outside (0, 1) counts as 0.85. */
  ghost function RawRanks(ids: seq<Id>, nodes: set<Id>, outbound: Adjacency, inbound: Adjacency, iterations: nat, damping: real): map<Id, real>
    requires ids != []
  {
    RanksAfter(iterations, ids, outbound, CountedIn(inbound, nodes), if 0.0 < damping < 1.0 then damping else 0.85)
  }

  /** The iterations of the snapshot version. */
  method RunSnapshot(ids: seq<Id>, nodes: set<Id>, outbound: Adjacency, inbound: Adjacency, iterations: nat, damping: real) returns (ranks: map<Id, real>)
    requires ids != []
    ensures ranks == RanksAfter(iterations, ids, outbound, CountedIn(inbound, nodes), damping)
  {
    hide RanksAfter, CountedIn, Next, Degrees;
    Unfold(0, ids, outbound, CountedIn(inbound, nodes), damping);
    DegreesAre(ids, outbound);
    var initial := 1.0 / |ids| as real;
    ranks := map id | id in ids :: initial;
    var degree: map<Id, nat> := map id | id in ids :: |Edges(outbound, id)|;
    hide *;
    for i := 0 to iterations
      invariant ranks == RanksAfter(i, ids, outbound, CountedIn(inbound, nodes), damping)
    {
      var ranks' := IterateSnapshot(ids, nodes, inbound, degree, ranks, damping);
      IteratedIsNext(ids, outbound, CountedIn(inbound, nodes), damping, ranks, ranks');
      Unfold(i, ids, outbound, CountedIn(inbound, nodes), damping);
      ranks := ranks';
    }
  }

  lemma DegreesAre(ids: seq<Id>, outbound: Adjacency)
    ensures Degrees(ids, outbound) == map id | id in ids :: |Edges(outbound, id)|
  {
  }

  /** PageRankSnapshot: the iterated ranks over structural edges, scaled to sum to one. Where the views
      balance they sum to one before. */
  method PageRankSnapshot(ids: seq<Id>, nodes: set<Id>, outbound: Adjacency, inbound: Adjacency, iterations: int, damping: real)
      returns (ranks: map<Id, real>)
    ensures ids == [] || iterations <= 0 ==> ranks == map[]
    ensures ids != [] && iterations > 0 ==> IsScaled(ids, RawRanks(ids, nodes, outbound, inbound, iterations, damping), ranks)
    ensures ids != [] && iterations > 0 && Balanced(ids, outbound, CountedIn(inbound, nodes)) ==>
              ranks == RawRanks(ids, nodes, outbound, inbound, iterations, damping)
  {
    hide *;
    ranks := map[];
    if |ids| == 0 || iterations <= 0 {
      return;
    }
    var d := damping;
    if damping <= 0.0 || damping >= 1.0 {
      d := 0.85;
    }
    RawIs(ids, nodes, outbound, inbound, iterations, damping, d);
    var raw := RunSnapshot(ids, nodes, outbound, inbound, iterations, d);
    RanksArePositive(iterations, ids, outbound, CountedIn(inbound, nodes), d);
    ranks := Normalise(ids, raw);
    if Balanced(ids, outbound, CountedIn(inbound, nodes)) {
      MassIsConserved(iterations, ids, outbound, CountedIn(inbound, nodes), d);
      OverOne(ids, raw, ranks);
    }
  }

  lemma RawIs(ids: seq<Id>, nodes: set<Id>, outbound: Adjacency, inbound: Adjacency, iterations: nat, damping: real, d: real)
    requires ids != [] && d == if 0.0 < damping < 1.0 then damping else 0.85
    ensures RawRanks(ids, nodes, outbound, inbound, iterations, damping) == RanksAfter(iterations, ids, outbound, CountedIn(inbound, nodes), d)
    ensures 0.0 < d < 1.0
  {
    hide RanksAfter, CountedIn;
  }

  lemma OverOne(ids: seq<Id>, raw: map<Id, real>, ranks: map<Id, real>)
    requires IsScaled(ids, raw, ranks) && Sum(ids, raw) == 1.0 && Ranks(ids, raw) && Ranks(ids, ranks)
    ensures ranks == raw
  {
    hide Sum;
  }

  /* ---- the filtered views balance ---- */

  lemma {:induction false} CountedCount(edges: seq<Edge>, nodes: set<Id>, e: Edge)
    ensures multiset(Counted(edges, nodes))[e] == if IsStructuralEdge(e.kind) && e.source in nodes then multiset(edges)[e] else 0
  {
    if edges != [] {
      var rest, last := edges[..|edges| - 1], edges[|edges| - 1];
      assert edges == rest + [last];
      assert Counted(edges, nodes) == if IsStructuralEdge(last.kind) && last.source in nodes then Counted(rest, nodes) + [last] else Counted(rest, nodes);
      hide Counted, IsStructuralEdge;
      CountedCount(rest, nodes, e);
      CountMore(rest, last, e);
      CountMore(Counted(rest, nodes), last, e);
    }
  }

  lemma {:induction false} StructuralCount(edges: seq<Edge>, nodes: set<Id>, e: Edge)
    ensures multiset(StructuralOnly(edges, nodes))[e] == if IsStructuralEdge(e.kind) && e.target in nodes then multiset(edges)[e] else 0
  {
    if edges != [] {
      var rest, last := edges[..|edges| - 1], edges[|edges| - 1];
      assert edges == rest + [last];
      StructuralMore(edges, nodes);
      hide StructuralOnly, IsStructuralEdge;
      StructuralCount(rest, nodes, e);
      CountMore(rest, last, e);
      CountMore(StructuralOnly(rest, nodes), last, e);
    }
  }

  lemma StructuralMore(edges: seq<Edge>, nodes: set<Id>)
    requires edges != []
    ensures var rest, last := edges[..|edges| - 1], edges[|edges| - 1];
            StructuralOnly(edges, nodes) == if IsStructuralEdge(last.kind) && last.target in nodes then StructuralOnly(rest, nodes) + [last] else StructuralOnly(rest, nodes)
  {
    hide IsStructuralEdge;
  }

  /** A view whose lists keep some edges with all their copies and drop the others keeps them overall. */
  lemma {:induction false} FilteredView(g: Adjacency, filtered: Adjacency, e: Edge, kept: bool)
    requires g.Keys == filtered.Keys && forall s :: s in g ==> multiset(filtered[s])[e] == if kept then multiset(g[s])[e] else 0
    ensures AllEdges(filtered)[e] == if kept then AllEdges(g)[e] else 0
    decreases |g|
  {
    if g == map[] {
      assert filtered == map[];
    } else {
      var s :| s in g;
      AllEdgesSplit(g, s);
      AllEdgesSplit(filtered, s);
      FilteredView(g - {s}, filtered - {s}, e, kept);
    }
  }

  lemma SameCopies(ids: seq<Id>, snap: GraphSnapshot, inbound: Adjacency, e: Edge)
    requires Balanced(ids, snap.outbound, inbound) && FiledByTarget(inbound) && snap.nodes == set id | id in ids
    ensures AllEdges(CountedIn(inbound, snap.nodes))[e] == AllEdges(Structural(snap))[e]
  {
    hide AllEdges, IsStructuralEdge, Counted, Distinct;
    forall s | s in snap.outbound
      ensures multiset(Structural(snap)[s])[e] == if IsStructuralEdge(e.kind) && e.target in snap.nodes then multiset(snap.outbound[s])[e] else 0
    {
      StructuralCount(snap.outbound[s], snap.nodes, e);
    }
    FilteredView(snap.outbound, Structural(snap), e, IsStructuralEdge(e.kind) && e.target in snap.nodes);
    forall t | t in inbound
      ensures multiset(CountedIn(inbound, snap.nodes)[t])[e] == if IsStructuralEdge(e.kind) && e.source in snap.nodes then multiset(inbound[t])[e] else 0
    {
      CountedCount(inbound[t], snap.nodes, e);
    }
    FilteredView(inbound, CountedIn(inbound, snap.nodes), e, IsStructuralEdge(e.kind) && e.source in snap.nodes);
    if e in AllEdges(inbound) {
      var s := FoundUnder(snap.outbound, e);
      var t := FoundUnder(inbound, e);
      assert e.source == s && e.target == t;
    }
  }

  /** Where the stored views balance, so do the views the snapshot version reads: its structural edges
      and the incoming edges it counts. */
  lemma StructuralBalance(ids: seq<Id>, snap: GraphSnapshot, inbound: Adjacency)
    requires Balanced(ids, snap.outbound, inbound) && FiledByTarget(inbound) && snap.nodes == set id | id in ids
    ensures Balanced(ids, Structural(snap), CountedIn(inbound, snap.nodes))
  {
    hide AllEdges, FiledByTarget, Distinct;
    forall e
      ensures AllEdges(CountedIn(inbound, snap.nodes))[e] == AllEdges(Structural(snap))[e]
    {
      SameCopies(ids, snap, inbound, e);
    }
    forall s, k | s in Structural(snap) && 0 <= k < |Structural(snap)[s]|
      ensures Structural(snap)[s][k].source == s
    {
      var e := Structural(snap)[s][k];
      assert e in StructuralOnly(snap.outbound[s], snap.nodes);
      var j :| 0 <= j < |snap.outbound[s]| && snap.outbound[s][j] == e;
    }
  }
}
