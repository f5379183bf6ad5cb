/** applyDeltaToShadow, sub-phases C.2, C.4 and D.1: the payload's edges and entrypoints are bound,
    dangling edges are dropped and recorded, and the inbound view is rebuilt. Inbound back-linking
    (C.3) is left out: C.4 replaces its result before anything reads it. */
module DeltaEdges {
  import opened Graphs
  import opened AkgStore

  /* ---- C.2: entrypoints ---- */

  /** `bound` keeps `entrypoints` as a prefix and adds each further registry entry once. */
  ghost predicate Bound(entrypoints: seq<Id>, registry: seq<Id>, bound: seq<Id>) {
    entrypoints <= bound
    && (forall id :: id in bound <==> id in entrypoints || id in registry)
    && (forall i, j :: |entrypoints| <= i < |bound| && 0 <= j < i ==> bound[j] != bound[i])
  }

  /** The code's existingEP set makes each registry entry land at most once. */
  method BindEntrypoints(entrypoints: seq<Id>, registry: seq<Id>) returns (bound: seq<Id>)
    ensures Bound(entrypoints, registry, bound)
  {
    bound := entrypoints;
    var existing := set id | id in entrypoints;
    for i := 0 to |registry|
      invariant entrypoints <= bound && existing == set id | id in bound
      invariant forall id :: id in bound <==> id in entrypoints || id in registry[..i]
      invariant forall i, j :: |entrypoints| <= i < |bound| && 0 <= j < i ==> bound[j] != bound[i]
    {
      assert registry[..i + 1] == registry[..i] + [registry[i]];
      if registry[i] !in existing {
        bound, existing := bound + [registry[i]], existing + {registry[i]};
      }
    }
    assert registry[..|registry|] == registry;
  }

  /* ---- C.4: the merge sweep ---- */

  function KeptOf(ids: set<Id>, edges: seq<Edge>): seq<Edge> {
    if edges == [] then []
    else
      var e, rest := edges[|edges| - 1], KeptOf(ids, edges[..|edges| - 1]);
      if e.target in ids then rest + [e] else rest
  }

  function DroppedOf(ids: set<Id>, edges: seq<Edge>): seq<Edge> {
    if edges == [] then []
    else
      var e, rest := edges[|edges| - 1], DroppedOf(ids, edges[..|edges| - 1]);
      if e.target in ids then rest else rest + [e]
  }

  /** An edge as Errors records it. */
  ghost function Ref(source: Id, e: Edge): DanglingRef { DanglingRef(source, e.target, e.kind, e.line) }

  ghost function RefsOf(source: Id, edges: seq<Edge>): seq<DanglingRef> {
    seq(|edges|, i requires 0 <= i < |edges| => Ref(source, edges[i]))
  }

  /** The recorded errors of one source, in order. */
  function ErrorsOf(errors: seq<DanglingRef>, source: Id): seq<DanglingRef> {
    if errors == [] then []
    else
      var last, rest := errors[|errors| - 1], ErrorsOf(errors[..|errors| - 1], source);
      if last.source == source then rest + [last] else rest
  }

  lemma ErrorsOfMore(errors: seq<DanglingRef>, last: DanglingRef, source: Id)
    ensures ErrorsOf(errors + [last], source) == if last.source == source then ErrorsOf(errors, source) + [last] else ErrorsOf(errors, source)
  {
    assert (errors + [last])[..|errors|] == errors;
  }

  lemma SplitMore(ids: set<Id>, edges: seq<Edge>, i: nat)
    requires i < |edges|
    ensures var e, kept, dropped := edges[i], KeptOf(ids, edges[..i]), DroppedOf(ids, edges[..i]);
            KeptOf(ids, edges[..i + 1]) == (if e.target in ids then kept + [e] else kept)
            && DroppedOf(ids, edges[..i + 1]) == (if e.target in ids then dropped else dropped + [e])
  {
    assert edges[..i + 1][..i] == edges[..i];
  }

  lemma RefsOfMore(source: Id, edges: seq<Edge>, e: Edge)
    ensures RefsOf(source, edges + [e]) == RefsOf(source, edges) + [Ref(source, e)]
  {
  }

  lemma RecordMore(source: Id, e: Edge, errors: seq<DanglingRef>)
    ensures forall s :: ErrorsOf(errors + [Ref(source, e)], s) == if source == s then ErrorsOf(errors, s) + [Ref(source, e)] else ErrorsOf(errors, s)
  {
    forall s
      ensures ErrorsOf(errors + [Ref(source, e)], s) == if source == s then ErrorsOf(errors, s) + [Ref(source, e)] else ErrorsOf(errors, s)
    {
      ErrorsOfMore(errors, Ref(source, e), s);
    }
  }

  /** The callback of the sweep: one source with its edges. The kept ones are appended to a new slice. */
  method SplitSource(ids: set<Id>, source: Id, edges: seq<Edge>, errors: seq<DanglingRef>) returns (kept: List<Edge>, errors': seq<DanglingRef>)
    ensures fresh(kept) && kept.items == KeptOf(ids, edges)
    ensures ErrorsOf(errors', source) == ErrorsOf(errors, source) + RefsOf(source, DroppedOf(ids, edges))
    ensures forall s :: s != source ==> ErrorsOf(errors', s) == ErrorsOf(errors, s)
  {
    hide ErrorsOf;
    kept := new List([]);
    errors' := errors;
    for i := 0 to |edges|
      invariant kept.items == KeptOf(ids, edges[..i])
      invariant ErrorsOf(errors', source) == ErrorsOf(errors, source) + RefsOf(source, DroppedOf(ids, edges[..i]))
      invariant forall s :: s != source ==> ErrorsOf(errors', s) == ErrorsOf(errors, s)
    {
      var e := edges[i];
      SplitMore(ids, edges, i);
      if e.target in ids {
        kept.items := kept.items + [e];
      } else {
        RefsOfMore(source, DroppedOf(ids, edges[..i]), e);
        RecordMore(source, e, errors');
        errors' := errors' + [DanglingRef(source, e.target, e.kind, e.line)];
      }
    }
    assert edges[..|edges|] == edges;
  }

  /** The edges that survive: their source is a node with at least one edge to a node. */
  ghost predicate Survivors(ids: set<Id>, outbound: Adjacency, kept: Adjacency) {
    forall s :: Edges(kept, s) == (if s in ids then KeptOf(ids, Edges(outbound, s)) else []) && (s in kept ==> kept[s] != [])
  }

  /** Every dropped edge of a surviving source is recorded, in order, and nothing else is. */
  ghost predicate Recorded(ids: set<Id>, outbound: Adjacency, errors: seq<DanglingRef>) {
    forall s :: ErrorsOf(errors, s) == if s in ids then RefsOf(s, DroppedOf(ids, Edges(outbound, s))) else []
  }

  /** What the sweep has kept and recorded when the sources in `rest` are still to come. */
  ghost predicate Sweeping(ids: set<Id>, outbound: Adjacency, rest: set<Id>, kept: Adjacency, errors: seq<DanglingRef>) {
    rest <= outbound.Keys && kept.Keys <= outbound.Keys - rest
    && (forall s :: s !in rest ==> Edges(kept, s) == (if s in ids then KeptOf(ids, Edges(outbound, s)) else []) && (s in kept ==> kept[s] != []))
    && (forall s :: ErrorsOf(errors, s) == if s in ids && s !in rest then RefsOf(s, DroppedOf(ids, Edges(outbound, s))) else [])
  }

  lemma StartSweeping(ids: set<Id>, outbound: Adjacency)
    ensures Sweeping(ids, outbound, outbound.Keys, map[], [])
  {
    NoEdges(ids);
  }

  lemma SweepSource(ids: set<Id>, outbound: Adjacency, rest: set<Id>, kept: Adjacency, errors: seq<DanglingRef>, s: Id, errors': seq<DanglingRef>)
    requires Sweeping(ids, outbound, rest, kept, errors) && s in rest
    requires s in ids ==> ErrorsOf(errors', s) == ErrorsOf(errors, s) + RefsOf(s, DroppedOf(ids, outbound[s])) && forall x :: x != s ==> ErrorsOf(errors', x) == ErrorsOf(errors, x)
    requires s !in ids ==> errors' == errors
    ensures Sweeping(ids, outbound, rest - {s}, if s in ids && KeptOf(ids, outbound[s]) != [] then kept[s := KeptOf(ids, outbound[s])] else kept, errors')
  {
    hide KeptOf, DroppedOf, ErrorsOf, RefsOf;
  }

  lemma DoneSweeping(ids: set<Id>, outbound: Adjacency, kept: Adjacency, errors: seq<DanglingRef>)
    requires Sweeping(ids, outbound, {}, kept, errors)
    ensures Survivors(ids, outbound, kept) && Recorded(ids, outbound, errors)
  {
    hide KeptOf, DroppedOf, ErrorsOf, RefsOf;
  }

  lemma ItemsOfSet<T>(index: Lists<T>, k: string, list: List<T>)
    ensures ItemsOf(index[k := list]) == ItemsOf(index)[k := list.items]
    ensures index[k := list].Values <= index.Values + {list}
  {
  }

  lemma NoItems<T>(index: Lists<T>)
    requires index == map[]
    ensures ItemsOf(index) == map[]
  {
  }

  /** One Iterate over the outbound edges; the visiting order does not matter to the result. */
  method MergeSweep(ids: set<Id>, outbound: Lists<Edge>) returns (kept: Lists<Edge>, errors: seq<DanglingRef>)
    ensures fresh(kept.Values)
    ensures Survivors(ids, ItemsOf(outbound), ItemsOf(kept)) && Recorded(ids, ItemsOf(outbound), errors)
    ensures forall d :: d in errors <==> NamesDangling(ids, ItemsOf(outbound), d)
  {
    hide *;
    ghost var published := ItemsOf(outbound);
    kept, errors := map[], [];
    ghost var items: Adjacency := map[];
    NoItems(kept);
    ItemsAt(outbound);
    StartSweeping(ids, published);
    var rest := outbound.Keys;
    while rest != {}
      invariant rest <= outbound.Keys && ItemsOf(outbound) == published && ItemsOf(kept) == items && fresh(kept.Values)
      invariant Sweeping(ids, published, rest, items, errors)
    {
      var s :| s in rest;
      ghost var before := errors;
      ItemsAt(outbound);
      if s in ids {
        var keptEdges, errors' := SplitSource(ids, s, outbound[s].items, errors);
        errors := errors';
        assert ItemsOf(kept) == items && ItemsOf(outbound) == published;
        SweepSource(ids, published, rest, items, before, s, errors);
        if |keptEdges.items| > 0 {
          ItemsOfSet(kept, s, keptEdges);
          kept, items := kept[s := keptEdges], items[s := keptEdges.items];
        }
      } else {
        SweepSource(ids, published, rest, items, before, s, errors);
      }
      rest := rest - {s};
    }
    DoneSweeping(ids, published, items, errors);
    forall d
      ensures d in errors <==> NamesDangling(ids, published, d)
    {
      RecordsName(ids, published, errors, d);
    }
  }

  lemma NoEdges(ids: set<Id>)
    ensures KeptOf(ids, []) == [] && DroppedOf(ids, []) == [] && forall s :: ErrorsOf([], s) == [] && RefsOf(s, []) == []
  {
  }

  /* ---- what the records name ---- */

  /** `d` names an edge of a node to something that is none. */
  ghost predicate NamesDangling(ids: set<Id>, outbound: Adjacency, d: DanglingRef) {
    exists s, k :: s in ids && s in outbound && 0 <= k < |outbound[s]| && outbound[s][k].target !in ids && NamesEdge(d, s, outbound[s][k])
  }

  ghost predicate NamesEdge(d: DanglingRef, source: Id, e: Edge) {
    d.source == source && d.target == e.target && d.kind == e.kind && d.line == e.line
  }

  lemma ErrorsOfMembers(errors: seq<DanglingRef>, d: DanglingRef, source: Id)
    ensures d in ErrorsOf(errors, source) <==> d in errors && d.source == source
  {
    if errors != [] {
      assert errors == errors[..|errors| - 1] + [errors[|errors| - 1]];
      ErrorsOfMembers(errors[..|errors| - 1], d, source);
    }
  }

  /** Exactly the edges of nodes to something that is none are recorded, each by its source, target, kind
      and line. */
  lemma RecordsName(ids: set<Id>, outbound: Adjacency, errors: seq<DanglingRef>, d: DanglingRef)
    requires Recorded(ids, outbound, errors)
    ensures d in errors <==> NamesDangling(ids, outbound, d)
  {
    ErrorsOfMembers(errors, d, d.source);
    var edges := Edges(outbound, d.source);
    SplitConserves(ids, edges);
    var dropped := DroppedOf(ids, edges);
    hide ErrorsOf, DroppedOf, KeptOf;
    if d in errors {
      var i :| 0 <= i < |RefsOf(d.source, dropped)| && RefsOf(d.source, dropped)[i] == d;
      assert dropped[i] in dropped && dropped[i] in edges;
      var k :| 0 <= k < |edges| && edges[k] == dropped[i];
      assert NamesEdge(d, d.source, outbound[d.source][k]);
    }
    if s, k :| s in ids && s in outbound && 0 <= k < |outbound[s]| && outbound[s][k].target !in ids && NamesEdge(d, s, outbound[s][k]) {
      assert edges[k] in edges && edges[k] in dropped;
      var i :| 0 <= i < |dropped| && dropped[i] == edges[k];
      assert RefsOf(d.source, dropped)[i] == d;
    }
  }

  /* ---- conservation ---- */

  lemma SplitConserves(ids: set<Id>, edges: seq<Edge>)
    ensures multiset(edges) == multiset(KeptOf(ids, edges)) + multiset(DroppedOf(ids, edges))
    ensures forall e :: e in KeptOf(ids, edges) <==> e in edges && e.target in ids
    ensures forall e :: e in DroppedOf(ids, edges) <==> e in edges && e.target !in ids
  {
    if edges != [] {
      SplitConserves(ids, edges[..|edges| - 1]);
      assert edges == edges[..|edges| - 1] + [edges[|edges| - 1]];
    }
  }

  lemma RefsOfSplit(source: Id, ids: set<Id>, edges: seq<Edge>)
    ensures multiset(RefsOf(source, edges)) == multiset(RefsOf(source, KeptOf(ids, edges))) + multiset(RefsOf(source, DroppedOf(ids, edges)))
  {
    if edges != [] {
      var rest, e := edges[..|edges| - 1], edges[|edges| - 1];
      RefsOfSplit(source, ids, rest);
      RefsOfMore(source, rest, e);
      RefsOfMore(source, KeptOf(ids, rest), e);
      RefsOfMore(source, DroppedOf(ids, rest), e);
      assert edges == rest + [e];
    }
  }

  /** What a source had is what it keeps plus what was recorded. */
  ghost predicate AccountedFor(outbound: Adjacency, kept: Adjacency, errors: seq<DanglingRef>, source: Id) {
    multiset(RefsOf(source, Edges(outbound, source))) == multiset(RefsOf(source, Edges(kept, source))) + multiset(ErrorsOf(errors, source))
  }

  /** The edges of a source are accounted for exactly when it is a node or has none; otherwise all of them
      go without a record. */
  lemma NothingLost(ids: set<Id>, outbound: Adjacency, kept: Adjacency, errors: seq<DanglingRef>, source: Id)
    requires Survivors(ids, outbound, kept) && Recorded(ids, outbound, errors)
    ensures AccountedFor(outbound, kept, errors, source) <==> source in ids || Edges(outbound, source) == []
    ensures source !in ids ==> Edges(kept, source) == [] && ErrorsOf(errors, source) == []
  {
    RefsOfSplit(source, ids, Edges(outbound, source));
    if source !in ids {
      assert |multiset(RefsOf(source, Edges(outbound, source)))| == |Edges(outbound, source)|;
      assert RefsOf(source, []) == [];
    }
  }

  /** An edge whose source vanished is dropped without a record. */
  lemma VanishedSourceIsSilent(e: Edge, ids: set<Id>)
    requires e.source !in ids
    ensures var outbound := map[e.source := [e]];
            Survivors(ids, outbound, map[]) && Recorded(ids, outbound, []) && !AccountedFor(outbound, map[], [], e.source)
  {
    var outbound := map[e.source := [e]];
    NoEdges(ids);
    assert forall s :: s in ids ==> Edges(outbound, s) == [];
    assert forall s :: s in ids ==> RefsOf(s, DroppedOf(ids, [])) == [];
    NothingLost(ids, outbound, map[], [], e.source);
    assert Edges(outbound, e.source) == [e];
  }

  ghost predicate BothEnds(ids: set<Id>, source: Id, e: Edge) { source in ids && e.target in ids }

  /** Both endpoints of every stored edge are nodes. */
  ghost predicate NoDangling(ids: set<Id>, g: Adjacency) {
    forall s, k :: s in g && 0 <= k < |g[s]| ==> BothEnds(ids, s, g[s][k])
  }

  lemma SweepLeavesNoDangling(ids: set<Id>, outbound: Adjacency, kept: Adjacency)
    requires Survivors(ids, outbound, kept)
    ensures NoDangling(ids, kept)
  {
    forall s, k | s in kept && 0 <= k < |kept[s]|
      ensures BothEnds(ids, s, kept[s][k])
    {
      SplitConserves(ids, Edges(outbound, s));
      assert Edges(kept, s) == kept[s] && kept[s][k] in kept[s];
    }
  }

  /* ---- the inbound view ---- */

  /** All edges of a view with their multiplicities. */
  ghost function AllEdges(g: Adjacency): multiset<Edge> {
    if g == map[] then multiset{}
    else
      var s :| s in g;
      multiset(g[s]) + AllEdges(g - {s})
  }

  lemma {:induction false} AllEdgesSplit(g: Adjacency, s: Id)
    requires s in g
    ensures AllEdges(g) == multiset(g[s]) + AllEdges(g - {s})
    decreases |g|
  {
    var s0 :| s0 in g && AllEdges(g) == multiset(g[s0]) + AllEdges(g - {s0});
    if s != s0 {
      AllEdgesSplit(g - {s0}, s);
      AllEdgesSplit(g - {s}, s0);
      assert g - {s0} - {s} == g - {s} - {s0};
    }
  }

  lemma AppendAt(g: Adjacency, t: Id, e: Edge)
    ensures var g' := g[t := Edges(g, t) + [e]];
            g' - {t} == g - {t} && multiset(g'[t]) == multiset(Edges(g, t)) + multiset{e}
  {
  }

  lemma AllEdgesAppend(g: Adjacency, t: Id, e: Edge)
    ensures AllEdges(g[t := Edges(g, t) + [e]]) == AllEdges(g) + multiset{e}
  {
    hide AllEdges;
    var g' := g[t := Edges(g, t) + [e]];
    AllEdgesSplit(g', t);
    AppendAt(g, t, e);
    if t in g {
      AllEdgesSplit(g, t);
    } else {
      assert g - {t} == g;
    }
  }

  /** Every list holds at least one edge, and edges to its key only. */
  ghost predicate FiledByTarget(inbound: Adjacency) {
    forall t :: t in inbound ==> inbound[t] != [] && forall k :: 0 <= k < |inbound[t]| ==> inbound[t][k].target == t
  }

  ghost predicate FiledBySource(outbound: Adjacency) {
    forall s, k :: s in outbound && 0 <= k < |outbound[s]| ==> outbound[s][k].source == s
  }

  lemma FiledByTargetAppend(inbound: Adjacency, e: Edge)
    requires FiledByTarget(inbound)
    ensures FiledByTarget(inbound[e.target := Edges(inbound, e.target) + [e]])
  {
  }

  /** The callback of the rebuild: the edges of one source, each set with a new, longer slice. */
  method FileEdges(inbound: Lists<Edge>, edges: seq<Edge>) returns (inbound': Lists<Edge>)
    requires FiledByTarget(ItemsOf(inbound))
    ensures fresh(inbound'.Values - inbound.Values)
    ensures FiledByTarget(ItemsOf(inbound')) && AllEdges(ItemsOf(inbound')) == AllEdges(ItemsOf(inbound)) + multiset(edges)
  {
    hide FiledByTarget, AllEdges, Edges, ItemsOf;
    inbound' := inbound;
    ghost var items0 := ItemsOf(inbound);
    ghost var items := items0;
    for i := 0 to |edges|
      invariant ItemsOf(inbound') == items && ItemsOf(inbound) == items0 && fresh(inbound'.Values - inbound.Values)
      invariant FiledByTarget(items) && AllEdges(items) == AllEdges(items0) + multiset(edges[..i])
    {
      var e := edges[i];
      AllEdgesAppend(items, e.target, e);
      FiledByTargetAppend(items, e);
      var longer := AppendEdge(inbound', e.target, e);
      assert ItemsOf(inbound') == items;
      ItemsOfSet(inbound', e.target, longer);
      inbound', items := inbound'[e.target := longer], items[e.target := longer.items];
      assert edges[..i + 1] == edges[..i] + [e];
    }
    assert edges[..|edges|] == edges;
  }

  /** A new slice: the list of `t` and one more edge. */
  method AppendEdge(view: Lists<Edge>, t: Id, e: Edge) returns (longer: List<Edge>)
    ensures fresh(longer) && longer.items == Edges(ItemsOf(view), t) + [e]
  {
    longer := new List((if t in view then view[t].items else []) + [e]);
  }

  method FileSource(inbound: Lists<Edge>, outbound: Lists<Edge>, s: Id, ghost published: Adjacency) returns (inbound': Lists<Edge>)
    requires s in outbound && ItemsOf(outbound) == published && s in published && FiledByTarget(ItemsOf(inbound))
    ensures ItemsOf(outbound) == published && fresh(inbound'.Values - inbound.Values)
    ensures FiledByTarget(ItemsOf(inbound')) && AllEdges(ItemsOf(inbound')) == old(AllEdges(ItemsOf(inbound))) + multiset(published[s])
  {
    hide *;
    ItemsAt(outbound);
    ghost var filed := ItemsOf(inbound);
    inbound' := FileEdges(inbound, outbound[s].items);
    assert ItemsOf(inbound) == filed && ItemsOf(outbound) == published;
  }

  /** The inbound view holds the same edges as the outbound view, each under its target. */
  method RebuildInbound(outbound: Lists<Edge>) returns (inbound: Lists<Edge>)
    ensures fresh(inbound.Values)
    ensures FiledByTarget(ItemsOf(inbound)) && AllEdges(ItemsOf(inbound)) == AllEdges(ItemsOf(outbound))
  {
    hide *;
    ghost var published := ItemsOf(outbound);
    inbound := map[];
    NoItems(inbound);
    StartRebuild(published);
    ItemsAt(outbound);
    var rest := outbound.Keys;
    ghost var left := published;
    while rest != {}
      invariant rest == left.Keys && rest <= outbound.Keys && ItemsOf(outbound) == published && fresh(inbound.Values)
      invariant forall s :: s in rest ==> left[s] == published[s]
      invariant FiledByTarget(ItemsOf(inbound)) && AllEdges(ItemsOf(inbound)) + AllEdges(left) == AllEdges(published)
      decreases |rest|
    {
      var s :| s in rest;
      AllEdgesSplit(left, s);
      inbound := FileSource(inbound, outbound, s, published);
      rest, left := rest - {s}, left - {s};
    }
    NothingLeft(left);
  }

  lemma NothingLeft(left: Adjacency)
    requires left.Keys == {}
    ensures AllEdges(left) == multiset{}
  {
  }

  lemma StartRebuild(outbound: Adjacency)
    ensures FiledByTarget(map[]) && AllEdges(map[]) + AllEdges(outbound) == AllEdges(outbound)
  {
  }

  lemma {:induction false} FoundUnder(g: Adjacency, e: Edge) returns (s: Id)
    requires e in AllEdges(g)
    ensures s in g && e in g[s]
    decreases |g|
  {
    s :| s in g && AllEdges(g) == multiset(g[s]) + AllEdges(g - {s});
    if e !in g[s] {
      assert e !in multiset(g[s]);
      var r := FoundUnder(g - {s}, e);
      s := r;
    }
  }

  /** An edge that only one key can hold occurs overall as often as it does there. */
  lemma {:induction false} CountedUnder(g: Adjacency, e: Edge, s: Id)
    requires forall x :: x in g && x != s ==> e !in g[x]
    ensures AllEdges(g)[e] == multiset(Edges(g, s))[e]
  {
    if e in AllEdges(g - {s}) {
      var x := FoundUnder(g - {s}, e);
    }
    if s in g {
      AllEdgesSplit(g, s);
    } else {
      assert g - {s} == g;
    }
  }

  /** Edge by edge, with multiplicity, the two views agree. */
  lemma ViewsMirror(outbound: Adjacency, inbound: Adjacency, e: Edge)
    requires FiledBySource(outbound) && FiledByTarget(inbound) && AllEdges(inbound) == AllEdges(outbound)
    ensures multiset(Edges(outbound, e.source))[e] == multiset(Edges(inbound, e.target))[e]
  {
    CountedUnder(outbound, e, e.source);
    CountedUnder(inbound, e, e.target);
  }

  /* ---- D.1: the audit ---- */

  /** The callback of the audit: one source. */
  method AuditSource(ids: set<Id>, source: Id, edges: seq<Edge>, errors: seq<DanglingRef>) returns (errors': seq<DanglingRef>)
    ensures errors <= errors'
    ensures ErrorsOf(errors', source) == ErrorsOf(errors, source) + RefsOf(source, DroppedOf(ids, edges))
    ensures forall s :: s != source ==> ErrorsOf(errors', s) == ErrorsOf(errors, s)
    ensures errors' == errors <==> forall k :: 0 <= k < |edges| ==> edges[k].target in ids
  {
    hide ErrorsOf;
    errors' := errors;
    for i := 0 to |edges|
      invariant errors <= errors'
      invariant errors' == errors <==> forall k :: 0 <= k < i ==> edges[k].target in ids
      invariant ErrorsOf(errors', source) == ErrorsOf(errors, source) + RefsOf(source, DroppedOf(ids, edges[..i]))
      invariant forall s :: s != source ==> ErrorsOf(errors', s) == ErrorsOf(errors, s)
    {
      SplitMore(ids, edges, i);
      if edges[i].target !in ids {
        RefsOfMore(source, DroppedOf(ids, edges[..i]), edges[i]);
        RecordMore(source, edges[i], errors');
        errors' := errors' + [DanglingRef(source, edges[i].target, edges[i].kind, edges[i].line)];
      }
    }
    assert edges[..|edges|] == edges;
  }

  /** Every edge whose target is missing is recorded under its source, in order, and nothing else is. */
  ghost predicate Audited(ids: set<Id>, outbound: Adjacency, before: seq<DanglingRef>, after: seq<DanglingRef>) {
    forall s :: ErrorsOf(after, s) == ErrorsOf(before, s) + RefsOf(s, DroppedOf(ids, Edges(outbound, s)))
  }

  /** The audit reports nothing exactly when every target exists. */
  method Audit(ids: set<Id>, outbound: Adjacency, errors: seq<DanglingRef>) returns (errors': seq<DanglingRef>)
    ensures errors <= errors' && Audited(ids, outbound, errors, errors')
    ensures errors' == errors <==> forall s, k :: s in outbound && 0 <= k < |outbound[s]| ==> outbound[s][k].target in ids
  {
    errors' := errors;
    var rest := outbound.Keys;
    NoEdges(ids);
    hide ErrorsOf, RefsOf, DroppedOf;
    while rest != {}
      invariant rest <= outbound.Keys && errors <= errors'
      invariant errors' == errors <==> forall s, k :: s in outbound && s !in rest && 0 <= k < |outbound[s]| ==> outbound[s][k].target in ids
      invariant forall s :: ErrorsOf(errors', s) == ErrorsOf(errors, s) + if s in rest then [] else RefsOf(s, DroppedOf(ids, Edges(outbound, s)))
    {
      var s :| s in rest;
      errors' := AuditSource(ids, s, outbound[s], errors');
      rest := rest - {s};
    }
  }

  /** C.4 and D.1 together. */
  method SweepEdges(ids: set<Id>, outbound: Lists<Edge>) returns (kept: Lists<Edge>, inbound: Lists<Edge>, errors: seq<DanglingRef>)
    ensures fresh(kept.Values) && fresh(inbound.Values)
    ensures Survivors(ids, ItemsOf(outbound), ItemsOf(kept)) && Recorded(ids, ItemsOf(outbound), errors) && NoDangling(ids, ItemsOf(kept))
    ensures FiledByTarget(ItemsOf(inbound)) && AllEdges(ItemsOf(inbound)) == AllEdges(ItemsOf(kept))
    ensures forall d :: d in errors <==> NamesDangling(ids, ItemsOf(outbound), d)
  {
    hide NamesDangling, Survivors, Recorded, FiledByTarget, AllEdges, ItemsOf, Audited;
    ghost var published := ItemsOf(outbound);
    kept, errors := MergeSweep(ids, outbound);
    ghost var items := ItemsOf(kept);
    inbound := RebuildInbound(kept);
    assert ItemsOf(kept) == items && ItemsOf(outbound) == published;
    SweepLeavesNoDangling(ids, published, items);
    errors := Audit(ids, ItemsOf(kept), errors);
  }
}
