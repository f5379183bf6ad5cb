/** The GraphJSON document: export with the dangling guard, import with its derived indexes. The JSON
    text, primitive scores, the summary and the v2 to v3 migration are not part of the model. */
module GraphJson {
  import opened Wrappers
  import opened Graphs
  import opened AkgStore
  import opened Ordering
  import opened DeltaSweep
  import opened DeltaGraft
  import opened DeltaEdges
  import opened NodeStores
  import opened DeltaIndexes

  datatype GraphNodeJson = GraphNodeJson(id: Id, kind: string, name: string, path: string, lineStart: int, lineEnd: int,
                                         properties: map<string, string>)

  datatype GraphDoc = GraphDoc(schemaVersion: int, commitHash: string, version: nat, entrypoints: seq<Id>, folderZones: map<string, string>,
                               nodes: seq<GraphNodeJson>, edges: seq<Edge>, errors: seq<DanglingRef>)

  /* ---- edge keys ---- */

  function Digits(n: nat): string {
    if n < 10 then [('0' as int + n) as char] else Digits(n / 10) + [('0' as int + n % 10) as char]
  }

  function Decimal(n: int): string { if n < 0 then "-" + Digits(-n) else Digits(n) }

  /** sortedPropertiesKey on keys already in ascending order. */
  function PropertiesKey(m: map<string, string>, keys: seq<string>): string
    requires forall k :: k in keys ==> k in m
  {
    if keys == [] then "" else keys[0] + "=" + m[keys[0]] + [1 as char] + PropertiesKey(m, keys[1..])
  }

  const NUL := [0 as char]

  /** The key under which export keeps one edge. */
  ghost function EdgeKey(e: Edge): string {
    e.source + NUL + e.target + NUL + e.kind + NUL + Decimal(e.line)
    + if e.properties == map[] then "" else NUL + PropertiesKey(e.properties, Ascending(e.properties.Keys))
  }

  method ComputeEdgeKey(e: Edge) returns (key: string)
    ensures key == EdgeKey(e)
  {
    key := e.source + NUL + e.target + NUL + e.kind + NUL + Decimal(e.line);
    if |e.properties| > 0 {
      var keys := Enumerate(e.properties.Keys);
      key := key + NUL + PropertiesKey(e.properties, keys);
    }
  }

  /* ---- export: edges ---- */

  /** An edge that does not name its source takes the one it is stored under. */
  ghost function WithSource(e: Edge, source: Id): Edge { if e.source == "" then e.(source := source) else e }

  ghost function Sourced(edges: seq<Edge>, source: Id): seq<Edge> {
    seq(|edges|, i requires 0 <= i < |edges| => WithSource(edges[i], source))
  }

  /** All edges in the order export meets them. */
  ghost function Met(outbound: Adjacency, order: seq<Id>): seq<Edge> {
    if order == [] then [] else Met(outbound, order[..|order| - 1]) + Sourced(Edges(outbound, order[|order| - 1]), order[|order| - 1])
  }

  ghost function KeysOf(edges: seq<Edge>): set<string> { set e | e in edges :: EdgeKey(e) }

  /** The first edge met under each key, in order. */
  ghost function FirstOfEachKey(edges: seq<Edge>): seq<Edge> {
    if edges == [] then []
    else
      var before, e := edges[..|edges| - 1], edges[|edges| - 1];
      if EdgeKey(e) in KeysOf(before) then FirstOfEachKey(before) else FirstOfEachKey(before) + [e]
  }

  lemma KeysOfFirst(edges: seq<Edge>)
    ensures KeysOf(FirstOfEachKey(edges)) == KeysOf(edges)
    ensures forall e :: e in FirstOfEachKey(edges) ==> e in edges
  {
    hide EdgeKey;
    if edges != [] {
      var before, e := edges[..|edges| - 1], edges[|edges| - 1];
      KeysOfFirst(before);
      assert edges == before + [e];
      assert KeysOf(edges) == KeysOf(before) + {EdgeKey(e)};
      assert KeysOf(FirstOfEachKey(before) + [e]) == KeysOf(FirstOfEachKey(before)) + {EdgeKey(e)};
    }
  }

  ghost predicate DistinctKeys(edges: seq<Edge>) {
    forall i, j :: 0 <= i < j < |edges| ==> EdgeKey(edges[i]) != EdgeKey(edges[j])
  }

  lemma FirstAreDistinct(edges: seq<Edge>)
    ensures DistinctKeys(FirstOfEachKey(edges))
  {
    hide EdgeKey;
    if edges != [] {
      var before, e := edges[..|edges| - 1], edges[|edges| - 1];
      FirstAreDistinct(before);
      KeysOfFirst(before);
      forall i | 0 <= i < |FirstOfEachKey(before)|
        ensures EdgeKey(FirstOfEachKey(before)[i]) in KeysOf(before)
      {
        assert FirstOfEachKey(before)[i] in FirstOfEachKey(before);
      }
    }
  }

  lemma DistinctStay(edges: seq<Edge>)
    requires DistinctKeys(edges)
    ensures FirstOfEachKey(edges) == edges
  {
    hide EdgeKey;
    if edges != [] {
      var before, e := edges[..|edges| - 1], edges[|edges| - 1];
      DistinctStay(before);
      assert EdgeKey(e) !in KeysOf(before);
    }
  }

  lemma FirstMore(edges: seq<Edge>, e: Edge)
    ensures FirstOfEachKey(edges + [e]) == if EdgeKey(e) in KeysOf(edges) then FirstOfEachKey(edges) else FirstOfEachKey(edges) + [e]
    ensures KeysOf(edges + [e]) == KeysOf(edges) + {EdgeKey(e)}
  {
    hide EdgeKey;
    assert (edges + [e])[..|edges|] == edges;
  }

  /** The callback over one source. */
  method CollectEdges(source: Id, edges: seq<Edge>, seen: set<string>, collected: seq<Edge>, ghost met: seq<Edge>) returns (seen': set<string>, collected': seq<Edge>)
    requires seen == KeysOf(met) && collected == FirstOfEachKey(met)
    ensures seen' == KeysOf(met + Sourced(edges, source)) && collected' == FirstOfEachKey(met + Sourced(edges, source))
  {
    hide EdgeKey, KeysOf, FirstOfEachKey;
    seen', collected' := seen, collected;
    ghost var all := Sourced(edges, source);
    assert met + all[..0] == met;
    for i := 0 to |edges|
      invariant seen' == KeysOf(met + all[..i]) && collected' == FirstOfEachKey(met + all[..i])
    {
      var e := edges[i];
      if e.source == "" {
        e := e.(source := source);
      }
      assert met + all[..i + 1] == met + all[..i] + [e];
      FirstMore(met + all[..i], e);
      var key := ComputeEdgeKey(e);
      if key !in seen' {
        seen', collected' := seen' + {key}, collected' + [e];
      } else {
        assert seen' + {key} == seen';
      }
    }
    assert all[..|edges|] == all;
  }

  /** Export's edge list before sorting. */
  method ExportEdges(outbound: Adjacency) returns (edges: seq<Edge>)
    ensures edges == FirstOfEachKey(Met(outbound, Ascending(outbound.Keys)))
  {
    hide KeysOf, FirstOfEachKey, Sourced;
    var order := Enumerate(outbound.Keys);
    var seen: set<string> := {};
    edges := [];
    NothingMet();
    for i := 0 to |order|
      invariant seen == KeysOf(Met(outbound, order[..i])) && edges == FirstOfEachKey(Met(outbound, order[..i]))
    {
      assert order[..i + 1][..i] == order[..i] && order[i] in order;
      seen, edges := CollectEdges(order[i], outbound[order[i]], seen, edges, Met(outbound, order[..i]));
    }
    assert order[..|order|] == order;
  }

  lemma NothingMet()
    ensures KeysOf([]) == {} && FirstOfEachKey([]) == []
  {
  }

  /** The order export sorts edges by. */
  predicate EdgeBefore(a: Edge, b: Edge) {
    if a.source != b.source then Less(a.source, b.source)
    else if a.target != b.target then Less(a.target, b.target)
    else if a.kind != b.kind then Less(a.kind, b.kind)
    else a.line < b.line
  }

  lemma EdgeOrder()
    ensures WeakOrder(EdgeBefore)
    ensures forall a, b :: Tied(EdgeBefore, a, b) <==> a.source == b.source && a.target == b.target && a.kind == b.kind && a.line == b.line
  {
    hide Less;
    LessIsTotalOrder();
  }

  predicate NodeBefore(a: GraphNodeJson, b: GraphNodeJson) { Less(a.id, b.id) }

  lemma NodeOrder()
    ensures WeakOrder(NodeBefore)
  {
    hide Less;
    LessIsTotalOrder();
  }

  /** Edges come by source, then target, then kind, then line. */
  ghost predicate EdgesInOrder(edges: seq<Edge>) {
    forall i, j :: 0 <= i < j < |edges| ==> MayPrecede(edges[i], edges[j])
  }

  ghost predicate MayPrecede(a: Edge, b: Edge) {
    !Less(b.source, a.source)
    && (a.source == b.source ==> !Less(b.target, a.target))
    && (a.source == b.source && a.target == b.target ==> !Less(b.kind, a.kind))
    && (a.source == b.source && a.target == b.target && a.kind == b.kind ==> a.line <= b.line)
  }

  ghost predicate SameEnds(a: Edge, b: Edge) { a.source == b.source && a.target == b.target && a.kind == b.kind && a.line == b.line }

  /** Nodes come by ID. */
  ghost predicate NodesInOrder(nodes: seq<GraphNodeJson>) {
    forall i, j :: 0 <= i < j < |nodes| ==> !Less(nodes[j].id, nodes[i].id)
  }

  lemma EdgesSorted(edges: seq<Edge>)
    ensures SortedBy(edges, EdgeBefore) <==> EdgesInOrder(edges)
  {
    hide Less;
    LessIsTotalOrder();
    forall i, j | 0 <= i < j < |edges|
      ensures !EdgeBefore(edges[j], edges[i]) <==> MayPrecede(edges[i], edges[j])
    {
    }
    hide EdgeBefore, MayPrecede;
  }

  lemma NodesSorted(nodes: seq<GraphNodeJson>)
    ensures SortedBy(nodes, NodeBefore) <==> NodesInOrder(nodes)
  {
    hide Less;
    forall i, j | 0 <= i < j < |nodes|
      ensures !NodeBefore(nodes[j], nodes[i]) <==> !Less(nodes[j].id, nodes[i].id)
    {
    }
    hide NodeBefore;
  }

  /* ---- export: nodes ---- */

  ghost function JsonOf(id: Id, n: ResolvedNode): GraphNodeJson
    reads n, n.properties
  {
    GraphNodeJson(if n.id == "" then id else n.id, n.kind, n.name, n.path, n.lineStart, n.lineEnd,
                  if n.properties == null then map[] else n.properties.table)
  }

  ghost function JsonNodes(nodes: map<Id, ResolvedNode>): map<Id, GraphNodeJson>
    reads nodes.Values, set id | id in nodes :: nodes[id].properties
  {
    map id | id in nodes :: JsonOf(id, nodes[id])
  }

  ghost function Listing(nodes: map<Id, GraphNodeJson>, order: seq<Id>): seq<GraphNodeJson>
    requires forall id :: id in order ==> id in nodes
  {
    seq(|order|, i requires 0 <= i < |order| => assert order[i] in order; nodes[order[i]])
  }

  method ExportNodes(nodes: map<Id, ResolvedNode>) returns (list: seq<GraphNodeJson>)
    ensures list == Listing(JsonNodes(nodes), Ascending(nodes.Keys))
  {
    var order := Enumerate(nodes.Keys);
    list := [];
    for i := 0 to |order|
      invariant |list| == i && forall j :: 0 <= j < i ==> order[j] in nodes && list[j] == JsonOf(order[j], nodes[order[j]])
    {
      assert order[i] in order;
      var node := nodes[order[i]];
      var outId := node.id;
      if outId == "" {
        outId := order[i];
      }
      list := list + [GraphNodeJson(outId, node.kind, node.name, node.path, node.lineStart, node.lineEnd,
                                    if node.properties == null then map[] else node.properties.table)];
    }
  }

  /* ---- export: the document ---- */

  /** The serialised part of a graph, as a value. */
  datatype GraphValue = GraphValue(schemaVersion: int, commitHash: string, version: nat, entrypoints: seq<Id>, folderZones: map<string, string>,
                                   nodes: map<Id, GraphNodeJson>, outbound: Adjacency, errors: seq<DanglingRef>)

  ghost function ValueOf(g: CodePropertyGraph): GraphValue
    reads g`schemaVersion, g`commitHash, g`version, g`entrypoints, g`folderZones, g`nodes, g`outbound, g`errors
    reads g.outbound.Values, g.nodes.Values, set id | id in g.nodes :: g.nodes[id].properties
  {
    GraphValue(g.schemaVersion, g.commitHash, g.version, g.entrypoints, g.folderZones, JsonNodes(g.nodes), ItemsOf(g.outbound), g.errors)
  }

  ghost predicate SameHeader(doc: GraphDoc, v: GraphValue) {
    doc.schemaVersion == v.schemaVersion && doc.commitHash == v.commitHash && doc.version == v.version
    && doc.entrypoints == v.entrypoints && doc.folderZones == v.folderZones && doc.errors == v.errors
  }

  /** `doc` is a document export may produce for `v`; only the order of ties is open. */
  ghost predicate IsDocOf(doc: GraphDoc, v: GraphValue) {
    SameHeader(doc, v)
    && NodesInOrder(doc.nodes) && multiset(doc.nodes) == multiset(Listing(v.nodes, Ascending(v.nodes.Keys)))
    && EdgesInOrder(doc.edges) && multiset(doc.edges) == multiset(FirstOfEachKey(Met(v.outbound, Ascending(v.outbound.Keys))))
  }

  /** `n` writes what `node` says, under the ID it is stored at if it has none of its own. */
  ghost predicate WritesNode(n: GraphNodeJson, id: Id, node: ResolvedNode)
    reads node, node.properties
  {
    n.id == (if node.id != "" then node.id else id) && n.kind == node.kind && n.name == node.name && n.path == node.path
    && n.lineStart == node.lineStart && n.lineEnd == node.lineEnd
    && if node.properties == null then n.properties == map[] else n.properties == node.properties.table
  }

  /** `e` writes the stored edge, under the source it is stored at if it names none. */
  ghost predicate WritesEdge(e: Edge, source: Id, stored: Edge) {
    e.source == (if stored.source != "" then stored.source else source) && e.target == stored.target && e.kind == stored.kind && e.line == stored.line
    && e.confidence == stored.confidence && e.isCycle == stored.isCycle && e.properties == stored.properties
  }

  lemma NodesWritten(doc: GraphDoc, nodes: map<Id, ResolvedNode>, n: GraphNodeJson)
    requires multiset(doc.nodes) == multiset(Listing(JsonNodes(nodes), Ascending(JsonNodes(nodes).Keys)))
    ensures n in doc.nodes <==> exists id :: id in nodes && WritesNode(n, id, nodes[id])
  {
    var json := JsonNodes(nodes);
    SameElements(doc.nodes, Listing(json, Ascending(json.Keys)), n);
    ListingHas(json, n);
    hide Listing;
    if id :| id in json && json[id] == n {
      assert WritesNode(n, id, nodes[id]);
    }
    if id :| id in nodes && WritesNode(n, id, nodes[id]) {
      assert json[id] == n;
    }
  }

  lemma EdgesWritten(doc: GraphDoc, outbound: Adjacency, e: Edge)
    requires multiset(doc.edges) == multiset(FirstOfEachKey(Met(outbound, Ascending(outbound.Keys)))) && e in doc.edges
    ensures exists s, k :: s in outbound && 0 <= k < |outbound[s]| && WritesEdge(e, s, outbound[s][k])
  {
    var met := Met(outbound, Ascending(outbound.Keys));
    SameElements(doc.edges, FirstOfEachKey(met), e);
    KeysOfFirst(met);
    var s, k := MetEdge(outbound, Ascending(outbound.Keys), e);
    assert WritesEdge(e, s, outbound[s][k]);
  }

  /** buildGraphJSONDoc. */
  method BuildDoc(g: CodePropertyGraph) returns (doc: GraphDoc)
    ensures IsDocOf(doc, ValueOf(g))
    ensures forall n :: n in doc.nodes <==> exists id :: id in g.nodes && WritesNode(n, id, g.nodes[id])
    ensures forall e :: e in doc.edges ==> exists s, k :: s in ItemsOf(g.outbound) && 0 <= k < |ItemsOf(g.outbound)[s]| && WritesEdge(e, s, ItemsOf(g.outbound)[s][k])
  {
    hide *;
    ghost var v := ValueOf(g);
    ValueIs(g);
    JsonKeys(g.nodes);
    var nodes := ExportNodes(g.nodes);
    var edges := ExportEdges(ItemsOf(g.outbound));
    NodeOrder();
    EdgeOrder();
    nodes := SortSlice(nodes, NodeBefore);
    edges := SortSlice(edges, EdgeBefore);
    doc := GraphDoc(g.schemaVersion, g.commitHash, g.version, g.entrypoints, g.folderZones, nodes, edges, g.errors);
    DocIs(doc, v);
    assert ValueOf(g) == v;
    ValueIs(g);
    forall n
      ensures n in doc.nodes <==> exists id :: id in g.nodes && WritesNode(n, id, g.nodes[id])
    {
      NodesWritten(doc, g.nodes, n);
    }
    forall e | e in doc.edges
      ensures exists s, k :: s in ItemsOf(g.outbound) && 0 <= k < |ItemsOf(g.outbound)[s]| && WritesEdge(e, s, ItemsOf(g.outbound)[s][k])
    {
      EdgesWritten(doc, ItemsOf(g.outbound), e);
    }
  }

  lemma DocIs(doc: GraphDoc, v: GraphValue)
    requires doc.schemaVersion == v.schemaVersion && doc.commitHash == v.commitHash && doc.version == v.version
    requires doc.entrypoints == v.entrypoints && doc.folderZones == v.folderZones && doc.errors == v.errors
    requires SortedBy(doc.nodes, NodeBefore) && SortedBy(doc.edges, EdgeBefore)
    requires multiset(doc.nodes) == multiset(Listing(v.nodes, Ascending(v.nodes.Keys)))
    requires multiset(doc.edges) == multiset(FirstOfEachKey(Met(v.outbound, Ascending(v.outbound.Keys))))
    ensures IsDocOf(doc, v)
  {
    NodesSorted(doc.nodes);
    EdgesSorted(doc.edges);
    hide SortedBy, NodesInOrder, EdgesInOrder, Listing, FirstOfEachKey, Met;
  }

  lemma JsonKeys(nodes: map<Id, ResolvedNode>)
    ensures JsonNodes(nodes).Keys == nodes.Keys
  {
  }

  /* ---- the write-time guard ---- */

  ghost predicate DocClosed(doc: GraphDoc) {
    forall e :: e in doc.edges ==> (exists n :: n in doc.nodes && n.id == e.source) && (exists n :: n in doc.nodes && n.id == e.target)
  }

  /** How many ends of the edges are not in `ids`. */
  ghost function MissingEnds(edges: seq<Edge>, ids: set<Id>): nat {
    if edges == [] then 0
    else
      var e := edges[|edges| - 1];
      MissingEnds(edges[..|edges| - 1], ids) + (if e.source in ids then 0 else 1) + if e.target in ids then 0 else 1
  }

  lemma {:induction false} NoneMissing(edges: seq<Edge>, ids: set<Id>)
    ensures MissingEnds(edges, ids) == 0 <==> forall e :: e in edges ==> e.source in ids && e.target in ids
  {
    if edges != [] {
      NoneMissing(edges[..|edges| - 1], ids);
      assert edges == edges[..|edges| - 1] + [edges[|edges| - 1]];
    }
  }

  /** The guard of ExportGraphJSONVerified: it counts the ends that miss, and passes exactly when every edge
      of the document has both endpoints among the nodes of the document. */
  method CountDangling(doc: GraphDoc) returns (dangling: nat)
    ensures dangling == MissingEnds(doc.edges, set n | n in doc.nodes :: n.id)
    ensures dangling == 0 <==> DocClosed(doc)
  {
    var ids := set n | n in doc.nodes :: n.id;
    assert forall x :: x in ids <==> exists n :: n in doc.nodes && n.id == x;
    dangling := 0;
    for i := 0 to |doc.edges|
      invariant dangling == MissingEnds(doc.edges[..i], ids)
    {
      assert doc.edges[..i + 1][..i] == doc.edges[..i];
      if doc.edges[i].source !in ids {
        dangling := dangling + 1;
      }
      if doc.edges[i].target !in ids {
        dangling := dangling + 1;
      }
    }
    assert doc.edges[..|doc.edges|] == doc.edges;
    NoneMissing(doc.edges, ids);
  }

  /** The edges export writes for `v`, and the IDs it writes nodes under. */
  ghost function Exported(v: GraphValue): seq<Edge> { FirstOfEachKey(Met(v.outbound, Ascending(v.outbound.Keys))) }

  ghost function ExportedIds(v: GraphValue): set<Id> { set id | id in v.nodes :: v.nodes[id].id }

  /** Whether the guard lets `v` through, whatever order the document has. */
  ghost predicate GuardPasses(v: GraphValue) {
    forall e :: e in Exported(v) ==> e.source in ExportedIds(v) && e.target in ExportedIds(v)
  }

  lemma ListingHas(nodes: map<Id, GraphNodeJson>, n: GraphNodeJson)
    ensures n in Listing(nodes, Ascending(nodes.Keys)) <==> exists id :: id in nodes && nodes[id] == n
  {
    var order := Ascending(nodes.Keys);
    var list := Listing(nodes, order);
    if n in list {
      var i :| 0 <= i < |list| && list[i] == n;
      assert order[i] in order && nodes[order[i]] == n;
    }
    if id :| id in nodes && nodes[id] == n {
      assert id in order;
      var i :| 0 <= i < |order| && order[i] == id;
      assert list[i] == n;
    }
  }

  lemma SameElements<T>(a: seq<T>, b: seq<T>, x: T)
    requires multiset(a) == multiset(b)
    ensures x in a <==> x in b
  {
    assert x in a <==> x in multiset(a);
    assert x in b <==> x in multiset(b);
  }

  lemma ListedIds(doc: GraphDoc, v: GraphValue, x: Id)
    requires multiset(doc.nodes) == multiset(Listing(v.nodes, Ascending(v.nodes.Keys)))
    ensures (exists n :: n in doc.nodes && n.id == x) <==> x in ExportedIds(v)
  {
    hide Listing;
    forall n
      ensures n in doc.nodes <==> exists id :: id in v.nodes && v.nodes[id] == n
    {
      SameElements(doc.nodes, Listing(v.nodes, Ascending(v.nodes.Keys)), n);
      ListingHas(v.nodes, n);
    }
    if x in ExportedIds(v) {
      var id :| id in v.nodes && v.nodes[id].id == x;
      assert v.nodes[id] in doc.nodes;
    }
  }

  lemma GuardIsAboutTheGraph(doc: GraphDoc, v: GraphValue)
    requires IsDocOf(doc, v)
    ensures DocClosed(doc) <==> GuardPasses(v)
  {
    hide EdgesInOrder, NodesInOrder, Listing, FirstOfEachKey, Met, ExportedIds;
    forall e
      ensures e in doc.edges <==> e in Exported(v)
    {
      SameElements(doc.edges, Exported(v), e);
    }
    forall x
      ensures (exists n :: n in doc.nodes && n.id == x) <==> x in ExportedIds(v)
    {
      ListedIds(doc, v, x);
    }
    hide IsDocOf, Exported;
  }

  method ExportVerified(g: CodePropertyGraph) returns (r: Result<GraphDoc>)
    ensures r.Ok? <==> GuardPasses(ValueOf(g))
    ensures r.Ok? ==> IsDocOf(r.value, ValueOf(g))
  {
    hide *;
    ghost var v := ValueOf(g);
    var doc := BuildDoc(g);
    assert ValueOf(g) == v;
    GuardIsAboutTheGraph(doc, v);
    var dangling := CountDangling(doc);
    r := if dangling > 0 then Err("dangling edges") else Ok(doc);
  }

  /* ---- the guard and transactions ---- */

  /** Nodes are written under the ID they are stored under. */
  ghost predicate UnderOwnIds(nodes: map<Id, GraphNodeJson>) {
    forall id :: id in nodes ==> nodes[id].id == id
  }

  /** An edge names the source it is stored under, or none. */
  ghost predicate OwnSources(outbound: Adjacency) {
    forall s, k :: s in outbound && 0 <= k < |outbound[s]| ==> outbound[s][k].source == s || outbound[s][k].source == ""
  }

  lemma MetEdge(outbound: Adjacency, order: seq<Id>, e: Edge) returns (s: Id, k: nat)
    requires e in Met(outbound, order)
    ensures s in outbound && k < |outbound[s]| && e == WithSource(outbound[s][k], s)
  {
    var n := |order| - 1;
    if e in Sourced(Edges(outbound, order[n]), order[n]) {
      s := order[n];
      k :| 0 <= k < |Edges(outbound, s)| && Sourced(Edges(outbound, s), s)[k] == e;
    } else {
      s, k := MetEdge(outbound, order[..n], e);
    }
  }

  /** A graph whose edges have both endpoints is never rejected by the guard, provided nodes sit under
      their own IDs and edges carry their own source. */
  lemma GuardAccepts(v: GraphValue)
    requires NoDangling(v.nodes.Keys, v.outbound) && UnderOwnIds(v.nodes) && OwnSources(v.outbound)
    ensures GuardPasses(v)
  {
    KeysOfFirst(Met(v.outbound, Ascending(v.outbound.Keys)));
    forall e | e in Exported(v)
      ensures e.source in ExportedIds(v) && e.target in ExportedIds(v)
    {
      var s, k := MetEdge(v.outbound, Ascending(v.outbound.Keys), e);
      assert BothEnds(v.nodes.Keys, s, v.outbound[s][k]);
      assert v.nodes[s].id == s && v.nodes[e.target].id == e.target;
    }
  }

  /* ---- import ---- */

  /** The nodes a document describes: a later entry replaces an earlier one, an empty ID is skipped. */
  ghost function NodesFrom(list: seq<GraphNodeJson>): map<Id, GraphNodeJson> {
    if list == [] then map[]
    else
      var before, n := NodesFrom(list[..|list| - 1]), list[|list| - 1];
      if n.id == "" then before else before[n.id := n]
  }

  /** Edges with an empty endpoint are skipped. */
  ghost predicate Importable(e: Edge) { e.source != "" && e.target != "" }

  ghost function OutFrom(edges: seq<Edge>): Adjacency {
    if edges == [] then map[]
    else
      var before, e := OutFrom(edges[..|edges| - 1]), edges[|edges| - 1];
      if Importable(e) then before[e.source := Edges(before, e.source) + [e]] else before
  }

  ghost function InFrom(edges: seq<Edge>): Adjacency {
    if edges == [] then map[]
    else
      var before, e := InFrom(edges[..|edges| - 1]), edges[|edges| - 1];
      if Importable(e) then before[e.target := Edges(before, e.target) + [e]] else before
  }

  method ImportNode(n: GraphNodeJson) returns (node: ResolvedNode)
    ensures fresh(node) && node.properties != null && fresh(node.properties) && JsonOf(n.id, node) == n
  {
    var props := new Props(n.properties);
    node := new ResolvedNode(n.id, n.kind, n.name, n.path, n.lineStart, n.lineEnd, props);
  }

  lemma JsonNodesPlus(nodes: map<Id, ResolvedNode>, id: Id, node: ResolvedNode)
    ensures JsonNodes(nodes[id := node]) == JsonNodes(nodes)[id := JsonOf(id, node)]
  {
  }

  method ImportNodes(list: seq<GraphNodeJson>) returns (nodes: map<Id, ResolvedNode>)
    ensures JsonNodes(nodes) == NodesFrom(list) && nodes.Keys == NodesFrom(list).Keys
  {
    nodes := map[];
    assert JsonNodes(nodes) == map[];
    for i := 0 to |list|
      invariant JsonNodes(nodes) == NodesFrom(list[..i])
    {
      hide JsonNodes, JsonOf;
      assert list[..i + 1][..i] == list[..i];
      if list[i].id != "" {
        ghost var before := JsonNodes(nodes);
        var node := ImportNode(list[i]);
        assert JsonNodes(nodes) == before;
        JsonNodesPlus(nodes, list[i].id, node);
        nodes := nodes[list[i].id := node];
      }
    }
    assert list[..|list|] == list;
    JsonKeys(nodes);
  }

  lemma AppendIsEdges(view: Adjacency, s: Id, e: Edge)
    ensures Append(view, map[], s, e) == view[s := Edges(view, s) + [e]]
  {
  }

  lemma StagedInValues<T>(work: Lists<T>, key: string)
    ensures key in work ==> work[key] in work.Values
  {
  }

  /** One edge, appended in place to the slice of its source and to the slice of its target. */
  method ImportEdge(outbound: Lists<Edge>, inbound: Lists<Edge>, e: Edge) returns (outbound': Lists<Edge>, inbound': Lists<Edge>)
    requires Private(outbound, map[]) && Private(inbound, map[]) && outbound.Values !! inbound.Values
    modifies outbound.Values, inbound.Values
    ensures Private(outbound', map[]) && Private(inbound', map[]) && outbound'.Values !! inbound'.Values
    ensures fresh(outbound'.Values - outbound.Values) && fresh(inbound'.Values - inbound.Values)
    ensures ItemsOf(outbound') == old(ItemsOf(outbound))[e.source := Edges(old(ItemsOf(outbound)), e.source) + [e]]
    ensures ItemsOf(inbound') == old(ItemsOf(inbound))[e.target := Edges(old(ItemsOf(inbound)), e.target) + [e]]
  {
    hide *;
    ghost var out, into := ItemsOf(outbound), ItemsOf(inbound);
    AppendIsEdges(out, e.source, e);
    AppendIsEdges(into, e.target, e);
    NoItems<Edge>(map[]);
    StagedInValues(outbound, e.source);
    StagedInValues(inbound, e.target);
    outbound' := StageAppend(outbound, map[], e.source, e);
    assert ItemsOf(inbound) == into;
    ghost var out' := ItemsOf(outbound');
    inbound' := StageAppend(inbound, map[], e.target, e);
    assert ItemsOf(outbound') == out';
  }

  method ImportEdges(edges: seq<Edge>) returns (outbound: Lists<Edge>, inbound: Lists<Edge>)
    ensures ItemsOf(outbound) == OutFrom(edges) && ItemsOf(inbound) == InFrom(edges)
    ensures fresh(outbound.Values) && fresh(inbound.Values)
  {
    outbound, inbound := map[], map[];
    assert Private(outbound, map[]) && Private(inbound, map[]);
    NoItems(outbound);
    hide ItemsOf, Private;
    for i := 0 to |edges|
      invariant Private(outbound, map[]) && Private(inbound, map[]) && outbound.Values !! inbound.Values
      invariant fresh(outbound.Values) && fresh(inbound.Values)
      invariant ItemsOf(outbound) == OutFrom(edges[..i]) && ItemsOf(inbound) == InFrom(edges[..i])
    {
      assert edges[..i + 1][..i] == edges[..i];
      var e := edges[i];
      if e.source != "" && e.target != "" {
        outbound, inbound := ImportEdge(outbound, inbound, e);
      }
    }
    assert edges[..|edges|] == edges;
  }

  /* ---- import: derived indexes ---- */

  /** The three indexes import builds while it walks the nodes. */
  datatype Derived = Derived(kind: Buckets, file: Buckets, hash: Lists<Id>)

  /** What they hold once the nodes in `done` have been visited. */
  ghost predicate DerivedFrom(d: Derived, b: Grafting, done: set<Id>)
    reads d.kind.Values, d.file.Values, d.hash.Values
  {
    BucketsGrafted(d.kind, d.file, map[], map[], b, done) && HashListsGrafted(d.hash, map[], b, done)
  }

  method DeriveNode(d: Derived, id: Id, node: ResolvedNode, norm: string -> string, ghost b: Grafting, ghost done: set<Id>) returns (d': Derived)
    requires DerivedFrom(d, b, done) && Describes(b, norm) && id in b.nodes && b.nodes[id] == node && id !in done && norm(node.path) != ""
    modifies d.kind.Values, d.file.Values, d.hash.Values
    ensures DerivedFrom(d', b, done + {id})
    ensures fresh(d'.kind.Values - d.kind.Values) && fresh(d'.file.Values - d.file.Values) && fresh(d'.hash.Values - d.hash.Values)
  {
    hide *;
    DescribesAt(b, norm, id);
    DerivedParts(d, b, done);
    var h := node.Hash();
    var kind', file' := DeriveBuckets(d, id, node, norm(node.path), b, done);
    var hash' := DeriveHash(d.hash, kind', file', id, h, b, done);
    d' := Derived(kind', file', hash');
    DerivedWhole(d', b, done + {id});
  }

  method DeriveBuckets(d: Derived, id: Id, node: ResolvedNode, normPath: string, ghost b: Grafting, ghost done: set<Id>) returns (kind': Buckets, file': Buckets)
    requires BucketsGrafted(d.kind, d.file, map[], map[], b, done) && HashListsGrafted(d.hash, map[], b, done) && normPath != ""
    requires id in b.kinds && b.kinds[id] == node.kind && id in b.paths && b.paths[id] == normPath
    modifies d.kind.Values, d.file.Values
    ensures BucketsGrafted(kind', file', map[], map[], b, done + {id}) && HashListsGrafted(d.hash, map[], b, done)
    ensures fresh(kind'.Values - d.kind.Values) && fresh(file'.Values - d.file.Values)
  {
    hide *;
    kind', file' := GraftBuckets(d.kind, d.file, map[], map[], id, node, normPath, b, done);
  }

  method DeriveHash(hash: Lists<Id>, kind: Buckets, file: Buckets, id: Id, h: string, ghost b: Grafting, ghost done: set<Id>) returns (hash': Lists<Id>)
    requires BucketsGrafted(kind, file, map[], map[], b, done + {id}) && HashListsGrafted(hash, map[], b, done)
    requires id in b.hashes && b.hashes[id] == h && id !in done
    modifies hash.Values
    ensures BucketsGrafted(kind, file, map[], map[], b, done + {id}) && HashListsGrafted(hash', map[], b, done + {id}) && fresh(hash'.Values - hash.Values)
  {
    hide *;
    hash' := GraftHash(hash, map[], id, h, b, done);
  }

  lemma DerivedParts(d: Derived, b: Grafting, done: set<Id>)
    requires DerivedFrom(d, b, done)
    ensures BucketsGrafted(d.kind, d.file, map[], map[], b, done) && HashListsGrafted(d.hash, map[], b, done)
  {
  }

  lemma DerivedWhole(d: Derived, b: Grafting, done: set<Id>)
    requires BucketsGrafted(d.kind, d.file, map[], map[], b, done) && HashListsGrafted(d.hash, map[], b, done)
    ensures DerivedFrom(d, b, done)
  {
  }

  /** Nothing was indexed before. */
  ghost predicate FromNothing(b: Grafting) { b.kindBuckets == map[] && b.fileBuckets == map[] && b.hashLists == map[] && b.lineLists == map[] }

  lemma NothingDerived(b: Grafting)
    requires FromNothing(b)
    ensures DerivedFrom(Derived(map[], map[], map[]), b, {})
  {
    hide Grafted, HashesGrafted;
    EmptyBuckets(map[], b.kinds);
    EmptyBuckets(map[], b.paths);
    EmptyLists(map[], map[], b);
    assert BucketsOf(map[]) == map[] && ItemsOf<Id>(map[]) == map[];
  }

  /** The index loop of ImportGraphJSON. */
  method DeriveIndexes(nodes: map<Id, ResolvedNode>, norm: string -> string, ghost b: Grafting) returns (d: Derived)
    requires b.nodes == nodes && Describes(b, norm) && FromNothing(b) && forall p :: norm(p) != ""
    ensures DerivedFrom(d, b, nodes.Keys) && fresh(d.kind.Values) && fresh(d.file.Values) && fresh(d.hash.Values)
  {
    hide *;
    d := Derived(map[], map[], map[]);
    NothingDerived(b);
    var rest := nodes.Keys;
    ghost var done: set<Id> := {};
    while rest != {}
      invariant done <= nodes.Keys && rest == nodes.Keys - done
      invariant DerivedFrom(d, b, done) && fresh(d.kind.Values) && fresh(d.file.Values) && fresh(d.hash.Values)
    {
      var id :| id in rest;
      d := DeriveNode(d, id, nodes[id], norm, b, done);
      rest, done := rest - {id}, done + {id};
    }
    assert done == nodes.Keys;
  }

  lemma AddedToNothing(buckets: map<string, set<Id>>, attr: map<Id, string>)
    requires IdsAdded(map[], buckets, attr, attr.Keys)
    ensures ExactIds(buckets, attr)
  {
    hide Filed;
  }

  lemma HashesAddedToNothing(lists: map<string, seq<Id>>, hashes: map<Id, string>)
    requires HashesAdded(map[], lists, hashes, hashes.Keys)
    ensures ExactHashLists(lists, hashes)
  {
    hide Filed;
  }

  lemma ListsExactAsSets(lists: map<string, seq<Id>>, hashes: map<Id, string>)
    requires ExactHashLists(lists, hashes)
    ensures ExactHashes(lists, hashes)
  {
    hide Filed;
    forall h | h != ""
      ensures IdsIn(ListAt(lists, h)) == Filed(hashes, hashes.Keys, h)
    {
      IdsOfSum(ListAt(lists, h), [], Filed(hashes, hashes.Keys, h));
    }
  }

  lemma DerivedIs(d: Derived, b: Grafting)
    requires DerivedFrom(d, b, b.nodes.Keys) && FromNothing(b)
    requires b.kinds.Keys == b.nodes.Keys && b.paths.Keys == b.nodes.Keys && b.hashes.Keys == b.nodes.Keys
    ensures ExactIds(BucketsOf(d.kind), b.kinds) && ExactIds(BucketsOf(d.file), b.paths) && ExactHashLists(ItemsOf(d.hash), b.hashes)
  {
    hide Grafted, Filed, IdsAdded, ExactIds, HashesGrafted;
    GraftedPublished(d.kind, map[], b.kindBuckets, b.kinds, b.nodes.Keys);
    GraftedPublished(d.file, map[], b.fileBuckets, b.paths, b.nodes.Keys);
    assert map[] + d.kind == d.kind && map[] + d.file == d.file;
    AddedToNothing(BucketsOf(d.kind), b.kinds);
    AddedToNothing(BucketsOf(d.file), b.paths);
    HashesPublished(map[], ItemsOf(d.hash), b.hashes, b.nodes.Keys);
    assert map[] + ItemsOf(d.hash) == ItemsOf(d.hash);
    HashesAddedToNothing(ItemsOf(d.hash), b.hashes);
  }

  /** The imported graph's nodes with the indexes derived from them. */
  ghost predicate IndexedFor(g: CodePropertyGraph, norm: string -> string)
    reads g`nodes, g`kindIndex, g`fileIndex, g`hashIndex, g.kindIndex.Values, g.fileIndex.Values, g.hashIndex.Values
    reads g.nodes.Values, set id | id in g.nodes :: g.nodes[id].properties
  {
    ExactIds(BucketsOf(g.kindIndex), KindsOf(g.nodes)) && ExactIds(BucketsOf(g.fileIndex), PathsOf(g.nodes, norm))
    && ExactHashLists(ItemsOf(g.hashIndex), HashesOf(g.nodes))
  }

  lemma StartsFromNothing(nodes: map<Id, ResolvedNode>, norm: string -> string)
    ensures var b := GraftingOf(nodes, norm, Indexes(map[], map[], map[], map[]));
            FromNothing(b) && b.nodes == nodes && Describes(b, norm) && b.kinds.Keys == b.nodes.Keys && b.paths.Keys == b.nodes.Keys && b.hashes.Keys == b.nodes.Keys
            && b.kinds == KindsOf(nodes) && b.paths == PathsOf(nodes, norm) && b.hashes == HashesOf(nodes)
  {
  }

  method InstallIndexes(g: CodePropertyGraph, norm: string -> string)
    requires forall p :: norm(p) != ""
    modifies g`kindIndex, g`fileIndex, g`hashIndex
    ensures IndexedFor(g, norm)
  {
    hide *;
    ghost var b := GraftingOf(g.nodes, norm, Indexes(map[], map[], map[], map[]));
    StartsFromNothing(g.nodes, norm);
    ghost var kinds, paths, hashes := KindsOf(g.nodes), PathsOf(g.nodes, norm), HashesOf(g.nodes);
    var d := DeriveIndexes(g.nodes, norm, b);
    assert HashesOf(g.nodes) == hashes;
    DerivedIs(d, b);
    StoreIndexes(g, d, norm, b);
  }

  method StoreIndexes(g: CodePropertyGraph, d: Derived, norm: string -> string, ghost b: Grafting)
    requires ExactIds(BucketsOf(d.kind), b.kinds) && ExactIds(BucketsOf(d.file), b.paths) && ExactHashLists(ItemsOf(d.hash), b.hashes)
    requires b.kinds == KindsOf(g.nodes) && b.paths == PathsOf(g.nodes, norm) && b.hashes == HashesOf(g.nodes)
    modifies g`kindIndex, g`fileIndex, g`hashIndex
    ensures IndexedFor(g, norm)
  {
    hide ExactIds, ExactHashLists, BucketsOf, KindsOf, PathsOf, HashesOf, ItemsOf;
    g.kindIndex := d.kind;
    g.fileIndex := d.file;
    g.hashIndex := d.hash;
  }

  /** ImportGraphJSON up to the migration of documents older than the current schema. */
  method ImportGraph(doc: GraphDoc, norm: string -> string) returns (r: Result<CodePropertyGraph>)
    requires forall p :: norm(p) != ""
    ensures r.Err? <==> (doc.schemaVersion < 2 && doc.schemaVersion != 0) || doc.schemaVersion > 3
    ensures r.Ok? ==> fresh(r.value) && ValueOf(r.value) == Imported(doc) && ItemsOf(r.value.inbound) == InFrom(doc.edges)
    ensures r.Ok? ==> IndexedFor(r.value, norm) && r.value.lineIndex == map[]
  {
    assert CURRENT_SCHEMA_VERSION == 3;
    hide *;
    if doc.schemaVersion < 2 && doc.schemaVersion != 0 {
      return Err("schema v1 predates the minimum supported schema");
    }
    if doc.schemaVersion > CURRENT_SCHEMA_VERSION {
      return Err("schema exceeds the maximum supported version");
    }
    var g := ReadIndexed(doc, norm);
    r := Ok(g);
  }

  method ReadIndexed(doc: GraphDoc, norm: string -> string) returns (g: CodePropertyGraph)
    requires forall p :: norm(p) != ""
    ensures fresh(g) && ValueOf(g) == Imported(doc) && ItemsOf(g.inbound) == InFrom(doc.edges) && IndexedFor(g, norm) && g.lineIndex == map[]
  {
    hide *;
    g := ReadGraph(doc);
    ghost var v, into := ValueOf(g), ItemsOf(g.inbound);
    InstallIndexes(g, norm);
    assert ValueOf(g) == v && ItemsOf(g.inbound) == into;
  }

  /** The graph a document describes, without its indexes. */
  method ReadGraph(doc: GraphDoc) returns (g: CodePropertyGraph)
    ensures fresh(g) && ValueOf(g) == Imported(doc) && ItemsOf(g.inbound) == InFrom(doc.edges) && g.lineIndex == map[]
  {
    hide *;
    var nodes := ImportNodes(doc.nodes);
    ghost var n := JsonNodes(nodes);
    var outbound, inbound := ImportEdges(doc.edges);
    assert JsonNodes(nodes) == n;
    g := new CodePropertyGraph.Empty(doc.commitHash);
    FillGraph(g, doc, nodes, outbound, inbound);
  }

  method FillGraph(g: CodePropertyGraph, doc: GraphDoc, nodes: map<Id, ResolvedNode>, outbound: Lists<Edge>, inbound: Lists<Edge>)
    requires g.commitHash == doc.commitHash && g.lineIndex == map[]
    requires JsonNodes(nodes) == NodesFrom(doc.nodes) && ItemsOf(outbound) == OutFrom(doc.edges) && ItemsOf(inbound) == InFrom(doc.edges)
    modifies g`schemaVersion, g`version, g`entrypoints, g`folderZones, g`errors, g`nodes, g`outbound, g`inbound
    ensures ValueOf(g) == Imported(doc) && ItemsOf(g.inbound) == InFrom(doc.edges)
  {
    hide *;
    ghost var n, out, into := JsonNodes(nodes), ItemsOf(outbound), ItemsOf(inbound);
    FillHeader(g, doc);
    assert JsonNodes(nodes) == n && ItemsOf(outbound) == out && ItemsOf(inbound) == into;
    FillMaps(g, nodes, outbound, inbound, n);
    ValueIs(g);
    ImportedIs(doc);
  }

  method FillHeader(g: CodePropertyGraph, doc: GraphDoc)
    modifies g`schemaVersion, g`version, g`entrypoints, g`folderZones, g`errors
    ensures g.schemaVersion == doc.schemaVersion && g.version == doc.version && g.entrypoints == doc.entrypoints
    ensures g.folderZones == doc.folderZones && g.errors == doc.errors
  {
    g.schemaVersion, g.version, g.entrypoints, g.folderZones, g.errors := doc.schemaVersion, doc.version, doc.entrypoints, doc.folderZones, doc.errors;
  }

  method FillMaps(g: CodePropertyGraph, nodes: map<Id, ResolvedNode>, outbound: Lists<Edge>, inbound: Lists<Edge>, ghost n: map<Id, GraphNodeJson>)
    requires JsonNodes(nodes) == n
    modifies g`nodes, g`outbound, g`inbound
    ensures JsonNodes(g.nodes) == n && ItemsOf(g.outbound) == old(ItemsOf(outbound)) && ItemsOf(g.inbound) == old(ItemsOf(inbound))
  {
    hide *;
    g.nodes, g.outbound, g.inbound := nodes, outbound, inbound;
  }

  lemma ValueIs(g: CodePropertyGraph)
    ensures ValueOf(g) == GraphValue(g.schemaVersion, g.commitHash, g.version, g.entrypoints, g.folderZones, JsonNodes(g.nodes), ItemsOf(g.outbound), g.errors)
  {
  }

  lemma ImportedIs(doc: GraphDoc)
    ensures Imported(doc) == GraphValue(doc.schemaVersion, doc.commitHash, doc.version, doc.entrypoints, doc.folderZones, NodesFrom(doc.nodes), OutFrom(doc.edges), doc.errors)
  {
  }

  /* ---- rebuildIndexes ---- */

  /** Bucket the nodes by file, in any order, each bucket an appended-to list of its own. */
  method LinesByPath(nodes: map<Id, ResolvedNode>, norm: string -> string) returns (byPath: Lists<ResolvedNode>)
    requires forall p :: norm(p) != ""
    ensures fresh(byPath.Values) && Private(byPath, map[]) && byPath.Keys == PathsIn(PathsOf(nodes, norm), nodes.Keys)
    ensures LinesGrafted(ItemsOf(byPath), map[], nodes, PathsOf(nodes, norm), nodes.Keys)
  {
    hide *;
    byPath := map[];
    var rest := nodes.Keys;
    ghost var done: set<Id>, paths := {}, PathsOf(nodes, norm);
    ghost var items: map<string, seq<ResolvedNode>> := map[];
    StartBucketing(nodes, paths, byPath, norm);
    while rest != {}
      invariant done <= nodes.Keys && rest == nodes.Keys - done && ItemsOf(byPath) == items && fresh(byPath.Values)
      invariant Private(byPath, map[]) && LinesGrafted(items, map[], nodes, paths, done) && byPath.Keys == PathsIn(paths, done)
    {
      var id :| id in rest;
      var normPath := norm(nodes[id].path);
      PathIs(nodes, norm, id);
      LineGraftedMore(items, map[], nodes, paths, done, id);
      PathsMore(paths, done, id);
      if normPath != "" {
        assert normPath in byPath ==> byPath[normPath] in byPath.Values;
        byPath := StageAppend(byPath, map[], normPath, nodes[id]);
        items := Append(items, map[], normPath, nodes[id]);
      }
      rest, done := rest - {id}, done + {id};
    }
    assert done == nodes.Keys;
  }

  lemma StartBucketing(nodes: map<Id, ResolvedNode>, paths: map<Id, string>, byPath: Lists<ResolvedNode>, norm: string -> string)
    requires byPath == map[] && paths == PathsOf(nodes, norm)
    ensures ItemsOf(byPath) == map[] && Private(byPath, map[]) && LinesGrafted(map[], map[], nodes, paths, {}) && PathsIn(paths, {}) == {}
  {
    NoLines(nodes, paths);
  }

  lemma PathIs(nodes: map<Id, ResolvedNode>, norm: string -> string, id: Id)
    requires id in nodes
    ensures id in PathsOf(nodes, norm) && PathsOf(nodes, norm)[id] == norm(nodes[id].path)
  {
  }

  lemma PathsMore(paths: map<Id, string>, done: set<Id>, id: Id)
    requires id in paths
    ensures PathsIn(paths, done + {id}) == PathsIn(paths, done) + {paths[id]}
  {
  }

  lemma NoLines(nodes: map<Id, ResolvedNode>, paths: map<Id, string>)
    ensures LinesGrafted(map[], map[], nodes, paths, {})
  {
  }

  /** The lists of the files that have nodes list exactly those; any other list is as it was. */
  ghost predicate LinesRebuilt(before: map<string, seq<ResolvedNode>>, after: map<string, seq<ResolvedNode>>, nodes: map<Id, NodeView>, paths: map<Id, string>) {
    forall p :: SpansAt(LinesOf(after), p) == if p in PathsIn(paths, nodes.Keys) then SpansOf(nodes, Filed(paths, paths.Keys, p)) else SpansAt(LinesOf(before), p)
  }

  lemma Rebuilt(before: map<string, seq<ResolvedNode>>, byPath: map<string, seq<ResolvedNode>>, sorted: map<string, seq<ResolvedNode>>,
                nodes: map<Id, ResolvedNode>, norm: string -> string)
    requires LinesGrafted(byPath, map[], nodes, PathsOf(nodes, norm), nodes.Keys) && Rearranged(byPath, sorted, byPath.Keys)
    requires byPath.Keys == PathsIn(PathsOf(nodes, norm), nodes.Keys)
    ensures LinesRebuilt(before, before + sorted, NodesOf(nodes), Paths(NodesOf(nodes), norm))
  {
    AttributesOf(nodes, norm);
    var paths := PathsOf(nodes, norm);
    assert paths.Keys == nodes.Keys && NodesOf(nodes).Keys == nodes.Keys;
    hide PathsOf, Paths, Filed, NodesOf, SpansOf, SortedByLine, PathsIn;
    forall p
      ensures SpansAt(LinesOf(before + sorted), p) == if p in byPath then SpansOf(NodesOf(nodes), Filed(paths, paths.Keys, p)) else SpansAt(LinesOf(before), p)
    {
      if p in byPath {
        SameMembers(sorted[p], byPath[p]);
        assert Members(sorted[p]) == Members([]) + NodesAt(nodes, Filed(paths, nodes.Keys, p));
        SpansOfMembers(sorted[p], [], nodes, Filed(paths, nodes.Keys, p));
        assert SpansIn([]) == {};
      }
    }
  }

  lemma RebuiltFromNothing(after: map<string, seq<ResolvedNode>>, nodes: map<Id, NodeView>, paths: map<Id, string>)
    requires LinesRebuilt(map[], after, nodes, paths) && paths.Keys == nodes.Keys
    ensures ExactLines(LinesOf(after), nodes, paths)
  {
    hide LinesOf, SpansOf;
    assert LinesOf(map[]) == map[] by { NoLinesOf(); }
    forall p | p !in PathsIn(paths, nodes.Keys)
      ensures SpansOf(nodes, Filed(paths, paths.Keys, p)) == {}
    {
      assert Filed(paths, paths.Keys, p) == {};
      NoSpans(nodes);
    }
  }

  lemma NoLinesOf()
    ensures LinesOf(map[]) == map[]
  {
  }

  lemma NoSpans(nodes: map<Id, NodeView>)
    ensures SpansOf(nodes, {}) == {}
  {
  }

  ghost predicate SourceOk(ids: set<Id>, source: Id, edges: seq<Edge>) {
    forall k :: 0 <= k < |edges| ==> BothEnds(ids, source, edges[k])
  }

  /** The callback of the check: it stops at the first edge that misses an endpoint. */
  method CheckSource(ids: set<Id>, source: Id, edges: seq<Edge>) returns (ok: bool)
    ensures ok <==> SourceOk(ids, source, edges)
  {
    for i := 0 to |edges|
      invariant forall k :: 0 <= k < i ==> BothEnds(ids, source, edges[k])
    {
      assert BothEnds(ids, source, edges[i]) <==> source in ids && edges[i].target in ids;
      if source !in ids || edges[i].target !in ids {
        return false;
      }
    }
    return true;
  }

  /** Whether every edge has both endpoints: the Verified flag of status reports. */
  method CheckEndpoints(ids: set<Id>, outbound: Adjacency) returns (verified: bool)
    ensures verified <==> NoDangling(ids, outbound)
  {
    verified := true;
    var rest := outbound.Keys;
    while rest != {}
      invariant rest <= outbound.Keys
      invariant verified <==> forall s :: s in outbound && s !in rest ==> SourceOk(ids, s, outbound[s])
    {
      var s :| s in rest;
      rest := rest - {s};
      var ok := CheckSource(ids, s, outbound[s]);
      verified := verified && ok;
    }
    if !verified {
      ghost var s :| s in outbound && !SourceOk(ids, s, outbound[s]);
      assert !NoDangling(ids, outbound);
    } else {
      forall s, k | s in outbound && 0 <= k < |outbound[s]|
        ensures BothEnds(ids, s, outbound[s][k])
      {
        assert SourceOk(ids, s, outbound[s]);
      }
    }
  }

  /** The bucketing, sorting and setting of rebuildIndexes. */
  method RebuildLines(g: CodePropertyGraph, norm: string -> string)
    requires forall p :: norm(p) != ""
    modifies g`lineIndex
    ensures LinesRebuilt(old(ItemsOf(g.lineIndex)), ItemsOf(g.lineIndex), NodesOf(g.nodes), Paths(NodesOf(g.nodes), norm))
    ensures AllSorted(old(ItemsOf(g.lineIndex))) ==> AllSorted(ItemsOf(g.lineIndex))
  {
    hide *;
    ghost var before, views := ItemsOf(g.lineIndex), NodesOf(g.nodes);
    var byPath := LinesByPath(g.nodes, norm);
    ghost var staged := ItemsOf(byPath);
    ItemsAt(byPath);
    assert forall a, b :: a in byPath && b in g.lineIndex ==> byPath[a] in byPath.Values && g.lineIndex[b] in g.lineIndex.Values;
    BothPrivate(byPath, g.lineIndex);
    var line' := PublishLines(g.lineIndex, byPath);
    assert NodesOf(g.nodes) == views && ItemsOf(g.lineIndex) == before;
    ItemsAt(byPath);
    ItemsOfUnion(g.lineIndex, byPath);
    Rebuilt(before, staged, ItemsOf(byPath), g.nodes, norm);
    SortedUnion(before, staged, ItemsOf(byPath));
    StoreLines(g, line', views);
  }

  /** rebuildIndexes: the line lists of every file with nodes are rebuilt, sorted. */
  method RebuildIndexes(g: CodePropertyGraph, norm: string -> string) returns (verified: bool)
    requires forall p :: norm(p) != ""
    modifies g`lineIndex
    ensures LinesRebuilt(old(ItemsOf(g.lineIndex)), ItemsOf(g.lineIndex), NodesOf(g.nodes), Paths(NodesOf(g.nodes), norm))
    ensures old(LinesInOrder(g)) ==> LinesInOrder(g)
    ensures verified <==> NoDangling(g.nodes.Keys, ItemsOf(g.outbound))
  {
    hide *;
    OrderIs(g);
    RebuildLines(g, norm);
    OrderIs(g);
    verified := CheckEndpoints(g.nodes.Keys, ItemsOf(g.outbound));
  }

  method StoreLines(g: CodePropertyGraph, line': Lists<ResolvedNode>, ghost views: map<Id, NodeView>)
    requires NodesOf(g.nodes) == views
    modifies g`lineIndex
    ensures g.lineIndex == line' && ItemsOf(line') == old(ItemsOf(line')) && NodesOf(g.nodes) == views
  {
    g.lineIndex := line';
  }

  lemma BothPrivate(work: Lists<ResolvedNode>, index: Lists<ResolvedNode>)
    requires Private(work, map[]) && forall a, b :: a in work && b in index ==> work[a] != index[b]
    ensures Private(work, index)
  {
  }

  lemma SortedUnion(before: map<string, seq<ResolvedNode>>, staged: map<string, seq<ResolvedNode>>, sorted: map<string, seq<ResolvedNode>>)
    requires Rearranged(staged, sorted, staged.Keys)
    ensures AllSorted(before) ==> AllSorted(before + sorted)
  {
    hide SortedByLine;
  }

  lemma StoreIsExact(g: CodePropertyGraph, norm: string -> string)
    requires IndexedFor(g, norm) && ExactLines(LinesOf(ItemsOf(g.lineIndex)), NodesOf(g.nodes), Paths(NodesOf(g.nodes), norm))
    ensures Exact(StoreOf(g), norm)
  {
    AttributesOf(g.nodes, norm);
    ListsExactAsSets(ItemsOf(g.hashIndex), HashesOf(g.nodes));
    hide ExactIds, ExactHashes, ExactHashLists, ExactLines, NodesOf, Kinds, Paths, Hashes, KindsOf, PathsOf, HashesOf;
  }

  /** Loading a document: the graph it describes, with all four indexes exact. */
  method LoadGraph(doc: GraphDoc, norm: string -> string) returns (r: Result<CodePropertyGraph>)
    requires forall p :: norm(p) != ""
    ensures r.Err? <==> (doc.schemaVersion < 2 && doc.schemaVersion != 0) || doc.schemaVersion > 3
    ensures r.Ok? ==> fresh(r.value) && ValueOf(r.value) == Imported(doc) && ItemsOf(r.value.inbound) == InFrom(doc.edges)
    ensures r.Ok? ==> Exact(StoreOf(r.value), norm) && LinesInOrder(r.value)
  {
    hide *;
    r := ImportGraph(doc, norm);
    if r.Ok? {
      NoLinesYet(r.value);
      ghost var views := NodesOf(r.value.nodes);
      var verified := RebuildAll(r.value, norm, ValueOf(r.value), ItemsOf(r.value.inbound));
      NodesHavePaths(r.value.nodes, norm);
      RebuiltFromNothing(ItemsOf(r.value.lineIndex), NodesOf(r.value.nodes), Paths(NodesOf(r.value.nodes), norm));
      StoreIsExact(r.value, norm);
    }
  }

  /** rebuildIndexes touches nothing but the line index. */
  method RebuildAll(g: CodePropertyGraph, norm: string -> string, ghost v: GraphValue, ghost into: Adjacency) returns (verified: bool)
    requires (forall p :: norm(p) != "") && ValueOf(g) == v && ItemsOf(g.inbound) == into && IndexedFor(g, norm) && ItemsOf(g.lineIndex) == map[]
    modifies g`lineIndex
    ensures ValueOf(g) == v && ItemsOf(g.inbound) == into && IndexedFor(g, norm)
    ensures LinesRebuilt(map[], ItemsOf(g.lineIndex), NodesOf(g.nodes), Paths(NodesOf(g.nodes), norm)) && LinesInOrder(g)
  {
    hide *;
    OrderIs(g);
    NothingUnsorted();
    verified := RebuildIndexes(g, norm);
  }

  lemma NothingUnsorted()
    ensures AllSorted(map[])
  {
  }

  lemma NoLinesYet(g: CodePropertyGraph)
    requires g.lineIndex == map[]
    ensures ItemsOf(g.lineIndex) == map[]
  {
  }

  lemma NodesHavePaths(nodes: map<Id, ResolvedNode>, norm: string -> string)
    ensures Paths(NodesOf(nodes), norm).Keys == NodesOf(nodes).Keys
  {
  }

  /* ---- the round trip ---- */

  /** The value a document is imported to. */
  ghost function Imported(doc: GraphDoc): GraphValue {
    GraphValue(doc.schemaVersion, doc.commitHash, doc.version, doc.entrypoints, doc.folderZones, NodesFrom(doc.nodes), OutFrom(doc.edges), doc.errors)
  }

  ghost predicate NonEmptyKeys(nodes: map<Id, GraphNodeJson>) { "" !in nodes }

  /** With distinct IDs every entry survives import. */
  lemma {:induction false} NodesFromAt(list: seq<GraphNodeJson>, i: nat)
    requires i < |list| && list[i].id != "" && forall j :: i < j < |list| ==> list[j].id != list[i].id
    ensures list[i].id in NodesFrom(list) && NodesFrom(list)[list[i].id] == list[i]
  {
    var before := list[..|list| - 1];
    if i < |list| - 1 {
      assert before[i] == list[i];
      NodesFromAt(before, i);
    }
  }

  lemma {:induction false} NodesFromOnly(list: seq<GraphNodeJson>, id: Id) returns (i: nat)
    requires id in NodesFrom(list)
    ensures i < |list| && list[i].id == id
  {
    var before, n := list[..|list| - 1], list[|list| - 1];
    if n.id != "" && n.id == id {
      i := |list| - 1;
    } else {
      i := NodesFromOnly(before, id);
    }
  }

  ghost predicate StrictlySorted(list: seq<GraphNodeJson>) {
    forall i, j :: 0 <= i < j < |list| ==> NodeBefore(list[i], list[j])
  }

  /** The listing of a node map under its own IDs is sorted already. */
  lemma ListingSorted(nodes: map<Id, GraphNodeJson>)
    requires UnderOwnIds(nodes)
    ensures StrictlySorted(Listing(nodes, Ascending(nodes.Keys)))
  {
    var order := Ascending(nodes.Keys);
    forall i | 0 <= i < |order|
      ensures order[i] in nodes
    {
      assert order[i] in order;
    }
  }

  /** With strict order there is only one sorted arrangement. */
  lemma StrictOrderIsUnique(a: seq<GraphNodeJson>, b: seq<GraphNodeJson>)
    requires SortedBy(a, NodeBefore) && multiset(a) == multiset(b)
    requires StrictlySorted(b)
    ensures a == b
  {
    NodeOrder();
    hide NodeBefore, WeakOrder;
    assert SortedBy(b, NodeBefore) by {
      assert WeakOrder(NodeBefore);
      StrictIsSorted(b);
    }
    SortedAgree(a, b, NodeBefore);
    forall i | 0 <= i < |a|
      ensures a[i] == b[i]
    {
      forall j | 0 <= j < |b| && j != i
        ensures !Tied(NodeBefore, b[j], b[i])
      {
        assert if i < j then NodeBefore(b[i], b[j]) else NodeBefore(b[j], b[i]);
      }
      assert a[i] in multiset(b);
      var j :| 0 <= j < |b| && b[j] == a[i];
      assert Tied(NodeBefore, b[j], b[i]);
    }
  }

  lemma StrictIsSorted(b: seq<GraphNodeJson>)
    requires WeakOrder(NodeBefore)
    requires StrictlySorted(b)
    ensures SortedBy(b, NodeBefore)
  {
  }

  lemma ListingAt(nodes: map<Id, GraphNodeJson>, i: nat)
    requires UnderOwnIds(nodes) && i < |Ascending(nodes.Keys)|
    ensures var order, list := Ascending(nodes.Keys), Listing(nodes, Ascending(nodes.Keys));
            |list| == |order| && order[i] in nodes && list[i] == nodes[order[i]] && list[i].id == order[i]
  {
    assert Ascending(nodes.Keys)[i] in Ascending(nodes.Keys);
  }

  /** Every node is listed, and no later entry has its ID. */
  lemma ListedOnce(nodes: map<Id, GraphNodeJson>, id: Id) returns (i: nat)
    requires UnderOwnIds(nodes) && id in nodes
    ensures var list := Listing(nodes, Ascending(nodes.Keys));
            i < |list| && list[i] == nodes[id] && list[i].id == id && forall j :: i < j < |list| ==> list[j].id != id
  {
    var order := Ascending(nodes.Keys);
    i :| 0 <= i < |order| && order[i] == id;
    hide Listing, UnderOwnIds, Less;
    LessIsTotalOrder();
    ListingAt(nodes, i);
    forall j | i < j < |order|
      ensures Listing(nodes, order)[j].id != id
    {
      ListingAt(nodes, j);
    }
  }

  /** A listing under own, non-empty IDs is imported to the map it lists. */
  lemma ListingImported(nodes: map<Id, GraphNodeJson>)
    requires UnderOwnIds(nodes) && NonEmptyKeys(nodes)
    ensures NodesFrom(Listing(nodes, Ascending(nodes.Keys))) == nodes
  {
    hide UnderOwnIds, Listing, NodesFrom, IsAscending;
    var order := Ascending(nodes.Keys);
    var list := Listing(nodes, order);
    forall id | id in nodes
      ensures id in NodesFrom(list) && NodesFrom(list)[id] == nodes[id]
    {
      var i := ListedOnce(nodes, id);
      NodesFromAt(list, i);
    }
    forall id | id in NodesFrom(list)
      ensures id in nodes
    {
      var i := NodesFromOnly(list, id);
      ListingLength(nodes);
      ListingAt(nodes, i);
    }
  }

  lemma ListingLength(nodes: map<Id, GraphNodeJson>)
    ensures |Listing(nodes, Ascending(nodes.Keys))| == |Ascending(nodes.Keys)|
  {
  }

  /** Import gives back the exported nodes. */
  lemma NodesRoundTrip(doc: GraphDoc, v: GraphValue)
    requires IsDocOf(doc, v) && UnderOwnIds(v.nodes) && NonEmptyKeys(v.nodes)
    ensures NodesFrom(doc.nodes) == v.nodes && doc.nodes == Listing(v.nodes, Ascending(v.nodes.Keys))
  {
    hide FirstOfEachKey, Met, Listing, SortedBy, EdgesInOrder, NodesInOrder, Less;
    var list := Listing(v.nodes, Ascending(v.nodes.Keys));
    ListingSorted(v.nodes);
    NodesSorted(doc.nodes);
    StrictOrderIsUnique(doc.nodes, list);
    ListingImported(v.nodes);
  }

  lemma PermutationKeepsDistinct(a: seq<Edge>, b: seq<Edge>)
    requires DistinctKeys(a) && multiset(a) == multiset(b)
    ensures DistinctKeys(b)
  {
    hide EdgeKey;
    forall i, j | 0 <= i < j < |b|
      ensures EdgeKey(b[i]) != EdgeKey(b[j])
    {
      SameElements(a, b, b[i]);
      SameElements(a, b, b[j]);
      var p :| 0 <= p < |a| && a[p] == b[i];
      var q :| 0 <= q < |a| && a[q] == b[j];
      if p == q {
        OccursTwice(b, i, j);
        Once(a, p);
        assert false;
      }
    }
  }

  lemma Once(a: seq<Edge>, p: nat)
    requires DistinctKeys(a) && p < |a|
    ensures multiset(a)[a[p]] == 1
  {
    hide EdgeKey;
    assert a == a[..p] + [a[p]] + a[p + 1..];
    assert a[p] !in a[..p] && a[p] !in a[p + 1..];
    assert a[p] !in multiset(a[..p]) && a[p] !in multiset(a[p + 1..]);
  }

  ghost predicate AllImportable(edges: seq<Edge>) { forall e :: e in edges ==> Importable(e) }

  /** The edges import takes. */
  ghost function ImportableOf(edges: seq<Edge>): seq<Edge> {
    if edges == [] then []
    else
      var before, e := ImportableOf(edges[..|edges| - 1]), edges[|edges| - 1];
      if Importable(e) then before + [e] else before
  }

  lemma AllTaken(edges: seq<Edge>)
    requires AllImportable(edges)
    ensures ImportableOf(edges) == edges
  {
    if edges != [] {
      assert edges[|edges| - 1] in edges;
      AllTaken(edges[..|edges| - 1]);
    }
  }

  lemma TakenAreSome(edges: seq<Edge>)
    ensures multiset(ImportableOf(edges)) <= multiset(edges) && forall e :: e in ImportableOf(edges) ==> e in edges && Importable(e)
  {
    if edges != [] {
      TakenAreSome(edges[..|edges| - 1]);
      assert edges == edges[..|edges| - 1] + [edges[|edges| - 1]];
    }
  }

  lemma SkipsOnly(edges: seq<Edge>)
    ensures multiset(ImportableOf(edges)) <= multiset(edges)
    ensures multiset(ImportableOf(edges)) == multiset(edges) <==> AllImportable(edges)
  {
    hide ImportableOf;
    TakenAreSome(edges);
    if AllImportable(edges) {
      AllTaken(edges);
    } else {
      var e :| e in edges && !Importable(e);
      assert e !in multiset(ImportableOf(edges)) && e in multiset(edges);
    }
  }

  lemma DistinctAfterSkips(edges: seq<Edge>)
    requires DistinctKeys(edges)
    ensures DistinctKeys(ImportableOf(edges))
  {
    hide EdgeKey;
    if edges != [] {
      var before, e := edges[..|edges| - 1], edges[|edges| - 1];
      DistinctAfterSkips(before);
      TakenAreSome(before);
      forall i | 0 <= i < |ImportableOf(before)|
        ensures EdgeKey(ImportableOf(before)[i]) != EdgeKey(e)
      {
        assert ImportableOf(before)[i] in before;
      }
    }
  }

  /** Import files every edge that has both endpoints, once, under its source and under its target. */
  lemma {:induction false} ImportConserves(edges: seq<Edge>)
    ensures AllEdges(OutFrom(edges)) == multiset(ImportableOf(edges)) && AllEdges(InFrom(edges)) == multiset(ImportableOf(edges))
    ensures FiledBySource(OutFrom(edges)) && FiledByTarget(InFrom(edges)) && "" !in OutFrom(edges)
  {
    hide AllEdges;
    if edges == [] {
      NoEdgesAtAll();
    } else {
      var before, e := edges[..|edges| - 1], edges[|edges| - 1];
      ImportConserves(before);
      if Importable(e) {
        hide Edges;
        AllEdgesAppend(OutFrom(before), e.source, e);
        AllEdgesAppend(InFrom(before), e.target, e);
        FiledBySourceAppend(OutFrom(before), e);
        FiledByTargetAppend(InFrom(before), e);
        hide FiledBySource, FiledByTarget;
      }
    }
  }

  lemma FiledBySourceAppend(outbound: Adjacency, e: Edge)
    requires FiledBySource(outbound)
    ensures FiledBySource(outbound[e.source := Edges(outbound, e.source) + [e]])
  {
  }

  lemma NoEdgesAtAll()
    ensures AllEdges(map[]) == multiset{}
  {
  }

  ghost function OnlyKeys(m: Adjacency, keys: seq<Id>): Adjacency { map s | s in m && s in keys :: m[s] }

  /** The stored edges as export writes them, one without a source under the source it is stored at. */
  ghost function Filled(m: Adjacency): Adjacency { map s | s in m :: Sourced(m[s], s) }

  lemma AlreadyFilled(m: Adjacency)
    requires FiledBySource(m) && "" !in m
    ensures Filled(m) == m
  {
    forall s | s in m
      ensures Sourced(m[s], s) == m[s]
    {
    }
  }

  /** Export meets exactly the stored edges. */
  lemma {:induction false} MetAll(m: Adjacency, order: seq<Id>)
    requires IsAscending(order) && forall s :: s in order ==> s in m
    ensures multiset(Met(m, order)) == AllEdges(Filled(OnlyKeys(m, order)))
  {
    hide AllEdges, Less, IsAscending;
    if order == [] {
      assert Filled(OnlyKeys(m, order)) == map[];
      NoEdgesAtAll();
    } else {
      var n := |order| - 1;
      var before, s := order[..n], order[n];
      assert order == before + [s] && s in order;
      PrefixAscends(order);
      MetAll(m, before);
      MetLast(m, before, s);
      assert s in Filled(OnlyKeys(m, order)) && Filled(OnlyKeys(m, order))[s] == Sourced(m[s], s);
      hide *;
      AllEdgesSplit(Filled(OnlyKeys(m, order)), s);
      LastIsNew(order);
      OnlyKeysMinus(m, before, s);
    }
  }

  lemma PrefixAscends(order: seq<Id>)
    requires IsAscending(order) && order != []
    ensures IsAscending(order[..|order| - 1])
  {
    hide Less;
  }

  lemma MetLast(m: Adjacency, before: seq<Id>, s: Id)
    requires s in m
    ensures multiset(Met(m, before + [s])) == multiset(Met(m, before)) + multiset(Sourced(m[s], s))
  {
    assert (before + [s])[..|before|] == before;
  }

  lemma LastIsNew(order: seq<Id>)
    requires IsAscending(order) && order != []
    ensures order[|order| - 1] !in order[..|order| - 1]
  {
    hide Less;
    LessIsTotalOrder();
  }

  lemma OnlyKeysMinus(m: Adjacency, before: seq<Id>, s: Id)
    requires s !in before
    ensures Filled(OnlyKeys(m, before + [s])) - {s} == Filled(OnlyKeys(m, before))
  {
  }

  /** Export, import, export: the same document but for the edges that lack an endpoint, which import
      skips; where there is none, the edges agree too, up to the order of tied ones. */
  lemma RoundTrip(v: GraphValue, doc: GraphDoc, doc': GraphDoc)
    requires UnderOwnIds(v.nodes) && NonEmptyKeys(v.nodes)
    requires IsDocOf(doc, v) && IsDocOf(doc', Imported(doc))
    ensures doc'.(edges := doc.edges) == doc && multiset(doc'.edges) == multiset(ImportableOf(doc.edges))
    ensures multiset(doc'.edges) == multiset(doc.edges) <==> AllImportable(doc.edges)
    ensures AllImportable(doc.edges) ==>
              |doc'.edges| == |doc.edges| && forall i :: 0 <= i < |doc.edges| ==> SameEnds(doc.edges[i], doc'.edges[i])
    ensures Imported(doc).(outbound := v.outbound) == v
    ensures AllEdges(Imported(doc).outbound) == multiset(ImportableOf(doc.edges)) == AllEdges(InFrom(doc.edges))
  {
    NodesRoundTrip(doc, v);
    ImportConserves(doc.edges);
    SkipsOnly(doc.edges);
    FirstAreDistinct(Met(v.outbound, Ascending(v.outbound.Keys)));
    PermutationKeepsDistinct(Exported(v), doc.edges);
    EdgesRoundTrip(doc.edges);
    hide Listing, FirstOfEachKey, Met, AllEdges, FiledBySource, FiledByTarget, UnderOwnIds, SortedBy, EdgesInOrder, NodesInOrder, DistinctKeys, AllImportable, ImportableOf;
    NodesRoundTrip(doc', Imported(doc));
    if AllImportable(doc.edges) {
      EdgeOrder();
      EdgesSorted(doc.edges);
      EdgesSorted(doc'.edges);
      SortedAgree(doc.edges, doc'.edges, EdgeBefore);
    }
  }

  lemma EndpointsNamed(doc: GraphDoc, v: GraphValue)
    requires IsDocOf(doc, v) && DocClosed(doc) && UnderOwnIds(v.nodes) && NonEmptyKeys(v.nodes)
    ensures AllImportable(doc.edges)
  {
    hide EdgesInOrder, NodesInOrder, Listing, FirstOfEachKey, Met;
    forall e | e in doc.edges
      ensures Importable(e)
    {
      ListedIds(doc, v, e.source);
      ListedIds(doc, v, e.target);
    }
  }

  /** What import takes of edges exported once is exported the same again. */
  lemma EdgesRoundTrip(edges: seq<Edge>)
    requires DistinctKeys(edges)
    ensures var m := OutFrom(edges); multiset(FirstOfEachKey(Met(m, Ascending(m.Keys)))) == multiset(ImportableOf(edges))
  {
    hide EdgeKey, FirstOfEachKey, Met, AllEdges;
    var m := OutFrom(edges);
    var order := Ascending(m.Keys);
    ImportConserves(edges);
    MetAll(m, order);
    AlreadyFilled(m);
    assert OnlyKeys(m, order) == m;
    DistinctAfterSkips(edges);
    PermutationKeepsDistinct(ImportableOf(edges), Met(m, order));
    DistinctStay(Met(m, order));
  }
}
