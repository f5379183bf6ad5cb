/** applyDeltaToShadow as a whole, on a shadow graph the caller has just cloned. */
module DeltaStep {
  import opened Graphs
  import opened AkgStore
  import opened DeltaSweep
  import opened DeltaGraft
  import opened DeltaEdges
  import opened NodeStores
  import opened AffectedNodes
  import opened Inference

  /** What the linker hands to a transaction; a nil node is an entry the code skips. */
  datatype LinkOutput = LinkOutput(commitHash: string, graphNodes: map<Id, ResolvedNode?>, outboundEdges: Lists<Edge>,
                                   entrypointRegistry: seq<Id>, folderZones: map<string, string>)

  lemma SweptAreListed(files: map<string, set<Id>>, norm: string -> string, modified: seq<string>)
    ensures SweptIds(files, norm, modified) == Listed(files, NormAll(norm, modified))
  {
    forall id | id in SweptIds(files, norm, modified)
      ensures id in Listed(files, NormAll(norm, modified))
    {
      var f :| f in modified && id in SetAt(files, norm(f));
      assert norm(f) in NormAll(norm, modified);
    }
  }

  /** Value facts of the two phases compose to one step. */
  lemma PhasesCompose(s0: NodeStore, s1: NodeStore, s2: NodeStore, line0: map<string, seq<ResolvedNode>>, line1: map<string, seq<ResolvedNode>>,
                      line2: map<string, seq<ResolvedNode>>, paths: set<string>, norm: string -> string, swept: set<Id>,
                      p: map<Id, ResolvedNode>, pv: map<Id, NodeView>)
    requires swept == Listed(s0.files, paths) && NodesOf(p) == pv && s0.lines == LinesOf(line0) && s2.lines == LinesOf(line2)
    requires s1.nodes == s0.nodes - swept && s2.nodes == s1.nodes + pv
    requires IdsDropped(s0.kinds, s1.kinds, Kinds(s0.nodes), swept) && s1.files == s0.files - paths
    requires HashesDropped(s0.hashes, s1.hashes, Hashes(s0.nodes), swept) && line1 == line0 - (paths * s0.files.Keys)
    requires PayloadAdded(s1, s2, line1, line2, p, pv, norm)
    ensures Stepped(s0, pv, paths, norm, s2)
  {
    assert Kinds(pv).Keys == pv.Keys && Paths(pv, norm).Keys == pv.Keys && Hashes(pv).Keys == pv.Keys;
    hide IdsDropped, IdsAdded, HashesDropped, HashesAdded, LinesAdded, IdsStepped, FilesStepped, HashesStepped, Listed, LinesOf, NodesOf, SpansOf;
    hide Kinds, Paths, Hashes;
    IdsCompose(s0.kinds, s1.kinds, s2.kinds, Kinds(s0.nodes), swept, Kinds(pv));
    FilesCompose(s0.files, s1.files, s2.files, paths, Paths(pv, norm));
    HashesCompose(s0.hashes, s1.hashes, s2.hashes, Hashes(s0.nodes), swept, Hashes(pv));
    LinesCompose(line0, line1, line2, paths * s0.files.Keys, p, Paths(pv, norm));
  }

  lemma OrderSwept(line0: map<string, seq<ResolvedNode>>, dropped: set<string>)
    ensures AllSorted(line0) ==> AllSorted(line0 - dropped)
  {
    hide SortedByLine;
  }

  lemma OrderGrafted(line1: map<string, seq<ResolvedNode>>, line2: map<string, seq<ResolvedNode>>, paths: set<string>)
    requires LinesSorted(line1, line2, paths)
    ensures AllSorted(line1) ==> AllSorted(line2)
  {
    hide SortedByLine;
  }

  /** The sweep on the store. */
  method SweepStore(g: CodePropertyGraph, norm: string -> string, files: seq<string>) returns (swept: set<Id>)
    modifies g`nodes, g`outbound, g`macroRules, g`folderZones, g`fileIndex, g`lineIndex, g`kindIndex, g`hashIndex, g`entrypoints, g`macroCache
    ensures swept == Listed(old(StoreOf(g)).files, NormAll(norm, files))
    ensures StoreOf(g).nodes == old(StoreOf(g)).nodes - swept && StoreOf(g).files == old(StoreOf(g)).files - NormAll(norm, files)
    ensures IdsDropped(old(StoreOf(g)).kinds, StoreOf(g).kinds, Kinds(old(StoreOf(g)).nodes), swept)
    ensures HashesDropped(old(StoreOf(g)).hashes, StoreOf(g).hashes, Hashes(old(StoreOf(g)).nodes), swept)
    ensures ItemsOf(g.lineIndex) == old(ItemsOf(g.lineIndex)) - (NormAll(norm, files) * old(g.fileIndex).Keys)
    ensures g.nodes == old(g.nodes) - swept && ItemsOf(g.outbound) == old(ItemsOf(g.outbound)) - swept
    ensures g.folderZones == old(g.folderZones) - swept && g.entrypoints == Without(old(g.entrypoints), swept)
    ensures g.macroRules == old(g.macroRules) - swept && (old(LinesInOrder(g)) ==> LinesInOrder(g))
  {
    hide *;
    OrderIs(g);
    ghost var s0, stored := StoreOf(g), Stored(g.nodes, g.outbound, g.macroRules, g.folderZones);
    ghost var line0, file0 := g.lineIndex, g.fileIndex;
    ghost var lines, edges := ItemsOf(g.lineIndex), ItemsOf(g.outbound);
    StoreParts(g, norm);
    SweptAreListed(s0.files, norm, files);
    swept := Sweep(g, norm, files);
    AfterSweep(g, stored, swept, file0, line0, NormAll(norm, files));
    NodesMinus(stored.nodes, swept);
    ItemsMinus(line0, NormAll(norm, files) * file0.Keys);
    ItemsMinus(stored.outbound, swept);
    assert ItemsOf(line0) == lines && ItemsOf(stored.outbound) == edges;
    OrderIs(g);
    OrderSwept(lines, NormAll(norm, files) * file0.Keys);
    StoreParts(g, norm);
  }

  lemma ItemsMinus<T>(index: Lists<T>, keys: set<string>)
    ensures ItemsOf(index - keys) == ItemsOf(index) - keys
  {
  }

  /** The four indexes gain the payload `p`, seen as `pv`. */
  ghost predicate PayloadAdded(s1: NodeStore, s2: NodeStore, line1: map<string, seq<ResolvedNode>>, line2: map<string, seq<ResolvedNode>>,
                               p: map<Id, ResolvedNode>, pv: map<Id, NodeView>, norm: string -> string) {
    IdsAdded(s1.kinds, s2.kinds, Kinds(pv), pv.Keys)
    && IdsAdded(s1.files, s2.files, Paths(pv, norm), pv.Keys)
    && HashesAdded(s1.hashes, s2.hashes, Hashes(pv), pv.Keys)
    && LinesAdded(line1, line2, p, Paths(pv, norm), pv.Keys)
  }

  /** The graft on the store. */
  method GraftStore(g: CodePropertyGraph, payload: map<Id, ResolvedNode?>, norm: string -> string)
    requires forall p :: norm(p) != ""
    modifies g`nodes, g`kindIndex, g`fileIndex, g`hashIndex, g`lineIndex
    ensures StoreOf(g).nodes == old(StoreOf(g)).nodes + old(NodesOf(Present(payload))) && g.nodes == old(g.nodes) + Present(payload)
    ensures PayloadAdded(old(StoreOf(g)), StoreOf(g), old(ItemsOf(g.lineIndex)), ItemsOf(g.lineIndex), Present(payload), old(NodesOf(Present(payload))), norm)
    ensures old(LinesInOrder(g)) ==> LinesInOrder(g)
  {
    hide *;
    OrderIs(g);
    ghost var p := Present(payload);
    ghost var pv, nodes0 := NodesOf(p), g.nodes;
    ViewKeys(p);
    AttributesOf(p, norm);
    StoreParts(g, norm);
    ghost var s1, line1 := StoreOf(g), ItemsOf(g.lineIndex);
    NodesPlus(nodes0, p);
    ghost var after := NodesOf(nodes0 + p);
    Graft(g, payload, norm);
    assert NodesOf(g.nodes) == after;
    StoreParts(g, norm);
    AddedIs(s1, StoreOf(g), line1, ItemsOf(g.lineIndex), p, pv, norm);
    OrderIs(g);
    OrderGrafted(line1, ItemsOf(g.lineIndex), PathsIn(PathsOf(p, norm), p.Keys));
  }

  lemma ViewKeys(p: map<Id, ResolvedNode>)
    ensures NodesOf(p).Keys == p.Keys
  {
  }

  lemma AddedIs(s1: NodeStore, s2: NodeStore, line1: map<string, seq<ResolvedNode>>, line2: map<string, seq<ResolvedNode>>,
                p: map<Id, ResolvedNode>, pv: map<Id, NodeView>, norm: string -> string)
    requires IdsAdded(s1.kinds, s2.kinds, Kinds(pv), pv.Keys) && IdsAdded(s1.files, s2.files, Paths(pv, norm), pv.Keys)
    requires HashesAdded(s1.hashes, s2.hashes, Hashes(pv), pv.Keys) && LinesAdded(line1, line2, p, Paths(pv, norm), pv.Keys)
    ensures PayloadAdded(s1, s2, line1, line2, p, pv, norm)
  {
  }

  /** Sub-phases B and C.1: the node half of a transaction, on a graph that shows `s0` and `edges` with a
      payload that looks like `pv`. */
  method SweepAndGraft(g: CodePropertyGraph, payload: map<Id, ResolvedNode?>, norm: string -> string, files: seq<string>,
                       ghost s0: NodeStore, ghost edges: Adjacency, ghost pv: map<Id, NodeView>) returns (swept: set<Id>)
    requires forall p :: norm(p) != ""
    requires StoreOf(g) == s0 && ItemsOf(g.outbound) == edges && NodesOf(Present(payload)) == pv
    modifies g`nodes, g`outbound, g`macroRules, g`folderZones, g`fileIndex, g`lineIndex, g`kindIndex, g`hashIndex, g`entrypoints, g`macroCache
    ensures swept == Listed(s0.files, NormAll(norm, files)) && Stepped(s0, pv, NormAll(norm, files), norm, StoreOf(g))
    ensures g.nodes == old(g.nodes) - swept + Present(payload) && ItemsOf(g.outbound) == edges - swept
    ensures old(LinesInOrder(g)) ==> LinesInOrder(g)
    ensures g.folderZones == old(g.folderZones) - swept && g.entrypoints == Without(old(g.entrypoints), swept)
    ensures g.macroRules == old(g.macroRules) - swept
  {
    hide *;
    ghost var line0, p := ItemsOf(g.lineIndex), Present(payload);
    assert allocated(p) && allocated(p.Values);
    StoreParts(g, norm);
    swept := SweepStore(g, norm, files);
    ghost var s1, line1 := StoreOf(g), ItemsOf(g.lineIndex);
    assert NodesOf(p) == pv;
    GraftStore(g, payload, norm);
    assert ItemsOf(g.outbound) == edges - swept;
    StoreParts(g, norm);
    PhasesCompose(s0, s1, StoreOf(g), line0, line1, ItemsOf(g.lineIndex), NormAll(norm, files), norm, swept, p, pv);
  }

  lemma AfterSweep(g: CodePropertyGraph, s0: Stored, swept: set<Id>, fileIndex0: Buckets, line0: Lists<ResolvedNode>, paths: set<string>)
    requires FilesSwept(g.fileIndex, g.lineIndex, fileIndex0, line0, paths) && Gone(g, s0, swept)
    ensures g.nodes == s0.nodes - swept && g.outbound == s0.outbound - swept && g.folderZones == s0.folderZones - swept
    ensures g.macroRules == s0.macroRules - swept
    ensures BucketsOf(g.fileIndex) == BucketsOf(fileIndex0) - paths && g.lineIndex == line0 - (paths * fileIndex0.Keys)
  {
  }

  lemma NodesMinus(nodes: map<Id, ResolvedNode>, swept: set<Id>)
    ensures NodesOf(nodes - swept) == NodesOf(nodes) - swept
  {
  }

  lemma NodesPlus(nodes: map<Id, ResolvedNode>, p: map<Id, ResolvedNode>)
    ensures NodesOf(nodes + p) == NodesOf(nodes) + NodesOf(p)
  {
  }

  lemma StoreParts(g: CodePropertyGraph, norm: string -> string)
    ensures StoreOf(g).nodes == NodesOf(g.nodes) && StoreOf(g).kinds == BucketsOf(g.kindIndex) && StoreOf(g).files == BucketsOf(g.fileIndex)
    ensures StoreOf(g).hashes == ItemsOf(g.hashIndex) && StoreOf(g).lines == LinesOf(ItemsOf(g.lineIndex)) && StoreOf(g).files.Keys == g.fileIndex.Keys
    ensures Kinds(NodesOf(g.nodes)) == KindsOf(g.nodes) && Paths(NodesOf(g.nodes), norm) == PathsOf(g.nodes, norm)
    ensures Hashes(NodesOf(g.nodes)) == HashesOf(g.nodes)
  {
    AttributesOf(g.nodes, norm);
  }

  ghost predicate AreModified(payload: map<Id, ResolvedNode?>, files: seq<string>, modified: seq<string>) {
    if files != [] then modified == files
    else forall f :: f in modified <==> f != "" && exists id :: id in payload && payload[id] != null && payload[id].path == f
  }

  /** The files a transaction treats as modified: the caller's list, or else the paths in the payload. */
  method ModifiedFiles(payload: map<Id, ResolvedNode?>, files: seq<string>) returns (files': seq<string>)
    requires files == [] ==> payload == Present(payload)
    ensures AreModified(payload, files, files')
  {
    files' := files;
    if |files| == 0 {
      var rest := payload.Keys;
      while rest != {}
        invariant rest <= payload.Keys
        invariant forall f :: f in files' <==> f != "" && exists id :: id in payload && id !in rest && payload[id] != null && payload[id].path == f
      {
        var id :| id in rest;
        rest := rest - {id};
        assert id in Present(payload) && payload[id] != null;
        if payload[id].path != "" && payload[id].path !in files' {
          files' := files' + [payload[id].path];
        }
      }
    }
  }

  /** A new slice for every list of the payload. */
  method CopyEdges(edges: Lists<Edge>) returns (copies: Lists<Edge>)
    ensures fresh(copies.Values) && ItemsOf(copies) == old(ItemsOf(edges))
  {
    hide *;
    copies := map[];
    var rest := edges.Keys;
    ghost var items, all: Adjacency := map[], ItemsOf(edges);
    NoItems(copies);
    ItemsAt(edges);
    while rest != {}
      invariant rest <= edges.Keys && ItemsOf(edges) == all && ItemsOf(copies) == items && fresh(copies.Values)
      invariant items.Keys == edges.Keys - rest && forall s :: s in items ==> items[s] == all[s]
    {
      var s :| s in rest;
      ItemsAt(edges);
      var slice := new List(edges[s].items);
      assert ItemsOf(copies) == items;
      ItemsOfSet(copies, s, slice);
      copies, items, rest := copies[s := slice], items[s := slice.items], rest - {s};
    }
    assert items == all;
  }

  /** Sub-phase C.2: edges replace those of the same source, entrypoints are merged, zones overwrite. */
  method BindPayload(g: CodePropertyGraph, payload: LinkOutput)
    modifies g`outbound, g`entrypoints, g`folderZones
    ensures ItemsOf(g.outbound) == old(ItemsOf(g.outbound)) + old(ItemsOf(payload.outboundEdges)) && g.folderZones == old(g.folderZones) + payload.folderZones
    ensures Bound(old(g.entrypoints), payload.entrypointRegistry, g.entrypoints)
  {
    hide *;
    ghost var items, more := ItemsOf(g.outbound), ItemsOf(payload.outboundEdges);
    var copies := CopyEdges(payload.outboundEdges);
    assert ItemsOf(g.outbound) == items;
    ItemsOfUnion(g.outbound, copies);
    var outbound := Publish(g.outbound, copies);
    var entrypoints := BindEntrypoints(g.entrypoints, payload.entrypointRegistry);
    var zones := Publish(g.folderZones, payload.folderZones);
    StoreBound(g, outbound, entrypoints, zones, items + more);
  }

  method StoreBound(g: CodePropertyGraph, outbound: Lists<Edge>, entrypoints: seq<Id>, zones: map<string, string>, ghost items: Adjacency)
    requires ItemsOf(outbound) == items
    modifies g`outbound, g`entrypoints, g`folderZones
    ensures ItemsOf(g.outbound) == items && g.entrypoints == entrypoints && g.folderZones == zones
  {
    hide *;
    g.outbound, g.entrypoints, g.folderZones := outbound, entrypoints, zones;
  }

  /** What sub-phases C.4 and D.1 leave in the edge fields, given the edges bound before them. */
  ghost predicate EdgesSwept(ids: set<Id>, bound: Adjacency, outbound: Adjacency, inbound: Adjacency, errors: seq<DanglingRef>) {
    Survivors(ids, bound, outbound) && Recorded(ids, bound, errors) && NoDangling(ids, outbound)
    && FiledByTarget(inbound) && AllEdges(inbound) == AllEdges(outbound)
  }

  method SweepGraphEdges(g: CodePropertyGraph)
    modifies g`outbound, g`inbound, g`errors
    ensures EdgesSwept(g.nodes.Keys, old(ItemsOf(g.outbound)), ItemsOf(g.outbound), ItemsOf(g.inbound), g.errors)
  {
    hide Survivors, Recorded, NoDangling, FiledByTarget, AllEdges, ItemsOf;
    g.outbound, g.inbound, g.errors := SweepEdges(g.nodes.Keys, g.outbound);
  }

  /** A transaction's effect on the fields that are not indexes; `swept` are the node IDs of the
      modified files, `edges` the payload's edges. */
  ghost predicate EdgesStepped(outbound: Adjacency, entrypoints: seq<Id>, zones: map<string, string>, swept: set<Id>, payload: LinkOutput, edges: Adjacency,
                               g: CodePropertyGraph)
    reads g`nodes, g`outbound, g`inbound, g`errors, g`entrypoints, g`folderZones, g.outbound.Values, g.inbound.Values
  {
    EdgesSwept(g.nodes.Keys, outbound - swept + edges, ItemsOf(g.outbound), ItemsOf(g.inbound), g.errors)
    && Bound(Without(entrypoints, swept), payload.entrypointRegistry, g.entrypoints)
    && g.folderZones == zones - swept + payload.folderZones
  }

  /** Sub-phases C.2, C.4 and D.1: the edge half of a transaction. */
  method BindAndSweep(g: CodePropertyGraph, payload: LinkOutput, ghost outbound: Adjacency, ghost entrypoints: seq<Id>, ghost zones: map<string, string>, ghost swept: set<Id>)
    requires ItemsOf(g.outbound) == outbound - swept && g.entrypoints == Without(entrypoints, swept) && g.folderZones == zones - swept
    modifies g`outbound, g`entrypoints, g`folderZones, g`inbound, g`errors
    ensures EdgesStepped(outbound, entrypoints, zones, swept, payload, old(ItemsOf(payload.outboundEdges)), g)
    ensures StoreOf(g) == old(StoreOf(g))
  {
    hide EdgesSwept, Bound, StoreOf, ItemsOf;
    BindPayload(g, payload);
    SweepGraphEdges(g);
  }

  /** A transaction's effect on the rules and on the property tables, macro_rules included. */
  ghost predicate RulesStepped(macroRules: map<Id, seq<string>>, tables: map<Id, map<string, string>>, swept: set<Id>, added: map<Id, map<string, string>>,
                               infer: bool, rules: map<Id, seq<string>>, g: CodePropertyGraph)
    reads g`nodes, g`macroRules, g.nodes.Values, set id | id in g.nodes :: g.nodes[id].properties
  {
    g.macroRules == macroRules - swept + (if infer then Taken(rules, g.nodes.Keys) else map[])
    && FullTables(g.nodes) == if infer then Annotated(tables - swept + added, rules, g.nodes.Keys) else tables - swept + added
  }

  lemma TablesOfUnion(nodes: map<Id, ResolvedNode>, swept: set<Id>, p: map<Id, ResolvedNode>)
    ensures FullTables(nodes - swept + p) == FullTables(nodes) - swept + FullTables(p)
  {
  }

  /** The rules a transaction writes: those of the nodes that the changed IDs and files affect in a graph
      that shows `store` and `inbound`. */
  ghost function Reasoned(rules: map<Id, seq<string>>, changed: set<Id>, paths: set<string>, norm: string -> string, store: NodeStore, inbound: Adjacency): map<Id, seq<string>> {
    Chosen(rules, Affected(changed, paths, store.files, Kinds(store.nodes), Paths(store.nodes, norm), inbound))
  }

  lemma ReasonedIs(rules: map<Id, seq<string>>, changed: set<Id>, paths: set<string>, norm: string -> string, store: NodeStore, inbound: Adjacency)
    ensures Reasoned(rules, changed, paths, norm, store, inbound)
            == Chosen(rules, Affected(changed, paths, store.files, Kinds(store.nodes), Paths(store.nodes, norm), inbound))
  {
  }

  /** Sub-phase D.2 and the store. */
  method InferStore(g: CodePropertyGraph, infer: bool, rules: map<Id, seq<string>>, changed: set<Id>, modified: seq<string>, norm: string -> string,
                    ghost chosen: map<Id, seq<string>>)
    requires chosen == Reasoned(rules, changed, NormAll(norm, modified), norm, StoreOf(g), ItemsOf(g.inbound))
    modifies g`nodes, g`macroRules
    ensures StoreOf(g) == old(StoreOf(g)) && g.nodes.Keys == old(g.nodes).Keys
    ensures g.macroRules == old(g.macroRules) + (if infer then Taken(chosen, g.nodes.Keys) else map[])
    ensures FullTables(g.nodes) == if infer then Annotated(old(FullTables(g.nodes)), chosen, g.nodes.Keys) else old(FullTables(g.nodes))
  {
    hide *;
    ghost var kinds, files := BucketsOf(g.kindIndex), BucketsOf(g.fileIndex);
    ghost var hashes, lines := ItemsOf(g.hashIndex), ItemsOf(g.lineIndex);
    StoreParts(g, norm);
    StoreWhole(g);
    ReasonedIs(rules, changed, NormAll(norm, modified), norm, StoreOf(g), ItemsOf(g.inbound));
    Infer(g, infer, rules, changed, modified, norm, chosen);
    assert BucketsOf(g.kindIndex) == kinds && BucketsOf(g.fileIndex) == files;
    assert ItemsOf(g.hashIndex) == hashes && ItemsOf(g.lineIndex) == lines;
    StoreWhole(g);
  }

  lemma StoreWhole(g: CodePropertyGraph)
    ensures StoreOf(g) == NodeStore(NodesOf(g.nodes), BucketsOf(g.kindIndex), BucketsOf(g.fileIndex), ItemsOf(g.hashIndex), LinesOf(ItemsOf(g.lineIndex)))
  {
  }

  /** Sub-phase D.2 changes neither half. */
  method InferOn(g: CodePropertyGraph, infer: bool, rules: map<Id, seq<string>>, payload: LinkOutput, modified: seq<string>, norm: string -> string,
                 ghost chosen: map<Id, seq<string>>, ghost outbound: Adjacency, ghost entrypoints: seq<Id>, ghost zones: map<string, string>, ghost swept: set<Id>,
                 ghost macroRules: map<Id, seq<string>>, ghost tables: map<Id, map<string, string>>, ghost added: map<Id, map<string, string>>, ghost edges: Adjacency)
    requires EdgesStepped(outbound, entrypoints, zones, swept, payload, edges, g)
    requires g.macroRules == macroRules - swept && FullTables(g.nodes) == tables - swept + added
    requires chosen == Reasoned(rules, payload.graphNodes.Keys, NormAll(norm, modified), norm, StoreOf(g), ItemsOf(g.inbound))
    modifies g`nodes, g`macroRules
    ensures EdgesStepped(outbound, entrypoints, zones, swept, payload, edges, g) && StoreOf(g) == old(StoreOf(g))
    ensures RulesStepped(macroRules, tables, swept, added, infer, chosen, g) && ItemsOf(g.inbound) == old(ItemsOf(g.inbound))
  {
    hide *;
    ghost var out, into := ItemsOf(g.outbound), ItemsOf(g.inbound);
    EdgesParts(outbound, entrypoints, zones, swept, payload, edges, g);
    InferStore(g, infer, rules, payload.graphNodes.Keys, modified, norm, chosen);
    assert ItemsOf(g.outbound) == out && ItemsOf(g.inbound) == into;
    EdgesWhole(outbound, entrypoints, zones, swept, payload, edges, g);
    RulesWhole(macroRules, tables, swept, added, infer, chosen, g);
  }

  lemma EdgesParts(outbound: Adjacency, entrypoints: seq<Id>, zones: map<string, string>, swept: set<Id>, payload: LinkOutput, edges: Adjacency, g: CodePropertyGraph)
    requires EdgesStepped(outbound, entrypoints, zones, swept, payload, edges, g)
    ensures EdgesSwept(g.nodes.Keys, outbound - swept + edges, ItemsOf(g.outbound), ItemsOf(g.inbound), g.errors)
    ensures Bound(Without(entrypoints, swept), payload.entrypointRegistry, g.entrypoints) && g.folderZones == zones - swept + payload.folderZones
  {
  }

  lemma EdgesWhole(outbound: Adjacency, entrypoints: seq<Id>, zones: map<string, string>, swept: set<Id>, payload: LinkOutput, edges: Adjacency, g: CodePropertyGraph)
    requires EdgesSwept(g.nodes.Keys, outbound - swept + edges, ItemsOf(g.outbound), ItemsOf(g.inbound), g.errors)
    requires Bound(Without(entrypoints, swept), payload.entrypointRegistry, g.entrypoints) && g.folderZones == zones - swept + payload.folderZones
    ensures EdgesStepped(outbound, entrypoints, zones, swept, payload, edges, g)
  {
  }

  lemma RulesWhole(macroRules: map<Id, seq<string>>, tables: map<Id, map<string, string>>, swept: set<Id>, added: map<Id, map<string, string>>,
                   infer: bool, rules: map<Id, seq<string>>, g: CodePropertyGraph)
    requires g.macroRules == macroRules - swept + (if infer then Taken(rules, g.nodes.Keys) else map[])
    requires FullTables(g.nodes) == if infer then Annotated(tables - swept + added, rules, g.nodes.Keys) else tables - swept + added
    ensures RulesStepped(macroRules, tables, swept, added, infer, rules, g)
  {
  }

  /** Sub-phases C.2 to D. */
  method BindAndInfer(g: CodePropertyGraph, payload: LinkOutput, infer: bool, rules: map<Id, seq<string>>, modified: seq<string>, norm: string -> string,
                      ghost outbound: Adjacency, ghost entrypoints: seq<Id>, ghost zones: map<string, string>, ghost swept: set<Id>, ghost edges: Adjacency,
                      ghost macroRules: map<Id, seq<string>>, ghost tables: map<Id, map<string, string>>, ghost added: map<Id, map<string, string>>)
    requires ItemsOf(g.outbound) == outbound - swept && g.entrypoints == Without(entrypoints, swept) && g.folderZones == zones - swept
    requires g.macroRules == macroRules - swept && FullTables(g.nodes) == tables - swept + added && ItemsOf(payload.outboundEdges) == edges
    modifies g`outbound, g`entrypoints, g`folderZones, g`inbound, g`errors, g`nodes, g`macroRules
    ensures EdgesStepped(outbound, entrypoints, zones, swept, payload, edges, g) && StoreOf(g) == old(StoreOf(g))
    ensures RulesStepped(macroRules, tables, swept, added, infer,
                         Reasoned(rules, payload.graphNodes.Keys, NormAll(norm, modified), norm, StoreOf(g), ItemsOf(g.inbound)), g)
    ensures LinesInOrder(g) == old(LinesInOrder(g))
  {
    hide *;
    ghost var full := FullTables(g.nodes);
    BindAndSweep(g, payload, outbound, entrypoints, zones, swept);
    assert FullTables(g.nodes) == full;
    ghost var chosen := Reasoned(rules, payload.graphNodes.Keys, NormAll(norm, modified), norm, StoreOf(g), ItemsOf(g.inbound));
    InferOn(g, infer, rules, payload, modified, norm, chosen, outbound, entrypoints, zones, swept, macroRules, tables, added, edges);
  }

  /** The phases of a delta on a known list of modified files. */
  method ApplyFiles(g: CodePropertyGraph, payload: LinkOutput, modified: seq<string>, norm: string -> string, infer: bool, rules: map<Id, seq<string>>)
    requires forall p :: norm(p) != ""
    modifies g
    ensures Stepped(old(StoreOf(g)), old(NodesOf(Present(payload.graphNodes))), NormAll(norm, modified), norm, StoreOf(g))
    ensures EdgesStepped(old(ItemsOf(g.outbound)), old(g.entrypoints), old(g.folderZones), Listed(old(StoreOf(g)).files, NormAll(norm, modified)), payload,
                         old(ItemsOf(payload.outboundEdges)), g)
    ensures old(LinesInOrder(g)) ==> LinesInOrder(g)
    ensures RulesStepped(old(g.macroRules), old(FullTables(g.nodes)), Listed(old(StoreOf(g)).files, NormAll(norm, modified)),
                         old(FullTables(Present(payload.graphNodes))), infer,
                         Reasoned(rules, payload.graphNodes.Keys, NormAll(norm, modified), norm, StoreOf(g), ItemsOf(g.inbound)), g)
    ensures g.commitHash == old(g.commitHash) && g.version == old(g.version) && g.schemaVersion == old(g.schemaVersion)
  {
    hide *;
    ghost var outbound, entrypoints, zones, macroRules := ItemsOf(g.outbound), g.entrypoints, g.folderZones, g.macroRules;
    ghost var nodes0, p, edges := g.nodes, Present(payload.graphNodes), ItemsOf(payload.outboundEdges);
    ghost var tables, added := FullTables(nodes0), FullTables(p);
    var swept := SweepAndGraft(g, payload.graphNodes, norm, modified, StoreOf(g), outbound, NodesOf(p));
    assert ItemsOf(payload.outboundEdges) == edges && FullTables(nodes0) == tables && FullTables(p) == added;
    TablesOfUnion(nodes0, swept, p);
    BindAndInfer(g, payload, infer, rules, modified, norm, outbound, entrypoints, zones, swept, edges, macroRules, tables, added);
  }

  /** applyDeltaToShadow. It writes the shadow graph's fields and nothing else that existed before. */
  method ApplyDelta(g: CodePropertyGraph, payload: LinkOutput, files: seq<string>, norm: string -> string, infer: bool, rules: map<Id, seq<string>>)
      returns (modified: seq<string>)
    requires forall p :: norm(p) != ""
    requires files == [] ==> payload.graphNodes == Present(payload.graphNodes)
    modifies g
    ensures AreModified(payload.graphNodes, files, modified)
    ensures Stepped(old(StoreOf(g)), old(NodesOf(Present(payload.graphNodes))), NormAll(norm, modified), norm, StoreOf(g))
    ensures EdgesStepped(old(ItemsOf(g.outbound)), old(g.entrypoints), old(g.folderZones), Listed(old(StoreOf(g)).files, NormAll(norm, modified)), payload,
                         old(ItemsOf(payload.outboundEdges)), g)
    ensures old(LinesInOrder(g)) ==> LinesInOrder(g)
    ensures RulesStepped(old(g.macroRules), old(FullTables(g.nodes)), Listed(old(StoreOf(g)).files, NormAll(norm, modified)),
                         old(FullTables(Present(payload.graphNodes))), infer,
                         Reasoned(rules, payload.graphNodes.Keys, NormAll(norm, modified), norm, StoreOf(g), ItemsOf(g.inbound)), g)
    ensures g.commitHash == old(g.commitHash) && g.version == old(g.version) && g.schemaVersion == old(g.schemaVersion)
  {
    hide *;
    ghost var p := Present(payload.graphNodes);
    ghost var views, tables := NodesOf(p), FullTables(p);
    modified := ModifiedFiles(payload.graphNodes, files);
    assert NodesOf(p) == views && FullTables(p) == tables;
    ApplyFiles(g, payload, modified, norm, infer, rules);
  }
}
