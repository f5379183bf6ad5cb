/** AKGTransactionManager and its container: delta transactions that persist before they promote, and
    the snapshots they leave behind. */
module Transactions {
  import opened Wrappers
  import opened Graphs
  import opened AkgStore
  import opened DeltaSweep
  import opened DeltaGraft
  import opened DeltaEdges
  import opened NodeStores
  import opened Inference
  import opened DeltaStep
  import opened DeltaIndexes
  import opened GraphJson
  import opened Ordering

  ghost function SpansIn(list: seq<ResolvedNode>): seq<Span> { seq(|list|, i requires 0 <= i < |list| => SpanOf(list[i])) }

  /** The line lists in their order. */
  ghost function LinesShown(index: Lists<ResolvedNode>): map<string, seq<Span>>
    reads index.Values
  {
    map p | p in index :: SpansIn(index[p].items)
  }

  /** Everything a reader can see through a graph handed out. */
  datatype Snapshot = Snapshot(value: GraphValue, store: NodeStore, inbound: Adjacency, macroRules: map<Id, seq<string>>, lines: map<string, seq<Span>>)

  /** The inbound view and the line lists. */
  ghost function InboundAndLines(g: CodePropertyGraph): (Adjacency, map<string, seq<Span>>)
    reads g, g.inbound.Values, g.lineIndex.Values
  {
    (ItemsOf(g.inbound), LinesShown(g.lineIndex))
  }

  ghost function SnapshotOf(g: CodePropertyGraph): Snapshot
    reads g.nodes.Values, set id | id in g.nodes :: g.nodes[id].properties
    reads g, g.kindIndex.Values, g.fileIndex.Values, g.hashIndex.Values, g.lineIndex.Values, g.outbound.Values, g.inbound.Values
  {
    var rest := InboundAndLines(g);
    Snapshot(ValueOf(g), StoreOf(g), rest.0, g.macroRules, rest.1)
  }

  lemma SameFields(a: CodePropertyGraph, b: CodePropertyGraph)
    requires a.schemaVersion == b.schemaVersion && a.commitHash == b.commitHash && a.version == b.version
    requires a.nodes == b.nodes && a.outbound == b.outbound && a.inbound == b.inbound
    requires a.fileIndex == b.fileIndex && a.lineIndex == b.lineIndex && a.kindIndex == b.kindIndex && a.hashIndex == b.hashIndex
    requires a.macroRules == b.macroRules && a.folderZones == b.folderZones && a.entrypoints == b.entrypoints && a.errors == b.errors
    ensures SnapshotOf(a) == SnapshotOf(b)
  {
    hide JsonNodes, NodesOf, BucketsOf, LinesOf, ItemsOf, LinesShown;
  }

  /** Each line list is sorted by start line. */
  ghost predicate InLineOrder(s: Snapshot) {
    forall p, i, j :: p in s.lines && 0 <= i < j < |s.lines[p]| ==> s.lines[p][i].lineStart <= s.lines[p][j].lineStart
  }

  lemma OrderShows(g: CodePropertyGraph)
    ensures InLineOrder(SnapshotOf(g)) <==> LinesInOrder(g)
  {
    hide ValueOf, StoreOf;
    assert SnapshotOf(g).lines == LinesShown(g.lineIndex);
    forall p | p in g.lineIndex
      ensures |LinesShown(g.lineIndex)[p]| == |g.lineIndex[p].items|
      ensures forall i :: 0 <= i < |g.lineIndex[p].items| ==> LinesShown(g.lineIndex)[p][i].lineStart == g.lineIndex[p].items[i].lineStart
    {
    }
    assert forall p :: p in g.lineIndex <==> p in LinesShown(g.lineIndex);
    assert forall p :: p in g.lineIndex ==> ItemsOf(g.lineIndex)[p] == g.lineIndex[p].items;
    hide LinesShown;
    if InLineOrder(SnapshotOf(g)) {
      forall p | p in ItemsOf(g.lineIndex)
        ensures SortedByLine(ItemsOf(g.lineIndex)[p])
      {
      }
    }
    if LinesInOrder(g) {
      forall p | p in g.lineIndex
        ensures SortedByLine(g.lineIndex[p].items)
      {
      }
    }
  }

  /** Clone copies the fields; nodes, tables, buckets, lists and slices stay shared. */
  method Clone(g: CodePropertyGraph) returns (clone: CodePropertyGraph)
    ensures fresh(clone) && SnapshotOf(clone) == SnapshotOf(g) && clone.macroCache == g.macroCache
  {
    clone := new CodePropertyGraph.Copy(g);
    SameFields(clone, g);
  }

  /** The storage directory: what akg.json holds, if it exists. */
  class StateDir {
    var akgJson: Option<GraphDoc>

    constructor (akgJson: Option<GraphDoc>)
      ensures this.akgJson == akgJson
    {
      this.akgJson := akgJson;
    }
  }

  /** Which file operation of one save fails, if any; all but the last come before the rename. */
  datatype Fault = NoFault | CreateTemp | WriteTemp | SyncTemp | OverBudget | DigestMismatch | Rename

  /** writeJSONState: stage, verify, rename. */
  method SaveToDisk(g: CodePropertyGraph, dir: StateDir, fault: Fault) returns (ok: bool)
    modifies dir
    ensures ok <==> fault == NoFault && GuardPasses(old(ValueOf(g)))
    ensures ok ==> dir.akgJson.Some? && IsDocOf(dir.akgJson.value, old(ValueOf(g)))
    ensures !ok ==> dir.akgJson == old(dir.akgJson)
  {
    hide *;
    if fault == CreateTemp {
      return false;
    }
    var staged := ExportVerified(g);
    if staged.Err? {
      return false;
    }
    if fault == WriteTemp || fault == SyncTemp || fault == OverBudget || fault == DigestMismatch || fault == Rename {
      return false;
    }
    dir.akgJson := Some(staged.value);
    return true;
  }

  /** A transaction request, with the choices of its environment. */
  datatype Request = Request(payload: LinkOutput, files: seq<string>, infer: bool, rules: map<Id, seq<string>>, lockFree: bool, fault: Fault)

  /** An empty file list with a nil node makes the code dereference nil. */
  predicate WellFormed(r: Request) { r.files == [] ==> forall id :: id in r.payload.graphNodes ==> r.payload.graphNodes[id] != null }

  /** One step of a run: a payload, its edges, its nodes and their property tables as they look, the normalized
      paths of the modified files, and what inference is to find. */
  datatype Step = Step(payload: LinkOutput, edges: Adjacency, nodes: map<Id, NodeView>, tables: map<Id, map<string, string>>, paths: set<string>,
                       infer: bool, rules: map<Id, seq<string>>)

  /** The files that are replaced: those named, or else those the payload has nodes of. */
  ghost function ModifiedPaths(payload: map<Id, ResolvedNode?>, files: seq<string>, norm: string -> string): set<string> {
    if files != [] then NormAll(norm, files)
    else set id | id in payload && payload[id] != null && payload[id].path != "" :: norm(payload[id].path)
  }

  lemma ModifiedAre(payload: map<Id, ResolvedNode?>, files: seq<string>, modified: seq<string>, norm: string -> string)
    requires AreModified(payload, files, modified)
    ensures NormAll(norm, modified) == ModifiedPaths(payload, files, norm)
  {
    if files == [] {
      forall p
        ensures p in NormAll(norm, modified) <==> p in ModifiedPaths(payload, files, norm)
      {
        if p in NormAll(norm, modified) {
          var f :| f in modified && norm(f) == p;
          var id :| id in payload && payload[id] != null && payload[id].path == f;
        }
      }
    }
  }

  /** What the nodes and edges of a request look like. */
  datatype Seen = Seen(edges: Adjacency, nodes: map<Id, NodeView>, tables: map<Id, map<string, string>>)

  ghost function Look(r: Request): Seen
    reads r.payload.outboundEdges.Values, r.payload.graphNodes.Values
    reads set n: ResolvedNode? | n in r.payload.graphNodes.Values && n != null :: n.properties
  {
    Seen(ItemsOf(r.payload.outboundEdges), NodesOf(Present(r.payload.graphNodes)), FullTables(Present(r.payload.graphNodes)))
  }

  /** The step a request asks for, given what it looks like. */
  ghost function StepOf(r: Request, seen: Seen, norm: string -> string): Step {
    Step(r.payload, seen.edges, seen.nodes, seen.tables, ModifiedPaths(r.payload.graphNodes, r.files, norm), r.infer, r.rules)
  }

  ghost function PropertiesOf(nodes: map<Id, GraphNodeJson>): map<Id, map<string, string>> { map id | id in nodes :: nodes[id].properties }

  /** What becomes of the rules and of the property tables. */
  ghost predicate RulesCommitted(s0: Snapshot, step: Step, norm: string -> string, s1: Snapshot) {
    var chosen := Reasoned(step.rules, step.payload.graphNodes.Keys, step.paths, norm, s1.store, s1.inbound);
    var swept := Listed(s0.store.files, step.paths);
    var tables := PropertiesOf(s0.value.nodes) - swept + step.tables;
    s1.macroRules == s0.macroRules - swept + (if step.infer then Taken(chosen, s1.value.nodes.Keys) else map[])
    && PropertiesOf(s1.value.nodes) == if step.infer then Annotated(tables, chosen, s1.value.nodes.Keys) else tables
  }

  /** What one committed transaction makes of a snapshot. */
  ghost predicate Committed(s0: Snapshot, step: Step, norm: string -> string, s1: Snapshot) {
    var swept := Listed(s0.store.files, step.paths);
    Stepped(s0.store, step.nodes, step.paths, norm, s1.store)
    && EdgesSwept(s1.store.nodes.Keys, s0.value.outbound - swept + step.edges, s1.value.outbound, s1.inbound, s1.value.errors)
    && Bound(Without(s0.value.entrypoints, swept), step.payload.entrypointRegistry, s1.value.entrypoints)
    && s1.value.folderZones == s0.value.folderZones - swept + step.payload.folderZones
    && s1.value.commitHash == step.payload.commitHash && s1.value.schemaVersion == s0.value.schemaVersion && RulesCommitted(s0, step, norm, s1)
    && (InLineOrder(s0) ==> InLineOrder(s1))
  }

  lemma PartsShown(g: CodePropertyGraph, s: Snapshot)
    requires SnapshotOf(g) == s
    ensures g.schemaVersion == s.value.schemaVersion && g.commitHash == s.value.commitHash && g.entrypoints == s.value.entrypoints
    ensures g.folderZones == s.value.folderZones && g.macroRules == s.macroRules && g.errors == s.value.errors
    ensures StoreOf(g) == s.store && ItemsOf(g.outbound) == s.value.outbound && ItemsOf(g.inbound) == s.inbound
    ensures FullTables(g.nodes) == PropertiesOf(s.value.nodes) && g.nodes.Keys == s.value.nodes.Keys == s.store.nodes.Keys
    ensures LinesInOrder(g) <==> InLineOrder(s)
  {
    assert StoreOf(g).nodes.Keys == g.nodes.Keys && JsonNodes(g.nodes).Keys == g.nodes.Keys;
    PropertiesAre(g.nodes);
    OrderShows(g);
    hide StoreOf, JsonNodes, FullTables, PropertiesOf, ItemsOf, LinesShown, LinesInOrder, InLineOrder;
  }

  lemma RulesFrom(s0: Snapshot, g: CodePropertyGraph, step: Step, norm: string -> string, s1: Snapshot)
    requires FullTables(g.nodes) == PropertiesOf(s1.value.nodes) && g.macroRules == s1.macroRules && g.nodes.Keys == s1.value.nodes.Keys
    requires RulesStepped(s0.macroRules, PropertiesOf(s0.value.nodes), Listed(s0.store.files, step.paths), step.tables, step.infer,
                          Reasoned(step.rules, step.payload.graphNodes.Keys, step.paths, norm, s1.store, s1.inbound), g)
    ensures RulesCommitted(s0, step, norm, s1)
  {
    hide Listed, PropertiesOf, FullTables, Annotated, Taken, Reasoned;
  }

  lemma CommittedFrom(s0: Snapshot, g: CodePropertyGraph, step: Step, norm: string -> string)
    requires Stepped(s0.store, step.nodes, step.paths, norm, StoreOf(g)) && g.commitHash == step.payload.commitHash && g.schemaVersion == s0.value.schemaVersion
    requires EdgesStepped(s0.value.outbound, s0.value.entrypoints, s0.value.folderZones, Listed(s0.store.files, step.paths), step.payload, step.edges, g)
    requires InLineOrder(s0) ==> LinesInOrder(g)
    requires RulesStepped(s0.macroRules, PropertiesOf(s0.value.nodes), Listed(s0.store.files, step.paths), step.tables, step.infer,
                          Reasoned(step.rules, step.payload.graphNodes.Keys, step.paths, norm, StoreOf(g), ItemsOf(g.inbound)), g)
    ensures Committed(s0, step, norm, SnapshotOf(g))
  {
    var s1 := SnapshotOf(g);
    hide SnapshotOf, StoreOf, ItemsOf, Stepped, EdgesSwept, Bound, Listed, RulesStepped, RulesCommitted, InLineOrder, LinesInOrder, PropertiesOf, Reasoned, FullTables;
    PartsShown(g, s1);
    RulesFrom(s0, g, step, norm, s1);
  }

  lemma PropertiesAre(nodes: map<Id, ResolvedNode>)
    ensures PropertiesOf(JsonNodes(nodes)) == FullTables(nodes)
  {
  }

  /** Sub-phase A and applyDeltaToShadow: a shadow that nobody else can reach yet. */
  method BuildShadow(active: CodePropertyGraph, txId: nat, r: Request, norm: string -> string, ghost seen: Seen) returns (shadow: CodePropertyGraph)
    requires (forall p :: norm(p) != "") && WellFormed(r) && seen == Look(r)
    ensures fresh(shadow) && shadow.version == txId
    ensures Committed(old(SnapshotOf(active)), StepOf(r, seen, norm), norm, SnapshotOf(shadow))
  {
    hide *;
    AllPresent(r);
    ghost var s0 := SnapshotOf(active);
    shadow := CloneFor(active, r, seen);
    PartsShown(shadow, s0);
    StampShadow(shadow, txId, r, seen);
    LookIs(r);
    var modified := ApplyDelta(shadow, r.payload, r.files, norm, r.infer, r.rules);
    ModifiedAre(r.payload.graphNodes, r.files, modified, norm);
    StepIs(r, seen, norm);
    CommittedFrom(s0, shadow, StepOf(r, seen, norm), norm);
  }

  lemma LookIs(r: Request)
    ensures Look(r) == Seen(ItemsOf(r.payload.outboundEdges), NodesOf(Present(r.payload.graphNodes)), FullTables(Present(r.payload.graphNodes)))
  {
  }

  lemma AllPresent(r: Request)
    requires WellFormed(r)
    ensures r.files == [] ==> r.payload.graphNodes == Present(r.payload.graphNodes)
  {
  }

  lemma StepIs(r: Request, seen: Seen, norm: string -> string)
    ensures StepOf(r, seen, norm)
            == Step(r.payload, seen.edges, seen.nodes, seen.tables, ModifiedPaths(r.payload.graphNodes, r.files, norm), r.infer, r.rules)
  {
  }

  method CloneFor(active: CodePropertyGraph, r: Request, ghost seen: Seen) returns (shadow: CodePropertyGraph)
    requires Look(r) == seen
    ensures fresh(shadow) && SnapshotOf(shadow) == SnapshotOf(active) == old(SnapshotOf(active)) && Look(r) == seen
  {
    hide SnapshotOf;
    shadow := Clone(active);
  }

  method StampShadow(shadow: CodePropertyGraph, txId: nat, r: Request, ghost seen: Seen)
    requires Look(r) == seen
    modifies shadow`version, shadow`commitHash
    ensures shadow.version == txId && shadow.commitHash == r.payload.commitHash && Look(r) == seen
    ensures StoreOf(shadow) == old(StoreOf(shadow)) && ItemsOf(shadow.outbound) == old(ItemsOf(shadow.outbound))
    ensures FullTables(shadow.nodes) == old(FullTables(shadow.nodes)) && LinesInOrder(shadow) == old(LinesInOrder(shadow))
  {
    hide *;
    shadow.version := txId;
    shadow.commitHash := r.payload.commitHash;
  }

  class TransactionManager {
    var active: CodePropertyGraph
    var txCounter: nat
    const dir: StateDir

    /** NewAKGTransactionManager after loading: the counter continues from the loaded version. */
    constructor (active: CodePropertyGraph, dir: StateDir)
      ensures this.active == active && this.dir == dir && txCounter == active.version
    {
      this.active, this.dir, this.txCounter := active, dir, active.version;
    }
  }

  /** Nodes sit under their own, non-empty IDs and edges under their own source. */
  ghost predicate NamesItself(s: Snapshot) {
    OwnIds(s.store.nodes) && "" !in s.store.nodes && OwnSources(s.value.outbound)
  }

  ghost predicate PayloadNamesItself(edges: Adjacency, nodes: map<Id, NodeView>) {
    OwnIds(nodes) && "" !in nodes && OwnSources(edges)
  }

  lemma KeptSources(ids: set<Id>, bound: Adjacency, kept: Adjacency)
    requires Survivors(ids, bound, kept) && OwnSources(bound)
    ensures OwnSources(kept)
  {
    forall s, k | s in kept && 0 <= k < |kept[s]|
      ensures kept[s][k].source == s || kept[s][k].source == ""
    {
      SplitConserves(ids, Edges(bound, s));
      assert kept[s] == Edges(kept, s) && kept[s][k] in kept[s];
      assert kept[s][k] in Edges(bound, s);
      var j :| 0 <= j < |Edges(bound, s)| && Edges(bound, s)[j] == kept[s][k];
    }
  }

  lemma StepNamesItself(s0: Snapshot, step: Step, norm: string -> string, s1: Snapshot)
    requires Committed(s0, step, norm, s1) && NamesItself(s0) && PayloadNamesItself(step.edges, step.nodes)
    ensures NamesItself(s1)
  {
    hide IdsStepped, FilesStepped, HashesStepped, LinesStepped, Recorded, Survivors, Listed;
    var bound := s0.value.outbound - Listed(s0.store.files, step.paths) + step.edges;
    KeptSources(s1.store.nodes.Keys, bound, s1.value.outbound);
  }

  /** The two views of a graph's nodes agree on IDs. */
  lemma SameIds(g: CodePropertyGraph)
    ensures SnapshotOf(g).value.nodes.Keys == SnapshotOf(g).store.nodes.Keys
    ensures OwnIds(SnapshotOf(g).store.nodes) ==> UnderOwnIds(SnapshotOf(g).value.nodes)
  {
    hide BucketsOf, LinesOf, ItemsOf, LinesShown;
    assert SnapshotOf(g).value.nodes == JsonNodes(g.nodes) && SnapshotOf(g).store.nodes == NodesOf(g.nodes);
    forall id | id in g.nodes && OwnIds(NodesOf(g.nodes))
      ensures JsonNodes(g.nodes)[id].id == id
    {
      assert NodesOf(g.nodes)[id].id == id;
    }
  }

  lemma NothingDangles(s0: Snapshot, step: Step, norm: string -> string, s1: Snapshot)
    requires Committed(s0, step, norm, s1)
    ensures NoDangling(s1.store.nodes.Keys, s1.value.outbound)
  {
    hide Stepped, Survivors, Recorded, FiledByTarget, AllEdges, Bound, RulesCommitted, InLineOrder, NoDangling;
  }

  /** The write-time guard never rejects what a transaction builds, if the graph and the payload name
      themselves. */
  lemma NeverRejected(s0: Snapshot, step: Step, norm: string -> string, g: CodePropertyGraph)
    requires Committed(s0, step, norm, SnapshotOf(g)) && NamesItself(s0) && PayloadNamesItself(step.edges, step.nodes)
    ensures GuardPasses(ValueOf(g)) && NamesItself(SnapshotOf(g))
  {
    hide SnapshotOf, Committed, GuardPasses, NoDangling, OwnIds, UnderOwnIds, OwnSources, PayloadNamesItself, ValueOf;
    ghost var s1 := SnapshotOf(g);
    StepNamesItself(s0, step, norm, s1);
    NothingDangles(s0, step, norm, s1);
    SameIds(g);
    GuardAccepts(s1.value);
    ValueIn(g);
  }

  /** What a committed graph records: exactly the edges it was left with that lead nowhere, by their own
      source, target, kind and line. */
  lemma ErrorsCommitted(s0: Snapshot, step: Step, norm: string -> string, s1: Snapshot, d: DanglingRef)
    requires Committed(s0, step, norm, s1)
    ensures d in s1.value.errors
            <==> NamesDangling(s1.store.nodes.Keys, s0.value.outbound - Listed(s0.store.files, step.paths) + step.edges, d)
    ensures d in s1.value.errors ==> d.source in s1.store.nodes && d.target !in s1.store.nodes
  {
    hide Stepped, Bound, RulesCommitted, Recorded, Survivors, NoDangling, FiledByTarget, AllEdges, InLineOrder;
    RecordsName(s1.store.nodes.Keys, s0.value.outbound - Listed(s0.store.files, step.paths) + step.edges, s1.value.errors, d);
  }

  lemma ErrorsLeadNowhere(s0: Snapshot, step: Step, norm: string -> string, g: CodePropertyGraph)
    requires Committed(s0, step, norm, SnapshotOf(g))
    ensures forall d :: d in g.errors ==> d.source in g.nodes && d.target !in g.nodes
  {
    hide *;
    PartsShown(g, SnapshotOf(g));
    forall d | d in g.errors
      ensures d.source in g.nodes && d.target !in g.nodes
    {
      ErrorsCommitted(s0, step, norm, SnapshotOf(g), d);
    }
  }

  /** ExecuteDeltaTransaction. It writes the manager and the state directory; every graph, bucket, node
      and table that existed before is left alone, whether the transaction commits or not. */
  method ExecuteDelta(tm: TransactionManager, r: Request, norm: string -> string) returns (ok: bool)
    requires (forall p :: norm(p) != "") && WellFormed(r)
    modifies tm, tm.dir
    ensures !ok ==> tm.active == old(tm.active) && tm.dir.akgJson == old(tm.dir.akgJson)
    ensures ok ==> fresh(tm.active) && tm.active.version == tm.txCounter == old(tm.txCounter) + 1
    ensures ok ==> tm.dir.akgJson.Some? && IsDocOf(tm.dir.akgJson.value, ValueOf(tm.active))
    ensures ok ==> Committed(old(SnapshotOf(tm.active)), StepOf(r, old(Look(r)), norm), norm, SnapshotOf(tm.active))
    ensures ok ==> forall d :: d in tm.active.errors ==> d.source in tm.active.nodes && d.target !in tm.active.nodes
    ensures old(tm.txCounter) <= tm.txCounter <= old(tm.txCounter) + 1
    ensures ok ==> r.lockFree && r.fault == NoFault
    ensures ok <== Unhindered(r, old(Look(r)), old(SnapshotOf(tm.active)))
  {
    hide *;
    ghost var s0, seen := SnapshotOf(tm.active), Look(r);
    UnhinderedIs(r, seen, s0);
    if !r.lockFree {
      return false;
    }
    CountUp(tm, r, s0, seen);
    ghost var step := StepOf(r, seen, norm);
    var shadow := BuildShadow(tm.active, tm.txCounter, r, norm, seen);
    ValueIn(shadow);
    StepIs(r, seen, norm);
    if NamesItself(s0) && PayloadNamesItself(seen.edges, seen.nodes) {
      NeverRejected(s0, step, norm, shadow);
    }
    ok := PersistAndPromote(tm, shadow, r.fault, SnapshotOf(shadow));
    ValueIn(tm.active);
    if ok {
      ErrorsLeadNowhere(s0, step, norm, tm.active);
    }
  }

  /** A request that nothing stands in the way of. */
  ghost predicate Unhindered(r: Request, seen: Seen, s0: Snapshot) {
    r.lockFree && r.fault == NoFault && NamesItself(s0) && PayloadNamesItself(seen.edges, seen.nodes)
  }

  lemma UnhinderedIs(r: Request, seen: Seen, s0: Snapshot)
    ensures Unhindered(r, seen, s0) <==> r.lockFree && r.fault == NoFault && NamesItself(s0) && PayloadNamesItself(seen.edges, seen.nodes)
  {
  }

  lemma ValueIn(g: CodePropertyGraph)
    ensures SnapshotOf(g).value == ValueOf(g) && SnapshotOf(g).value.version == g.version && SnapshotOf(g).store == StoreOf(g)
  {
  }

  /** A new transaction ID is taken, also by a transaction that fails later. */
  method CountUp(tm: TransactionManager, r: Request, ghost s0: Snapshot, ghost seen: Seen)
    requires SnapshotOf(tm.active) == s0 && Look(r) == seen
    modifies tm`txCounter
    ensures tm.txCounter == old(tm.txCounter) + 1 && SnapshotOf(tm.active) == s0 && Look(r) == seen
  {
    tm.txCounter := tm.txCounter + 1;
  }

  /** Durable before visible: the active pointer moves only after the file is in place. */
  method PersistAndPromote(tm: TransactionManager, shadow: CodePropertyGraph, fault: Fault, ghost s1: Snapshot) returns (ok: bool)
    requires SnapshotOf(shadow) == s1
    modifies tm`active, tm.dir
    ensures SnapshotOf(shadow) == s1
    ensures ok <==> fault == NoFault && GuardPasses(s1.value)
    ensures ok ==> tm.active == shadow && tm.dir.akgJson.Some? && IsDocOf(tm.dir.akgJson.value, s1.value)
    ensures !ok ==> tm.active == old(tm.active) && tm.dir.akgJson == old(tm.dir.akgJson)
  {
    assert s1.value == ValueOf(shadow);
    hide *;
    ok := SaveToDisk(shadow, tm.dir, fault);
    assert SnapshotOf(shadow) == s1;
    if ok {
      Promote(tm, shadow, s1);
    }
  }

  /** The active pointer moves; nothing else does. */
  method Promote(tm: TransactionManager, shadow: CodePropertyGraph, ghost s1: Snapshot)
    requires SnapshotOf(shadow) == s1
    modifies tm`active
    ensures tm.active == shadow && SnapshotOf(shadow) == s1
  {
    tm.active := shadow;
  }

  /* ---- whole runs ---- */

  /** `views` is what the successive committed graphs show, `steps` what happened between them. */
  ghost predicate RunOf(views: seq<Snapshot>, steps: seq<Step>, norm: string -> string) {
    |views| == |steps| + 1 && forall i :: 0 <= i < |steps| ==> RunStepHolds(views, steps, norm, i)
  }

  ghost predicate RunStepHolds(views: seq<Snapshot>, steps: seq<Step>, norm: string -> string, i: nat)
    requires |views| == |steps| + 1 && i < |steps|
  {
    Committed(views[i], steps[i], norm, views[i + 1]) && views[i].value.version < views[i + 1].value.version
  }

  /** Each graph that was handed out still shows what it showed then. */
  ghost predicate StillShow(graphs: seq<CodePropertyGraph>, views: seq<Snapshot>)
    reads graphs
    reads set i, b | 0 <= i < |graphs| && b in graphs[i].kindIndex.Values :: b
    reads set i, b | 0 <= i < |graphs| && b in graphs[i].fileIndex.Values :: b
    reads set i, l | 0 <= i < |graphs| && l in graphs[i].hashIndex.Values :: l
    reads set i, l | 0 <= i < |graphs| && l in graphs[i].lineIndex.Values :: l
    reads set i, l | 0 <= i < |graphs| && l in graphs[i].outbound.Values :: l
    reads set i, l | 0 <= i < |graphs| && l in graphs[i].inbound.Values :: l
    reads set i, id | 0 <= i < |graphs| && id in graphs[i].nodes :: graphs[i].nodes[id]
    reads set i, id | 0 <= i < |graphs| && id in graphs[i].nodes :: graphs[i].nodes[id].properties
  {
    |graphs| == |views| && forall i :: 0 <= i < |graphs| ==> SnapshotOf(graphs[i]) == views[i]
  }

  lemma RunMore(views: seq<Snapshot>, steps: seq<Step>, norm: string -> string, step: Step, view: Snapshot)
    requires RunOf(views, steps, norm) && Committed(views[|steps|], step, norm, view) && views[|steps|].value.version < view.value.version
    ensures RunOf(views + [view], steps + [step], norm)
  {
    hide Committed;
    forall i | 0 <= i < |steps + [step]|
      ensures RunStepHolds(views + [view], steps + [step], norm, i)
    {
      if i < |steps| {
        assert RunStepHolds(views, steps, norm, i);
      }
    }
  }

  lemma StillShowMore(graphs: seq<CodePropertyGraph>, views: seq<Snapshot>, g: CodePropertyGraph)
    requires StillShow(graphs, views)
    ensures StillShow(graphs + [g], views + [SnapshotOf(g)])
  {
    hide SnapshotOf;
  }

  /** What holds between two requests. */
  ghost predicate Served(tm: TransactionManager, graphs: seq<CodePropertyGraph>, views: seq<Snapshot>, steps: seq<Step>, norm: string -> string, file0: Option<GraphDoc>)
    reads tm, tm.dir
  {
    RunOf(views, steps, norm) && |graphs| == |views| && graphs[|graphs| - 1] == tm.active
    && views[|views| - 1].value.version <= tm.txCounter
    && (if |graphs| == 1 then tm.dir.akgJson == file0
        else tm.dir.akgJson.Some? && IsDocOf(tm.dir.akgJson.value, views[|views| - 1].value))
  }

  function Commits(oks: seq<bool>): nat {
    if oks == [] then 0 else Commits(oks[..|oks| - 1]) + if oks[|oks| - 1] then 1 else 0
  }

  /** A request that is granted makes the next step of the run; an unhindered one is granted. */
  ghost predicate AnsweredAt(requests: seq<Request>, seen: seq<Seen>, oks: seq<bool>, views: seq<Snapshot>, steps: seq<Step>, norm: string -> string, i: nat)
    requires i < |oks| <= |requests| == |seen|
  {
    var k := Commits(oks[..i]);
    k < |views|
    && if oks[i] then k < |steps| && steps[k] == StepOf(requests[i], seen[i], norm) && requests[i].lockFree && requests[i].fault == NoFault
       else !Unhindered(requests[i], seen[i], views[k])
  }

  /** The answers so far, in order: `steps` are exactly the granted requests. */
  ghost predicate Answered(requests: seq<Request>, seen: seq<Seen>, oks: seq<bool>, views: seq<Snapshot>, steps: seq<Step>, norm: string -> string) {
    |oks| <= |requests| == |seen| && |steps| == Commits(oks) && |views| == |steps| + 1
    && forall i :: 0 <= i < |oks| ==> AnsweredAt(requests, seen, oks, views, steps, norm, i)
  }

  lemma AnsweredMore(requests: seq<Request>, seen: seq<Seen>, oks: seq<bool>, views: seq<Snapshot>, steps: seq<Step>, norm: string -> string,
                     ok: bool, views': seq<Snapshot>, steps': seq<Step>)
    requires Answered(requests, seen, oks, views, steps, norm) && |oks| < |requests|
    requires if ok then |views'| == |views| + 1 && views <= views' && steps' == steps + [StepOf(requests[|oks|], seen[|oks|], norm)]
                        && requests[|oks|].lockFree && requests[|oks|].fault == NoFault
             else views' == views && steps' == steps && !Unhindered(requests[|oks|], seen[|oks|], views[|steps|])
    ensures Answered(requests, seen, oks + [ok], views', steps', norm)
  {
    var oks' := oks + [ok];
    assert oks'[..|oks'| - 1] == oks;
    hide StepOf, Unhindered;
    forall i | 0 <= i < |oks'|
      ensures AnsweredAt(requests, seen, oks', views', steps', norm, i)
    {
      if i < |oks| {
        assert oks'[..i] == oks[..i];
        assert AnsweredAt(requests, seen, oks, views, steps, norm, i);
      }
    }
  }

  method ServeOne(tm: TransactionManager, r: Request, norm: string -> string, graphs: seq<CodePropertyGraph>,
                  ghost views: seq<Snapshot>, ghost steps: seq<Step>, ghost file0: Option<GraphDoc>, ghost seen: Seen)
      returns (ok: bool, graphs': seq<CodePropertyGraph>, ghost views': seq<Snapshot>, ghost steps': seq<Step>)
    requires (forall p :: norm(p) != "") && WellFormed(r) && Served(tm, graphs, views, steps, norm, file0) && StillShow(graphs, views) && seen == Look(r)
    modifies tm, tm.dir
    ensures Served(tm, graphs', views', steps', norm, file0) && StillShow(graphs', views')
    ensures graphs <= graphs' && views <= views' && |views| == |steps| + 1
    ensures if ok then |views'| == |views| + 1 && steps' == steps + [StepOf(r, seen, norm)] && r.lockFree && r.fault == NoFault
            else views' == views && steps' == steps && !Unhindered(r, seen, views[|steps|])
  {
    hide SnapshotOf, Committed, RunStepHolds, IsDocOf, Unhindered, Look, Present, RunOf, StepOf;
    assert RunOf(views, steps, norm) && StillShow(graphs, views);
    LastShows(graphs, views, steps, norm);
    graphs', views', steps' := graphs, views, steps;
    ok := ExecuteDelta(tm, r, norm);
    forall i | 0 <= i < |graphs|
      ensures SnapshotOf(graphs[i]) == views[i]
    {
      assert old(SnapshotOf(graphs[i])) == views[i];
    }
    assert StillShow(graphs, views);
    if ok {
      ghost var step := StepOf(r, seen, norm);
      ValueIn(tm.active);
      StillShowMore(graphs, views, tm.active);
      RunMore(views, steps, norm, step, SnapshotOf(tm.active));
      graphs', views', steps' := graphs + [tm.active], views + [SnapshotOf(tm.active)], steps + [step];
    }
  }

  lemma LastShows(graphs: seq<CodePropertyGraph>, views: seq<Snapshot>, steps: seq<Step>, norm: string -> string)
    requires RunOf(views, steps, norm) && StillShow(graphs, views)
    ensures |views| == |steps| + 1 == |graphs| && views[|steps|] == SnapshotOf(graphs[|graphs| - 1])
  {
    hide SnapshotOf, RunStepHolds;
  }

  lemma StartServing(tm: TransactionManager, norm: string -> string, requests: seq<Request>, seen: seq<Seen>)
    requires tm.active.version <= tm.txCounter && |requests| == |seen|
    ensures Answered(requests, seen, [], [SnapshotOf(tm.active)], [], norm)
    ensures Served(tm, [tm.active], [SnapshotOf(tm.active)], [], norm, tm.dir.akgJson) && StillShow([tm.active], [SnapshotOf(tm.active)])
  {
    ValueIn(tm.active);
    hide SnapshotOf;
  }

  /** A manager serves requests one after another. Every graph it ever published, not just the active
      one, still shows what it showed when it was published; the active graph is the last of them and
      what akg.json holds; versions strictly increase. */
  method Serve(tm: TransactionManager, requests: seq<Request>, norm: string -> string)
      returns (oks: seq<bool>, graphs: seq<CodePropertyGraph>, ghost seen: seq<Seen>, ghost views: seq<Snapshot>, ghost steps: seq<Step>)
    requires (forall p :: norm(p) != "") && (forall r :: r in requests ==> WellFormed(r)) && tm.active.version <= tm.txCounter
    modifies tm, tm.dir
    ensures Served(tm, graphs, views, steps, norm, old(tm.dir.akgJson)) && StillShow(graphs, views)
    ensures |oks| == |requests| == |seen| && Answered(requests, seen, oks, views, steps, norm)
    ensures forall i :: 0 <= i < |requests| ==> seen[i] == old(Look(requests[i]))
    ensures graphs[0] == old(tm.active) && views[0] == old(SnapshotOf(tm.active))
  {
    hide *;
    seen := LookAll(requests);
    StartServing(tm, norm, requests, seen);
    oks, graphs, views, steps := [], [tm.active], [SnapshotOf(tm.active)], [];
    for i := 0 to |requests|
      invariant Served(tm, graphs, views, steps, norm, old(tm.dir.akgJson)) && StillShow(graphs, views)
      invariant |oks| == i && Answered(requests, seen, oks, views, steps, norm)
      invariant [old(tm.active)] <= graphs && [old(SnapshotOf(tm.active))] <= views
    {
      assert requests[i] in requests;
      assert old(allocated(requests[i]) && allocated(requests[i].payload) && allocated(requests[i].payload.graphNodes)
                 && allocated(requests[i].payload.outboundEdges));
      assert Look(requests[i]) == seen[i];
      ghost var views0, steps0 := views, steps;
      var ok;
      ok, graphs, views, steps := ServeOne(tm, requests[i], norm, graphs, views, steps, old(tm.dir.akgJson), seen[i]);
      AnsweredMore(requests, seen, oks, views0, steps0, norm, ok, views, steps);
      oks := oks + [ok];
    }
  }

  lemma LookAll(requests: seq<Request>) returns (seen: seq<Seen>)
    ensures |seen| == |requests| && forall i :: 0 <= i < |requests| ==> seen[i] == Look(requests[i])
  {
    hide Look;
    seen := [];
    for i := 0 to |requests|
      invariant |seen| == i && forall j :: 0 <= j < i ==> seen[j] == Look(requests[j])
    {
      seen := seen + [Look(requests[i])];
    }
  }

  /* ---- what holds of every graph in a run ---- */

  /** The preconditions a caller of the linker can check: payloads are stable and name themselves. */
  ghost predicate GoodStep(s0: Snapshot, step: Step, norm: string -> string) {
    PayloadNamesItself(step.edges, step.nodes) && FiledBySource(step.edges) && Stable(s0.store, step.nodes, step.paths, norm)
  }

  ghost predicate Sound(s: Snapshot, norm: string -> string) {
    Exact(s.store, norm) && NamesItself(s) && FiledBySource(s.value.outbound)
  }

  lemma KeptFiledBySource(ids: set<Id>, bound: Adjacency, kept: Adjacency)
    requires Survivors(ids, bound, kept) && FiledBySource(bound)
    ensures FiledBySource(kept)
  {
    forall s, k | s in kept && 0 <= k < |kept[s]|
      ensures kept[s][k].source == s
    {
      SplitConserves(ids, Edges(bound, s));
      assert kept[s] == Edges(kept, s) && kept[s][k] in kept[s];
      assert kept[s][k] in Edges(bound, s);
      var j :| 0 <= j < |Edges(bound, s)| && Edges(bound, s)[j] == kept[s][k];
    }
  }

  lemma StepIsSound(s0: Snapshot, step: Step, norm: string -> string, s1: Snapshot)
    requires Sound(s0, norm) && GoodStep(s0, step, norm) && Committed(s0, step, norm, s1)
    ensures Sound(s1, norm)
  {
    StepNamesItself(s0, step, norm, s1);
    ExactIff(s0.store, step.nodes, step.paths, norm, s1.store);
    hide Stepped, Exact, Stable, Survivors, Recorded, Listed, OwnIds, AllEdges, FiledByTarget;
    var bound := s0.value.outbound - Listed(s0.store.files, step.paths) + step.edges;
    assert FiledBySource(bound);
    KeptFiledBySource(s1.store.nodes.Keys, bound, s1.value.outbound);
  }

  /** Every graph of a run of good steps has exact indexes, named nodes and edges under their source. */
  lemma {:induction false} RunsAreSound(views: seq<Snapshot>, steps: seq<Step>, norm: string -> string, i: nat)
    requires RunOf(views, steps, norm) && i < |views| && Sound(views[0], norm)
    requires forall j :: 0 <= j < |steps| ==> GoodStep(views[j], steps[j], norm)
    ensures Sound(views[i], norm)
  {
    hide Committed, Sound, GoodStep;
    if i > 0 {
      RunsAreSound(views, steps, norm, i - 1);
      assert RunStepHolds(views, steps, norm, i - 1);
      StepIsSound(views[i - 1], steps[i - 1], norm, views[i]);
    }
  }

  /** Versions in a run are strictly increasing, not only from one graph to the next. */
  lemma {:induction false} VersionsIncrease(views: seq<Snapshot>, steps: seq<Step>, norm: string -> string, i: nat, j: nat)
    requires RunOf(views, steps, norm) && i < j < |views|
    ensures views[i].value.version < views[j].value.version
  {
    assert RunStepHolds(views, steps, norm, j - 1);
    if i < j - 1 {
      VersionsIncrease(views, steps, norm, i, j - 1);
    }
  }
}
