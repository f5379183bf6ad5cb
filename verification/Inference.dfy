/** detachNodesForWrite and the writes of RunIncrementalMacroInference. Which rules a node gets is a
    parameter: inference is a step that touches nothing but rules and the macro_rules property. */
module Inference {
  import opened Graphs
  import opened AkgStore
  import opened DeltaSweep
  import opened NodeStores
  import opened AffectedNodes

  /** The nodes in `ids` and their property tables: what writing to these nodes may touch. */
  ghost function Own(nodes: map<Id, ResolvedNode>, ids: set<Id>): set<object>
    reads nodes.Values
  {
    (set id | id in ids && id in nodes :: nodes[id] as object)
    + (set id | id in ids && id in nodes && nodes[id].properties != null :: nodes[id].properties as object)
  }

  /** No two of these entries share a node or a property table. */
  ghost predicate Unshared(nodes: map<Id, ResolvedNode>, ids: set<Id>)
    reads nodes.Values
  {
    forall a, b :: a in ids && b in ids && a in nodes && b in nodes && a != b ==>
      nodes[a] != nodes[b] && (nodes[a].properties != null ==> nodes[a].properties != nodes[b].properties)
  }

  ghost function FullTable(n: ResolvedNode): map<string, string>
    reads n, n.properties
  {
    if n.properties == null then map[] else n.properties.table
  }

  /** Every node's properties, macro_rules included. */
  ghost function FullTables(nodes: map<Id, ResolvedNode>): map<Id, map<string, string>>
    reads nodes.Values, set id | id in nodes :: nodes[id].properties
  {
    map id | id in nodes :: FullTable(nodes[id])
  }

  /** A clone with its own copy of the property table; a nil table stays nil. */
  method CloneNode(n: ResolvedNode) returns (clone: ResolvedNode)
    ensures fresh(clone) && NodeOf(clone) == NodeOf(n) && FullTable(clone) == FullTable(n)
    ensures clone.properties == null <==> n.properties == null
    ensures clone.properties != null ==> fresh(clone.properties)
  {
    var props: Props? := null;
    if n.properties != null {
      props := new Props(n.properties.table);
    }
    clone := new ResolvedNode(n.id, n.kind, n.name, n.path, n.lineStart, n.lineEnd, props);
  }

  lemma CloneKeepsViews(nodes: map<Id, ResolvedNode>, id: Id, clone: ResolvedNode)
    requires id in nodes && NodeOf(clone) == NodeOf(nodes[id]) && FullTable(clone) == FullTable(nodes[id])
    ensures NodesOf(nodes[id := clone]) == NodesOf(nodes) && FullTables(nodes[id := clone]) == FullTables(nodes)
  {
    hide NodeOf, FullTable;
  }

  lemma CloneIsUnshared(nodes: map<Id, ResolvedNode>, id: Id, clone: ResolvedNode, done: set<Id>)
    requires id in nodes && Unshared(nodes, done) && clone !in nodes.Values
    requires clone.properties != null ==> forall k :: k in nodes ==> nodes[k].properties != clone.properties
    ensures Unshared(nodes[id := clone], done + {id})
    ensures forall o :: o in Own(nodes[id := clone], done + {id}) ==> o in Own(nodes, done) || o == clone || o == clone.properties
  {
  }

  /** The callback of detachNodesForWrite: one node is re-registered as a private clone. */
  method DetachNode(nodes: map<Id, ResolvedNode>, id: Id, ghost done: set<Id>) returns (nodes': map<Id, ResolvedNode>)
    requires id in nodes && Unshared(nodes, done)
    ensures nodes'.Keys == nodes.Keys && NodesOf(nodes') == NodesOf(nodes) && FullTables(nodes') == FullTables(nodes)
    ensures Unshared(nodes', done + {id}) && fresh(Own(nodes', done + {id}) - Own(nodes, done))
  {
    hide *;
    var clone := CloneNode(nodes[id]);
    CloneKeepsViews(nodes, id, clone);
    CloneIsUnshared(nodes, id, clone, done);
    nodes' := nodes[id := clone];
  }

  /** After detaching, every node and every property table reachable through `nodes'` is private to it. */
  method DetachNodes(nodes: map<Id, ResolvedNode>) returns (nodes': map<Id, ResolvedNode>)
    ensures nodes'.Keys == nodes.Keys && NodesOf(nodes') == NodesOf(nodes) && FullTables(nodes') == FullTables(nodes)
    ensures Unshared(nodes', nodes.Keys) && fresh(Own(nodes', nodes.Keys))
  {
    hide Unshared, NodesOf, FullTables;
    nodes' := nodes;
    var rest := nodes.Keys;
    ghost var done: set<Id>, own: set<object> := {}, {};
    NothingOwned(nodes);
    ghost var views, full := NodesOf(nodes), FullTables(nodes);
    while rest != {}
      invariant done <= nodes.Keys && rest == nodes.Keys - done
      invariant nodes'.Keys == nodes.Keys && NodesOf(nodes') == views && FullTables(nodes') == full
      invariant Unshared(nodes', done) && Own(nodes', done) == own && fresh(own)
    {
      var id :| id in rest;
      ghost var before := nodes';
      nodes' := DetachNode(nodes', id, done);
      assert NodesOf(before) == views && FullTables(before) == full && Own(before, done) == own;
      rest, done := rest - {id}, done + {id};
      assert fresh(Own(nodes', done) - own);
      own := Own(nodes', done);
    }
    assert done == nodes.Keys;
    assert NodesOf(nodes) == views && FullTables(nodes) == full;
  }

  lemma NothingOwned(nodes: map<Id, ResolvedNode>)
    ensures Own(nodes, {}) == {} && Unshared(nodes, {})
  {
  }

  /** The write itself: a node without a property table gets one first. */
  method WriteRule(n: ResolvedNode, joined: string)
    modifies n, n.properties
    ensures NodeOf(n) == old(NodeOf(n)) && FullTable(n) == old(FullTable(n))[MACRO_RULES := joined]
    ensures n.properties != null && (n.properties == old(n.properties) || fresh(n.properties))
  {
    if n.properties == null {
      n.properties := new Props(map[]);
    }
    var p := n.properties;
    ghost var table := p.table;
    p.table := p.table[MACRO_RULES := joined];
    assert p.table - {MACRO_RULES} == table - {MACRO_RULES};
  }

  /** The write at one of several nodes: no other node notices. */
  method WriteAt(nodes: map<Id, ResolvedNode>, id: Id, joined: string)
    requires id in nodes && Unshared(nodes, nodes.Keys)
    modifies nodes[id], nodes[id].properties
    ensures forall k :: k in nodes ==> NodeOf(nodes[k]) == old(NodeOf(nodes[k]))
    ensures forall k :: k in nodes && k != id ==> FullTable(nodes[k]) == old(FullTable(nodes[k])) && nodes[k].properties == old(nodes[k].properties)
    ensures FullTable(nodes[id]) == old(FullTable(nodes[id]))[MACRO_RULES := joined]
    ensures nodes[id].properties != null && (nodes[id].properties == old(nodes[id].properties) || fresh(nodes[id].properties))
  {
    ghost var n := nodes[id];
    assert forall k :: k in nodes && k != id ==> nodes[k] != n && (n.properties != null ==> nodes[k].properties != n.properties);
    hide *;
    WriteRule(nodes[id], joined);
  }

  /** One write of the reasoner. */
  method Annotate(nodes: map<Id, ResolvedNode>, id: Id, joined: string)
    requires id in nodes && Unshared(nodes, nodes.Keys)
    modifies nodes[id], nodes[id].properties
    ensures NodesOf(nodes) == old(NodesOf(nodes))
    ensures FullTables(nodes) == old(FullTables(nodes))[id := old(FullTable(nodes[id]))[MACRO_RULES := joined]]
    ensures Unshared(nodes, nodes.Keys) && fresh(Own(nodes, nodes.Keys) - old(Own(nodes, nodes.Keys)))
  {
    hide NodesOf, FullTables, NodeOf, FullTable;
    ghost var views, tables := NodesOf(nodes), FullTables(nodes);
    ViewsAre(nodes, views, tables);
    WriteAt(nodes, id, joined);
    ViewsSet(nodes, views, tables, id);
  }

  lemma ViewsAre(nodes: map<Id, ResolvedNode>, views: map<Id, NodeView>, tables: map<Id, map<string, string>>)
    requires views == NodesOf(nodes) && tables == FullTables(nodes)
    ensures views.Keys == nodes.Keys && tables.Keys == nodes.Keys
    ensures forall k :: k in nodes ==> views[k] == NodeOf(nodes[k]) && tables[k] == FullTable(nodes[k])
  {
    hide NodeOf, FullTable;
  }

  lemma ViewsSet(nodes: map<Id, ResolvedNode>, views: map<Id, NodeView>, tables: map<Id, map<string, string>>, id: Id)
    requires views.Keys == nodes.Keys && tables.Keys == nodes.Keys && id in nodes
    requires forall k :: k in nodes ==> views[k] == NodeOf(nodes[k]) && (k != id ==> tables[k] == FullTable(nodes[k]))
    ensures NodesOf(nodes) == views && FullTables(nodes) == tables[id := FullTable(nodes[id])]
  {
    hide NodeOf, FullTable;
  }

  /** The tables after writing the rules of the nodes in `ids`. */
  ghost function Annotated(tables: map<Id, map<string, string>>, rules: map<Id, seq<string>>, ids: set<Id>): map<Id, map<string, string>> {
    map id | id in tables :: if id in rules && id in ids then tables[id]["macro_rules" := Joined(rules[id])] else tables[id]
  }

  lemma AnnotatedMore(tables: map<Id, map<string, string>>, rules: map<Id, seq<string>>, ids: set<Id>, id: Id)
    requires id in rules && id in tables && id !in ids
    ensures Annotated(tables, rules, ids)[id := Annotated(tables, rules, ids)[id][MACRO_RULES := Joined(rules[id])]] == Annotated(tables, rules, ids + {id})
  {
    hide Joined;
  }

  function Joined(rules: seq<string>): string {
    if rules == [] then ""
    else if |rules| == 1 then rules[0]
    else rules[0] + " | " + Joined(rules[1..])
  }

  /** The rules of a node come in order, each two separated by a bar. */
  lemma {:induction false} JoinedParts(a: seq<string>, b: seq<string>)
    ensures Joined([]) == "" && (|a| == 1 ==> Joined(a) == a[0])
    ensures a != [] && b != [] ==> Joined(a + b) == Joined(a) + " | " + Joined(b)
  {
    if |a| > 1 && b != [] {
      JoinedParts(a[1..], b);
      assert (a + b)[1..] == a[1..] + b;
    } else if |a| == 1 && b != [] {
      assert (a + b)[1..] == b;
    }
  }

  lemma Owns(nodes: map<Id, ResolvedNode>, id: Id)
    requires id in nodes
    ensures nodes[id] in Own(nodes, nodes.Keys) && (nodes[id].properties != null ==> nodes[id].properties in Own(nodes, nodes.Keys))
    ensures id in FullTables(nodes) && FullTables(nodes)[id] == FullTable(nodes[id])
  {
  }

  /** The writes for the nodes that get rules. */
  method WriteRules(nodes: map<Id, ResolvedNode>, macroRules: map<Id, seq<string>>, rules: map<Id, seq<string>>) returns (macroRules': map<Id, seq<string>>)
    requires Unshared(nodes, nodes.Keys)
    modifies Own(nodes, nodes.Keys)
    ensures NodesOf(nodes) == old(NodesOf(nodes))
    ensures FullTables(nodes) == Annotated(old(FullTables(nodes)), rules, nodes.Keys)
    ensures macroRules' == macroRules + Taken(rules, nodes.Keys)
  {
    hide Unshared, NodesOf, FullTables, FullTable, Annotated, Taken, Joined;
    ghost var tables, views, own := FullTables(nodes), NodesOf(nodes), Own(nodes, nodes.Keys);
    StartWriting(nodes, macroRules, rules);
    macroRules' := macroRules;
    var rest := rules.Keys * nodes.Keys;
    ghost var all, done: set<Id> := rest, {};
    while rest != {}
      invariant done <= all && rest == all - done && NodesOf(nodes) == views
      invariant Unshared(nodes, nodes.Keys) && Own(nodes, nodes.Keys) == own && fresh(own - old(Own(nodes, nodes.Keys)))
      invariant FullTables(nodes) == Annotated(tables, rules, done) && macroRules' == macroRules + Taken(rules, done)
    {
      var id :| id in rest;
      Owns(nodes, id);
      WriteMore(tables, macroRules, rules, done, id);
      Annotate(nodes, id, Joined(rules[id]));
      macroRules', rest, done := macroRules'[id := rules[id]], rest - {id}, done + {id};
      assert fresh(Own(nodes, nodes.Keys) - own);
      own := Own(nodes, nodes.Keys);
    }
    assert done == all;
    AllAnnotated(tables, rules, done, nodes.Keys);
  }

  /** The rules of the nodes in `ids`. */
  ghost function Taken(rules: map<Id, seq<string>>, ids: set<Id>): map<Id, seq<string>> { map id | id in rules && id in ids :: rules[id] }

  lemma StartWriting(nodes: map<Id, ResolvedNode>, macroRules: map<Id, seq<string>>, rules: map<Id, seq<string>>)
    ensures FullTables(nodes).Keys == nodes.Keys && Annotated(FullTables(nodes), rules, {}) == FullTables(nodes)
    ensures macroRules + Taken(rules, {}) == macroRules
  {
    hide FullTable, Joined;
  }

  lemma WriteMore(tables: map<Id, map<string, string>>, macroRules: map<Id, seq<string>>, rules: map<Id, seq<string>>, done: set<Id>, id: Id)
    requires id in rules && id in tables && id !in done
    ensures id in Annotated(tables, rules, done)
    ensures Annotated(tables, rules, done)[id := Annotated(tables, rules, done)[id][MACRO_RULES := Joined(rules[id])]] == Annotated(tables, rules, done + {id})
    ensures (macroRules + Taken(rules, done))[id := rules[id]] == macroRules + Taken(rules, done + {id})
  {
    AnnotatedMore(tables, rules, done, id);
    hide Joined, Annotated;
  }

  lemma AllAnnotated(tables: map<Id, map<string, string>>, rules: map<Id, seq<string>>, done: set<Id>, all: set<Id>)
    requires tables.Keys == all && done == rules.Keys * all
    ensures Annotated(tables, rules, done) == Annotated(tables, rules, all) && Taken(rules, done) == Taken(rules, all)
  {
    hide Joined;
  }

  /** Detaching, then writing: the given nodes and their tables are not touched. */
  method InferInto(nodes: map<Id, ResolvedNode>, macroRules: map<Id, seq<string>>, rules: map<Id, seq<string>>)
      returns (nodes': map<Id, ResolvedNode>, macroRules': map<Id, seq<string>>)
    ensures nodes'.Keys == nodes.Keys && NodesOf(nodes') == NodesOf(nodes)
    ensures FullTables(nodes') == Annotated(FullTables(nodes), rules, nodes.Keys) && macroRules' == macroRules + Taken(rules, nodes.Keys)
  {
    hide *;
    ghost var views, tables := NodesOf(nodes), FullTables(nodes);
    nodes' := DetachNodes(nodes);
    assert NodesOf(nodes') == views && FullTables(nodes') == tables;
    macroRules' := WriteRules(nodes', macroRules, rules);
    assert NodesOf(nodes) == views && FullTables(nodes) == tables;
  }

  /** The rules of the affected nodes. */
  ghost function Chosen(rules: map<Id, seq<string>>, affected: set<Id>): map<Id, seq<string>> { map id | id in rules && id in affected :: rules[id] }

  /** Inference on a graph: its nodes keep everything but macro_rules, which names the rules of the affected
      nodes that get some; no table that existed before is written, and no other field than its nodes and
      rules changes. */
  method Infer(g: CodePropertyGraph, enabled: bool, rules: map<Id, seq<string>>, changed: set<Id>, modified: seq<string>, norm: string -> string,
               ghost chosen: map<Id, seq<string>>)
    requires chosen == Chosen(rules, Affected(changed, NormAll(norm, modified), BucketsOf(g.fileIndex), KindsOf(g.nodes), PathsOf(g.nodes, norm), ItemsOf(g.inbound)))
    modifies g`nodes, g`macroRules
    ensures g.nodes.Keys == old(g.nodes.Keys) && NodesOf(g.nodes) == old(NodesOf(g.nodes))
    ensures FullTables(g.nodes) == if enabled then Annotated(old(FullTables(g.nodes)), chosen, g.nodes.Keys) else old(FullTables(g.nodes))
    ensures g.macroRules == old(g.macroRules) + if enabled then Taken(chosen, g.nodes.Keys) else map[]
  {
    hide *;
    ghost var views, tables := NodesOf(g.nodes), FullTables(g.nodes);
    if g.nodes == map[] {
      NothingToWrite(g.nodes, chosen);
    }
    if enabled && g.nodes != map[] {
      var affected := FindAffected(g.nodes, g.fileIndex, g.inbound, changed, modified, norm);
      var own := map id | id in rules && id in affected :: rules[id];
      ChosenIs(rules, affected, own);
      var nodes', macroRules' := InferInto(g.nodes, g.macroRules, own);
      ghost var written := FullTables(nodes');
      g.nodes, g.macroRules := nodes', macroRules';
      assert NodesOf(nodes') == views && FullTables(nodes') == written;
    }
  }

  lemma ChosenIs(rules: map<Id, seq<string>>, affected: set<Id>, own: map<Id, seq<string>>)
    requires own == map id | id in rules && id in affected :: rules[id]
    ensures own == Chosen(rules, affected)
  {
  }

  lemma NothingToWrite(nodes: map<Id, ResolvedNode>, rules: map<Id, seq<string>>)
    requires nodes == map[]
    ensures Annotated(FullTables(nodes), rules, nodes.Keys) == FullTables(nodes) && Taken(rules, nodes.Keys) == map[]
  {
  }
}
