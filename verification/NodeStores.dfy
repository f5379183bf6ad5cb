/** What a graph's nodes and their four indexes hold, as values, and what one delta transaction
    does to them. */
module NodeStores {
  import opened Graphs
  import opened AkgStore
  import opened DeltaSweep
  import opened DeltaGraft

  /** The one property that incremental inference writes. */
  const MACRO_RULES := "macro_rules"

  /** A node without what inference derives. */
  datatype NodeView = NodeView(id: Id, kind: string, name: string, path: string, lineStart: int, lineEnd: int,
                               properties: map<string, string>)

  /** A node as the line index is compared: copies of one node differ only in their property tables. */
  datatype Span = Span(id: Id, lineStart: int, lineEnd: int)

  datatype NodeStore = NodeStore(nodes: map<Id, NodeView>, kinds: map<string, set<Id>>, files: map<string, set<Id>>,
                                 hashes: map<string, seq<Id>>, lines: map<string, set<Span>>)

  ghost function TableOf(p: Props?): map<string, string>
    reads p
  {
    if p == null then map[] else p.table - {"macro_rules"}
  }

  ghost function NodeOf(n: ResolvedNode): NodeView
    reads n, n.properties
  {
    NodeView(n.id, n.kind, n.name, n.path, n.lineStart, n.lineEnd, TableOf(n.properties))
  }

  ghost function NodesOf(nodes: map<Id, ResolvedNode>): map<Id, NodeView>
    reads nodes.Values, set id | id in nodes :: nodes[id].properties
  {
    map id | id in nodes :: NodeOf(nodes[id])
  }

  ghost function SpanOf(n: ResolvedNode): Span { Span(n.id, n.lineStart, n.lineEnd) }

  ghost function SpansIn(list: seq<ResolvedNode>): set<Span> { set n | n in list :: SpanOf(n) }

  ghost function LinesOf(index: map<string, seq<ResolvedNode>>): map<string, set<Span>> {
    map p | p in index :: SpansIn(index[p])
  }

  ghost function StoreOf(g: CodePropertyGraph): NodeStore
    reads g`nodes, g`kindIndex, g`fileIndex, g`hashIndex, g`lineIndex
    reads g.kindIndex.Values, g.fileIndex.Values, g.hashIndex.Values, g.lineIndex.Values
    reads g.nodes.Values, set id | id in g.nodes :: g.nodes[id].properties
  {
    NodeStore(NodesOf(g.nodes), BucketsOf(g.kindIndex), BucketsOf(g.fileIndex), ItemsOf(g.hashIndex), LinesOf(ItemsOf(g.lineIndex)))
  }

  /* ---- attributes of node views ---- */

  ghost function Kinds(nodes: map<Id, NodeView>): map<Id, string> { map id | id in nodes :: nodes[id].kind }

  ghost function Paths(nodes: map<Id, NodeView>, norm: string -> string): map<Id, string> { map id | id in nodes :: norm(nodes[id].path) }

  ghost function HashIn(n: NodeView): string { if "hash" in n.properties then n.properties["hash"] else "" }

  ghost function Hashes(nodes: map<Id, NodeView>): map<Id, string> { map id | id in nodes :: HashIn(nodes[id]) }

  ghost function ViewSpan(n: NodeView): Span { Span(n.id, n.lineStart, n.lineEnd) }

  ghost function SpansOf(nodes: map<Id, NodeView>, ids: set<Id>): set<Span> {
    set id | id in ids && id in nodes :: ViewSpan(nodes[id])
  }

  ghost function SpansAt(lines: map<string, set<Span>>, p: string): set<Span> { if p in lines then lines[p] else {} }

  /** The IDs filed under one of `paths`. */
  ghost function Listed(files: map<string, set<Id>>, paths: set<string>): set<Id> {
    set p, id | p in paths && id in SetAt(files, p) :: id
  }

  lemma AttributesOf(nodes: map<Id, ResolvedNode>, norm: string -> string)
    ensures Kinds(NodesOf(nodes)) == KindsOf(nodes) && Paths(NodesOf(nodes), norm) == PathsOf(nodes, norm)
    ensures Hashes(NodesOf(nodes)) == HashesOf(nodes)
  {
  }

  /* ---- one transaction ---- */

  /** Swept IDs leave their bucket, grafted ones enter theirs. */
  ghost predicate IdsStepped(before: map<string, set<Id>>, after: map<string, set<Id>>, attr: map<Id, string>, swept: set<Id>, added: map<Id, string>) {
    forall k :: SetAt(after, k) == SetAt(before, k) - Filed(attr, swept, k) + Filed(added, added.Keys, k)
  }

  /** A modified file's bucket is dropped as a whole. */
  ghost predicate FilesStepped(before: map<string, set<Id>>, after: map<string, set<Id>>, paths: set<string>, added: map<Id, string>) {
    forall p :: SetAt(after, p) == (if p in paths then {} else SetAt(before, p)) + Filed(added, added.Keys, p)
  }

  ghost predicate HashesStepped(before: map<string, seq<Id>>, after: map<string, seq<Id>>, hashes: map<Id, string>, swept: set<Id>, added: map<Id, string>) {
    forall h :: h != "" ==>
      multiset(ListAt(after, h)) == multiset(Without(ListAt(before, h), Filed(hashes, swept, h))) + multiset(Filed(added, added.Keys, h))
  }

  ghost predicate LinesStepped(before: map<string, set<Span>>, after: map<string, set<Span>>, dropped: set<string>,
                               nodes: map<Id, NodeView>, added: map<Id, string>) {
    forall p :: SpansAt(after, p) == (if p in dropped then {} else SpansAt(before, p)) + SpansOf(nodes, Filed(added, added.Keys, p))
  }

  /** The sweep of the files at `paths` and the graft of `payload` turn `s0` into `s1`. */
  ghost predicate Stepped(s0: NodeStore, payload: map<Id, NodeView>, paths: set<string>, norm: string -> string, s1: NodeStore) {
    var swept := Listed(s0.files, paths);
    s1.nodes == s0.nodes - swept + payload
    && IdsStepped(s0.kinds, s1.kinds, Kinds(s0.nodes), swept, Kinds(payload))
    && FilesStepped(s0.files, s1.files, paths, Paths(payload, norm))
    && HashesStepped(s0.hashes, s1.hashes, Hashes(s0.nodes), swept, Hashes(payload))
    && LinesStepped(s0.lines, s1.lines, paths * s0.files.Keys, payload, Paths(payload, norm))
  }

  lemma IdsCompose(b0: map<string, set<Id>>, b1: map<string, set<Id>>, b2: map<string, set<Id>>, attr: map<Id, string>, swept: set<Id>, added: map<Id, string>)
    requires IdsDropped(b0, b1, attr, swept) && IdsAdded(b1, b2, added, added.Keys)
    ensures IdsStepped(b0, b2, attr, swept, added)
  {
  }

  lemma HashesCompose(b0: map<string, seq<Id>>, b1: map<string, seq<Id>>, b2: map<string, seq<Id>>, attr: map<Id, string>, swept: set<Id>, added: map<Id, string>)
    requires HashesDropped(b0, b1, attr, swept) && HashesAdded(b1, b2, added, added.Keys)
    ensures HashesStepped(b0, b2, attr, swept, added)
  {
  }

  lemma FilesCompose(b0: map<string, set<Id>>, b1: map<string, set<Id>>, b2: map<string, set<Id>>, paths: set<string>, added: map<Id, string>)
    requires b1 == b0 - paths && IdsAdded(b1, b2, added, added.Keys)
    ensures FilesStepped(b0, b2, paths, added)
  {
    hide Filed;
  }

  lemma SpansOfMembers(a: seq<ResolvedNode>, b: seq<ResolvedNode>, nodes: map<Id, ResolvedNode>, ids: set<Id>)
    requires Members(a) == Members(b) + NodesAt(nodes, ids)
    ensures SpansIn(a) == SpansIn(b) + SpansOf(NodesOf(nodes), ids)
  {
    forall s | s in SpansIn(a)
      ensures s in SpansIn(b) + SpansOf(NodesOf(nodes), ids)
    {
      var n :| n in a && SpanOf(n) == s;
      assert n in Members(a);
      if n !in Members(b) {
        var id :| id in ids && id in nodes && nodes[id] == n;
      }
    }
    forall s | s in SpansIn(b)
      ensures s in SpansIn(a)
    {
      var n :| n in b && SpanOf(n) == s;
      assert n in Members(a);
    }
    forall s | s in SpansOf(NodesOf(nodes), ids)
      ensures s in SpansIn(a)
    {
      var id :| id in ids && id in nodes && ViewSpan(NodesOf(nodes)[id]) == s;
      assert nodes[id] in Members(a);
    }
  }

  lemma LinesCompose(l0: map<string, seq<ResolvedNode>>, l1: map<string, seq<ResolvedNode>>, l2: map<string, seq<ResolvedNode>>,
                     dropped: set<string>, nodes: map<Id, ResolvedNode>, added: map<Id, string>)
    requires l1 == l0 - dropped && LinesAdded(l1, l2, nodes, added, added.Keys)
    ensures LinesStepped(LinesOf(l0), LinesOf(l2), dropped, NodesOf(nodes), added)
  {
    hide Filed, NodesOf, SpansOf;
    forall p
      ensures SpansAt(LinesOf(l2), p) == (if p in dropped then {} else SpansAt(LinesOf(l0), p)) + SpansOf(NodesOf(nodes), Filed(added, added.Keys, p))
    {
      SpansOfMembers(ListAt(l2, p), ListAt(l1, p), nodes, Filed(added, added.Keys, p));
    }
  }
}
