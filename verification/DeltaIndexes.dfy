/** When the batched indexes agree with a rebuild from scratch, and that they do over whole runs. */
module DeltaIndexes {
  import opened Graphs
  import opened AkgStore
  import opened DeltaSweep
  import opened NodeStores

  /* ---- what a rebuild computes ---- */

  /** Each bucket holds exactly the IDs whose attribute is its key. */
  ghost predicate ExactIds(buckets: map<string, set<Id>>, attr: map<Id, string>) {
    forall k :: SetAt(buckets, k) == Filed(attr, attr.Keys, k)
  }

  ghost function IdsIn(list: seq<Id>): set<Id> { set id | id in list }

  /** The same for hash lists, as sets; nothing is filed under the empty hash. */
  ghost predicate ExactHashes(lists: map<string, seq<Id>>, hashes: map<Id, string>) {
    forall h :: h != "" ==> IdsIn(ListAt(lists, h)) == Filed(hashes, hashes.Keys, h)
  }

  /** The same for hash lists with multiplicity: no ID is listed twice. */
  ghost predicate ExactHashLists(lists: map<string, seq<Id>>, hashes: map<Id, string>) {
    forall h :: h != "" ==> multiset(ListAt(lists, h)) == multiset(Filed(hashes, hashes.Keys, h))
  }

  /** Each line list holds exactly the spans of the nodes in its file. */
  ghost predicate ExactLines(lines: map<string, set<Span>>, nodes: map<Id, NodeView>, paths: map<Id, string>) {
    forall p :: SpansAt(lines, p) == SpansOf(nodes, Filed(paths, paths.Keys, p))
  }

  /** All four indexes are what a rebuild from the nodes would give. */
  ghost predicate Exact(s: NodeStore, norm: string -> string) {
    ExactIds(s.kinds, Kinds(s.nodes)) && ExactIds(s.files, Paths(s.nodes, norm))
    && ExactHashes(s.hashes, Hashes(s.nodes)) && ExactLines(s.lines, s.nodes, Paths(s.nodes, norm))
  }

  /** Nodes are stored under their own IDs. */
  ghost predicate OwnIds(nodes: map<Id, NodeView>) {
    forall id :: id in nodes ==> nodes[id].id == id
  }

  /* ---- one index ---- */

  ghost predicate Agree(a: map<Id, string>, b: map<Id, string>) {
    forall id :: id in a && id in b ==> a[id] == b[id]
  }

  /** A bucket index stays exact exactly when no surviving ID is grafted with another attribute: its
      old bucket would keep it. */
  lemma IdsExactIff(b0: map<string, set<Id>>, b1: map<string, set<Id>>, attr: map<Id, string>, swept: set<Id>, added: map<Id, string>)
    requires ExactIds(b0, attr) && IdsStepped(b0, b1, attr, swept, added)
    ensures ExactIds(b1, attr - swept + added) <==> Agree(attr - swept, added)
  {
    var attr1 := attr - swept + added;
    if Agree(attr - swept, added) {
      forall k
        ensures SetAt(b1, k) == Filed(attr1, attr1.Keys, k)
      {
      }
    }
    if ExactIds(b1, attr1) {
      forall id | id in attr - swept && id in added
        ensures attr[id] == added[id]
      {
        assert id in SetAt(b0, attr[id]);
        assert id in SetAt(b1, attr[id]);
      }
    }
  }

  /** Dropping the modified files' buckets drops exactly the swept IDs, as the buckets are exact. */
  lemma FilesStepAsIds(b0: map<string, set<Id>>, b1: map<string, set<Id>>, paths: set<string>, attr: map<Id, string>, added: map<Id, string>)
    requires ExactIds(b0, attr) && FilesStepped(b0, b1, paths, added)
    ensures IdsStepped(b0, b1, attr, Listed(b0, paths), added)
  {
    forall k
      ensures SetAt(b1, k) == SetAt(b0, k) - Filed(attr, Listed(b0, paths), k) + Filed(added, added.Keys, k)
    {
      forall id | id in Filed(attr, Listed(b0, paths), k)
        ensures k in paths
      {
        var p :| p in paths && id in SetAt(b0, p);
        assert id in Filed(attr, attr.Keys, p);
      }
    }
  }

  lemma WithoutIds(list: seq<Id>, drop: set<Id>)
    ensures IdsIn(Without(list, drop)) == IdsIn(list) - drop
  {
  }

  lemma IdsOfSum(list: seq<Id>, a: seq<Id>, s: set<Id>)
    requires multiset(list) == multiset(a) + multiset(s)
    ensures IdsIn(list) == IdsIn(a) + s
  {
    forall id
      ensures id in list <==> id in a || id in s
    {
      assert id in list <==> id in multiset(list);
      assert id in a <==> id in multiset(a);
    }
  }

  lemma HashIdsStepped(l0: map<string, seq<Id>>, l1: map<string, seq<Id>>, hashes: map<Id, string>, swept: set<Id>, added: map<Id, string>, h: string)
    requires HashesStepped(l0, l1, hashes, swept, added) && h != ""
    ensures IdsIn(ListAt(l1, h)) == IdsIn(ListAt(l0, h)) - Filed(hashes, swept, h) + Filed(added, added.Keys, h)
  {
    hide Filed, IdsIn, Without;
    IdsOfSum(ListAt(l1, h), Without(ListAt(l0, h), Filed(hashes, swept, h)), Filed(added, added.Keys, h));
    WithoutIds(ListAt(l0, h), Filed(hashes, swept, h));
  }

  /** An ID that survives keeps its hash, or had none. */
  ghost predicate HashesAgree(a: map<Id, string>, b: map<Id, string>) {
    forall id :: id in a && id in b ==> a[id] == "" || a[id] == b[id]
  }

  lemma FiledMinus(a: map<Id, string>, swept: set<Id>, h: string)
    ensures Filed(a, a.Keys, h) - Filed(a, swept, h) == Filed(a - swept, a.Keys - swept, h)
  {
  }

  lemma HashIdsNow(l0: map<string, seq<Id>>, l1: map<string, seq<Id>>, hashes: map<Id, string>, swept: set<Id>, added: map<Id, string>, h: string)
    requires ExactHashes(l0, hashes) && HashesStepped(l0, l1, hashes, swept, added) && h != ""
    ensures IdsIn(ListAt(l1, h)) == Filed(hashes - swept, hashes.Keys - swept, h) + Filed(added, added.Keys, h)
  {
    hide Filed, IdsIn, ListAt, HashesStepped;
    HashIdsStepped(l0, l1, hashes, swept, added, h);
    FiledMinus(hashes, swept, h);
  }

  lemma FiledUnion(a: map<Id, string>, b: map<Id, string>, h: string)
    requires HashesAgree(a, b) && h != ""
    ensures Filed(a, a.Keys, h) + Filed(b, b.Keys, h) == Filed(a + b, (a + b).Keys, h)
  {
  }

  lemma FiledUnionAt(a: map<Id, string>, b: map<Id, string>, id: Id)
    requires id in a && id in b && a[id] != ""
    requires Filed(a, a.Keys, a[id]) + Filed(b, b.Keys, a[id]) == Filed(a + b, (a + b).Keys, a[id])
    ensures a[id] == b[id]
  {
    assert id in Filed(a, a.Keys, a[id]);
  }

  /** The hash index, as sets, stays exact exactly when every surviving ID keeps its hash or had none. */
  lemma HashesExactIff(l0: map<string, seq<Id>>, l1: map<string, seq<Id>>, hashes: map<Id, string>, swept: set<Id>, added: map<Id, string>)
    requires ExactHashes(l0, hashes) && HashesStepped(l0, l1, hashes, swept, added)
    ensures ExactHashes(l1, hashes - swept + added) <==> HashesAgree(hashes - swept, added)
  {
    var kept := hashes - swept;
    assert kept.Keys == hashes.Keys - swept;
    hide Filed, IdsIn, ListAt, HashesStepped;
    if HashesAgree(kept, added) {
      forall h | h != ""
        ensures IdsIn(ListAt(l1, h)) == Filed(kept + added, (kept + added).Keys, h)
      {
        HashIdsNow(l0, l1, hashes, swept, added, h);
        FiledUnion(kept, added, h);
      }
    }
    if ExactHashes(l1, kept + added) {
      forall id | id in kept && id in added
        ensures kept[id] == "" || kept[id] == added[id]
      {
        if kept[id] != "" {
          HashIdsNow(l0, l1, hashes, swept, added, kept[id]);
          FiledUnionAt(kept, added, id);
        }
      }
    }
  }

  lemma {:induction false} WithoutCounts(list: seq<Id>, drop: set<Id>, id: Id)
    ensures multiset(Without(list, drop))[id] == if id in drop then 0 else multiset(list)[id]
  {
    if list != [] {
      var rest, last := list[..|list| - 1], list[|list| - 1];
      assert list == rest + [last];
      assert Without(list, drop) == if last in drop then Without(rest, drop) else Without(rest, drop) + [last];
      hide Without;
      WithoutCounts(rest, drop, id);
      CountMore(rest, last, id);
      CountMore(Without(rest, drop), last, id);
    }
  }

  lemma HashCountStepped(l0: map<string, seq<Id>>, l1: map<string, seq<Id>>, hashes: map<Id, string>, swept: set<Id>, added: map<Id, string>, h: string, id: Id)
    requires ExactHashLists(l0, hashes) && HashesStepped(l0, l1, hashes, swept, added) && h != ""
    ensures multiset(ListAt(l1, h))[id]
            == (if id in hashes - swept && hashes[id] == h then 1 else 0) + (if id in added && added[id] == h then 1 else 0)
  {
    WithoutCounts(ListAt(l0, h), Filed(hashes, swept, h), id);
  }

  /** Grafting appends, so with multiplicity the hash lists stay exact exactly when no surviving ID
      that already has a hash is grafted again. */
  lemma HashListsExactIff(l0: map<string, seq<Id>>, l1: map<string, seq<Id>>, hashes: map<Id, string>, swept: set<Id>, added: map<Id, string>)
    requires ExactHashLists(l0, hashes) && HashesStepped(l0, l1, hashes, swept, added)
    ensures ExactHashLists(l1, hashes - swept + added) <==> forall id :: id in hashes - swept && id in added ==> hashes[id] == ""
  {
    var hashes1 := hashes - swept + added;
    if forall id :: id in hashes - swept && id in added ==> hashes[id] == "" {
      forall h | h != ""
        ensures multiset(ListAt(l1, h)) == multiset(Filed(hashes1, hashes1.Keys, h))
      {
        forall id
          ensures multiset(ListAt(l1, h))[id] == multiset(Filed(hashes1, hashes1.Keys, h))[id]
        {
          HashCountStepped(l0, l1, hashes, swept, added, h, id);
        }
      }
    }
    if ExactHashLists(l1, hashes1) {
      forall id | id in hashes - swept && id in added
        ensures hashes[id] == ""
      {
        if hashes[id] != "" {
          HashCountStepped(l0, l1, hashes, swept, added, hashes[id], id);
        }
      }
    }
  }

  /* ---- the line index ---- */

  /** `id` is kept with the same path and span. */
  ghost predicate SameLine(nodes: map<Id, NodeView>, payload: map<Id, NodeView>, norm: string -> string, id: Id)
    requires id in nodes && id in payload
  {
    norm(nodes[id].path) == norm(payload[id].path) && ViewSpan(nodes[id]) == ViewSpan(payload[id])
  }

  ghost predicate LinesAgree(nodes: map<Id, NodeView>, payload: map<Id, NodeView>, norm: string -> string) {
    forall id :: id in nodes && id in payload ==> SameLine(nodes, payload, norm, id)
  }

  /** The spans of the nodes in file `p`. */
  ghost function SpansInFile(nodes: map<Id, NodeView>, norm: string -> string, p: string): set<Span> {
    set id | id in nodes && norm(nodes[id].path) == p :: ViewSpan(nodes[id])
  }

  lemma SpansInFileIs(nodes: map<Id, NodeView>, norm: string -> string, p: string)
    ensures SpansOf(nodes, Filed(Paths(nodes, norm), nodes.Keys, p)) == SpansInFile(nodes, norm, p)
  {
  }

  /** In a file that is not modified nothing is swept; in a modified one everything is. */
  lemma SweptSpans(nodes: map<Id, NodeView>, files: map<string, set<Id>>, paths: set<string>, norm: string -> string, p: string)
    requires ExactIds(files, Paths(nodes, norm))
    ensures SpansInFile(nodes - Listed(files, paths), norm, p) == if p in paths then {} else SpansInFile(nodes, norm, p)
    ensures p in paths && p !in files ==> SpansInFile(nodes, norm, p) == {}
  {
    var attr := Paths(nodes, norm);
    forall id | id in nodes && norm(nodes[id].path) == p
      ensures id in Listed(files, paths) <==> p in paths
      ensures p in files
    {
      assert id in Filed(attr, attr.Keys, p);
      if id in Listed(files, paths) {
        var q :| q in paths && id in SetAt(files, q);
        assert id in Filed(attr, attr.Keys, q);
      }
    }
    hide Listed, ExactIds, Paths;
    var kept := nodes - Listed(files, paths);
    if p !in paths {
      forall id | id in nodes && norm(nodes[id].path) == p
        ensures id in kept && kept[id] == nodes[id]
      {
      }
    }
  }

  lemma LinesNow(l0: map<string, set<Span>>, l1: map<string, set<Span>>, files: map<string, set<Id>>, paths: set<string>, norm: string -> string,
                 nodes: map<Id, NodeView>, payload: map<Id, NodeView>, p: string)
    requires ExactLines(l0, nodes, Paths(nodes, norm)) && ExactIds(files, Paths(nodes, norm))
    requires LinesStepped(l0, l1, paths * files.Keys, payload, Paths(payload, norm))
    ensures SpansAt(l1, p) == SpansInFile(nodes - Listed(files, paths), norm, p) + SpansInFile(payload, norm, p)
  {
    assert Paths(nodes, norm).Keys == nodes.Keys && Paths(payload, norm).Keys == payload.Keys;
    hide SpansInFile, SpansOf, Filed, Paths, Listed, ExactIds;
    SpansInFileIs(nodes, norm, p);
    SpansInFileIs(payload, norm, p);
    SweptSpans(nodes, files, paths, norm, p);
    assert SpansAt(l0, p) == SpansInFile(nodes, norm, p);
  }

  lemma SpansUnion(a: map<Id, NodeView>, b: map<Id, NodeView>, norm: string -> string, p: string)
    requires LinesAgree(a, b, norm)
    ensures SpansInFile(a, norm, p) + SpansInFile(b, norm, p) == SpansInFile(a + b, norm, p)
  {
    forall s | s in SpansInFile(a, norm, p)
      ensures s in SpansInFile(a + b, norm, p)
    {
      var id :| id in a && norm(a[id].path) == p && ViewSpan(a[id]) == s;
      assert id in a + b && norm((a + b)[id].path) == p && ViewSpan((a + b)[id]) == s;
    }
    forall s | s in SpansInFile(b, norm, p)
      ensures s in SpansInFile(a + b, norm, p)
    {
      var id :| id in b && norm(b[id].path) == p && ViewSpan(b[id]) == s;
      assert id in a + b && (a + b)[id] == b[id];
    }
  }

  lemma SpansUnionAt(a: map<Id, NodeView>, b: map<Id, NodeView>, norm: string -> string, id: Id)
    requires OwnIds(a) && OwnIds(b) && id in a && id in b
    requires SpansInFile(a, norm, norm(a[id].path)) <= SpansInFile(a + b, norm, norm(a[id].path))
    ensures SameLine(a, b, norm, id)
  {
    assert ViewSpan(a[id]) in SpansInFile(a, norm, norm(a[id].path));
    var x :| x in a + b && norm((a + b)[x].path) == norm(a[id].path) && ViewSpan((a + b)[x]) == ViewSpan(a[id]);
    assert (a + b)[x].id == x;
  }

  /** The line index stays exact exactly when every surviving ID keeps its file and its span. */
  lemma LinesExactIff(l0: map<string, set<Span>>, l1: map<string, set<Span>>, files: map<string, set<Id>>, paths: set<string>, norm: string -> string,
                      nodes: map<Id, NodeView>, payload: map<Id, NodeView>)
    requires ExactLines(l0, nodes, Paths(nodes, norm)) && ExactIds(files, Paths(nodes, norm)) && OwnIds(nodes) && OwnIds(payload)
    requires LinesStepped(l0, l1, paths * files.Keys, payload, Paths(payload, norm))
    ensures var kept := nodes - Listed(files, paths);
            ExactLines(l1, kept + payload, Paths(kept + payload, norm)) <==> LinesAgree(kept, payload, norm)
  {
    var kept := nodes - Listed(files, paths);
    assert OwnIds(kept) && Paths(kept + payload, norm).Keys == (kept + payload).Keys;
    hide SpansInFile, SpansOf, Filed, Paths, Listed, ExactIds, OwnIds, LinesStepped, SameLine;
    forall p
      ensures SpansAt(l1, p) == SpansInFile(kept, norm, p) + SpansInFile(payload, norm, p)
      ensures SpansOf(kept + payload, Filed(Paths(kept + payload, norm), (kept + payload).Keys, p)) == SpansInFile(kept + payload, norm, p)
    {
      LinesNow(l0, l1, files, paths, norm, nodes, payload, p);
      SpansInFileIs(kept + payload, norm, p);
    }
    if LinesAgree(kept, payload, norm) {
      forall p
        ensures SpansAt(l1, p) == SpansInFile(kept + payload, norm, p)
      {
        SpansUnion(kept, payload, norm, p);
      }
    }
    if ExactLines(l1, kept + payload, Paths(kept + payload, norm)) {
      forall id | id in kept && id in payload
        ensures SameLine(kept, payload, norm, id)
      {
        assert SpansAt(l1, norm(kept[id].path)) == SpansInFile(kept + payload, norm, norm(kept[id].path));
        SpansUnionAt(kept, payload, norm, id);
      }
    }
  }

  /* ---- all four indexes ---- */

  /** What the payload must respect for the batched indexes to stay exact: an ID whose old node is
      not swept keeps its kind, file and span, and its hash unless it had none. A caller can check
      this before the transaction. */
  ghost predicate Stable(s: NodeStore, payload: map<Id, NodeView>, paths: set<string>, norm: string -> string) {
    var kept := s.nodes - Listed(s.files, paths);
    forall id :: id in kept && id in payload ==>
      kept[id].kind == payload[id].kind && SameLine(kept, payload, norm, id)
      && (HashIn(kept[id]) == "" || HashIn(kept[id]) == HashIn(payload[id]))
  }

  lemma KindsSplit(nodes: map<Id, NodeView>, swept: set<Id>, payload: map<Id, NodeView>)
    ensures Kinds(nodes - swept + payload) == Kinds(nodes) - swept + Kinds(payload)
  {
  }

  lemma PathsSplit(nodes: map<Id, NodeView>, swept: set<Id>, payload: map<Id, NodeView>, norm: string -> string)
    ensures Paths(nodes - swept + payload, norm) == Paths(nodes, norm) - swept + Paths(payload, norm)
  {
  }

  lemma HashesSplit(nodes: map<Id, NodeView>, swept: set<Id>, payload: map<Id, NodeView>)
    ensures Hashes(nodes - swept + payload) == Hashes(nodes) - swept + Hashes(payload)
  {
    hide HashIn;
  }

  lemma StableIs(nodes: map<Id, NodeView>, swept: set<Id>, payload: map<Id, NodeView>, norm: string -> string)
    ensures (forall id :: id in nodes - swept && id in payload ==>
               (nodes - swept)[id].kind == payload[id].kind && SameLine(nodes - swept, payload, norm, id)
               && (HashIn((nodes - swept)[id]) == "" || HashIn((nodes - swept)[id]) == HashIn(payload[id])))
            <==> (Agree(Kinds(nodes) - swept, Kinds(payload)) && Agree(Paths(nodes, norm) - swept, Paths(payload, norm))
                  && HashesAgree(Hashes(nodes) - swept, Hashes(payload)) && LinesAgree(nodes - swept, payload, norm))
  {
    hide HashIn, ViewSpan;
    var kept := nodes - swept;
    if Agree(Kinds(nodes) - swept, Kinds(payload)) && Agree(Paths(nodes, norm) - swept, Paths(payload, norm))
       && HashesAgree(Hashes(nodes) - swept, Hashes(payload)) && LinesAgree(kept, payload, norm) {
      forall id | id in kept && id in payload
        ensures kept[id].kind == payload[id].kind && SameLine(kept, payload, norm, id)
                && (HashIn(kept[id]) == "" || HashIn(kept[id]) == HashIn(payload[id]))
      {
        assert id in Kinds(nodes) - swept && id in Hashes(nodes) - swept;
      }
    }
  }

  /** The main theorem: from exact indexes, a transaction leaves exact indexes exactly when its
      payload is stable. */
  lemma ExactIff(s0: NodeStore, payload: map<Id, NodeView>, paths: set<string>, norm: string -> string, s1: NodeStore)
    requires Stepped(s0, payload, paths, norm, s1) && Exact(s0, norm) && OwnIds(s0.nodes) && OwnIds(payload)
    ensures Exact(s1, norm) <==> Stable(s0, payload, paths, norm)
  {
    var swept := Listed(s0.files, paths);
    KindsSplit(s0.nodes, swept, payload);
    PathsSplit(s0.nodes, swept, payload, norm);
    HashesSplit(s0.nodes, swept, payload);
    StableIs(s0.nodes, swept, payload, norm);
    hide Kinds, Paths, Hashes, Listed, ExactIds, ExactHashes, ExactLines, OwnIds, IdsStepped, FilesStepped, HashesStepped, LinesStepped;
    hide SameLine, HashIn, LinesAgree, Agree, HashesAgree;
    IdsExactIff(s0.kinds, s1.kinds, Kinds(s0.nodes), swept, Kinds(payload));
    FilesStepAsIds(s0.files, s1.files, paths, Paths(s0.nodes, norm), Paths(payload, norm));
    IdsExactIff(s0.files, s1.files, Paths(s0.nodes, norm), swept, Paths(payload, norm));
    HashesExactIff(s0.hashes, s1.hashes, Hashes(s0.nodes), swept, Hashes(payload));
    LinesExactIff(s0.lines, s1.lines, s0.files, paths, norm, s0.nodes, payload);
  }

  const A_STRUCT := NodeView("a", "STRUCT", "A", "a.go", 1, 9, map[])
  const A_CLASS := NodeView("a", "CLASS", "A", "a.go", 1, 9, map[])

  /** A one-node store whose indexes are exact, with the node filed under `kinds`. */
  function OneNode(n: NodeView, kinds: map<string, set<Id>>): NodeStore {
    NodeStore(map["a" := n], kinds, map["a.go" := {"a"}], map[], map["a.go" := {Span("a", 1, 9)}])
  }

  lemma OneNodeLines(n: NodeView, norm: string -> string, p: string)
    requires norm("a.go") == "a.go" && n.path == "a.go" && ViewSpan(n) == Span("a", 1, 9)
    ensures SpansAt(OneNode(n, map[]).lines, p) == SpansOf(map["a" := n], Filed(Paths(map["a" := n], norm), Paths(map["a" := n], norm).Keys, p))
  {
    assert Paths(map["a" := n], norm).Keys == map["a" := n].Keys;
    SpansInFileIs(map["a" := n], norm, p);
    var nodes := map["a" := n];
    if p == "a.go" {
      assert "a" in nodes && ViewSpan(nodes["a"]) == Span("a", 1, 9);
      assert Span("a", 1, 9) in SpansInFile(nodes, norm, p);
    }
    assert SpansInFile(nodes, norm, p) == if p == "a.go" then {Span("a", 1, 9)} else {};
  }

  lemma OneNodeAttributes(n: NodeView, norm: string -> string)
    requires norm("a.go") == "a.go" && n.path == "a.go" && n.properties == map[]
    ensures Kinds(map["a" := n]) == map["a" := n.kind] && Paths(map["a" := n], norm) == map["a" := "a.go"] && Hashes(map["a" := n]) == map["a" := ""]
  {
  }

  lemma OneIdExact(k: string)
    ensures ExactIds(map[k := {"a"}], map["a" := k]) && ExactHashes(map[], map["a" := ""])
  {
  }

  lemma OneNodeExact(n: NodeView, norm: string -> string)
    requires norm("a.go") == "a.go" && n.path == "a.go" && n.properties == map[] && ViewSpan(n) == Span("a", 1, 9)
    ensures Exact(OneNode(n, map[n.kind := {"a"}]), norm)
  {
    OneNodeAttributes(n, norm);
    forall p
      ensures SpansAt(OneNode(n, map[]).lines, p) == SpansOf(map["a" := n], Filed(Paths(map["a" := n], norm), Paths(map["a" := n], norm).Keys, p))
    {
      OneNodeLines(n, norm, p);
    }
    OneIdExact(n.kind);
    OneIdExact("a.go");
    hide ExactIds, ExactHashes, SpansOf, Filed, Paths, Kinds, Hashes;
  }

  /** A payload that is not stable: the node of an unmodified file is grafted again with another kind.
      Its old kind bucket keeps it, so no store the transaction may leave has exact indexes. */
  lemma UnstablePayloadBreaksIndexes(norm: string -> string, s1: NodeStore)
    requires norm("a.go") == "a.go"
    requires Stepped(OneNode(A_STRUCT, map["STRUCT" := {"a"}]), map["a" := A_CLASS], {"b.go"}, norm, s1)
    ensures Exact(OneNode(A_STRUCT, map["STRUCT" := {"a"}]), norm) && !Exact(s1, norm)
  {
    var s0, payload := OneNode(A_STRUCT, map["STRUCT" := {"a"}]), map["a" := A_CLASS];
    OneNodeExact(A_STRUCT, norm);
    var kept := s0.nodes - Listed(s0.files, {"b.go"});
    assert "a" in kept && kept["a"].kind != payload["a"].kind;
    assert !Stable(s0, payload, {"b.go"}, norm);
    hide Stepped, Exact, Stable;
    ExactIff(s0, payload, {"b.go"}, norm, s1);
  }

  /** The node map after a transaction on an exact store: old nodes outside the modified files,
      overwritten by the payload. */
  lemma NodesAfter(s0: NodeStore, payload: map<Id, NodeView>, paths: set<string>, norm: string -> string, s1: NodeStore)
    requires Stepped(s0, payload, paths, norm, s1) && ExactIds(s0.files, Paths(s0.nodes, norm))
    ensures s1.nodes == (map id | id in s0.nodes && norm(s0.nodes[id].path) !in paths :: s0.nodes[id]) + payload
  {
    hide IdsStepped, FilesStepped, HashesStepped, LinesStepped;
    var attr := Paths(s0.nodes, norm);
    forall id | id in s0.nodes
      ensures id in Listed(s0.files, paths) <==> norm(s0.nodes[id].path) in paths
    {
      assert id in Filed(attr, attr.Keys, attr[id]);
      if id in Listed(s0.files, paths) {
        var p :| p in paths && id in SetAt(s0.files, p);
        assert id in Filed(attr, attr.Keys, p);
      }
    }
    hide ExactIds, Listed, Paths, Filed;
    assert s0.nodes - Listed(s0.files, paths) == map id | id in s0.nodes && norm(s0.nodes[id].path) !in paths :: s0.nodes[id];
  }

  /* ---- whole runs ---- */

  /** One committed transaction as the store sees it. */
  datatype Txn = Txn(payload: map<Id, NodeView>, paths: set<string>)

  /** `stores` is a run: each store comes from the one before by the transaction at its position. */
  ghost predicate Run(stores: seq<NodeStore>, txns: seq<Txn>, norm: string -> string) {
    |stores| == |txns| + 1 && forall i :: 0 <= i < |txns| ==> RunStep(stores, txns, norm, i)
  }

  ghost predicate RunStep(stores: seq<NodeStore>, txns: seq<Txn>, norm: string -> string, i: nat)
    requires |stores| == |txns| + 1 && i < |txns|
  {
    Stepped(stores[i], txns[i].payload, txns[i].paths, norm, stores[i + 1])
  }

  ghost predicate StableAt(stores: seq<NodeStore>, txns: seq<Txn>, norm: string -> string, i: nat)
    requires |stores| == |txns| + 1 && i < |txns|
  {
    OwnIds(txns[i].payload) && Stable(stores[i], txns[i].payload, txns[i].paths, norm)
  }

  lemma OwnIdsKept(s0: NodeStore, payload: map<Id, NodeView>, paths: set<string>, norm: string -> string, s1: NodeStore)
    requires Stepped(s0, payload, paths, norm, s1) && OwnIds(s0.nodes) && OwnIds(payload)
    ensures OwnIds(s1.nodes)
  {
  }

  /** The node map a run of transactions amounts to, computed without any index. */
  ghost function Replayed(nodes: map<Id, NodeView>, txns: seq<Txn>, norm: string -> string): map<Id, NodeView> {
    if txns == [] then nodes
    else
      var before, t := Replayed(nodes, txns[..|txns| - 1], norm), txns[|txns| - 1];
      (map id | id in before && norm(before[id].path) !in t.paths :: before[id]) + t.payload
  }

  /** Over every run of stable transactions the batched indexes stay what a rebuild would compute, and
      the nodes are those of the replay. */
  lemma {:induction false} RunsStayExact(stores: seq<NodeStore>, txns: seq<Txn>, norm: string -> string)
    requires Run(stores, txns, norm) && Exact(stores[0], norm) && OwnIds(stores[0].nodes)
    requires forall i :: 0 <= i < |txns| ==> StableAt(stores, txns, norm, i)
    ensures Exact(stores[|txns|], norm) && OwnIds(stores[|txns|].nodes)
    ensures stores[|txns|].nodes == Replayed(stores[0].nodes, txns, norm)
  {
    if txns != [] {
      var n := |txns| - 1;
      forall i | 0 <= i < n
        ensures RunStep(stores[..|txns|], txns[..n], norm, i) && StableAt(stores[..|txns|], txns[..n], norm, i)
      {
        assert RunStep(stores, txns, norm, i) && StableAt(stores, txns, norm, i);
      }
      RunsStayExact(stores[..|txns|], txns[..n], norm);
      assert RunStep(stores, txns, norm, n) && StableAt(stores, txns, norm, n);
      hide Stepped, Stable, OwnIds;
      ExactIff(stores[n], txns[n].payload, txns[n].paths, norm, stores[n + 1]);
      OwnIdsKept(stores[n], txns[n].payload, txns[n].paths, norm, stores[n + 1]);
      NodesAfter(stores[n], txns[n].payload, txns[n].paths, norm, stores[n + 1]);
    }
  }
}
