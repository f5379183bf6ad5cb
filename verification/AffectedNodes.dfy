/** RunIncrementalMacroInference's choice of nodes: the changed ones and whatever reaches them against
    the direction of few edges. */
module AffectedNodes {
  import opened Graphs
  import opened AkgStore
  import opened DeltaSweep
  import opened DeltaGraft
  import opened DeltaEdges
  import opened NodeStores

  const AFFECTED_DEPTH: nat := 2

  const RELEVANT_KINDS: set<string> := {"MODULE", "FILE", "STRUCT", "CLASS", "FUNCTION", "PACKAGE"}

  ghost predicate Relevant(kinds: map<Id, string>, id: Id) {
    id in kinds && kinds[id] in {"PACKAGE", "MODULE", "FILE", "CLASS", "STRUCT", "FUNCTION"}
  }

  /** The nodes to start from: the changed ones and those of the modified files, or else the nodes whose
      own path is modified. */
  ghost function Seeds(changed: set<Id>, paths: set<string>, files: map<string, set<Id>>, pathOf: map<Id, string>): set<Id> {
    var listed := changed + Listed(files, paths);
    if listed == {} then set id | id in pathOf && pathOf[id] in paths else listed
  }

  /** `y` is a node of a relevant kind with an edge to `x`. */
  ghost predicate Calls(inbound: Adjacency, kinds: map<Id, string>, y: Id, x: Id) {
    Relevant(kinds, y) && exists k :: 0 <= k < |Edges(inbound, x)| && Edges(inbound, x)[k].source == y
  }

  ghost function Callers(inbound: Adjacency, kinds: map<Id, string>, ids: set<Id>): set<Id> {
    set y, x | y in kinds && x in ids && Calls(inbound, kinds, y, x) :: y
  }

  /** What is reached in `d` rounds. */
  ghost function Within(d: nat, inbound: Adjacency, kinds: map<Id, string>, seeds: set<Id>): set<Id> {
    if d == 0 then seeds else var inner := Within(d - 1, inbound, kinds, seeds); inner + Callers(inbound, kinds, inner)
  }

  ghost function Affected(changed: set<Id>, paths: set<string>, files: map<string, set<Id>>, kinds: map<Id, string>, pathOf: map<Id, string>,
                          inbound: Adjacency): set<Id> {
    Within(2, inbound, kinds, Seeds(changed, paths, files, pathOf))
  }

  /** A chain of calls from its first element down to a seed. */
  ghost predicate CallChain(inbound: Adjacency, kinds: map<Id, string>, seeds: set<Id>, chain: seq<Id>) {
    chain != [] && chain[|chain| - 1] in seeds && forall i :: 0 <= i < |chain| - 1 ==> Calls(inbound, kinds, chain[i], chain[i + 1])
  }

  lemma {:induction false} ChainOf(d: nat, inbound: Adjacency, kinds: map<Id, string>, seeds: set<Id>, id: Id) returns (chain: seq<Id>)
    requires id in Within(d, inbound, kinds, seeds)
    ensures chain != [] && chain[0] == id && |chain| <= d + 1 && CallChain(inbound, kinds, seeds, chain)
  {
    hide Calls;
    if d == 0 {
      chain := [id];
    } else if id in Within(d - 1, inbound, kinds, seeds) {
      chain := ChainOf(d - 1, inbound, kinds, seeds, id);
    } else {
      var x :| x in Within(d - 1, inbound, kinds, seeds) && Calls(inbound, kinds, id, x);
      var rest := ChainOf(d - 1, inbound, kinds, seeds, x);
      chain := [id] + rest;
    }
  }

  lemma {:induction false} ChainWithin(d: nat, inbound: Adjacency, kinds: map<Id, string>, seeds: set<Id>, chain: seq<Id>)
    requires CallChain(inbound, kinds, seeds, chain) && |chain| <= d + 1
    ensures chain[0] in Within(d, inbound, kinds, seeds)
    decreases d
  {
    if d > 0 && |chain| > 1 {
      assert Calls(inbound, kinds, chain[0], chain[1]) && Relevant(kinds, chain[0]);
      hide Calls;
      ChainWithin(d - 1, inbound, kinds, seeds, chain[1..]);
    } else if d > 0 {
      hide Calls;
      ChainWithin(d - 1, inbound, kinds, seeds, chain);
    }
  }

  /** The affected nodes are those with a chain of at most two calls, all by nodes of relevant kinds, to
      a node to start from. */
  lemma AffectedExactly(changed: set<Id>, paths: set<string>, files: map<string, set<Id>>, kinds: map<Id, string>, pathOf: map<Id, string>,
                        inbound: Adjacency, id: Id)
    ensures id in Affected(changed, paths, files, kinds, pathOf, inbound)
            <==> exists chain :: chain != [] && chain[0] == id && |chain| <= 3 && CallChain(inbound, kinds, Seeds(changed, paths, files, pathOf), chain)
  {
    var seeds := Seeds(changed, paths, files, pathOf);
    hide Within, CallChain, Seeds;
    if id in Affected(changed, paths, files, kinds, pathOf, inbound) {
      var chain := ChainOf(2, inbound, kinds, seeds, id);
    }
    forall chain | chain != [] && chain[0] == id && |chain| <= 3 && CallChain(inbound, kinds, seeds, chain)
      ensures id in Within(2, inbound, kinds, seeds)
    {
      ChainWithin(2, inbound, kinds, seeds, chain);
    }
  }

  /* ---- the program ---- */

  /** The callers of one node that are not affected yet. */
  method NewCallers(nodes: map<Id, ResolvedNode>, inbound: seq<Edge>, affected: set<Id>, next: set<Id>) returns (affected': set<Id>, next': set<Id>)
    ensures affected' == affected + set k | 0 <= k < |inbound| && Relevant(KindsOf(nodes), inbound[k].source) :: inbound[k].source
    ensures next' == next + (affected' - affected)
  {
    affected', next' := affected, next;
    for i := 0 to |inbound|
      invariant affected' == affected + set k | 0 <= k < i && Relevant(KindsOf(nodes), inbound[k].source) :: inbound[k].source
      invariant next' == next + (affected' - affected)
    {
      var source := inbound[i].source;
      if source !in affected' && source in nodes && nodes[source].kind in RELEVANT_KINDS {
        affected', next' := affected' + {source}, next' + {source};
      }
    }
  }

  /** One round: everything that calls the frontier joins. */
  method ExpandFrontier(nodes: map<Id, ResolvedNode>, inbound: Lists<Edge>, affected: set<Id>, frontier: set<Id>) returns (affected': set<Id>, next: set<Id>)
    ensures affected' == affected + Callers(ItemsOf(inbound), KindsOf(nodes), frontier) && next == affected' - affected
  {
    affected', next := affected, {};
    var rest, done := frontier, {};
    NoCallers(ItemsOf(inbound), KindsOf(nodes));
    while rest != {}
      invariant rest + done == frontier && rest !! done
      invariant affected' == affected + Callers(ItemsOf(inbound), KindsOf(nodes), done) && next == affected' - affected
    {
      var id :| id in rest;
      CallersMore(ItemsOf(inbound), KindsOf(nodes), done, id);
      hide Callers;
      if id in inbound {
        affected', next := NewCallers(nodes, inbound[id].items, affected', next);
      }
      rest, done := rest - {id}, done + {id};
    }
    assert done == frontier;
  }

  lemma NoCallers(inbound: Adjacency, kinds: map<Id, string>)
    ensures Callers(inbound, kinds, {}) == {}
  {
  }

  lemma CallersMore(inbound: Adjacency, kinds: map<Id, string>, done: set<Id>, id: Id)
    ensures var edges := Edges(inbound, id);
            Callers(inbound, kinds, done + {id})
            == Callers(inbound, kinds, done) + set k | 0 <= k < |edges| && Relevant(kinds, edges[k].source) :: edges[k].source
  {
  }

  /** Expanding only what is new loses nothing. */
  lemma RoundMore(d: nat, inbound: Adjacency, kinds: map<Id, string>, seeds: set<Id>, frontier: set<Id>)
    requires var affected := Within(d, inbound, kinds, seeds); frontier <= affected && Callers(inbound, kinds, affected - frontier) <= affected
    ensures var affected := Within(d, inbound, kinds, seeds);
            Within(d + 1, inbound, kinds, seeds) == affected + Callers(inbound, kinds, frontier)
  {
    hide Calls;
    var affected := Within(d, inbound, kinds, seeds);
    assert forall y :: y in Callers(inbound, kinds, affected) <==> y in Callers(inbound, kinds, affected - frontier) || y in Callers(inbound, kinds, frontier);
  }

  /** Once nothing is new, nothing more will be. */
  lemma {:induction false} Settled(d: nat, e: nat, inbound: Adjacency, kinds: map<Id, string>, seeds: set<Id>)
    requires d <= e && Callers(inbound, kinds, Within(d, inbound, kinds, seeds)) <= Within(d, inbound, kinds, seeds)
    ensures Within(e, inbound, kinds, seeds) == Within(d, inbound, kinds, seeds)
  {
    hide Callers;
    if d < e {
      Settled(d, e - 1, inbound, kinds, seeds);
    }
  }

  method FindSeeds(nodes: map<Id, ResolvedNode>, fileIndex: Buckets, changed: set<Id>, modified: seq<string>, norm: string -> string) returns (seeds: set<Id>)
    ensures seeds == Seeds(changed, NormAll(norm, modified), BucketsOf(fileIndex), PathsOf(nodes, norm))
  {
    seeds := changed;
    NoneListed(BucketsOf(fileIndex), norm);
    for i := 0 to |modified|
      invariant seeds == changed + Listed(BucketsOf(fileIndex), NormAll(norm, modified[..i]))
    {
      ListedMore(BucketsOf(fileIndex), modified, i, norm);
      if norm(modified[i]) in fileIndex {
        seeds := seeds + fileIndex[norm(modified[i])].ids;
      }
    }
    assert modified[..|modified|] == modified;
    if |seeds| == 0 {
      var need := set f | f in modified :: norm(f);
      seeds := set id | id in nodes && norm(nodes[id].path) in need;
    }
  }

  lemma NoneListed(files: map<string, set<Id>>, norm: string -> string)
    ensures Listed(files, NormAll(norm, [])) == {}
  {
  }

  lemma ListedMore(files: map<string, set<Id>>, modified: seq<string>, i: nat, norm: string -> string)
    requires i < |modified|
    ensures Listed(files, NormAll(norm, modified[..i + 1])) == Listed(files, NormAll(norm, modified[..i])) + SetAt(files, norm(modified[i]))
  {
    assert modified[..i + 1] == modified[..i] + [modified[i]];
    assert NormAll(norm, modified[..i + 1]) == NormAll(norm, modified[..i]) + {norm(modified[i])};
    hide NormAll;
  }

  /** The seeds and two rounds of expansion, fewer if a round finds nothing new. */
  method FindAffected(nodes: map<Id, ResolvedNode>, fileIndex: Buckets, inbound: Lists<Edge>, changed: set<Id>, modified: seq<string>, norm: string -> string)
      returns (affected: set<Id>)
    ensures affected == Affected(changed, NormAll(norm, modified), BucketsOf(fileIndex), KindsOf(nodes), PathsOf(nodes, norm), ItemsOf(inbound))
  {
    hide *;
    affected := FindSeeds(nodes, fileIndex, changed, modified, norm);
    ghost var seeds, view, kinds := affected, ItemsOf(inbound), KindsOf(nodes);
    var frontier, depth := affected, 0;
    StartRounds(view, kinds, seeds);
    while depth < AFFECTED_DEPTH && |frontier| > 0
      invariant 0 <= depth <= AFFECTED_DEPTH && affected == Within(depth, view, kinds, seeds)
      invariant frontier <= affected && Callers(view, kinds, affected - frontier) <= affected
    {
      RoundMore(depth, view, kinds, seeds, frontier);
      ghost var before := affected;
      affected, frontier := ExpandFrontier(nodes, inbound, affected, frontier);
      assert affected - frontier == before;
      CallersIn(depth, view, kinds, seeds);
      depth := depth + 1;
    }
    if frontier == {} {
      assert affected - frontier == affected;
      Settled(depth, AFFECTED_DEPTH, view, kinds, seeds);
    }
    AffectedIs(changed, NormAll(norm, modified), BucketsOf(fileIndex), kinds, PathsOf(nodes, norm), view);
  }

  lemma AffectedIs(changed: set<Id>, paths: set<string>, files: map<string, set<Id>>, kinds: map<Id, string>, pathOf: map<Id, string>, inbound: Adjacency)
    ensures Affected(changed, paths, files, kinds, pathOf, inbound) == Within(AFFECTED_DEPTH, inbound, kinds, Seeds(changed, paths, files, pathOf))
  {
  }

  lemma StartRounds(inbound: Adjacency, kinds: map<Id, string>, seeds: set<Id>)
    ensures Within(0, inbound, kinds, seeds) == seeds && Callers(inbound, kinds, seeds - seeds) == {}
  {
    assert seeds - seeds == {};
    NoCallers(inbound, kinds);
  }

  lemma CallersIn(d: nat, inbound: Adjacency, kinds: map<Id, string>, seeds: set<Id>)
    ensures Callers(inbound, kinds, Within(d, inbound, kinds, seeds)) <= Within(d + 1, inbound, kinds, seeds)
  {
  }
}
