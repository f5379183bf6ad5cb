/** applyDeltaToShadow, sub-phase B: every node of every modified file leaves the shadow graph and
    its indexes. */
module DeltaSweep {
  import opened Graphs
  import opened AkgStore

  /** One attribute of every stored node, as a value. */
  ghost function KindsOf(nodes: map<Id, ResolvedNode>): map<Id, string> {
    map id | id in nodes :: nodes[id].kind
  }

  ghost function HashesOf(nodes: map<Id, ResolvedNode>): map<Id, string>
    reads nodes.Values, set id | id in nodes :: nodes[id].properties
  {
    map id | id in nodes :: nodes[id].Hash()
  }

  ghost function PathsOf(nodes: map<Id, ResolvedNode>, norm: string -> string): map<Id, string> {
    map id | id in nodes :: norm(nodes[id].path)
  }

  /** Those of `ids` whose attribute is `k`. */
  ghost function Filed(attr: map<Id, string>, ids: set<Id>, k: string): set<Id> {
    set id | id in ids && id in attr && attr[id] == k
  }

  /** Every ID that `listed`, the file index, has under a modified file. */
  ghost function SweptIds(listed: map<string, set<Id>>, norm: string -> string, files: seq<string>): set<Id> {
    set f, id | f in files && id in SetAt(listed, norm(f)) :: id
  }

  function NormAll(norm: string -> string, files: seq<string>): set<string> {
    set f | f in files :: norm(f)
  }

  ghost function Without(list: seq<Id>, drop: set<Id>): (r: seq<Id>)
    ensures forall id :: id in r <==> id in list && id !in drop
  {
    if list == [] then []
    else
      var rest := Without(list[..|list| - 1], drop);
      if list[|list| - 1] in drop then rest else rest + [list[|list| - 1]]
  }

  function SetAt(m: map<string, set<Id>>, k: string): set<Id> {
    if k in m then m[k] else {}
  }

  /** The buckets of an index as values. */
  ghost function BucketsOf(index: Buckets): map<string, set<Id>>
    reads index.Values
  {
    map k | k in index :: index[k].ids
  }

  lemma FiledMore(attr: map<Id, string>, done: set<Id>, id: Id)
    ensures forall k :: Filed(attr, done + {id}, k) == Filed(attr, done, k) + if id in attr && attr[id] == k then {id} else {}
  {
  }

  /** The kind buckets, working copies included, once the nodes in `done` are gone; `buckets` and
      `kinds` describe the graph before the sweep. */
  ghost predicate KindsStaged(work: Buckets, index: Buckets, buckets: map<string, set<Id>>, kinds: map<Id, string>, done: set<Id>)
    reads work.Values, index.Values
  {
    Private(work, index)
    && (forall k :: IdsAt(index, k) == SetAt(buckets, k))
    && (forall k :: StagedAt(work, index, k) == SetAt(buckets, k) - Filed(kinds, done, k))
  }

  /** The IDs to drop from each hash list. */
  ghost predicate HashesStaged(work: map<string, set<Id>>, hashes: map<Id, string>, done: set<Id>) {
    "" !in work && forall h :: h != "" ==> SetAt(work, h) == Filed(hashes, done, h)
  }

  method SweepKind(work: Buckets, index: Buckets, id: Id, kind: string,
                   ghost buckets: map<string, set<Id>>, ghost kinds: map<Id, string>, ghost done: set<Id>) returns (work': Buckets)
    requires KindsStaged(work, index, buckets, kinds, done) && id in kinds && kinds[id] == kind
    modifies work.Values
    ensures KindsStaged(work', index, buckets, kinds, done + {id}) && fresh(work'.Values - work.Values)
  {
    hide Filed;
    FiledMore(kinds, done, id);
    work' := StageRemoval(work, index, kind, id);
  }

  function AddDrop(work: map<string, set<Id>>, h: string, id: Id): map<string, set<Id>> {
    if h == "" then work else work[h := SetAt(work, h) + {id}]
  }

  lemma AddDropStaged(work: map<string, set<Id>>, hashes: map<Id, string>, done: set<Id>, id: Id)
    requires HashesStaged(work, hashes, done) && id in hashes
    ensures HashesStaged(AddDrop(work, hashes[id], id), hashes, done + {id})
  {
    hide Filed;
    FiledMore(hashes, done, id);
  }

  /** An ID that is no longer, or never was, a node changes nothing. */
  lemma NothingToStage(attr: map<Id, string>, done: set<Id>, id: Id)
    requires id in done || id !in attr
    ensures forall k :: Filed(attr, done + {id}, k) == Filed(attr, done, k)
  {
  }

  lemma NothingStaged(work: Buckets, index: Buckets, hashWork: map<string, set<Id>>, buckets: map<string, set<Id>>,
                      kinds: map<Id, string>, hashes: map<Id, string>, done: set<Id>, id: Id)
    requires KindsStaged(work, index, buckets, kinds, done) && HashesStaged(hashWork, hashes, done) && kinds.Keys == hashes.Keys
    requires id in done || id !in kinds
    ensures KindsStaged(work, index, buckets, kinds, done + {id}) && HashesStaged(hashWork, hashes, done + {id})
  {
    hide Filed;
    NothingToStage(kinds, done, id);
    NothingToStage(hashes, done, id);
  }

  /** What the graph stores per node ID. */
  datatype Stored = Stored(nodes: map<Id, ResolvedNode>, outbound: Lists<Edge>, macroRules: map<Id, seq<string>>, folderZones: map<string, string>)

  /** Everything stored under an ID in `ids` is gone, and nothing else. */
  ghost predicate Gone(g: CodePropertyGraph, s0: Stored, ids: set<Id>)
    reads g`nodes, g`outbound, g`macroRules, g`folderZones
  {
    g.nodes == s0.nodes - ids && g.outbound == s0.outbound - ids && g.macroRules == s0.macroRules - ids && g.folderZones == s0.folderZones - ids
  }

  /** `kinds` and `hashes` are the attributes of the nodes before the sweep. */
  ghost predicate Matches(nodes: map<Id, ResolvedNode>, kinds: map<Id, string>, hashes: map<Id, string>)
    reads nodes.Values, set id | id in nodes :: nodes[id].properties
  {
    kinds == KindsOf(nodes) && hashes == HashesOf(nodes)
  }

  lemma Minus<T>(m: map<Id, T>, gone: set<Id>, id: Id)
    ensures m - gone - {id} == m - (gone + {id})
  {
  }

  /** Remove everything stored under the ID of a swept node. */
  method Forget(g: CodePropertyGraph, ghost s0: Stored, ghost done: set<Id>, id: Id)
    requires Gone(g, s0, done)
    modifies g`nodes, g`outbound, g`macroRules, g`folderZones
    ensures Gone(g, s0, done + {id})
  {
    Minus(s0.nodes, done, id);
    Minus(s0.outbound, done, id);
    Minus(s0.macroRules, done, id);
    Minus(s0.folderZones, done, id);
    g.nodes := g.nodes - {id};
    g.outbound := g.outbound - {id};
    g.macroRules := g.macroRules - {id};
    g.folderZones := g.folderZones - {id};
  }

  /** Stage the removal of one node ID from the kind and hash indexes, if it is a node. */
  method StageNode(nodes: map<Id, ResolvedNode>, id: Id, kindWork: Buckets, kindIndex: Buckets, hashWork: map<string, set<Id>>,
                   ghost all: map<Id, ResolvedNode>, ghost buckets: map<string, set<Id>>, ghost kinds: map<Id, string>, ghost hashes: map<Id, string>, ghost done: set<Id>)
      returns (kindWork': Buckets, hashWork': map<string, set<Id>>)
    requires KindsStaged(kindWork, kindIndex, buckets, kinds, done) && HashesStaged(hashWork, hashes, done)
    requires Matches(all, kinds, hashes) && nodes == all - done
    modifies kindWork.Values
    ensures KindsStaged(kindWork', kindIndex, buckets, kinds, done + {id}) && HashesStaged(hashWork', hashes, done + {id})
    ensures fresh(kindWork'.Values - kindWork.Values)
  {
    hide Filed, KindsStaged;
    if id in nodes {
      var node := nodes[id];
      AddDropStaged(hashWork, hashes, done, id);
      hashWork' := AddDrop(hashWork, node.Hash(), id);
      kindWork' := SweepKind(kindWork, kindIndex, id, node.kind, buckets, kinds, done);
    } else {
      NothingStaged(kindWork, kindIndex, hashWork, buckets, kinds, hashes, done, id);
      kindWork', hashWork' := kindWork, hashWork;
    }
  }

  /** The body of the sweep's inner loop: one node ID of a modified file. */
  method SweepNode(g: CodePropertyGraph, id: Id, kindWork: Buckets, hashWork: map<string, set<Id>>,
                   ghost s0: Stored, ghost buckets: map<string, set<Id>>, ghost kinds: map<Id, string>, ghost hashes: map<Id, string>, ghost done: set<Id>)
      returns (kindWork': Buckets, hashWork': map<string, set<Id>>)
    requires KindsStaged(kindWork, g.kindIndex, buckets, kinds, done) && HashesStaged(hashWork, hashes, done)
    requires Matches(s0.nodes, kinds, hashes) && Gone(g, s0, done)
    modifies kindWork.Values, g`nodes, g`outbound, g`macroRules, g`folderZones
    ensures KindsStaged(kindWork', g.kindIndex, buckets, kinds, done + {id}) && HashesStaged(hashWork', hashes, done + {id})
    ensures fresh(kindWork'.Values - kindWork.Values) && Gone(g, s0, done + {id})
  {
    assert g.nodes == s0.nodes - done;
    hide *;
    kindWork', hashWork' := StageNode(g.nodes, id, kindWork, g.kindIndex, hashWork, s0.nodes, buckets, kinds, hashes, done);
    Forget(g, s0, done, id);
  }

  /** The inner loop: every node ID listed for one modified file, in any order. */
  method SweepFile(g: CodePropertyGraph, ids: set<Id>, kindWork: Buckets, hashWork: map<string, set<Id>>,
                   ghost s0: Stored, ghost buckets: map<string, set<Id>>, ghost kinds: map<Id, string>, ghost hashes: map<Id, string>, ghost done: set<Id>)
      returns (kindWork': Buckets, hashWork': map<string, set<Id>>)
    requires KindsStaged(kindWork, g.kindIndex, buckets, kinds, done) && HashesStaged(hashWork, hashes, done)
    requires Matches(s0.nodes, kinds, hashes) && Gone(g, s0, done)
    modifies kindWork.Values, g`nodes, g`outbound, g`macroRules, g`folderZones
    ensures KindsStaged(kindWork', g.kindIndex, buckets, kinds, done + ids) && HashesStaged(hashWork', hashes, done + ids)
    ensures fresh(kindWork'.Values - kindWork.Values) && Gone(g, s0, done + ids)
  {
    hide *;
    kindWork', hashWork' := kindWork, hashWork;
    var rest := ids;
    ghost var gone: set<Id> := {};
    assert done + gone == done;
    while rest != {}
      invariant rest !! gone && rest + gone == ids
      invariant KindsStaged(kindWork', g.kindIndex, buckets, kinds, done + gone) && HashesStaged(hashWork', hashes, done + gone)
      invariant fresh(kindWork'.Values - kindWork.Values) && Gone(g, s0, done + gone) && Matches(s0.nodes, kinds, hashes)
    {
      var id :| id in rest;
      kindWork', hashWork' := SweepNode(g, id, kindWork', hashWork', s0, buckets, kinds, hashes, done + gone);
      rest, gone := rest - {id}, gone + {id};
      assert done + gone == done + (gone - {id}) + {id};
    }
    assert gone == ids;
  }

  lemma SweptMore(listed: map<string, set<Id>>, norm: string -> string, files: seq<string>, i: nat)
    requires i < |files|
    ensures SweptIds(listed, norm, files[..i + 1]) == SweptIds(listed, norm, files[..i]) + SetAt(listed, norm(files[i]))
    ensures NormAll(norm, files[..i + 1]) == NormAll(norm, files[..i]) + {norm(files[i])}
    ensures norm(files[i]) in NormAll(norm, files[..i]) ==> SetAt(listed, norm(files[i])) <= SweptIds(listed, norm, files[..i])
  {
    assert files[..i + 1] == files[..i] + [files[i]];
  }

  /** What the file loop leaves: everything filed under the first `i` modified files is gone. */
  ghost predicate FilesSwept(fileIndex: Buckets, lineIndex: Lists<ResolvedNode>,
                             fileIndex0: Buckets, lineIndex0: Lists<ResolvedNode>, paths: set<string>)
  {
    fileIndex == fileIndex0 - paths && lineIndex == lineIndex0 - (paths * fileIndex0.Keys)
  }

  lemma FilesSweptMore(fileIndex: Buckets, lineIndex: Lists<ResolvedNode>,
                       fileIndex0: Buckets, lineIndex0: Lists<ResolvedNode>, paths: set<string>, p: string)
    requires FilesSwept(fileIndex, lineIndex, fileIndex0, lineIndex0, paths)
    ensures p in fileIndex ==> FilesSwept(fileIndex - {p}, lineIndex - {p}, fileIndex0, lineIndex0, paths + {p})
    ensures p !in fileIndex ==> FilesSwept(fileIndex, lineIndex, fileIndex0, lineIndex0, paths + {p})
  {
    if p !in fileIndex {
      assert (paths + {p}) * fileIndex0.Keys == paths * fileIndex0.Keys;
    } else {
      assert (paths + {p}) * fileIndex0.Keys == paths * fileIndex0.Keys + {p};
    }
  }

  /** The outer loop's body: one modified file. */
  method SweepPath(g: CodePropertyGraph, p: string, kindWork: Buckets, hashWork: map<string, set<Id>>, done: set<Id>,
                   ghost s0: Stored, ghost listed: set<Id>, ghost buckets: map<string, set<Id>>, ghost kinds: map<Id, string>, ghost hashes: map<Id, string>,
                   ghost fileIndex0: Buckets, ghost lineIndex0: Lists<ResolvedNode>, ghost paths: set<string>)
      returns (kindWork': Buckets, hashWork': map<string, set<Id>>, done': set<Id>)
    requires KindsStaged(kindWork, g.kindIndex, buckets, kinds, done) && HashesStaged(hashWork, hashes, done)
    requires Matches(s0.nodes, kinds, hashes) && Gone(g, s0, done)
    requires FilesSwept(g.fileIndex, g.lineIndex, fileIndex0, lineIndex0, paths)
    requires if p in g.fileIndex then g.fileIndex[p].ids == listed else listed <= done
    modifies kindWork.Values, g`nodes, g`outbound, g`macroRules, g`folderZones, g`fileIndex, g`lineIndex
    ensures done' == done + listed && fresh(kindWork'.Values - kindWork.Values)
    ensures KindsStaged(kindWork', g.kindIndex, buckets, kinds, done') && HashesStaged(hashWork', hashes, done')
    ensures FilesSwept(g.fileIndex, g.lineIndex, fileIndex0, lineIndex0, paths + {p}) && Gone(g, s0, done')
  {
    hide *;
    kindWork', hashWork', done' := kindWork, hashWork, done;
    FilesSweptMore(g.fileIndex, g.lineIndex, fileIndex0, lineIndex0, paths, p);
    if p in g.fileIndex {
      var ids := g.fileIndex[p].ids;
      kindWork', hashWork' := SweepFile(g, ids, kindWork, hashWork, s0, buckets, kinds, hashes, done);
      done' := done + ids;
      g.fileIndex := g.fileIndex - {p};
      g.lineIndex := g.lineIndex - {p};
    } else {
      assert done + listed == done;
    }
  }

  /** The nested loops of sub-phase B over the modified files. */
  method SweepFiles(g: CodePropertyGraph, norm: string -> string, files: seq<string>)
      returns (kindWork: Buckets, hashWork: map<string, set<Id>>, oldNodeIds: set<Id>)
    modifies g`nodes, g`outbound, g`macroRules, g`folderZones, g`fileIndex, g`lineIndex
    ensures oldNodeIds == SweptIds(old(BucketsOf(g.fileIndex)), norm, files)
    ensures KindsStaged(kindWork, g.kindIndex, old(BucketsOf(g.kindIndex)), old(KindsOf(g.nodes)), oldNodeIds)
    ensures HashesStaged(hashWork, old(HashesOf(g.nodes)), oldNodeIds) && fresh(kindWork.Values)
    ensures Gone(g, Stored(old(g.nodes), old(g.outbound), old(g.macroRules), old(g.folderZones)), oldNodeIds)
    ensures FilesSwept(g.fileIndex, g.lineIndex, old(g.fileIndex), old(g.lineIndex), NormAll(norm, files))
  {
    hide *;
    ghost var listed, kinds, hashes := BucketsOf(g.fileIndex), KindsOf(g.nodes), HashesOf(g.nodes);
    ghost var buckets, s0, fileIndex, lineIndex := BucketsOf(g.kindIndex), Stored(g.nodes, g.outbound, g.macroRules, g.folderZones), g.fileIndex, g.lineIndex;
    kindWork, hashWork, oldNodeIds := map[], map[], {};
    StartSweep(g, norm, listed, kinds, hashes, buckets, files);
    for i := 0 to |files|
      invariant oldNodeIds == SweptIds(listed, norm, files[..i])
      invariant KindsStaged(kindWork, g.kindIndex, buckets, kinds, oldNodeIds)
      invariant HashesStaged(hashWork, hashes, oldNodeIds) && fresh(kindWork.Values)
      invariant Gone(g, s0, oldNodeIds) && Matches(s0.nodes, kinds, hashes) && listed == BucketsOf(fileIndex)
      invariant FilesSwept(g.fileIndex, g.lineIndex, fileIndex, lineIndex, NormAll(norm, files[..i]))
    {
      var p := norm(files[i]);
      ghost var here := SetAt(listed, p);
      SweptMore(listed, norm, files, i);
      ListedNow(g, fileIndex, lineIndex, listed, NormAll(norm, files[..i]), p);
      kindWork, hashWork, oldNodeIds := SweepPath(g, p, kindWork, hashWork, oldNodeIds, s0, here, buckets, kinds, hashes,
                                                  fileIndex, lineIndex, NormAll(norm, files[..i]));
    }
    assert files[..|files|] == files;
  }

  lemma StartSweep(g: CodePropertyGraph, norm: string -> string, listed: map<string, set<Id>>, kinds: map<Id, string>,
                   hashes: map<Id, string>, buckets: map<string, set<Id>>, files: seq<string>)
    requires buckets == BucketsOf(g.kindIndex) && kinds == KindsOf(g.nodes) && hashes == HashesOf(g.nodes)
    ensures Gone(g, Stored(g.nodes, g.outbound, g.macroRules, g.folderZones), {}) && Matches(g.nodes, kinds, hashes)
    ensures KindsStaged(map[], g.kindIndex, buckets, kinds, {}) && HashesStaged(map[], hashes, {})
    ensures FilesSwept(g.fileIndex, g.lineIndex, g.fileIndex, g.lineIndex, NormAll(norm, files[..0]))
    ensures SweptIds(listed, norm, files[..0]) == {}
  {
  }

  lemma ListedNow(g: CodePropertyGraph, fileIndex: Buckets, lineIndex: Lists<ResolvedNode>,
                  listed: map<string, set<Id>>, paths: set<string>, p: string)
    requires FilesSwept(g.fileIndex, g.lineIndex, fileIndex, lineIndex, paths)
    requires listed == BucketsOf(fileIndex)
    ensures p in g.fileIndex ==> g.fileIndex[p].ids == SetAt(listed, p)
    ensures p !in g.fileIndex ==> p in paths || SetAt(listed, p) == {}
  {
  }

  /** Filtering is done piece by piece, so the order stays. */
  lemma {:induction false} WithoutConcat(a: seq<Id>, b: seq<Id>, drop: set<Id>)
    ensures Without(a + b, drop) == Without(a, drop) + Without(b, drop)
  {
    if b == [] {
      assert a + b == a;
    } else {
      var rest, last := b[..|b| - 1], b[|b| - 1];
      assert (a + b)[..|a + b| - 1] == a + rest;
      WithoutConcat(a, rest, drop);
    }
  }

  /** The loop that keeps what is not dropped. */
  method Filter(list: seq<Id>, drop: set<Id>) returns (kept: seq<Id>)
    ensures kept == Without(list, drop)
  {
    kept := [];
    for i := 0 to |list|
      invariant kept == Without(list[..i], drop)
    {
      assert list[..i + 1][..i] == list[..i];
      if list[i] !in drop {
        kept := kept + [list[i]];
      }
    }
    assert list[..|list|] == list;
  }

  lemma WithoutNothing(list: seq<Id>)
    ensures Without(list, {}) == list
  {
    if list != [] {
      WithoutNothing(list[..|list| - 1]);
    }
  }

  /** One rebuild, into a new list, per hash bucket that loses IDs. */
  method PublishHashDrops(index: Lists<Id>, work: map<string, set<Id>>) returns (index': Lists<Id>)
    ensures index'.Keys == index.Keys && fresh(index'.Values - index.Values)
    ensures forall h :: ListAt(ItemsOf(index'), h) == Without(ListAt(ItemsOf(index), h), SetAt(work, h))
  {
    index' := index;
    var rest := work.Keys;
    while rest != {}
      invariant rest <= work.Keys && index'.Keys == index.Keys && fresh(index'.Values - index.Values)
      invariant forall h :: h in index ==> if h in work && h !in rest then index'[h].items == Without(index[h].items, work[h]) else index'[h] == index[h]
    {
      var h :| h in rest;
      rest := rest - {h};
      if h in index' {
        var items := Filter(index'[h].items, work[h]);
        var filtered := new List(items);
        index' := index'[h := filtered];
      }
    }
    forall h
      ensures ListAt(ItemsOf(index'), h) == Without(ListAt(ItemsOf(index), h), SetAt(work, h))
    {
      WithoutNothing(ListAt(ItemsOf(index), h));
    }
  }

  /** Each bucket loses exactly those of `ids` whose attribute is its key. */
  ghost predicate IdsDropped(before: map<string, set<Id>>, after: map<string, set<Id>>, attr: map<Id, string>, ids: set<Id>) {
    forall k :: SetAt(after, k) == SetAt(before, k) - Filed(attr, ids, k)
  }

  /** Each hash list loses exactly the IDs of `ids` that carried the hash. */
  ghost predicate HashesDropped(before: map<string, seq<Id>>, after: map<string, seq<Id>>, hashes: map<Id, string>, ids: set<Id>) {
    forall h :: h != "" ==> ListAt(after, h) == Without(ListAt(before, h), Filed(hashes, ids, h))
  }

  lemma PublishedKinds(work: Buckets, index: Buckets, buckets: map<string, set<Id>>, kinds: map<Id, string>, done: set<Id>)
    requires KindsStaged(work, index, buckets, kinds, done)
    ensures IdsDropped(buckets, BucketsOf(index + work), kinds, done)
  {
    hide Filed;
    forall k
      ensures SetAt(BucketsOf(index + work), k) == StagedAt(work, index, k)
    {
    }
  }

  /** The two batched indexes of the sweep. */
  method PublishDrops(g: CodePropertyGraph, kindWork: Buckets, hashWork: map<string, set<Id>>,
                      ghost buckets: map<string, set<Id>>, ghost kinds: map<Id, string>, ghost hashes: map<Id, string>, ghost done: set<Id>)
    requires KindsStaged(kindWork, g.kindIndex, buckets, kinds, done) && HashesStaged(hashWork, hashes, done)
    modifies g`kindIndex, g`hashIndex
    ensures IdsDropped(buckets, BucketsOf(g.kindIndex), kinds, done)
    ensures HashesDropped(old(ItemsOf(g.hashIndex)), ItemsOf(g.hashIndex), hashes, done)
  {
    hide *;
    PublishedKinds(kindWork, g.kindIndex, buckets, kinds, done);
    var kind' := Publish(g.kindIndex, kindWork);
    var hash' := PublishHashDrops(g.hashIndex, hashWork);
    PublishedHashes(ItemsOf(g.hashIndex), ItemsOf(hash'), hashWork, hashes, done);
    g.kindIndex, g.hashIndex := kind', hash';
  }

  lemma PublishedHashes(before: map<string, seq<Id>>, after: map<string, seq<Id>>, work: map<string, set<Id>>, hashes: map<Id, string>, done: set<Id>)
    requires HashesStaged(work, hashes, done) && forall h :: ListAt(after, h) == Without(ListAt(before, h), SetAt(work, h))
    ensures HashesDropped(before, after, hashes, done)
  {
    hide Filed, Without;
  }

  /** Sub-phase B as a whole. */
  method Sweep(g: CodePropertyGraph, norm: string -> string, files: seq<string>) returns (oldNodeIds: set<Id>)
    modifies g`nodes, g`outbound, g`macroRules, g`folderZones, g`fileIndex, g`lineIndex, g`kindIndex, g`hashIndex, g`entrypoints, g`macroCache
    ensures oldNodeIds == SweptIds(old(BucketsOf(g.fileIndex)), norm, files)
    ensures Gone(g, Stored(old(g.nodes), old(g.outbound), old(g.macroRules), old(g.folderZones)), oldNodeIds)
    ensures FilesSwept(g.fileIndex, g.lineIndex, old(g.fileIndex), old(g.lineIndex), NormAll(norm, files))
    ensures IdsDropped(old(BucketsOf(g.kindIndex)), BucketsOf(g.kindIndex), old(KindsOf(g.nodes)), oldNodeIds)
    ensures HashesDropped(old(ItemsOf(g.hashIndex)), ItemsOf(g.hashIndex), old(HashesOf(g.nodes)), oldNodeIds)
    ensures g.entrypoints == Without(old(g.entrypoints), oldNodeIds) && g.macroCache == map[]
  {
    hide *;
    ghost var buckets, kinds, hashes := BucketsOf(g.kindIndex), KindsOf(g.nodes), HashesOf(g.nodes);
    var kindWork, hashWork;
    kindWork, hashWork, oldNodeIds := SweepFiles(g, norm, files);
    PublishDrops(g, kindWork, hashWork, buckets, kinds, hashes, oldNodeIds);
    FinishSweep(g, oldNodeIds);
  }

  /** The entrypoints of swept nodes go, and so does the rule cache. */
  method FinishSweep(g: CodePropertyGraph, oldNodeIds: set<Id>)
    modifies g`entrypoints, g`macroCache
    ensures g.entrypoints == Without(old(g.entrypoints), oldNodeIds) && g.macroCache == map[]
    ensures BucketsOf(g.kindIndex) == old(BucketsOf(g.kindIndex)) && ItemsOf(g.hashIndex) == old(ItemsOf(g.hashIndex))
  {
    var validEntrypoints := Filter(g.entrypoints, oldNodeIds);
    g.entrypoints, g.macroCache := validEntrypoints, map[];
  }
}
