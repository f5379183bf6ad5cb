/** applyDeltaToShadow, sub-phase C.1: the payload's nodes enter the shadow graph and its indexes. */
module DeltaGraft {
  import opened Graphs
  import opened AkgStore
  import opened DeltaSweep

  /** The payload's nodes without its nil entries. */
  function Present(payload: map<Id, ResolvedNode?>): map<Id, ResolvedNode> {
    map id | id in payload && payload[id] != null :: payload[id]
  }

  /** Each bucket gains exactly those of `ids` whose attribute is its key. */
  ghost predicate IdsAdded(before: map<string, set<Id>>, after: map<string, set<Id>>, attr: map<Id, string>, ids: set<Id>) {
    forall k :: SetAt(after, k) == SetAt(before, k) + Filed(attr, ids, k)
  }

  /** Each hash list gains one entry per ID of `ids` that carries the hash, in any order. */
  ghost predicate HashesAdded(before: map<string, seq<Id>>, after: map<string, seq<Id>>, hashes: map<Id, string>, ids: set<Id>) {
    forall h :: h != "" ==> multiset(ListAt(after, h)) == multiset(ListAt(before, h)) + multiset(Filed(hashes, ids, h))
  }

  ghost function Members(list: seq<ResolvedNode>): set<ResolvedNode> { set n | n in list }

  ghost function NodesAt(nodes: map<Id, ResolvedNode>, ids: set<Id>): set<ResolvedNode> {
    set id | id in ids && id in nodes :: nodes[id]
  }

  /** Each line list gains exactly the nodes of `ids` in its file. */
  ghost predicate LinesAdded(before: map<string, seq<ResolvedNode>>, after: map<string, seq<ResolvedNode>>,
                             nodes: map<Id, ResolvedNode>, paths: map<Id, string>, ids: set<Id>) {
    forall p :: Members(ListAt(after, p)) == Members(ListAt(before, p)) + NodesAt(nodes, Filed(paths, ids, p))
  }

  /** The buckets, working copies included, once the nodes in `done` have been added. */
  ghost predicate Grafted(work: Buckets, index: Buckets, buckets: map<string, set<Id>>, attr: map<Id, string>, done: set<Id>)
    reads work.Values, index.Values
  {
    Private(work, index)
    && (forall k :: IdsAt(index, k) == SetAt(buckets, k))
    && (forall k :: StagedAt(work, index, k) == SetAt(buckets, k) + Filed(attr, done, k))
  }

  method GraftId(work: Buckets, index: Buckets, id: Id, key: string,
                 ghost buckets: map<string, set<Id>>, ghost attr: map<Id, string>, ghost done: set<Id>) returns (work': Buckets)
    requires Grafted(work, index, buckets, attr, done) && id in attr && attr[id] == key
    modifies work.Values
    ensures Grafted(work', index, buckets, attr, done + {id}) && fresh(work'.Values - work.Values)
  {
    hide Filed;
    FiledMore(attr, done, id);
    work' := StageAddition(work, index, key, id);
  }

  lemma GraftedPublished(work: Buckets, index: Buckets, buckets: map<string, set<Id>>, attr: map<Id, string>, done: set<Id>)
    requires Grafted(work, index, buckets, attr, done)
    ensures IdsAdded(buckets, BucketsOf(index + work), attr, done)
  {
    hide Filed;
    forall k
      ensures SetAt(BucketsOf(index + work), k) == StagedAt(work, index, k)
    {
    }
  }

  /** The hash lists once the nodes in `done` have been appended; "" is not a hash. */
  ghost predicate HashesGrafted(work: map<string, seq<Id>>, index: map<string, seq<Id>>, hashes: map<Id, string>, done: set<Id>) {
    forall h :: h != "" ==> multiset(ListStaged(work, index, h)) == multiset(ListAt(index, h)) + multiset(Filed(hashes, done, h))
  }

  lemma MultisetOfMore(s: set<Id>, id: Id)
    requires id !in s
    ensures multiset(s + {id}) == multiset(s) + multiset{id}
  {
  }

  lemma HashGraftedAt(work: map<string, seq<Id>>, index: map<string, seq<Id>>, hashes: map<Id, string>, done: set<Id>, id: Id, h: string)
    requires HashesGrafted(work, index, hashes, done) && id in hashes && id !in done && h != ""
    ensures var work' := if hashes[id] == "" then work else Append(work, index, hashes[id], id);
            multiset(ListStaged(work', index, h)) == multiset(ListAt(index, h)) + multiset(Filed(hashes, done + {id}, h))
  {
    FiledMore(hashes, done, id);
    assert id !in Filed(hashes, done, h);
    hide Filed;
    if h == hashes[id] {
      MultisetOfMore(Filed(hashes, done, h), id);
    } else {
      assert Filed(hashes, done + {id}, h) == Filed(hashes, done, h);
    }
  }

  lemma HashGraftedMore(work: map<string, seq<Id>>, index: map<string, seq<Id>>, hashes: map<Id, string>, done: set<Id>, id: Id)
    requires HashesGrafted(work, index, hashes, done) && id in hashes && id !in done
    ensures HashesGrafted(if hashes[id] == "" then work else Append(work, index, hashes[id], id), index, hashes, done + {id})
  {
    hide Filed, Append, ListStaged, ListAt;
    forall h | h != ""
      ensures var work' := if hashes[id] == "" then work else Append(work, index, hashes[id], id);
              multiset(ListStaged(work', index, h)) == multiset(ListAt(index, h)) + multiset(Filed(hashes, done + {id}, h))
    {
      HashGraftedAt(work, index, hashes, done, id, h);
    }
  }

  /** The line lists once the nodes in `done` have been appended. */
  ghost predicate LinesGrafted(work: map<string, seq<ResolvedNode>>, index: map<string, seq<ResolvedNode>>,
                               nodes: map<Id, ResolvedNode>, paths: map<Id, string>, done: set<Id>) {
    forall p :: Members(ListStaged(work, index, p)) == Members(ListAt(index, p)) + NodesAt(nodes, Filed(paths, done, p))
  }

  lemma LineGraftedMore(work: map<string, seq<ResolvedNode>>, index: map<string, seq<ResolvedNode>>,
                        nodes: map<Id, ResolvedNode>, paths: map<Id, string>, done: set<Id>, id: Id)
    requires LinesGrafted(work, index, nodes, paths, done) && id in nodes && id in paths
    ensures LinesGrafted(Append(work, index, paths[id], nodes[id]), index, nodes, paths, done + {id})
  {
    var work' := Append(work, index, paths[id], nodes[id]);
    FiledMore(paths, done, id);
    forall p
      ensures Members(ListStaged(work', index, p)) == Members(ListAt(index, p)) + NodesAt(nodes, Filed(paths, done + {id}, p))
    {
      if p == paths[id] {
        assert Members(ListStaged(work', index, p)) == Members(ListStaged(work, index, p)) + {nodes[id]};
        assert NodesAt(nodes, Filed(paths, done, p) + {id}) == NodesAt(nodes, Filed(paths, done, p)) + {nodes[id]};
      }
    }
  }

  ghost predicate SortedByLine(list: seq<ResolvedNode>) {
    forall i, j :: 0 <= i < j < |list| ==> list[i].lineStart <= list[j].lineStart
  }

  ghost predicate AllSorted(lines: map<string, seq<ResolvedNode>>) { forall p :: p in lines ==> SortedByLine(lines[p]) }

  /** Every line list is sorted by start line. */
  ghost predicate LinesInOrder(g: CodePropertyGraph)
    reads g`lineIndex, g.lineIndex.Values
  {
    AllSorted(ItemsOf(g.lineIndex))
  }

  lemma OrderIs(g: CodePropertyGraph)
    ensures LinesInOrder(g) <==> AllSorted(ItemsOf(g.lineIndex))
  {
  }

  function InsertByLine(sorted: seq<ResolvedNode>, n: ResolvedNode): seq<ResolvedNode> {
    if sorted == [] || sorted[|sorted| - 1].lineStart <= n.lineStart then sorted + [n]
    else InsertByLine(sorted[..|sorted| - 1], n) + [sorted[|sorted| - 1]]
  }

  lemma InsertByLineMembers(sorted: seq<ResolvedNode>, n: ResolvedNode)
    ensures multiset(InsertByLine(sorted, n)) == multiset(sorted) + multiset{n}
  {
    if sorted != [] && sorted[|sorted| - 1].lineStart > n.lineStart {
      InsertByLineMembers(sorted[..|sorted| - 1], n);
      assert sorted == sorted[..|sorted| - 1] + [sorted[|sorted| - 1]];
    }
  }

  lemma InsertByLineBound(sorted: seq<ResolvedNode>, n: ResolvedNode, bound: int)
    requires n.lineStart <= bound && forall i :: 0 <= i < |sorted| ==> sorted[i].lineStart <= bound
    ensures forall i :: 0 <= i < |InsertByLine(sorted, n)| ==> InsertByLine(sorted, n)[i].lineStart <= bound
  {
    if sorted != [] && sorted[|sorted| - 1].lineStart > n.lineStart {
      InsertByLineBound(sorted[..|sorted| - 1], n, bound);
    }
  }

  lemma InsertByLineSorted(sorted: seq<ResolvedNode>, n: ResolvedNode)
    requires SortedByLine(sorted)
    ensures SortedByLine(InsertByLine(sorted, n))
  {
    if sorted != [] && sorted[|sorted| - 1].lineStart > n.lineStart {
      InsertByLineSorted(sorted[..|sorted| - 1], n);
      InsertByLineBound(sorted[..|sorted| - 1], n, sorted[|sorted| - 1].lineStart);
    }
  }

  /** Stands for the library sort, which works in place; only its contract is used. */
  method SortByLine(list: List<ResolvedNode>)
    modifies list
    ensures multiset(list.items) == multiset(old(list.items)) && SortedByLine(list.items)
  {
    var unsorted := list.items;
    list.items := [];
    for i := 0 to |unsorted|
      invariant multiset(list.items) == multiset(unsorted[..i]) && SortedByLine(list.items)
    {
      hide SortedByLine;
      InsertByLineMembers(list.items, unsorted[i]);
      InsertByLineSorted(list.items, unsorted[i]);
      list.items := InsertByLine(list.items, unsorted[i]);
      assert unsorted[..i + 1] == unsorted[..i] + [unsorted[i]];
    }
    assert unsorted[..|unsorted|] == unsorted;
  }

  /** `after` holds the lists of `before` in some order, each sorted if its key is in `done`. */
  ghost predicate Rearranged(before: map<string, seq<ResolvedNode>>, after: map<string, seq<ResolvedNode>>, done: set<string>) {
    after.Keys == before.Keys
    && forall p :: p in after ==> multiset(after[p]) == multiset(before[p]) && (p in done ==> SortedByLine(after[p]))
  }

  /** The step for one path: its working list is sorted where it is. */
  method SortOne(work: Lists<ResolvedNode>, index: Lists<ResolvedNode>, p: string, ghost before: map<string, seq<ResolvedNode>>, ghost done: set<string>)
    requires Private(work, index) && p in work && Rearranged(before, ItemsOf(work), done)
    modifies work[p]
    ensures Rearranged(before, ItemsOf(work), done + {p}) && ItemsOf(index) == old(ItemsOf(index))
  {
    hide SortedByLine, Rearranged;
    ghost var items := ItemsOf(work);
    var list := work[p];
    SortByLine(list);
    OnlyOne(items, ItemsOf(work), p);
    OneRearranged(before, items, p, list.items, done);
  }

  lemma OnlyOne(items: map<string, seq<ResolvedNode>>, items': map<string, seq<ResolvedNode>>, p: string)
    requires items'.Keys == items.Keys && p in items && forall k :: k in items && k != p ==> items'[k] == items[k]
    ensures items' == items[p := items'[p]]
  {
  }

  lemma OneRearranged(before: map<string, seq<ResolvedNode>>, items: map<string, seq<ResolvedNode>>, p: string, sorted: seq<ResolvedNode>, done: set<string>)
    requires Rearranged(before, items, done) && p in items && multiset(sorted) == multiset(items[p]) && SortedByLine(sorted)
    ensures Rearranged(before, items[p := sorted], done + {p})
  {
    hide SortedByLine;
  }

  /** Sort each working list in place and set it. */
  method PublishLines(index: Lists<ResolvedNode>, work: Lists<ResolvedNode>) returns (index': Lists<ResolvedNode>)
    requires Private(work, index)
    modifies work.Values
    ensures index' == index + work && ItemsOf(index) == old(ItemsOf(index))
    ensures Rearranged(old(ItemsOf(work)), ItemsOf(work), work.Keys)
  {
    hide *;
    ghost var before, published := ItemsOf(work), ItemsOf(index);
    StartSorting(index, work);
    index' := index;
    var rest := work.Keys;
    ghost var done: set<string> := {};
    while rest != {}
      invariant done <= work.Keys && rest == work.Keys - done && index' == index + PartOf(work, done)
      invariant Rearranged(before, ItemsOf(work), done) && ItemsOf(index) == published
    {
      var p :| p in rest;
      SortOne(work, index, p, before, done);
      PartMore(index, work, done, p);
      index', rest, done := index'[p := work[p]], rest - {p}, done + {p};
    }
    assert done == work.Keys;
    PartIsAll(work);
  }

  ghost function PartOf<T>(work: map<string, T>, done: set<string>): map<string, T> { map p | p in work && p in done :: work[p] }

  lemma PartMore<T>(index: map<string, T>, work: map<string, T>, done: set<string>, p: string)
    requires p in work
    ensures (index + PartOf(work, done))[p := work[p]] == index + PartOf(work, done + {p})
  {
  }

  lemma PartIsAll<T>(work: map<string, T>)
    ensures PartOf(work, work.Keys) == work
  {
  }

  lemma StartSorting(index: Lists<ResolvedNode>, work: Lists<ResolvedNode>)
    ensures Rearranged(ItemsOf(work), ItemsOf(work), {}) && index + PartOf(work, {}) == index
  {
  }

  /** The four working maps of the graft. */
  datatype Work = Work(kind: Buckets, file: Buckets, hash: Lists<Id>, line: Lists<ResolvedNode>)

  /** The working copies. */
  ghost function Copies(w: Work): set<object> { w.kind.Values + w.file.Values + w.hash.Values + w.line.Values }

  /** The indexes of the graph being written, as stored. */
  datatype Indexes = Indexes(kind: Buckets, file: Buckets, hash: Lists<Id>, line: Lists<ResolvedNode>)

  /** The nodes being grafted with their attributes, and the buckets and lists before the graft. */
  datatype Grafting = Grafting(nodes: map<Id, ResolvedNode>, kinds: map<Id, string>, paths: map<Id, string>, hashes: map<Id, string>,
                               kindBuckets: map<string, set<Id>>, fileBuckets: map<string, set<Id>>,
                               hashLists: map<string, seq<Id>>, lineLists: map<string, seq<ResolvedNode>>)

  ghost predicate GraftInv(w: Work, ix: Indexes, b: Grafting, done: set<Id>)
    reads w.kind.Values, w.file.Values, ix.kind.Values, ix.file.Values, w.hash.Values, w.line.Values, ix.hash.Values, ix.line.Values
  {
    BucketsGrafted(w.kind, w.file, ix.kind, ix.file, b, done)
    && HashListsGrafted(w.hash, ix.hash, b, done) && LineListsGrafted(w.line, ix.line, b, done)
  }

  /** The files of the nodes in `ids`. */
  ghost function PathsIn(paths: map<Id, string>, ids: set<Id>): set<string> { set id | id in ids && id in paths :: paths[id] }

  /** The working copies of the hash lists are private and hold what they should; the published ones are
      as they were. */
  ghost predicate HashListsGrafted(work: Lists<Id>, index: Lists<Id>, b: Grafting, done: set<Id>)
    reads work.Values, index.Values
  {
    Private(work, index) && ItemsOf(index) == b.hashLists && HashesGrafted(ItemsOf(work), b.hashLists, b.hashes, done)
  }

  ghost predicate LineListsGrafted(work: Lists<ResolvedNode>, index: Lists<ResolvedNode>, b: Grafting, done: set<Id>)
    reads work.Values, index.Values
  {
    Private(work, index) && ItemsOf(index) == b.lineLists && LinesGrafted(ItemsOf(work), b.lineLists, b.nodes, b.paths, done)
    && work.Keys == PathsIn(b.paths, done)
  }

  ghost predicate Describes(b: Grafting, norm: string -> string)
    reads b.nodes.Values, set id | id in b.nodes :: b.nodes[id].properties
  {
    b.kinds == KindsOf(b.nodes) && b.paths == PathsOf(b.nodes, norm) && b.hashes == HashesOf(b.nodes)
  }

  ghost predicate BucketsGrafted(kind: Buckets, file: Buckets, kindIndex: Buckets, fileIndex: Buckets, b: Grafting, done: set<Id>)
    reads kind.Values, file.Values, kindIndex.Values, fileIndex.Values
  {
    kind.Values !! file.Values && kind.Values !! fileIndex.Values && file.Values !! kindIndex.Values
    && Grafted(kind, kindIndex, b.kindBuckets, b.kinds, done)
    && Grafted(file, fileIndex, b.fileBuckets, b.paths, done)
  }

  /** Both bucket indexes take one node. */
  method GraftBuckets(kind: Buckets, file: Buckets, kindIndex: Buckets, fileIndex: Buckets, id: Id, node: ResolvedNode, normPath: string,
                      ghost b: Grafting, ghost done: set<Id>) returns (kind': Buckets, file': Buckets)
    requires BucketsGrafted(kind, file, kindIndex, fileIndex, b, done) && normPath != ""
    requires id in b.kinds && b.kinds[id] == node.kind && id in b.paths && b.paths[id] == normPath
    modifies kind.Values, file.Values
    ensures BucketsGrafted(kind', file', kindIndex, fileIndex, b, done + {id})
    ensures fresh(kind'.Values - kind.Values) && fresh(file'.Values - file.Values)
  {
    hide Grafted;
    kind' := GraftId(kind, kindIndex, id, node.kind, b.kindBuckets, b.kinds, done);
    file' := file;
    if normPath != "" {
      file' := GraftId(file, fileIndex, id, normPath, b.fileBuckets, b.paths, done);
    }
  }

  /** The hash lists take one node. */
  method GraftHash(work: Lists<Id>, index: Lists<Id>, id: Id, h: string, ghost b: Grafting, ghost done: set<Id>) returns (work': Lists<Id>)
    requires HashListsGrafted(work, index, b, done) && id in b.hashes && b.hashes[id] == h && id !in done
    modifies work.Values
    ensures HashListsGrafted(work', index, b, done + {id}) && fresh(work'.Values - work.Values)
  {
    hide HashesGrafted, Append, Private;
    HashGraftedMore(ItemsOf(work), b.hashLists, b.hashes, done, id);
    work' := work;
    if h != "" {
      work' := StageAppend(work, index, h, id);
    }
  }

  /** The line lists take one node. */
  method GraftLine(work: Lists<ResolvedNode>, index: Lists<ResolvedNode>, id: Id, node: ResolvedNode, normPath: string,
                   ghost b: Grafting, ghost done: set<Id>) returns (work': Lists<ResolvedNode>)
    requires LineListsGrafted(work, index, b, done) && normPath != ""
    requires id in b.nodes && b.nodes[id] == node && id in b.paths && b.paths[id] == normPath
    modifies work.Values
    ensures LineListsGrafted(work', index, b, done + {id}) && fresh(work'.Values - work.Values)
  {
    hide LinesGrafted, Append, Private;
    LineGraftedMore(ItemsOf(work), b.lineLists, b.nodes, b.paths, done, id);
    work' := work;
    if normPath != "" {
      work' := StageAppend(work, index, normPath, node);
    }
  }

  /** Both list indexes take one node. */
  method GraftLists(hash: Lists<Id>, line: Lists<ResolvedNode>, hashIndex: Lists<Id>, lineIndex: Lists<ResolvedNode>, id: Id, node: ResolvedNode,
                    h: string, normPath: string, ghost b: Grafting, ghost done: set<Id>) returns (hash': Lists<Id>, line': Lists<ResolvedNode>)
    requires HashListsGrafted(hash, hashIndex, b, done) && LineListsGrafted(line, lineIndex, b, done) && normPath != ""
    requires id in b.nodes && b.nodes[id] == node && id in b.paths && b.paths[id] == normPath && id in b.hashes && b.hashes[id] == h && id !in done
    modifies hash.Values, line.Values
    ensures HashListsGrafted(hash', hashIndex, b, done + {id}) && LineListsGrafted(line', lineIndex, b, done + {id})
    ensures fresh(hash'.Values - hash.Values) && fresh(line'.Values - line.Values)
  {
    hide *;
    hash' := GraftHash(hash, hashIndex, id, h, b, done);
    assert LineListsGrafted(line, lineIndex, b, done);
    line' := GraftLine(line, lineIndex, id, node, normPath, b, done);
  }

  lemma DescribesAt(b: Grafting, norm: string -> string, id: Id)
    requires Describes(b, norm) && id in b.nodes
    ensures id in b.kinds && b.kinds[id] == b.nodes[id].kind && id in b.paths && b.paths[id] == norm(b.nodes[id].path)
    ensures id in b.hashes && b.hashes[id] == b.nodes[id].Hash()
  {
  }

  /** The bucket indexes take the node; the lists are other objects. */
  method BucketStep(w: Work, ix: Indexes, id: Id, node: ResolvedNode, normPath: string, ghost b: Grafting, ghost done: set<Id>) returns (kind': Buckets, file': Buckets)
    requires BucketsGrafted(w.kind, w.file, ix.kind, ix.file, b, done) && normPath != ""
    requires HashListsGrafted(w.hash, ix.hash, b, done) && LineListsGrafted(w.line, ix.line, b, done)
    requires id in b.kinds && b.kinds[id] == node.kind && id in b.paths && b.paths[id] == normPath
    modifies w.kind.Values, w.file.Values
    ensures BucketsGrafted(kind', file', ix.kind, ix.file, b, done + {id})
    ensures HashListsGrafted(w.hash, ix.hash, b, done) && LineListsGrafted(w.line, ix.line, b, done)
    ensures fresh(kind'.Values - w.kind.Values) && fresh(file'.Values - w.file.Values)
  {
    hide *;
    kind', file' := GraftBuckets(w.kind, w.file, ix.kind, ix.file, id, node, normPath, b, done);
  }

  /** The list indexes take the node; the buckets are other objects. */
  method ListStep(w: Work, ix: Indexes, id: Id, node: ResolvedNode, h: string, normPath: string, kind': Buckets, file': Buckets, ghost b: Grafting, ghost done: set<Id>)
      returns (hash': Lists<Id>, line': Lists<ResolvedNode>)
    requires BucketsGrafted(kind', file', ix.kind, ix.file, b, done + {id}) && normPath != ""
    requires HashListsGrafted(w.hash, ix.hash, b, done) && LineListsGrafted(w.line, ix.line, b, done)
    requires id in b.nodes && b.nodes[id] == node && id in b.paths && b.paths[id] == normPath && id in b.hashes && b.hashes[id] == h && id !in done
    modifies w.hash.Values, w.line.Values
    ensures BucketsGrafted(kind', file', ix.kind, ix.file, b, done + {id})
    ensures HashListsGrafted(hash', ix.hash, b, done + {id}) && LineListsGrafted(line', ix.line, b, done + {id})
    ensures fresh(hash'.Values - w.hash.Values) && fresh(line'.Values - w.line.Values)
  {
    hide *;
    hash', line' := GraftLists(w.hash, w.line, ix.hash, ix.line, id, node, h, normPath, b, done);
  }

  lemma CopiesAre(w: Work)
    ensures Copies(w) == w.kind.Values + w.file.Values + w.hash.Values + w.line.Values
  {
  }

  twostate lemma NewCopies(w: Work, new w': Work)
    requires fresh(w'.kind.Values - w.kind.Values) && fresh(w'.file.Values - w.file.Values)
    requires fresh(w'.hash.Values - w.hash.Values) && fresh(w'.line.Values - w.line.Values)
    ensures fresh(Copies(w') - Copies(w))
  {
  }

  lemma InvParts(w: Work, ix: Indexes, b: Grafting, done: set<Id>)
    requires GraftInv(w, ix, b, done)
    ensures BucketsGrafted(w.kind, w.file, ix.kind, ix.file, b, done)
    ensures HashListsGrafted(w.hash, ix.hash, b, done) && LineListsGrafted(w.line, ix.line, b, done)
  {
  }

  lemma InvFromParts(w: Work, ix: Indexes, b: Grafting, done: set<Id>)
    requires BucketsGrafted(w.kind, w.file, ix.kind, ix.file, b, done)
    requires HashListsGrafted(w.hash, ix.hash, b, done) && LineListsGrafted(w.line, ix.line, b, done)
    ensures GraftInv(w, ix, b, done)
  {
  }

  /** The body of the graft loop: one payload node. normalizePath never returns "". */
  method GraftNode(w: Work, ix: Indexes, id: Id, node: ResolvedNode, norm: string -> string, ghost b: Grafting, ghost done: set<Id>) returns (w': Work)
    requires GraftInv(w, ix, b, done) && norm(node.path) != ""
    requires id in b.nodes && b.nodes[id] == node && id !in done
    requires Describes(b, norm)
    modifies Copies(w)
    ensures GraftInv(w', ix, b, done + {id}) && fresh(Copies(w') - Copies(w))
  {
    hide *;
    CopiesAre(w);
    DescribesAt(b, norm, id);
    InvParts(w, ix, b, done);
    var h := node.Hash();
    var kind', file' := BucketStep(w, ix, id, node, norm(node.path), b, done);
    var hash', line' := ListStep(w, ix, id, node, h, norm(node.path), kind', file', b, done);
    w' := Work(kind', file', hash', line');
    NewCopies(w, w');
    InvFromParts(w', ix, b, done + {id});
  }

  lemma FiledNone(attr: map<Id, string>)
    ensures forall k :: Filed(attr, {}, k) == {}
  {
  }

  lemma EmptyBuckets(index: Buckets, attr: map<Id, string>)
    ensures Grafted(map[], index, BucketsOf(index), attr, {})
  {
    FiledNone(attr);
    hide Filed;
  }

  lemma EmptyLists(hash: map<string, seq<Id>>, line: map<string, seq<ResolvedNode>>, b: Grafting)
    ensures HashesGrafted(map[], hash, b.hashes, {}) && LinesGrafted(map[], line, b.nodes, b.paths, {})
  {
    FiledNone(b.hashes);
    FiledNone(b.paths);
    hide Filed;
    assert NodesAt(b.nodes, {}) == {};
  }

  /** `b` records what the indexes hold. */
  ghost predicate Starts(ix: Indexes, b: Grafting)
    reads ix.kind.Values, ix.file.Values, ix.hash.Values, ix.line.Values
  {
    b.kindBuckets == BucketsOf(ix.kind) && b.fileBuckets == BucketsOf(ix.file)
    && b.hashLists == ItemsOf(ix.hash) && b.lineLists == ItemsOf(ix.line)
  }

  lemma EmptyWork(ix: Indexes, b: Grafting)
    requires Starts(ix, b)
    ensures GraftInv(Work(map[], map[], map[], map[]), ix, b, {})
  {
    hide Grafted, HashesGrafted, LinesGrafted, BucketsOf;
    EmptyBuckets(ix.kind, b.kinds);
    EmptyBuckets(ix.file, b.paths);
    EmptyLists(b.hashLists, b.lineLists, b);
    assert ItemsOf<Id>(map[]) == map[] && ItemsOf<ResolvedNode>(map[]) == map[];
  }

  /** `m` cut down to the keys in `keys`. */
  ghost function Only(m: map<Id, ResolvedNode>, keys: set<Id>): map<Id, ResolvedNode> {
    map id | id in m && id in keys :: m[id]
  }

  lemma OnlyMore(nodes: map<Id, ResolvedNode>, m: map<Id, ResolvedNode>, keys: set<Id>, id: Id)
    requires id in m
    ensures (nodes + Only(m, keys))[id := m[id]] == nodes + Only(m, keys + {id})
  {
  }

  lemma OnlyEnds(nodes: map<Id, ResolvedNode>, m: map<Id, ResolvedNode>)
    ensures nodes + Only(m, {}) == nodes && Only(m, m.Keys) == m
  {
  }

  lemma PresentIs(payload: map<Id, ResolvedNode?>)
    ensures Present(payload).Keys <= payload.Keys
    ensures forall id :: id in payload ==> if payload[id] == null then id !in Present(payload) else id in Present(payload) && Present(payload)[id] == payload[id]
  {
  }

  /** The graft loop over the payload, in any order; nil entries are skipped. The node map under
      construction is returned for the caller to store. */
  method GraftLoop(nodes: map<Id, ResolvedNode>, payload: map<Id, ResolvedNode?>, ix: Indexes, norm: string -> string, ghost b: Grafting)
      returns (w: Work, nodes': map<Id, ResolvedNode>)
    requires b.nodes == Present(payload) && Describes(b, norm) && (forall p :: norm(p) != "")
    requires Starts(ix, b)
    ensures GraftInv(w, ix, b, b.nodes.Keys) && fresh(Copies(w))
    ensures nodes' == nodes + b.nodes
  {
    hide *;
    PresentIs(payload);
    w, nodes' := Work(map[], map[], map[], map[]), nodes;
    EmptyWork(ix, b);
    OnlyEnds(nodes, b.nodes);
    CopiesAre(w);
    var rest := payload.Keys;
    ghost var done: set<Id>, copies := {}, Copies(w);
    label Start:
    while rest != {}
      invariant rest <= payload.Keys && done <= b.nodes.Keys && rest !! done && b.nodes.Keys <= done + rest
      invariant GraftInv(w, ix, b, done) && Copies(w) == copies && fresh(copies)
      invariant nodes' == nodes + Only(b.nodes, done)
    {
      var id :| id in rest;
      rest := rest - {id};
      var node := payload[id];
      if node != null {
        OnlyMore(nodes, b.nodes, done, id);
        label Before:
        var w1 := GraftNode(w, ix, id, node, norm, b, done);
        forall o | o in Copies(w1)
          ensures fresh(o)
        {
          if o !in copies {
            assert !old@Before(allocated(o)) && !old@Start(allocated(o));
          }
        }
        w, nodes', done, copies := w1, nodes'[id := node], done + {id}, Copies(w1);
      }
    }
    assert done == b.nodes.Keys;
  }

  /** The published line lists hold the staged ones in some order. */
  lemma LinesPublished(index: map<string, seq<ResolvedNode>>, work: map<string, seq<ResolvedNode>>, sorted: map<string, seq<ResolvedNode>>,
                       nodes: map<Id, ResolvedNode>, paths: map<Id, string>, done: set<Id>)
    requires LinesGrafted(work, index, nodes, paths, done) && Rearranged(work, sorted, work.Keys)
    ensures LinesAdded(index, index + sorted, nodes, paths, done)
  {
    hide Filed, SortedByLine;
    forall p
      ensures Members(ListAt(index + sorted, p)) == Members(ListStaged(work, index, p))
    {
      SameMembers(ListAt(index + sorted, p), ListStaged(work, index, p));
    }
  }

  lemma HashesPublished(index: map<string, seq<Id>>, work: map<string, seq<Id>>, hashes: map<Id, string>, done: set<Id>)
    requires HashesGrafted(work, index, hashes, done)
    ensures HashesAdded(index, index + work, hashes, done)
  {
    hide Filed;
  }

  lemma SameMembers(a: seq<ResolvedNode>, b: seq<ResolvedNode>)
    requires multiset(a) == multiset(b)
    ensures Members(a) == Members(b)
  {
    forall n | n in a
      ensures n in b
    {
      assert n in multiset(a);
    }
    forall n | n in b
      ensures n in a
    {
      assert n in multiset(b);
    }
  }

  /** Store what the graft built. */
  method Install(g: CodePropertyGraph, nodes: map<Id, ResolvedNode>, ix: Indexes)
    modifies g`nodes, g`kindIndex, g`fileIndex, g`hashIndex, g`lineIndex
    ensures g.nodes == nodes && g.kindIndex == ix.kind && g.fileIndex == ix.file && g.hashIndex == ix.hash && g.lineIndex == ix.line
  {
    g.nodes, g.kindIndex, g.fileIndex, g.hashIndex, g.lineIndex := nodes, ix.kind, ix.file, ix.hash, ix.line;
  }

  ghost function GraftingOf(nodes: map<Id, ResolvedNode>, norm: string -> string, ix: Indexes): Grafting
    reads ix.kind.Values, ix.file.Values, ix.hash.Values, ix.line.Values
    reads nodes.Values, set id | id in nodes :: nodes[id].properties
  {
    Grafting(nodes, KindsOf(nodes), PathsOf(nodes, norm), HashesOf(nodes), BucketsOf(ix.kind), BucketsOf(ix.file), ItemsOf(ix.hash), ItemsOf(ix.line))
  }

  /** The lists of the files in `paths` are sorted, and every other list is as it was. */
  ghost predicate LinesSorted(before: map<string, seq<ResolvedNode>>, after: map<string, seq<ResolvedNode>>, paths: set<string>) {
    forall p :: p in after ==> if p in paths then SortedByLine(after[p]) else p in before && after[p] == before[p]
  }

  /** The graft of `b` turns the indexes, whose contents `b` records, into `ix'`. */
  ghost predicate IndexesGrafted(ix': Indexes, b: Grafting)
    reads ix'.kind.Values, ix'.file.Values, ix'.hash.Values, ix'.line.Values
  {
    IdsAdded(b.kindBuckets, BucketsOf(ix'.kind), b.kinds, b.nodes.Keys)
    && IdsAdded(b.fileBuckets, BucketsOf(ix'.file), b.paths, b.nodes.Keys)
    && HashesAdded(b.hashLists, ItemsOf(ix'.hash), b.hashes, b.nodes.Keys)
    && LinesAdded(b.lineLists, ItemsOf(ix'.line), b.nodes, b.paths, b.nodes.Keys)
    && LinesSorted(b.lineLists, ItemsOf(ix'.line), PathsIn(b.paths, b.nodes.Keys))
  }

  lemma ItemsOfUnion<T>(index: Lists<T>, work: Lists<T>)
    ensures ItemsOf(index + work) == ItemsOf(index) + ItemsOf(work)
  {
  }

  /** Publish the bucket and hash indexes. */
  method PublishBuckets(w: Work, ix: Indexes, ghost b: Grafting) returns (kind': Buckets, file': Buckets, hash': Lists<Id>)
    requires BucketsGrafted(w.kind, w.file, ix.kind, ix.file, b, b.nodes.Keys) && HashListsGrafted(w.hash, ix.hash, b, b.nodes.Keys)
    ensures IdsAdded(b.kindBuckets, BucketsOf(kind'), b.kinds, b.nodes.Keys)
    ensures IdsAdded(b.fileBuckets, BucketsOf(file'), b.paths, b.nodes.Keys)
    ensures HashesAdded(b.hashLists, ItemsOf(hash'), b.hashes, b.nodes.Keys)
  {
    hide Grafted, LineListsGrafted, HashesGrafted, HashesAdded, IdsAdded, BucketsOf, ItemsOf;
    kind' := Publish(ix.kind, w.kind);
    hash' := Publish(ix.hash, w.hash);
    file' := Publish(ix.file, w.file);
    GraftedPublished(w.kind, ix.kind, b.kindBuckets, b.kinds, b.nodes.Keys);
    GraftedPublished(w.file, ix.file, b.fileBuckets, b.paths, b.nodes.Keys);
    HashesPublished(ItemsOf(ix.hash), ItemsOf(w.hash), b.hashes, b.nodes.Keys);
    ItemsOfUnion(ix.hash, w.hash);
  }

  /** Publish the line index. */
  method PublishSorted(work: Lists<ResolvedNode>, index: Lists<ResolvedNode>, ghost b: Grafting) returns (line': Lists<ResolvedNode>)
    requires LineListsGrafted(work, index, b, b.nodes.Keys)
    modifies work.Values
    ensures LinesAdded(b.lineLists, ItemsOf(line'), b.nodes, b.paths, b.nodes.Keys) && LinesSorted(b.lineLists, ItemsOf(line'), PathsIn(b.paths, b.nodes.Keys))
  {
    hide LinesGrafted, LinesAdded, SortedByLine, Private;
    ghost var staged := ItemsOf(work);
    line' := PublishLines(index, work);
    LinesPublished(b.lineLists, staged, ItemsOf(work), b.nodes, b.paths, b.nodes.Keys);
    ItemsOfUnion(index, work);
  }

  lemma GraftingFits(nodes: map<Id, ResolvedNode>, norm: string -> string, ix: Indexes)
    ensures var b := GraftingOf(nodes, norm, ix);
            b.nodes == nodes && Describes(b, norm) && Starts(ix, b)
  {
  }

  /** The graft loop and the publication of its working maps. */
  method BuildGraft(nodes: map<Id, ResolvedNode>, payload: map<Id, ResolvedNode?>, ix: Indexes, norm: string -> string)
      returns (nodes': map<Id, ResolvedNode>, ix': Indexes)
    requires forall p :: norm(p) != ""
    ensures nodes' == nodes + Present(payload)
    ensures IndexesGrafted(ix', old(GraftingOf(Present(payload), norm, ix)))
  {
    hide *;
    ghost var b := GraftingOf(Present(payload), norm, ix);
    GraftingFits(Present(payload), norm, ix);
    var w;
    w, nodes' := GraftLoop(nodes, payload, ix, norm, b);
    CopiesAre(w);
    ix' := PublishAll(w, ix, b);
  }

  method PublishAll(w: Work, ix: Indexes, ghost b: Grafting) returns (ix': Indexes)
    requires GraftInv(w, ix, b, b.nodes.Keys)
    modifies w.line.Values
    ensures IndexesGrafted(ix', b)
  {
    hide *;
    InvParts(w, ix, b, b.nodes.Keys);
    var kind', file', hash' := PublishBuckets(w, ix, b);
    ghost var kinds, files, hashes := BucketsOf(kind'), BucketsOf(file'), ItemsOf(hash');
    var line' := PublishSorted(w.line, ix.line, b);
    assert BucketsOf(kind') == kinds && BucketsOf(file') == files && ItemsOf(hash') == hashes;
    ix' := Indexes(kind', file', hash', line');
    AllGrafted(ix', b);
  }

  lemma AllGrafted(ix': Indexes, b: Grafting)
    requires IdsAdded(b.kindBuckets, BucketsOf(ix'.kind), b.kinds, b.nodes.Keys) && IdsAdded(b.fileBuckets, BucketsOf(ix'.file), b.paths, b.nodes.Keys)
    requires HashesAdded(b.hashLists, ItemsOf(ix'.hash), b.hashes, b.nodes.Keys)
    requires LinesAdded(b.lineLists, ItemsOf(ix'.line), b.nodes, b.paths, b.nodes.Keys)
    requires LinesSorted(b.lineLists, ItemsOf(ix'.line), PathsIn(b.paths, b.nodes.Keys))
    ensures IndexesGrafted(ix', b)
  {
  }

  lemma GraftedParts(ix': Indexes, b: Grafting)
    requires IndexesGrafted(ix', b)
    ensures IdsAdded(b.kindBuckets, BucketsOf(ix'.kind), b.kinds, b.nodes.Keys)
    ensures IdsAdded(b.fileBuckets, BucketsOf(ix'.file), b.paths, b.nodes.Keys)
    ensures HashesAdded(b.hashLists, ItemsOf(ix'.hash), b.hashes, b.nodes.Keys)
    ensures LinesAdded(b.lineLists, ItemsOf(ix'.line), b.nodes, b.paths, b.nodes.Keys)
    ensures LinesSorted(b.lineLists, ItemsOf(ix'.line), PathsIn(b.paths, b.nodes.Keys))
  {
  }

  lemma GraftingIs(nodes: map<Id, ResolvedNode>, norm: string -> string, ix: Indexes)
    ensures GraftingOf(nodes, norm, ix)
            == Grafting(nodes, KindsOf(nodes), PathsOf(nodes, norm), HashesOf(nodes), BucketsOf(ix.kind), BucketsOf(ix.file), ItemsOf(ix.hash), ItemsOf(ix.line))
  {
  }

  /** Sub-phase C.1 as a whole. */
  method Graft(g: CodePropertyGraph, payload: map<Id, ResolvedNode?>, norm: string -> string)
    requires forall p :: norm(p) != ""
    modifies g`nodes, g`kindIndex, g`fileIndex, g`hashIndex, g`lineIndex
    ensures g.nodes == old(g.nodes) + Present(payload)
    ensures IdsAdded(old(BucketsOf(g.kindIndex)), BucketsOf(g.kindIndex), KindsOf(Present(payload)), Present(payload).Keys)
    ensures IdsAdded(old(BucketsOf(g.fileIndex)), BucketsOf(g.fileIndex), PathsOf(Present(payload), norm), Present(payload).Keys)
    ensures HashesAdded(old(ItemsOf(g.hashIndex)), ItemsOf(g.hashIndex), old(HashesOf(Present(payload))), Present(payload).Keys)
    ensures LinesAdded(old(ItemsOf(g.lineIndex)), ItemsOf(g.lineIndex), Present(payload), PathsOf(Present(payload), norm), Present(payload).Keys)
    ensures LinesSorted(old(ItemsOf(g.lineIndex)), ItemsOf(g.lineIndex), PathsIn(PathsOf(Present(payload), norm), Present(payload).Keys))
  {
    hide *;
    var ix := Indexes(g.kindIndex, g.fileIndex, g.hashIndex, g.lineIndex);
    ghost var b := GraftingOf(Present(payload), norm, ix);
    GraftingIs(Present(payload), norm, ix);
    var nodes', ix' := BuildGraft(g.nodes, payload, ix, norm);
    GraftedParts(ix', b);
    Install(g, nodes', ix');
  }
}
