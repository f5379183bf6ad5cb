# The AKG store and its graph algorithms

This project models the Architecture Knowledge Graph store of the repository (`internal/akg`) and the
programs that work on its graphs, and proves what they promise.

* A **delta transaction** clones the active graph, sweeps the nodes of the modified files, grafts the
  linker's payload, maintains the kind, file, hash and line indexes in batches, drops and records
  dangling edges, rebuilds the inbound view, lets inference annotate private copies of the nodes,
  persists, and only then promotes the shadow (`AkgStore`, `DeltaSweep`, `DeltaGraft`, `DeltaEdges`,
  `Inference`, `DeltaStep`, `Transactions`). Graphs, nodes, buckets, lists, edge slices and property tables are heap
  objects; `NodeStores` and `DeltaIndexes` state the indexes as values and prove when they are exact;
  `AffectedNodes` computes which nodes inference looks at.
* The **persistent AVL map** below it is modelled twice: as trees (`CowTree`) and as shared heap nodes
  that no operation ever writes once they are published (`CowHeap`).
* **Persistence** as an imperative save (`Transactions`), as a document with its round trip
  (`GraphJson`) and exactly what it loses (`ExportLoss`), and as steps with a crash allowed anywhere,
  which every transaction is shown to take (`Durability`); the **db.lock protocol** as
  one step per file-system call (`DbLock`).
* **Graph algorithms**: iterative and recursive Tarjan over one abstract machine (`TarjanMachine`,
  `Scc`), cut vertices (`CutVertices`, `CutVertexSearch`), Kahn's sort, bounded breadth-first search,
  the linter's cycle search, PageRank and Louvain. `AlgorithmInputs` shows that a committed
  transaction leaves exactly what they assume.
* **Transformations**: the glob compiler (`Globs`) and the component half of the snapshot differ
  (`ComponentDiff`).

## Reading the model

* The CowMap fields of a graph are Dafny maps in the transaction modules; `CowHeap.RunHistory` is what
  justifies this. Map iteration in Go has no order, so loops over maps pick any remaining key. CowMap
  iteration is ascending; where the order matters (`GraphJson`) it is the ascending enumeration of the keys.
* Edge slices, hash lists and line lists are `List` objects that graphs share. They are appended to and
  sorted in place, for everybody who holds them, which is never less visible than in a Go slice; a
  snapshot stays as it was because the code copies before it writes. Nodes, property tables and buckets
  are shared and written in the same way. Rules, entrypoints and errors are values.
* The reader of regular expressions in `Globs` knows the part of RE2 the compiler emits: escapes of syntax
  characters, a dot, one class, one group, and stars. Bare `]` and `}`, which RE2 would take, it refuses.
* `normalizePath` is a parameter `norm` that never returns the empty string, as `filepath.Clean` does
  not; nodes without a path therefore share one file bucket.
* A node is compared without the `macro_rules` property, the one property incremental inference writes;
  `Inference.Infer` and `Transactions.ExecuteDelta` say separately what becomes of it.
  After inference the line index holds older copies of the nodes, so it is compared by ID and span.
* What inference infers, name similarity, `path.Match` and whether a package is in scope are parameters.
  Ranks, gains and scores are reals.
* `sort.Slice` is an insertion sort of which only the contract is used: sorted, and a permutation.
  Closures that share variables are classes with those variables as fields. Loop bodies are often
  methods of their own.
* A nil property map reads as an empty one. A payload node that is nil is skipped, except that an empty
  file list makes the code dereference it (`WellFormed`).

## Where code and comments differ

* "Dropped edges are recorded": edges whose source node is gone are dropped without a record
  (`DeltaEdges.VanishedSourceIsSilent`; exactly those, `DeltaEdges.NothingLost`).
* GraphJSON is called lossless for duplicate parallel edges; it keeps one edge per key
  (`ExportLoss.ParallelEdgesCollapse`; exactly when nothing is lost, `ExportLoss.ExportIsLossless`).
* `sortedPropertiesKey` is said to keep edges apart that differ only in their properties; an equals sign
  in a property key defeats it (`ExportLoss.PropertiesCollide`).
* Import skips edges without an endpoint silently, and export writes them (`GraphJson.RoundTrip`).
* The steal in AcquireLock is said to remove only the stale file that was judged; its nonce is read
  after the stat, so it may be another file's (`DbLock.LateReadAdmitsTwoHolders`).
* ReleaseLock is said to free db.lock; it does not wait for the heartbeat, and one that is past its check
  writes the file again, which then stands until it is stale (`DbLock.LateBeatRelocks`).
* `louvainGraph.deg` is said to exclude self-loops; aggregated levels include them, and only so do rows
  sum to degrees (`LouvainGraphs.CollapsedWellFormed`).
* Exact indexes after a transaction need a stable payload (`DeltaIndexes.ExactIff`); hash lists can
  repeat an ID even then (`DeltaIndexes.HashListsExactIff`).

## Model

| member | source | states |
|---|---|---|
| `DeltaSweep.Sweep` | internal/akg/transaction_manager.go:313-400 | sub-phase B: exactly the nodes filed under the modified files leave the graph with everything stored under their IDs; each kind bucket and hash list loses exactly those of them it should; the entrypoints lose them; nothing else changes |
| `DeltaSweep.SweepNode` | internal/akg/transaction_manager.go:336-366 | one swept node: staged out of its kind bucket and hash list, everything stored under its ID gone |
| `DeltaSweep.PublishHashDrops` | internal/akg/transaction_manager.go:377-389 | each hash list keeps its order and loses exactly the staged IDs |
| `DeltaSweep.Filter` | internal/akg/transaction_manager.go:377-400 | a filtered list holds, in order, exactly the elements that are not dropped |
| `DeltaGraft.GraftLoop` | internal/akg/transaction_manager.go:412-464 | the working copies of all four indexes hold the old entries plus the payload's; every working copy is new, and no bucket, list or node that existed before is written |
| `DeltaGraft.Graft` | internal/akg/transaction_manager.go:405-482 | sub-phase C.1: the payload overwrites the node map; kind and file buckets, hash lists and line lists gain exactly the payload's entries, the line lists of the payload's files are sorted by start line and the others are as they were; nothing that existed before is written but the graph's own fields |
| `DeltaEdges.BindEntrypoints` | internal/akg/transaction_manager.go:493-502 | old entrypoints stay a prefix, every registry entry is present afterwards, and no added entry repeats an earlier one |
| `DeltaEdges.MergeSweep` | internal/akg/transaction_manager.go:544-568 | a source keeps, in order, its edges to existing nodes if it exists itself; a record is written exactly for an edge stored under an existing source whose target does not exist, and names that source, target, kind and line |
| `DeltaEdges.NothingLost` | internal/akg/transaction_manager.go:535-543 | the edges of a source are accounted for, kept plus recorded with multiplicity, if and only if the source is a node or has none; those of a vanished source are neither kept nor recorded |
| `DeltaEdges.VanishedSourceIsSilent` | internal/akg/transaction_manager.go:535-568 | any edge alone under a source that is no node is dropped without a record |
| `DeltaEdges.SweepLeavesNoDangling` | internal/akg/transaction_manager.go:544-568 | after the merge sweep both endpoints of every edge exist |
| `DeltaEdges.RebuildInbound` | internal/akg/transaction_manager.go:570-583 | the inbound view holds the same multiset of edges as the outbound view, each under its target |
| `DeltaEdges.ViewsMirror` | internal/akg/transaction_manager.go:570-583 | every edge occurs under its source as often as under its target |
| `DeltaEdges.Audit` | internal/akg/transaction_manager.go:602-615 | the audit appends, source by source and in order, a record for exactly the edges that miss their target |
| `DeltaEdges.SweepEdges` | internal/akg/transaction_manager.go:544-615 | merge sweep, inbound rebuild and audit together: the errors name exactly the edges of existing sources that miss their target, and the audit adds nothing to what the sweep recorded |
| `Transactions.ErrorsCommitted` | internal/akg/transaction_manager.go:556-562 | what a committed transaction records names exactly the edges, old ones left by the sweep and those of the payload, that leave a node of the committed graph and miss their target; every recorded source is a node of it and no recorded target is |
| `DeltaStep.ModifiedFiles` | internal/akg/transaction_manager.go:299-310 | the caller's file list, or else exactly the non-empty paths of the payload |
| `DeltaStep.ApplyDelta` | internal/akg/transaction_manager.go:298-628 | a whole delta on a shadow: nodes, four indexes, edges, errors, entrypoints, zones, rules of the affected nodes and property tables as a relation to the old graph; sorted line lists stay sorted; nothing that existed before is written but the shadow's fields |
| `Inference.DetachNodes` | internal/akg/mvcc.go:741-766 | every node becomes a new node of its own, and so does every property table, shared with no other node and holding what it held before |
| `AffectedNodes.FindAffected` | internal/akg/reasoner.go:500-559 | the seeds, by changed ID, by modified file or else by path, and two rounds that expand only what is new, fewer if a round finds nothing: the nodes reached in two full rounds |
| `AffectedNodes.AffectedExactly` | internal/akg/reasoner.go:452-559 | a node is affected if and only if a chain of at most three nodes, each but the last of one of the six relevant kinds with an edge to the next, leads from it to a seed |
| `Inference.Infer` | internal/akg/reasoner.go:471-613 | inference changes nothing but rules and the macro_rules property, which for exactly the affected nodes that get rules joins them; no node and no table that existed before is written |
| `Inference.JoinedParts` | internal/akg/reasoner.go:589-589 | what macro_rules holds: the rules in order, each two separated by a bar |
| `DeltaIndexes.IdsExactIff` | internal/akg/transaction_manager.go:421-475 | a bucket index stays exact if and only if every surviving ID that is grafted again keeps its attribute |
| `DeltaIndexes.HashesExactIff` | internal/akg/transaction_manager.go:434-444 | the hash index stays exact as sets if and only if every surviving ID keeps its hash or had none |
| `DeltaIndexes.HashListsExactIff` | internal/akg/transaction_manager.go:434-444 | with multiplicity it stays exact if and only if no surviving ID that has a hash is grafted again |
| `DeltaIndexes.LinesExactIff` | internal/akg/transaction_manager.go:446-482 | the line index stays exact, compared by ID and span, if and only if every surviving ID keeps its file and span |
| `DeltaIndexes.ExactIff` | internal/akg/transaction_manager.go:333-482 | from exact indexes, all four are exact afterwards if and only if the payload is stable, a condition on payload and old graph |
| `DeltaIndexes.UnstablePayloadBreaksIndexes` | internal/akg/transaction_manager.go:421-432 | a one-node payload that changes the kind of an unmodified file's node leaves no exact store |
| `DeltaIndexes.NodesAfter` | internal/akg/transaction_manager.go:333-421 | the node map is the old nodes outside the modified files overwritten by the payload |
| `DeltaIndexes.RunsStayExact` | internal/akg/transaction_manager.go:298-628 | over every run of stable transactions the batched indexes are what a rebuild computes and the nodes are those of an index-free replay |
| `Transactions.Clone` | internal/akg/mvcc.go:696-731 | the shadow is a new graph that shows the same snapshot as its origin and shares its rule cache |
| `Transactions.SaveToDisk` | internal/akg/transaction_manager.go:649-702 | the file becomes an export of the graph exactly when no step fails and the guard passes, and is untouched otherwise |
| `Transactions.ExecuteDelta` | internal/akg/transaction_manager.go:221-296 | commit or failure: on failure graph and file are unchanged; on success the active graph is a new object one version up, related to the old by the step the request asks for (its nodes, edges, the files it names, its rules), and the file exports it; it always succeeds if lock and file operations do and graph and payload name themselves, and never if they do not; of everything that existed before, nodes, tables, buckets, lists and edge slices included, only the manager and the state directory are written |
| `Transactions.NeverRejected` | internal/akg/graph_json.go:188-206 | the write-time dangling guard never rejects what a transaction builds when nodes sit under their own non-empty IDs and edges under their own source |
| `Transactions.Serve` | internal/akg/transaction_manager.go:221-296 | over any sequence of requests, committed or failed, the run consists of exactly the granted requests in order, an unhindered request is granted, every graph ever published still shows the snapshot it showed when it was published although lists are appended to and sorted and tables written in place, versions strictly increase, and the file exports the last one |
| `Transactions.AnsweredMore` | internal/akg/transaction_manager.go:221-296 | the answers to the requests so far stay accounted for when one more is granted or refused |
| `Transactions.RunsAreSound` | internal/akg/transaction_manager.go:221-296 | every graph of a run of good payloads has exact indexes, nodes under own IDs and edges under own sources |
| `Transactions.VersionsIncrease` | internal/akg/mvcc.go:853-861 | any later graph of a run has a larger version than any earlier one |
| `AlgorithmInputs.MirroredViews` | internal/akg/transaction_manager.go:570-583 | equal multisets filed by source and by target mirror each other as the undirected algorithms need |
| `AlgorithmInputs.AlgorithmsApply` | internal/akg/transaction_manager.go:544-615 | what a transaction leaves meets the preconditions of cut vertices, Tarjan agreement, Kahn's sort and PageRank conservation, the last also for the structural views of a snapshot |
| `Durability.RunInv` | internal/akg/transaction_manager.go:221-296 | the invariant of the commit protocol holds after any interleaving of steps, failures, crashes and restarts |
| `Durability.DiskIsAlwaysComplete` | internal/akg/transaction_manager.go:649-702 | akg.json is always the complete export of the last committed graph, in a schema that loads |
| `Durability.NeverAheadOfDisk` | internal/akg/transaction_manager.go:259-271 | the active graph is never newer than the file |
| `Durability.CommitsIncrease` | internal/akg/transaction_manager.go:105-109 | committed versions strictly increase across restarts |
| `Durability.CommitsSurvive` | internal/akg/transaction_manager.go:685-687 | a commit once renamed into place is never lost |
| `Durability.FailureChangesNothing` | internal/akg/transaction_manager.go:266-271 | without a rename neither the file nor the active graph changes, however the transaction ends |
| `Durability.CrashAnywhere` | internal/akg/transaction_manager.go:762-795 | a crash may come at any moment; the restart restores what the file says, or an empty graph of version 0 if there is none, and nothing else survives |
| `Durability.Execute` | internal/akg/transaction_manager.go:221-296 | a transaction of the manager is a sequence of protocol steps between states that mirror manager and directory: a granted one adds what it made active to the commits, a refused one adds nothing |
| `DbLock.MutualExclusion` | internal/akg/transaction_manager.go:1195-1306 | one file-system call per step: if live holders refresh in time and no check is outdated when it is acted on, at most one manager holds the lock in every reachable state |
| `DbLock.AtomicMutualExclusion` | internal/akg/transaction_manager.go:1195-1306 | with check-and-act uninterrupted and timely heartbeats at most one manager holds the lock |
| `DbLock.AtomicActsAreOwn` | internal/akg/transaction_manager.go:1254-1306 | release and heartbeat then only touch a file that carries their own nonce |
| `DbLock.LateReadAdmitsTwoHolders` | internal/akg/transaction_manager.go:1229-1239 | a run in which the steal reads the nonce only after its stat, removes another manager's fresh lock and ends with two holders, although every heartbeat was in time |
| `DbLock.FreeLockIsAcquired` | internal/akg/transaction_manager.go:1195-1227 | where there is no file an idle manager acquires the lock in two steps |
| `DbLock.LeftoverIsRemoved` | internal/akg/transaction_manager.go:1229-1242 | a file older than sixty seconds is removed in four steps, whoever wrote it and nothing else changes |
| `DbLock.HeldIsReleased` | internal/akg/transaction_manager.go:1291-1306 | a holder whose file still carries its nonce removes it in three steps |
| `DbLock.FailedWriteLeavesNothing` | internal/akg/transaction_manager.go:1203-1212 | an acquisition that cannot write its nonce leaves no file behind |
| `DbLock.YoungFileStands` | internal/akg/transaction_manager.go:1149-1154 | no step of another manager touches a written file that is at most sixty seconds old |
| `DbLock.WhoChangesTheFile` | internal/akg/transaction_manager.go:1199-1306 | only steals, removals, heartbeats, writers that give up and the creator of that very inode change an existing file |
| `DbLock.HeartbeatRefreshes` | internal/akg/transaction_manager.go:1254-1271 | a heartbeat of a holder whose file carries its nonce makes the file young again, changes nothing else and goes on |
| `DbLock.StealsAreChecked` | internal/akg/transaction_manager.go:1229-1240 | in every run a steal was preceded by a look at a file older than sixty seconds and, after it, by two reads of the same nonce |
| `DbLock.LateBeatRelocks` | internal/akg/transaction_manager.go:1254-1306 | a heartbeat past its check writes the file again after the release, so a lock nobody holds stays taken |
| `GraphJson.ExportEdges` | internal/akg/graph_json.go:107-134 | the first edge met under each key, in iteration order |
| `ExportLoss.KeysTell` | internal/akg/graph_json.go:115-118 | between edges without stray delimiters two keys are equal if and only if source, target, kind, line and properties are |
| `ExportLoss.PropertiesCollide` | internal/akg/graph_json.go:229-248 | any edge whose one property is a with value b=c shares its key with the edge that has a=b with value c instead, and only the first is exported |
| `ExportLoss.ParallelEdgesCollapse` | internal/akg/graph_json.go:115-122 | edges that differ only in confidence or cycle flag share a key and only the first is exported |
| `ExportLoss.NothingCollapses` | internal/akg/graph_json.go:107-134 | export writes every stored edge if and only if no two stored edges share a key |
| `ExportLoss.ExportIsLossless` | internal/akg/graph_json.go:107-134 | without stray delimiters it does if and only if no two stored edges agree in source, target, kind, line and properties |
| `ExportLoss.EdgesSurviveLoading` | internal/akg/graph_json.go:376-393 | saving and loading gives every edge back if and only if no two share a key and every exported edge has both endpoints; it never adds one |
| `GraphJson.BuildDoc` | internal/akg/graph_json.go:64-155 | the document: header fields; exactly one node entry per stored node with its fields, by ID; deduplicated edges, each writing a stored one, by source, then target, then kind, then line |
| `GraphJson.EdgesSorted` | internal/akg/graph_json.go:142-153 | sorted by the comparison of the code is the same as ordered by source, target, kind and line, each as strings or numbers compare |
| `Ordering.LessIsLexicographic` | internal/akg/graph_json.go:139-153 | the string comparison all sorts use is the lexicographic one |
| `GraphJson.CountDangling` | internal/akg/graph_json.go:188-206 | the guard counts the ends of edges that no node of the document has, zero exactly when every edge has both endpoints in it |
| `GraphJson.ExportVerified` | internal/akg/graph_json.go:182-215 | export succeeds exactly when every exported edge joins exported nodes |
| `GraphJson.GuardAccepts` | internal/akg/graph_json.go:188-206 | a graph without dangling edges, nodes under own IDs and edges with own source passes the guard |
| `GraphJson.ImportGraph` | internal/akg/graph_json.go:300-404 | documents of schema 1 or beyond 3 are refused; otherwise the graph the document describes, both edge views, and exact kind, file and hash indexes |
| `GraphJson.RebuildIndexes` | internal/akg/transaction_manager.go:181-218 | the line lists of the files that have nodes hold exactly those, sorted, every other list is as it was, and the status flag says whether every edge has both endpoints |
| `GraphJson.LoadGraph` | internal/akg/transaction_manager.go:797-822 | loading gives the described graph with all four indexes exact and the line lists sorted |
| `GraphJson.NodesRoundTrip` | internal/akg/graph_json.go:323-340 | import gives back exactly the exported node map |
| `GraphJson.ImportConserves` | internal/akg/graph_json.go:376-393 | import files every edge that has both endpoints once under its source and once under its target, and no other |
| `GraphJson.RoundTrip` | internal/akg/graph_json.go:64-155 | export, import, export gives the same document without the edges that lack an endpoint, so the same edges if and only if there are none, up to the order of tied edges; the import restores header and nodes and holds those edges in both views |
| `CowTree.SetMap` | internal/akg/mvcc_lazy.go:77-113 | insertion keeps the search order and acts as map update |
| `CowTree.GetMap` | internal/akg/mvcc_lazy.go:115-129 | lookup finds a key exactly when the contents have it, with its value |
| `CowTree.DeleteMap` | internal/akg/mvcc_lazy.go:139-166 | deletion keeps the search order and acts as map removal |
| `CowTree.SetAvl` | internal/akg/mvcc_lazy.go:77-113 | insertion, choosing its rotation by the key, keeps the tree balanced with correct heights |
| `CowTree.DeleteAvl` | internal/akg/mvcc_lazy.go:139-189 | deletion, choosing its rotation by balance factor, keeps the tree balanced with correct heights |
| `CowTree.RebalanceAvl` | internal/akg/mvcc_lazy.go:168-189 | two balanced children at most two levels apart are rebalanced into a balanced tree |
| `CowTree.SizeBound` | internal/akg/mvcc_lazy.go:139-189 | a tree of height h has at least Fib(h + 2) - 1 nodes |
| `CowTree.ProbesAreLogarithmic` | internal/akg/mvcc_lazy.go:115-129 | the number of probes of a lookup is logarithmic in the size |
| `CowTree.SizeIsCardinality` | internal/akg/mvcc_lazy.go:191-196 | the node count is the cardinality of the contents |
| `CowTree.InOrderEntries` | internal/akg/mvcc_lazy.go:198-205 | iteration visits exactly the entries |
| `CowTree.InOrderAscending` | internal/akg/mvcc_lazy.go:198-205 | iteration visits keys in strictly ascending order |
| `CowHeap.RotateRightNode` | internal/akg/mvcc_lazy.go:51-62 | the rotation of shared nodes: a structure of the rotated tree in which only fresh nodes are new, and no node is written |
| `CowHeap.CowMapSet` | internal/akg/mvcc_lazy.go:77-113 | insertion on shared nodes builds the tree Set describes out of old nodes and fresh ones |
| `CowHeap.CowMapRebalance` | internal/akg/mvcc_lazy.go:168-189 | rebalancing writes only the private copy |
| `CowHeap.CowMapDelete` | internal/akg/mvcc_lazy.go:139-166 | deletion on shared nodes builds the tree Delete describes out of old nodes and fresh ones, also when it rotates into an aliased subtree |
| `CowHeap.CowMap.Set` | internal/akg/mvcc_lazy.go:232-242 | the new map holds the update, counts it right, and the old map is unchanged |
| `CowHeap.CowMap.Delete` | internal/akg/mvcc_lazy.go:244-254 | the new map lacks the key, counts right, and the old map is unchanged |
| `CowHeap.RunHistory` | internal/akg/mvcc_lazy.go:215-275 | after any tree of sets, deletes and clones, each on whichever earlier version it names, every version still holds exactly its own contents and is a balanced search tree with a correct count |
| `CowHeap.ReadVersion` | internal/akg/mvcc_lazy.go:115-205 | lookup, size and iteration of any of the versions answer from that version's contents |
| `CowHeap.CowMap.Get` | internal/akg/mvcc_lazy.go:115-129 | a lookup on shared nodes finds exactly what the contents hold and looks at a number of nodes logarithmic in the number of entries |
| `Scc.SccIterative` | internal/arch_intelligence/graph_analytics.go:163-238 | the iterative version partitions the nodes into exactly the maximal strongly connected sets of the structural graph |
| `Scc.DetectCycles` | internal/akg/mvcc.go:186-240 | the recursive version returns disjoint strongly connected sets of more than one node covering exactly the reachable nodes on cycles |
| `Scc.StrongConnect` | internal/akg/mvcc.go:195-231 | one recursive call: the node's subtree is finished, and low links are kept |
| `Scc.VersionsAgree` | internal/akg/mvcc.go:186-240 | on a closed graph the sets above size one of both versions are the same sets |
| `Scc.SnapshotVersionAgrees` | internal/arch_intelligence/graph_analytics.go:129-238 | the iterative version over a snapshot and the recursive version over a graph whose relation is the snapshot's structural edges list the same sets of two nodes or more |
| `Scc.StructuralRelation` | internal/arch_intelligence/graph_analytics.go:129-149 | the structural edges are the stored graph's relation if and only if each of its pairs is joined by some edge of the fifteen architectural kinds and ends in a node |
| `Graphs.EdgesAreStored` | internal/arch_intelligence/graph_analytics.go:122-127 | the relation all algorithms walk is that of the stored edges |
| `TarjanMachine.SegmentIsScc` | internal/arch_intelligence/graph_analytics.go:222-234 | the stack segment popped at a root is a maximal strongly connected set |
| `CutVertices.RuleIsExact` | internal/akg/mvcc.go:343-364 | after a finished traversal the low-link rule marks exactly the nodes whose removal separates two others |
| `CutVertices.NeighborsShareAnEdge` | internal/akg/mvcc.go:296-317 | two nodes are neighbours exactly when a stored edge leads from one to the other |
| `CutVertexSearch.CutSearch.Dfs` | internal/akg/mvcc.go:327-371 | one recursive call: the discovery forest grows correctly and the marks of finished nodes are exact |
| `CutVertexSearch.FindArticulationPoints` | internal/akg/mvcc.go:318-377 | the result is exactly the cut vertices of the undirected graph, without repetition |
| `CutVertexSearch.EveryCutVertexIsTouched` | internal/akg/mvcc.go:318-377 | no cut vertex can escape the traversal when every node with neighbours is stored |
| `TopologicalSort.GetTopologicalSort` | internal/akg/mvcc.go:243-282 | without dangling edges it succeeds exactly on acyclic graphs and then lists every node once with every edge forward |
| `TopologicalSort.Kahn` | internal/akg/mvcc.go:243-282 | in general: what is output has no incoming edge left and every source of an edge into an output node was output before it |
| `TopologicalSort.SortAgreesWithCycles` | internal/akg/mvcc.go:186-282 | the graph is cyclic exactly when the cycle report is non-empty or some node has a self-loop |
| `PathSearch.FindPath` | internal/akg/mvcc.go:126-165 | a shortest path if one with at most max(1, maxDepth) nodes exists, nothing otherwise; it ends on cyclic graphs |
| `PackageCycles.DetectCycles` | internal/arch_linter/engine.go:327-385 | every report is an elementary cycle in scope, and there is a report exactly when the in-scope graph has a closed walk |
| `PackageCycles.CycleSearch.Dfs` | internal/arch_linter/engine.go:332-368 | one recursive call keeps path, colours and reports consistent and finishes the package |
| `PackageCycles.NoReportNoCycle` | internal/arch_linter/engine.go:346-364 | if nothing is reported the finishing order rules out every closed walk |
| `PageRanks.IterationKeepsMass` | internal/akg/mvcc.go:432-458 | an iteration keeps the total rank at one: redistributed and propagated mass balance |
| `PageRanks.MassArrives` | internal/akg/mvcc.go:447-456 | the shares that leave along outbound edges arrive along inbound edges |
| `PageRanks.CalculatePageRank` | internal/akg/mvcc.go:413-460 | the ranks after that many iterations of the recurrence from the uniform start, none if the number is negative, and they sum to one when the views balance |
| `PageRanks.MassIsConserved` | internal/akg/mvcc.go:413-460 | after any number of iterations from the uniform start the total rank is one when the views balance |
| `PageRanks.RanksArePositive` | internal/arch_intelligence/graph_analytics.go:252-310 | with the damping the code clamps to, every rank stays positive, so the closing division is defined |
| `PageRanks.PageRankSnapshot` | internal/arch_intelligence/graph_analytics.go:252-310 | the iterated ranks over structural edges, with a damping outside (0, 1) replaced by 0.85, divided by their positive sum, and those ranks themselves when the structural views balance |
| `PageRanks.StructuralBalance` | internal/arch_intelligence/graph_analytics.go:252-310 | where the stored views balance, the structural edges and the incoming edges the snapshot version counts balance too |
| `LouvainGraphs.WithEdgeWellFormed` | internal/arch_intelligence/graph_analytics.go:690-705 | adding an edge keeps weights symmetric, rows summing to degrees and the total degree at 2m |
| `LouvainGraphs.CollapsedWellFormed` | internal/arch_intelligence/graph_analytics.go:781-825 | so does collapsing every community to one vertex |
| `Louvain.BuildGraph` | internal/arch_intelligence/graph_analytics.go:664-711 | distinct nodes weigh the number of structural edges between them, and the graph is well formed |
| `LouvainPhases.Gains` | internal/arch_intelligence/graph_analytics.go:741-747 | the weight from a vertex into each neighbouring community, self-loops left out |
| `LouvainPhases.BestCommunity` | internal/arch_intelligence/graph_analytics.go:748-763 | no neighbouring community gains more than the chosen one by over one epsilon per neighbour, a gain being weight into the community times total weight less the product of the degrees, over twice the squared weight; when no two gains are within an epsilon of each other without being equal, the choice is the smallest of the best, whatever the order of the map |
| `LouvainPhases.DeltaQ` | internal/arch_intelligence/graph_analytics.go:716-721 | times twice the squared weight it is kIn*m - sumTot*kI, so it is positive exactly when the weight into the community exceeds what the degrees let expect |
| `LouvainPhases.SettledMeans` | internal/arch_intelligence/graph_analytics.go:748-763 | everybody is settled if and only if no neighbouring community draws any vertex by more than the accumulated epsilons, in whole numbers |
| `LouvainPhases.SettledIsLocalOptimum` | internal/arch_intelligence/graph_analytics.go:748-763 | while the weights are small against epsilon no neighbouring community draws a settled vertex at all |
| `LouvainPhases.MoveVertex` | internal/arch_intelligence/graph_analytics.go:736-770 | the vertex ends where no neighbouring community promises more, up to the accumulated epsilons, nobody else moves, and the degree table still equals what the members add up to |
| `LouvainPhases.Phase1` | internal/arch_intelligence/graph_analytics.go:724-777 | communities stay inside components; unless every allowed pass moved something, every vertex is settled; something moved exactly if a community was left empty and none otherwise |
| `LouvainPhases.FewerCommunities` | internal/arch_intelligence/graph_analytics.go:781-800 | a level that changes something has fewer communities than vertices, so levels shrink |
| `LouvainPhases.Aggregate` | internal/arch_intelligence/graph_analytics.go:781-825 | the next level's graph has one vertex per community, block sums as weights, and is well formed |
| `LouvainCollapse.CollapseComposes` | internal/arch_intelligence/graph_analytics.go:781-825 | aggregating level by level is aggregating the first graph once by the composed labels |
| `LouvainCollapse.BlocksCompose` | internal/arch_intelligence/graph_analytics.go:781-825 | the block sums of a collapsed graph are the block sums of the original under the composed labels |
| `LouvainPhases.RankingsAgree` | internal/arch_intelligence/graph_analytics.go:867-885 | the relabelling of the main loop and that of aggregation coincide |
| `Louvain.DetectCommunities` | internal/arch_intelligence/graph_analytics.go:830-896 | every node gets a label; two nodes with the same label are connected if edge direction is ignored; the labels collapse the link graph to the last graph, which a chain of levels reaches, at most four by default, each of at most ten moving passes by default and settled if it took fewer; with levels to spare, or as many allowed as there are nodes, no community would rather join another |
| `Globs.GlobToRegex` | internal/arch_linter/rules.go:146-176 | the emitted text is, token by token, what the glob's left-to-right tokens emit; the twelve other syntax characters are escaped |
| `Globs.CompilesToTokens` | internal/arch_linter/rules.go:127-135 | the emitted text always reads back as the pieces of the glob's tokens, for a reader with RE2's own fourteen syntax characters, none of which it takes bare for a literal |
| `Globs.BareSyntaxIsRefused` | internal/arch_linter/rules.go:131-133 | a bare syntax character is never read as a literal; only a dot, a class or an escape may start with one |
| `Globs.AnchoredAtBothEnds` | internal/arch_linter/rules.go:147-175 | only expressions anchored at both ends compile, so a match is a match of the whole string |
| `Globs.PieceMatches` | internal/arch_linter/rules.go:146-176 | each piece matches exactly what its token stands for; a literal only itself |
| `Globs.SameLanguage` | internal/arch_linter/rules.go:146-176 | the regular expression matches exactly the strings the glob's tokens match |
| `Globs.MatchGlob` | internal/arch_linter/rules.go:106-144 | always for the three catch-all patterns; else equality, directory prefix, or, with two stars in a row, a token match of the normalised strings and, without, path.Match, and nothing else |
| `Globs.NormalForm` | internal/arch_linter/rules.go:111-115 | normalising spells a path with slashes and drops one leading dot-slash |
| `Globs.SpellingIsIgnored` | internal/arch_linter/rules.go:111-144 | a backslash path matches like its slash form, and a leading dot-slash makes no difference |
| `ComponentDiff.RemoveComponents` | internal/arch_timeline/differ.go:456-471 | the pool is compacted in place to the components whose key is not dropped, in order; behind them the backing array is as it was |
| `ComponentDiff.RegroupPass` | internal/arch_timeline/differ.go:214-301 | the split loop, and the merge loop with roles swapped, on two arrays it compacts: each group passed the gate and took everything left that shares a member with it, nothing that stays could still pass the gate, both pools are accounted for, and groups come in name order |
| `ComponentDiff.GateIsMonotone` | internal/arch_timeline/differ.go:242-252 | with fewer components left the coverage gate never opens, so one pass is enough |
| `ComponentDiff.BestMatch` | internal/arch_timeline/differ.go:309-321 | the best unmatched score at or above the threshold, ties to the smallest name, or nothing when every score is below |
| `ComponentDiff.NodeOverlap` | internal/arch_timeline/differ.go:139-153 | the overlap counts the entries of the first member list that the second holds too |
| `ComponentDiff.ScoreIsTheBetter` | internal/arch_timeline/differ.go:155-172 | the score is no less than either measure and equals one of them |
| `ComponentDiff.CloseEnough` | internal/arch_timeline/differ.go:155-172 | the threshold is reached if and only if the names are half similar or half of the larger component is shared |
| `ComponentDiff.MatchRenames` | internal/arch_timeline/differ.go:306-338 | greedy in order of the added components: no component left over or matched later would have served a rename better, no two left over reach the threshold, and both sides are accounted for |
| `ComponentDiff.Diff` | internal/arch_timeline/differ.go:180-348 | every added and every removed component is accounted for exactly once; splits are exhausted on all of them, merges on what splits leave, and renames on what merges leave; every rename is half similar by name or shares half of the larger component, no pair left over is; every list of the result is in name order |
| `ComponentDiff.OnlyInFields` | internal/arch_timeline/differ.go:61-66 | a component counts as added or removed exactly when the other side has none of its ID, names standing in for empty IDs |

## Left out

- Step C.3, inbound back-linking (internal/akg/transaction_manager.go:507-533): its result is replaced by the inbound rebuild of C.4 before anything reads it.
- The tombstone set applyDeltaToShadow returns, commit events to subscribers, and the call with a nil payload: the caller ignores the first, the others change no graph.
- Inference.Infer: which rules an affected node gets is not modelled, nor the macro cache and the architectural summary; rules are arbitrary.
- Inference.DetachNodes: primitive scores are not part of a node here, so their copy is not either.
- Transactions.Clone: the architectural summary is not part of the model.
- Node fields Primitive and PrimitiveScores, the summary, and the Verified flag in the document: carried along like the other fields. RebuildIndexes returns the flag.
- JSON text, SHA-256 and fsync: the document itself, an injective digest, and an atomic rename step. Temp files left by a crash are ignored.
- GraphJson.ImportGraph: it stops before the migration of documents older than schema 3.
- GraphJson.LoadGraph: documents older than schema 3 are loaded without their migration; legacy Turtle loading is not modelled.
- ReplaceGraph and several processes writing one directory: versions and isolation are claimed for one manager's delta transactions.
- Version and counter wrap-around: both are unbounded.
- AcquireLock's waiting loop: its time-out only gives up. Nonces are unique, as the code assumes.
- Construction of GraphSnapshot: the snapshot is given, with every node listed once.
- Louvain's modularity: louvainDeltaQ ignores the loss from leaving the old community, so nothing is stated about modularity; vertices settle by the gain the code computes. Adjacency rows are maps, the pair keys are pairs instead of strings, and labels are numbers instead of their decimal text.
- ComponentDiff.Diff: the results keep whole components where the code keeps their names. Of the closing sorts only that of the renames is a step here; the other lists are proved to come in name order already.
- ComponentDiff.RegroupPass: splits and merges are two loops in the code that differ only in their roles; both are calls of this method.
- Pattern, smell, metric and dependency changes of the differ; betweenness, coupling metrics, rule and edge vocabularies: tables and thresholds that would only add easy members.
- Globs: characters are ASCII, the compiled-size limits of the regexp package are ignored.
- TopologicalSort.GetTopologicalSort: with dangling edges only what TopologicalSort.Kahn states is claimed.
- Floating-point rounding.
