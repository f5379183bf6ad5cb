/** The graph store's data: nodes, property tables, index buckets, hash and line lists and edge slices
    are heap objects that graphs share; the CowMap fields of a graph are maps (module CowHeap shows that
    they behave as such). */
module AkgStore {
  import opened Graphs

  class IdSet {
    var ids: set<Id>

    constructor (ids: set<Id>)
      ensures this.ids == ids
    {
      this.ids := ids;
    }
  }

  /** A slice. Appending and sorting change it for everybody who holds it, which is never less than a
      Go slice with spare capacity would let a holder see. */
  class List<T> {
    var items: seq<T>

    constructor (items: seq<T>)
      ensures this.items == items
    {
      this.items := items;
    }
  }

  class Props {
    var table: map<string, string>

    constructor (table: map<string, string>)
      ensures this.table == table
    {
      this.table := table;
    }
  }

  class ResolvedNode {
    const id: Id
    const kind: string
    const name: string
    const path: string
    const lineStart: int
    const lineEnd: int
    var properties: Props?

    constructor (id: Id, kind: string, name: string, path: string, lineStart: int, lineEnd: int, properties: Props?)
      ensures this.id == id && this.kind == kind && this.name == name && this.path == path
      ensures this.lineStart == lineStart && this.lineEnd == lineEnd && this.properties == properties
    {
      this.id, this.kind, this.name, this.path := id, kind, name, path;
      this.lineStart, this.lineEnd, this.properties := lineStart, lineEnd, properties;
    }

    /** The "hash" property, "" when there is none: both versions of the code skip an empty hash. */
    function Hash(): string
      reads this, properties
    {
      if properties != null && "hash" in properties.table then properties.table["hash"] else ""
    }
  }

  datatype DanglingRef = DanglingRef(source: Id, target: Id, kind: string, line: int)

  type Buckets = map<string, IdSet>

  type Lists<T> = map<string, List<T>>

  /** What the lists of an index hold. */
  function ItemsOf<T>(index: Lists<T>): map<string, seq<T>>
    reads index.Values
  {
    map k | k in index :: index[k].items
  }

  lemma ItemsAt<T>(index: Lists<T>)
    ensures ItemsOf(index).Keys == index.Keys && forall k :: k in index ==> ItemsOf(index)[k] == index[k].items
  {
  }

  const CURRENT_SCHEMA_VERSION := 3

  class CodePropertyGraph {
    var schemaVersion: int
    var commitHash: string
    var version: nat
    var nodes: map<Id, ResolvedNode>
    var outbound: Lists<Edge>
    var inbound: Lists<Edge>
    var fileIndex: Buckets
    var lineIndex: Lists<ResolvedNode>
    var kindIndex: Buckets
    var hashIndex: Lists<Id>
    var macroRules: map<Id, seq<string>>
    var macroCache: map<Id, seq<string>>
    var folderZones: map<string, string>
    var entrypoints: seq<Id>
    var errors: seq<DanglingRef>

    constructor Copy(g: CodePropertyGraph)
      ensures schemaVersion == g.schemaVersion && commitHash == g.commitHash && version == g.version
      ensures nodes == g.nodes && outbound == g.outbound && inbound == g.inbound
      ensures fileIndex == g.fileIndex && lineIndex == g.lineIndex && kindIndex == g.kindIndex && hashIndex == g.hashIndex
      ensures macroRules == g.macroRules && macroCache == g.macroCache && folderZones == g.folderZones
      ensures entrypoints == g.entrypoints && errors == g.errors
    {
      schemaVersion, commitHash, version := g.schemaVersion, g.commitHash, g.version;
      nodes, outbound, inbound := g.nodes, g.outbound, g.inbound;
      fileIndex, lineIndex, kindIndex, hashIndex := g.fileIndex, g.lineIndex, g.kindIndex, g.hashIndex;
      macroRules, macroCache, folderZones := g.macroRules, g.macroCache, g.folderZones;
      entrypoints, errors := g.entrypoints, g.errors;
    }

    constructor Empty(commitHash: string)
      ensures schemaVersion == CURRENT_SCHEMA_VERSION && this.commitHash == commitHash && version == 1 && nodes == map[] && outbound == map[] && inbound == map[]
      ensures fileIndex == map[] && lineIndex == map[] && kindIndex == map[] && hashIndex == map[]
      ensures macroRules == map[] && macroCache == map[] && folderZones == map[] && entrypoints == [] && errors == []
    {
      schemaVersion, this.commitHash, version, nodes, outbound, inbound := CURRENT_SCHEMA_VERSION, commitHash, 1, map[], map[], map[];
      fileIndex, lineIndex, kindIndex, hashIndex := map[], map[], map[], map[];
      macroRules, macroCache, folderZones, entrypoints, errors := map[], map[], map[], [], [];
    }
  }

  /** The IDs filed under `k`; a missing bucket reads as empty. */
  function IdsAt(index: Buckets, k: string): set<Id>
    reads if k in index then {index[k]} else {}
  {
    if k in index then index[k].ids else {}
  }

  function ListAt<T>(index: map<string, seq<T>>, k: string): seq<T> {
    if k in index then index[k] else []
  }

  /* ---- working copies of buckets ---- */

  /** No two keys share a working copy, and none is an object of the published index. */
  ghost predicate Private<T>(work: map<string, T>, index: map<string, T>) {
    (forall a, b :: a in work && b in work && a != b ==> work[a] != work[b])
    && (forall a, b :: a in work && b in index ==> work[a] != index[b])
  }

  /** What the index will hold under `k` once the working copies are published. */
  ghost function StagedAt(work: Buckets, index: Buckets, k: string): set<Id>
    reads (if k in work then {work[k]} else {}) + (if k in index then {index[k]} else {})
  {
    if k in work then work[k].ids else IdsAt(index, k)
  }

  /** Drop `id` from bucket `k`, copying the bucket first if it has no working copy yet. A kind that
      has no bucket gets none. */
  method StageRemoval(work: Buckets, index: Buckets, key: string, id: Id) returns (work': Buckets)
    requires Private(work, index)
    modifies if key in work then {work[key]} else {}
    ensures Private(work', index) && fresh(work'.Values - work.Values) && work.Keys <= work'.Keys
    ensures forall k :: StagedAt(work', index, k) == old(StagedAt(work, index, k)) - if k == key then {id} else {}
    ensures forall k :: k in work ==> work'[k] == work[k]
    ensures forall k :: IdsAt(index, k) == old(IdsAt(index, k))
  {
    work' := work;
    if key !in work' && key in index {
      var copy := new IdSet(index[key].ids);
      work' := work'[key := copy];
    }
    if key in work' {
      work'[key].ids := work'[key].ids - {id};
    }
  }

  /** Add `id` to bucket `k`, copying the bucket first if it has no working copy yet. */
  method StageAddition(work: Buckets, index: Buckets, key: string, id: Id) returns (work': Buckets)
    requires Private(work, index)
    modifies if key in work then {work[key]} else {}
    ensures Private(work', index) && fresh(work'.Values - work.Values) && work'.Keys == work.Keys + {key}
    ensures forall k :: StagedAt(work', index, k) == old(StagedAt(work, index, k)) + if k == key then {id} else {}
    ensures forall k :: k in work ==> work'[k] == work[k]
    ensures forall k :: IdsAt(index, k) == old(IdsAt(index, k))
  {
    work' := work;
    if key !in work' {
      var copy := new IdSet(IdsAt(index, key));
      work' := work'[key := copy];
    }
    work'[key].ids := work'[key].ids + {id};
  }

  /** A list under `k`, its working copy if it has one. */
  function ListStaged<T>(work: map<string, seq<T>>, index: map<string, seq<T>>, k: string): seq<T> {
    if k in work then work[k] else ListAt(index, k)
  }

  function Append<T>(work: map<string, seq<T>>, index: map<string, seq<T>>, k: string, x: T): map<string, seq<T>> {
    work[k := ListStaged(work, index, k) + [x]]
  }

  /** A working copy of list `key`, if there is none yet. */
  method StageCopy<T>(work: Lists<T>, index: Lists<T>, key: string) returns (work': Lists<T>)
    requires Private(work, index)
    ensures Private(work', index) && fresh(work'.Values - work.Values) && work'.Keys == work.Keys + {key}
    ensures ItemsOf(work') == ItemsOf(work)[key := ListStaged(ItemsOf(work), ItemsOf(index), key)]
    ensures forall k :: k in work ==> work'[k] == work[k]
  {
    work' := work;
    if key !in work' {
      var copy := new List<T>(if key in index then index[key].items else []);
      work' := work'[key := copy];
    }
  }

  /** An element at the end of one list; the other lists of either index are other objects. */
  method AppendTo<T>(work: Lists<T>, index: Lists<T>, key: string, x: T)
    requires Private(work, index) && key in work
    modifies work[key]
    ensures ItemsOf(work) == old(ItemsOf(work))[key := old(work[key].items) + [x]] && ItemsOf(index) == old(ItemsOf(index))
  {
    var list := work[key];
    list.items := list.items + [x];
  }

  lemma AppendIs<T>(work: map<string, seq<T>>, index: map<string, seq<T>>, key: string, x: T)
    ensures var staged := ListStaged(work, index, key);
            work[key := staged][key := staged + [x]] == Append(work, index, key, x)
  {
  }

  /** Append `x` to list `key` in place, copying the list first if it has no working copy yet. */
  method StageAppend<T>(work: Lists<T>, index: Lists<T>, key: string, x: T) returns (work': Lists<T>)
    requires Private(work, index)
    modifies if key in work then {work[key]} else {}
    ensures Private(work', index) && fresh(work'.Values - work.Values) && work'.Keys == work.Keys + {key}
    ensures ItemsOf(work') == Append(old(ItemsOf(work)), old(ItemsOf(index)), key, x)
    ensures forall k :: k in work ==> work'[k] == work[k]
    ensures ItemsOf(index) == old(ItemsOf(index))
  {
    hide *;
    ghost var w0, i0 := ItemsOf(work), ItemsOf(index);
    work' := StageCopy(work, index, key);
    ItemsAt(work');
    ghost var staged := ItemsOf(work');
    assert ItemsOf(index) == i0;
    AppendIs(w0, i0, key, x);
    AppendTo(work', index, key, x);
    assert ItemsOf(work') == staged[key := staged[key] + [x]];
  }

  /** One CowMap.Set per staged key. */
  method Publish<T>(index: map<string, T>, work: map<string, T>) returns (index': map<string, T>)
    ensures index' == index + work
  {
    index' := index;
    var rest := work.Keys;
    while rest != {}
      invariant rest <= work.Keys
      invariant index'.Keys == index.Keys + (work.Keys - rest)
      invariant forall k :: k in index' ==> index'[k] == if k in work && k !in rest then work[k] else index[k]
    {
      var k :| k in rest;
      index', rest := index'[k := work[k]], rest - {k};
    }
  }
}
