/** When export keeps every edge. It writes one edge per key, so what is lost is decided by which edges
    share a key. */
module ExportLoss {
  import opened Graphs
  import opened AkgStore
  import opened Ordering
  import opened DeltaEdges
  import opened GraphJson

  /* ---- what a key tells ---- */

  /** Everything about an edge that goes into its key. */
  datatype Facts = Facts(source: Id, target: Id, kind: string, line: int, properties: map<string, string>)

  ghost function FactsOf(e: Edge): Facts { Facts(e.source, e.target, e.kind, e.line, e.properties) }

  const SEPARATOR := 1 as char

  /** No delimiter of the key occurs where it would be read as one. */
  ghost predicate Clean(e: Edge) {
    0 as char !in e.source && 0 as char !in e.target && 0 as char !in e.kind
    && forall k :: k in e.properties ==> '=' !in k && 1 as char !in e.properties[k]
  }

  ghost function UpTo(s: string, c: char): string { if s == "" || s[0] == c then "" else [s[0]] + UpTo(s[1..], c) }

  lemma {:induction false} UpToFinds(a: string, rest: string, c: char)
    requires c !in a && (rest == "" || rest[0] == c)
    ensures UpTo(a + rest, c) == a
  {
    if a == "" {
      assert a + rest == rest;
    } else {
      assert (a + rest)[1..] == a[1..] + rest;
      UpToFinds(a[1..], rest, c);
    }
  }

  /** A string splits in one way into a part without `c` and a part that is empty or starts with `c`. */
  lemma SplitEnd(a: string, rest: string, a': string, rest': string, c: char)
    requires c !in a && c !in a' && a + rest == a' + rest'
    requires (rest == "" || rest[0] == c) && (rest' == "" || rest'[0] == c)
    ensures a == a' && rest == rest'
  {
    UpToFinds(a, rest, c);
    UpToFinds(a', rest', c);
    assert rest == (a + rest)[|a|..] && rest' == (a' + rest')[|a'|..];
  }

  lemma SplitOnce(a: string, rest: string, a': string, rest': string, c: char)
    requires c !in a && c !in a' && a + [c] + rest == a' + [c] + rest'
    ensures a == a' && rest == rest'
  {
    assert a + ([c] + rest) == a + [c] + rest && a' + ([c] + rest') == a' + [c] + rest';
    SplitEnd(a, [c] + rest, a', [c] + rest', c);
    assert rest == ([c] + rest)[1..] && rest' == ([c] + rest')[1..];
  }

  lemma {:induction false} DigitsOnly(n: nat)
    ensures Digits(n) != "" && forall c :: c in Digits(n) ==> '0' <= c <= '9'
  {
    if n >= 10 {
      DigitsOnly(n / 10);
    }
  }

  lemma {:induction false} DigitsTell(n: nat, m: nat)
    requires Digits(n) == Digits(m)
    ensures n == m
  {
    DigitsOnly(n / 10);
    DigitsOnly(m / 10);
    var s := Digits(n);
    assert s[|s| - 1] == ('0' as int + n % 10) as char == ('0' as int + m % 10) as char;
    if n >= 10 {
      assert |s| > 1;
      assert s[..|s| - 1] == Digits(n / 10) && s[..|s| - 1] == Digits(m / 10);
      DigitsTell(n / 10, m / 10);
    }
  }

  lemma LeadsWithSign(n: int)
    ensures Decimal(n) != "" && (Decimal(n)[0] == '-' <==> n < 0)
  {
    var digits := Digits(if n < 0 then -n else n);
    DigitsOnly(if n < 0 then -n else n);
    assert digits[0] in digits;
  }

  lemma DecimalTells(n: int, m: int)
    requires Decimal(n) == Decimal(m)
    ensures n == m
  {
    LeadsWithSign(n);
    LeadsWithSign(m);
    if n < 0 {
      assert Decimal(n)[1..] == Digits(-n) && Decimal(m)[1..] == Digits(-m);
      DigitsTell(-n, -m);
    } else {
      DigitsTell(n, m);
    }
  }

  lemma NoNulIn(n: int)
    ensures NUL[0] !in Decimal(n)
  {
    DigitsOnly(if n < 0 then -n else n);
  }

  ghost predicate CleanProperties(m: map<string, string>, keys: seq<string>) {
    forall k :: k in keys ==> k in m && '=' !in k && SEPARATOR !in m[k]
  }

  lemma {:induction false} PropertiesTell(m: map<string, string>, keys: seq<string>, m': map<string, string>, keys': seq<string>)
    requires CleanProperties(m, keys) && CleanProperties(m', keys')
    requires PropertiesKey(m, keys) == PropertiesKey(m', keys')
    ensures keys == keys' && forall k :: k in keys ==> m[k] == m'[k]
  {
    if keys != [] && keys' != [] {
      var k, k' := keys[0], keys'[0];
      var rest, rest' := PropertiesKey(m, keys[1..]), PropertiesKey(m', keys'[1..]);
      assert PropertiesKey(m, keys) == k + ['='] + (m[k] + [SEPARATOR] + rest);
      assert PropertiesKey(m', keys') == k' + ['='] + (m'[k'] + [SEPARATOR] + rest');
      SplitOnce(k, m[k] + [SEPARATOR] + rest, k', m'[k'] + [SEPARATOR] + rest', '=');
      SplitOnce(m[k], rest, m'[k'], rest', SEPARATOR);
      PropertiesTell(m, keys[1..], m', keys'[1..]);
    }
  }

  /** What follows the line number in a key. */
  ghost function Tail(properties: map<string, string>): string {
    if properties == map[] then "" else NUL + PropertiesKey(properties, Ascending(properties.Keys))
  }

  lemma TailsTell(a: map<string, string>, b: map<string, string>)
    requires CleanProperties(a, Ascending(a.Keys)) && CleanProperties(b, Ascending(b.Keys)) && Tail(a) == Tail(b)
    ensures a == b
  {
    if a != map[] && b != map[] {
      var keys, keys' := Ascending(a.Keys), Ascending(b.Keys);
      assert PropertiesKey(a, keys) == Tail(a)[1..] && PropertiesKey(b, keys') == Tail(b)[1..];
      PropertiesTell(a, keys, b, keys');
      assert forall k :: k in a <==> k in keys;
      assert forall k :: k in b <==> k in keys';
      assert a == b;
    }
  }

  lemma KeyInParts(e: Edge)
    ensures EdgeKey(e) == e.source + NUL + (e.target + NUL + (e.kind + NUL + (Decimal(e.line) + Tail(e.properties))))
  {
    hide Decimal, PropertiesKey;
    var d, t := Decimal(e.line), Tail(e.properties);
    assert e.source + NUL + e.target + NUL + e.kind + NUL + d + t == e.source + NUL + (e.target + NUL + (e.kind + NUL + (d + t)));
  }

  /** Between edges without stray delimiters a key tells everything but confidence and the cycle flag. */
  lemma KeysTell(a: Edge, b: Edge)
    requires Clean(a) && Clean(b)
    ensures EdgeKey(a) == EdgeKey(b) <==> FactsOf(a) == FactsOf(b)
  {
    if EdgeKey(a) == EdgeKey(b) {
      KeyInParts(a);
      KeyInParts(b);
      NoNulIn(a.line);
      NoNulIn(b.line);
      assert CleanProperties(a.properties, Ascending(a.properties.Keys)) && CleanProperties(b.properties, Ascending(b.properties.Keys));
      hide EdgeKey, PropertiesKey, Decimal, CleanProperties;
      var la, lb := Decimal(a.line) + Tail(a.properties), Decimal(b.line) + Tail(b.properties);
      SplitOnce(a.source, a.target + NUL + (a.kind + NUL + la), b.source, b.target + NUL + (b.kind + NUL + lb), NUL[0]);
      SplitOnce(a.target, a.kind + NUL + la, b.target, b.kind + NUL + lb, NUL[0]);
      SplitOnce(a.kind, la, b.kind, lb, NUL[0]);
      SplitEnd(Decimal(a.line), Tail(a.properties), Decimal(b.line), Tail(b.properties), NUL[0]);
      DecimalTells(a.line, b.line);
      TailsTell(a.properties, b.properties);
    }
  }

  /** The comment on sortedPropertiesKey says that edges which differ only in their properties never
      collapse. With an equals sign inside a property key they can. */
  lemma PropertiesCollide(e: Edge)
    requires e.properties == map["a" := "b=c"]
    ensures var e' := e.(properties := map["a=b" := "c"]);
            e' != e && EdgeKey(e') == EdgeKey(e) && FirstOfEachKey([e, e']) == [e]
  {
    var e' := e.(properties := map["a=b" := "c"]);
    OneKey("a", "b=c");
    OneKey("a=b", "c");
    assert "a" + "=" + "b=c" + [SEPARATOR] == "a=b" + "=" + "c" + [SEPARATOR];
    assert "a" in e.properties && "a" !in e'.properties;
    KeyInParts(e);
    KeyInParts(e');
    SameKeyCollapses(e, e');
  }

  lemma OneKey(k: string, v: string)
    ensures Tail(map[k := v]) == NUL + (k + "=" + v + [SEPARATOR])
  {
    var m := map[k := v];
    var keys := Ascending(m.Keys);
    assert m != map[] by { assert k in m; }
    assert m.Keys == {k};
    AscendingIsUnique([k], m.Keys);
    assert keys == [k];
    assert PropertiesKey(m, [k][1..]) == "";
  }

  lemma SameKeyCollapses(e: Edge, e': Edge)
    requires EdgeKey(e') == EdgeKey(e)
    ensures FirstOfEachKey([e, e']) == [e]
  {
    hide EdgeKey;
    assert [e][..0] == [];
    assert FirstOfEachKey([e]) == [e];
    assert e in [e] && EdgeKey(e') in KeysOf([e]);
    assert [e, e'] == [e] + [e'];
    FirstMore([e], e');
  }

  /** The format's comment promises to keep duplicate parallel edges; edges that differ only in
      confidence or in the cycle flag share a key, and only the first is exported. */
  lemma ParallelEdgesCollapse(e: Edge, confidence: real, isCycle: bool)
    ensures FirstOfEachKey([e, e.(confidence := confidence, isCycle := isCycle)]) == [e]
  {
    SameKeyCollapses(e, e.(confidence := confidence, isCycle := isCycle));
  }

  /* ---- lists ---- */

  lemma FirstIsNoLonger(edges: seq<Edge>)
    ensures |FirstOfEachKey(edges)| <= |edges| && (|FirstOfEachKey(edges)| == |edges| ==> FirstOfEachKey(edges) == edges)
  {
    hide EdgeKey;
    if edges != [] {
      FirstIsNoLonger(edges[..|edges| - 1]);
    }
  }

  /** Deduplication drops nothing exactly when no two edges share a key. */
  lemma AllStay(edges: seq<Edge>)
    ensures multiset(FirstOfEachKey(edges)) == multiset(edges) <==> DistinctKeys(edges)
  {
    hide EdgeKey, KeysOf, DistinctKeys;
    FirstAreDistinct(edges);
    if DistinctKeys(edges) {
      DistinctStay(edges);
    }
    if multiset(FirstOfEachKey(edges)) == multiset(edges) {
      assert |multiset(FirstOfEachKey(edges))| == |FirstOfEachKey(edges)| && |multiset(edges)| == |edges|;
      FirstIsNoLonger(edges);
    }
  }

  /* ---- graphs ---- */

  /** The stored edge number `i` of `s` as export meets it. */
  ghost function At(g: Adjacency, s: Id, i: nat): Edge
    requires s in g && i < |g[s]|
  {
    WithSource(g[s][i], s)
  }

  ghost predicate Slot(g: Adjacency, s: Id, i: int) { s in g && 0 <= i < |g[s]| }

  /** No two stored edges of the given sources share a key. */
  ghost predicate KeysApart(g: Adjacency, sources: seq<Id>) {
    forall s, i, t, j :: s in sources && t in sources && Slot(g, s, i) && Slot(g, t, j) && EdgeKey(At(g, s, i)) == EdgeKey(At(g, t, j)) ==> s == t && i == j
  }

  /** No two stored edges agree in everything but confidence and the cycle flag. */
  ghost predicate NoTwins(g: Adjacency) {
    forall s, i, t, j :: Slot(g, s, i) && Slot(g, t, j) && FactsOf(At(g, s, i)) == FactsOf(At(g, t, j)) ==> s == t && i == j
  }

  ghost predicate AllClean(g: Adjacency) {
    forall s, i :: Slot(g, s, i) ==> Clean(At(g, s, i))
  }

  lemma MetMore(g: Adjacency, sources: seq<Id>, s: Id)
    ensures Met(g, sources + [s]) == Met(g, sources) + Sourced(Edges(g, s), s)
  {
    assert (sources + [s])[..|sources|] == sources;
  }

  /** Every slot of the sources is met. */
  lemma {:induction false} SlotIsMet(g: Adjacency, sources: seq<Id>, s: Id, i: nat)
    requires s in sources && Slot(g, s, i)
    ensures At(g, s, i) in Met(g, sources)
  {
    var n := |sources| - 1;
    assert sources == sources[..n] + [sources[n]];
    MetMore(g, sources[..n], sources[n]);
    if s == sources[n] {
      assert Sourced(Edges(g, s), s)[i] == At(g, s, i);
    } else {
      SlotIsMet(g, sources[..n], s, i);
    }
  }

  lemma {:induction false} MetIsSlot(g: Adjacency, sources: seq<Id>, e: Edge) returns (s: Id, i: nat)
    requires e in Met(g, sources)
    ensures s in sources && Slot(g, s, i) && e == At(g, s, i)
  {
    var n := |sources| - 1;
    if e in Sourced(Edges(g, sources[n]), sources[n]) {
      s := sources[n];
      i :| 0 <= i < |Edges(g, s)| && Sourced(Edges(g, s), s)[i] == e;
    } else {
      s, i := MetIsSlot(g, sources[..n], e);
    }
  }

  ghost predicate BlocksApart(a: seq<Edge>, b: seq<Edge>) { forall x, y :: x in a && y in b ==> EdgeKey(x) != EdgeKey(y) }

  lemma DistinctConcat(a: seq<Edge>, b: seq<Edge>)
    ensures DistinctKeys(a + b) <==> (DistinctKeys(a) && DistinctKeys(b) && BlocksApart(a, b))
  {
    hide EdgeKey;
    if DistinctKeys(a + b) {
      forall i, j | 0 <= i < j < |a|
        ensures EdgeKey(a[i]) != EdgeKey(a[j])
      {
        assert (a + b)[i] == a[i] && (a + b)[j] == a[j];
      }
      forall i, j | 0 <= i < j < |b|
        ensures EdgeKey(b[i]) != EdgeKey(b[j])
      {
        assert (a + b)[|a| + i] == b[i] && (a + b)[|a| + j] == b[j];
      }
      forall i, j | 0 <= i < |a| && 0 <= j < |b|
        ensures EdgeKey(a[i]) != EdgeKey(b[j])
      {
        assert (a + b)[i] == a[i] && (a + b)[|a| + j] == b[j];
      }
    }
  }

  lemma BlockApart(g: Adjacency, s: Id)
    ensures DistinctKeys(Sourced(Edges(g, s), s)) <==> KeysApart(g, [s])
  {
    hide EdgeKey;
    var block := Sourced(Edges(g, s), s);
    assert forall i: nat :: Slot(g, s, i) ==> block[i] == At(g, s, i);
  }

  lemma ApartMore(g: Adjacency, sources: seq<Id>, s: Id)
    requires s !in sources
    ensures KeysApart(g, sources + [s]) <==> (KeysApart(g, sources) && KeysApart(g, [s]) && BlocksApart(Met(g, sources), Sourced(Edges(g, s), s)))
  {
    hide EdgeKey;
    var block := Sourced(Edges(g, s), s);
    if KeysApart(g, sources + [s]) {
      forall x, y | x in Met(g, sources) && y in block
        ensures EdgeKey(x) != EdgeKey(y)
      {
        var t, i := MetIsSlot(g, sources, x);
        var j :| 0 <= j < |block| && block[j] == y;
        assert Slot(g, s, j) && y == At(g, s, j);
      }
    }
    if KeysApart(g, sources) && KeysApart(g, [s]) && BlocksApart(Met(g, sources), block) {
      forall t, i: nat | t in sources && Slot(g, t, i)
        ensures forall j: nat :: Slot(g, s, j) ==> EdgeKey(At(g, t, i)) != EdgeKey(At(g, s, j))
      {
        SlotIsMet(g, sources, t, i);
        assert forall j: nat :: Slot(g, s, j) ==> block[j] == At(g, s, j);
      }
    }
  }

  lemma {:induction false} MetApart(g: Adjacency, sources: seq<Id>)
    requires IsAscending(sources)
    ensures DistinctKeys(Met(g, sources)) <==> KeysApart(g, sources)
  {
    hide EdgeKey, IsAscending;
    if sources != [] {
      var n := |sources| - 1;
      var before, s := sources[..n], sources[n];
      assert sources == before + [s];
      PrefixAscends(sources);
      LastIsNew(sources);
      MetApart(g, before);
      MetMore(g, before, s);
      hide KeysApart, DistinctKeys, Met, Sourced;
      BlockApart(g, s);
      ApartMore(g, before, s);
      DistinctConcat(Met(g, before), Sourced(Edges(g, s), s));
    }
  }

  /** Export loses no edge exactly when no two stored edges share a key. */
  lemma NothingCollapses(v: GraphValue)
    ensures multiset(Exported(v)) == AllEdges(Filled(v.outbound)) <==> KeysApart(v.outbound, Ascending(v.outbound.Keys))
  {
    var order := Ascending(v.outbound.Keys);
    MetAll(v.outbound, order);
    assert OnlyKeys(v.outbound, order) == v.outbound;
    MetApart(v.outbound, order);
    AllStay(Met(v.outbound, order));
  }

  lemma FirstAreSome(edges: seq<Edge>)
    ensures multiset(FirstOfEachKey(edges)) <= multiset(edges)
  {
    hide EdgeKey;
    if edges != [] {
      assert edges == edges[..|edges| - 1] + [edges[|edges| - 1]];
      FirstAreSome(edges[..|edges| - 1]);
    }
  }

  lemma ExportedAreSome(v: GraphValue)
    ensures multiset(Exported(v)) <= AllEdges(Filled(v.outbound))
  {
    var order := Ascending(v.outbound.Keys);
    MetAll(v.outbound, order);
    assert OnlyKeys(v.outbound, order) == v.outbound;
    FirstAreSome(Met(v.outbound, order));
  }

  lemma DocEdges(doc: GraphDoc, v: GraphValue)
    requires IsDocOf(doc, v)
    ensures multiset(doc.edges) == multiset(Exported(v)) && Imported(doc).outbound == OutFrom(doc.edges)
  {
    hide EdgesInOrder, NodesInOrder, Listing, FirstOfEachKey, Met;
  }

  /** Saving and loading a graph gives every edge back exactly when no two stored edges share a key and
      every exported edge has both endpoints; otherwise it gives back less. */
  lemma EdgesSurviveLoading(v: GraphValue, doc: GraphDoc)
    requires IsDocOf(doc, v)
    ensures AllEdges(Imported(doc).outbound) <= AllEdges(Filled(v.outbound))
    ensures AllEdges(Imported(doc).outbound) == AllEdges(Filled(v.outbound))
            <==> (KeysApart(v.outbound, Ascending(v.outbound.Keys)) && AllImportable(doc.edges))
  {
    hide *;
    DocEdges(doc, v);
    ImportConserves(doc.edges);
    SkipsOnly(doc.edges);
    NothingCollapses(v);
    ExportedAreSome(v);
  }

  /** Without stray delimiters, export loses no edge exactly when no two stored edges agree in source,
      target, kind, line and properties. */
  lemma ExportIsLossless(v: GraphValue)
    requires AllClean(v.outbound)
    ensures multiset(Exported(v)) == AllEdges(Filled(v.outbound)) <==> NoTwins(v.outbound)
  {
    var g, order := v.outbound, Ascending(v.outbound.Keys);
    NothingCollapses(v);
    assert forall s :: s in g <==> s in order;
    hide EdgeKey, Clean, FactsOf, AllEdges;
    forall s, i: nat, t, j: nat | Slot(g, s, i) && Slot(g, t, j)
      ensures EdgeKey(At(g, s, i)) == EdgeKey(At(g, t, j)) <==> FactsOf(At(g, s, i)) == FactsOf(At(g, t, j))
    {
      KeysTell(At(g, s, i), At(g, t, j));
    }
  }
}
