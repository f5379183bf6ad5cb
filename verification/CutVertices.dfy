/** Hopcroft-Tarjan cut vertices. The undirected graph and what a cut vertex is; the facts a finished
    depth-first forest satisfies; and the proof that those facts determine the cut vertices. */
module CutVertices {
  import opened Graphs

  /** The stored graph: node order of Nodes.Iterate, edges by source, edges by target. */
  datatype EdgeStore = EdgeStore(nodeIds: seq<Id>, outbound: Adjacency, inbound: Adjacency)

  /** The neighbour set the traversal collects for `u`, both directions together. */
  ghost function Neighbors(g: EdgeStore, u: Id): set<Id> {
    (set k | 0 <= k < |Edges(g.outbound, u)| :: Edges(g.outbound, u)[k].target)
    + (set k | 0 <= k < |Edges(g.inbound, u)| :: Edges(g.inbound, u)[k].source)
  }

  /** Two nodes are neighbours exactly when some stored edge leads from one to the other. */
  lemma NeighborsShareAnEdge(g: EdgeStore, x: Id, y: Id)
    ensures y in Neighbors(g, x)
            <==> (x in g.outbound && exists e :: e in g.outbound[x] && e.target == y) || (x in g.inbound && exists e :: e in g.inbound[x] && e.source == y)
    ensures Mirrored(g) ==> (y in Neighbors(g, x) <==> HasEdge(g.outbound, x, y) || HasEdge(g.outbound, y, x))
  {
    if y in Neighbors(g, x) {
      if k :| 0 <= k < |Edges(g.outbound, x)| && Edges(g.outbound, x)[k].target == y {
        assert g.outbound[x][k] in g.outbound[x];
      } else {
        var k :| 0 <= k < |Edges(g.inbound, x)| && Edges(g.inbound, x)[k].source == y;
        assert g.inbound[x][k] in g.inbound[x];
      }
    }
    if e :| x in g.outbound && e in g.outbound[x] && e.target == y {
      var k :| 0 <= k < |g.outbound[x]| && g.outbound[x][k] == e;
      assert Edges(g.outbound, x)[k].target == y;
    }
    if e :| x in g.inbound && e in g.inbound[x] && e.source == y {
      var k :| 0 <= k < |g.inbound[x]| && g.inbound[x][k] == e;
      assert Edges(g.inbound, x)[k].source == y;
    }
  }

  /** Inbound lists mirror outbound lists. */
  ghost predicate Mirrored(g: EdgeStore) {
    forall x, y ::
      (exists k :: 0 <= k < |Edges(g.outbound, x)| && Edges(g.outbound, x)[k].target == y)
      <==> (exists k :: 0 <= k < |Edges(g.inbound, y)| && Edges(g.inbound, y)[k].source == x)
  }

  lemma MirroredIsSymmetric(g: EdgeStore)
    requires Mirrored(g)
    ensures Symmetric(g)
  {
    forall x, y | y in Neighbors(g, x)
      ensures x in Neighbors(g, y)
    {
      if k :| 0 <= k < |Edges(g.outbound, x)| && Edges(g.outbound, x)[k].target == y {
        var j :| 0 <= j < |Edges(g.inbound, y)| && Edges(g.inbound, y)[j].source == x;
      } else {
        var k :| 0 <= k < |Edges(g.inbound, x)| && Edges(g.inbound, x)[k].source == y;
        var j :| 0 <= j < |Edges(g.outbound, y)| && Edges(g.outbound, y)[j].target == x;
      }
    }
  }

  ghost predicate Symmetric(g: EdgeStore) {
    forall x, y :: y in Neighbors(g, x) ==> x in Neighbors(g, y)
  }

  /** `y` can be reached from `x` along `n` edges, in either direction, through nodes outside `banned`. */
  ghost predicate JoinedIn(g: EdgeStore, banned: set<Id>, n: nat, x: Id, y: Id) {
    y !in banned && if n == 0 then x == y else exists z :: JoinedIn(g, banned, n - 1, x, z) && y in Neighbors(g, z)
  }

  ghost predicate Joined(g: EdgeStore, banned: set<Id>, x: Id, y: Id) {
    exists n: nat :: JoinedIn(g, banned, n, x, y)
  }

  /** Removing `a` separates two nodes that were joined. */
  ghost predicate IsCutVertex(g: EdgeStore, a: Id) {
    exists x, y :: x != a && y != a && Joined(g, {}, x, y) && !Joined(g, {a}, x, y)
  }

  lemma JoinedRefl(g: EdgeStore, banned: set<Id>, x: Id)
    requires x !in banned
    ensures Joined(g, banned, x, x)
  {
    assert JoinedIn(g, banned, 0, x, x);
  }

  lemma JoinedStep(g: EdgeStore, banned: set<Id>, x: Id, y: Id, z: Id)
    requires Joined(g, banned, x, y) && z in Neighbors(g, y) && z !in banned
    ensures Joined(g, banned, x, z)
  {
    var n: nat :| JoinedIn(g, banned, n, x, y);
    assert JoinedIn(g, banned, n + 1, x, z);
  }

  lemma JoinedTransIn(g: EdgeStore, banned: set<Id>, x: Id, y: Id, n: nat, z: Id)
    requires Joined(g, banned, x, y) && JoinedIn(g, banned, n, y, z)
    ensures Joined(g, banned, x, z)
    decreases n
  {
    hide Joined;
    if n > 0 {
      var u :| JoinedIn(g, banned, n - 1, y, u) && z in Neighbors(g, u);
      JoinedTransIn(g, banned, x, y, n - 1, u);
      JoinedStep(g, banned, x, u, z);
    }
  }

  lemma JoinedTrans(g: EdgeStore, banned: set<Id>, x: Id, y: Id, z: Id)
    requires Joined(g, banned, x, y) && Joined(g, banned, y, z)
    ensures Joined(g, banned, x, z)
  {
    var n: nat :| JoinedIn(g, banned, n, y, z);
    JoinedTransIn(g, banned, x, y, n, z);
  }

  lemma JoinedSymmIn(g: EdgeStore, banned: set<Id>, n: nat, x: Id, y: Id)
    requires Symmetric(g) && JoinedIn(g, banned, n, x, y) && x !in banned
    ensures Joined(g, banned, y, x)
    decreases n
  {
    hide Joined, Neighbors;
    JoinedRefl(g, banned, y);
    if n > 0 {
      var z :| JoinedIn(g, banned, n - 1, x, z) && y in Neighbors(g, z);
      JoinedSymmIn(g, banned, n - 1, x, z);
      JoinedStep(g, banned, y, y, z);
      JoinedTrans(g, banned, y, z, x);
    }
  }

  lemma JoinedSymm(g: EdgeStore, banned: set<Id>, x: Id, y: Id)
    requires Symmetric(g) && Joined(g, banned, x, y) && x !in banned
    ensures Joined(g, banned, y, x)
  {
    var n: nat :| JoinedIn(g, banned, n, x, y);
    JoinedSymmIn(g, banned, n, x, y);
  }

  /* ---- depth-first forests ---- */

  datatype Forest = Forest(disc: map<Id, int>, low: map<Id, int>, parent: map<Id, Id>)

  ghost function Time(t: Forest, x: Id): nat { if x in t.disc && t.disc[x] >= 0 then t.disc[x] else 0 }

  ghost function LowOf(t: Forest, x: Id): int { if x in t.low then t.low[x] else 0 }

  function ParentOf(t: Forest, x: Id): Id { if x in t.parent then t.parent[x] else "" }

  ghost predicate HasParent(t: Forest, x: Id) { x in t.parent && Time(t, t.parent[x]) < Time(t, x) }

  /** `a` is `x` or an ancestor of `x` along parent links. */
  ghost predicate Anc(t: Forest, a: Id, x: Id)
    decreases Time(t, x)
  {
    a == x || (HasParent(t, x) && Anc(t, a, t.parent[x]))
  }

  ghost function Root(t: Forest, x: Id): Id
    decreases Time(t, x)
  {
    if HasParent(t, x) then Root(t, t.parent[x]) else x
  }

  lemma AncTrans(t: Forest, a: Id, b: Id, x: Id)
    requires Anc(t, a, b) && Anc(t, b, x)
    ensures Anc(t, a, x)
    decreases Time(t, x)
  {
    if b != x {
      AncTrans(t, a, b, t.parent[x]);
    }
  }

  lemma AncTime(t: Forest, a: Id, x: Id)
    requires Anc(t, a, x)
    ensures a == x || Time(t, a) < Time(t, x)
    decreases Time(t, x)
  {
    if a != x {
      AncTime(t, a, t.parent[x]);
    }
  }

  /** Ancestors of one node form a chain. */
  lemma AncChain(t: Forest, a: Id, b: Id, x: Id)
    requires Anc(t, a, x) && Anc(t, b, x)
    ensures Anc(t, a, b) || Anc(t, b, a)
    decreases Time(t, x)
  {
    if a != x && b != x {
      AncChain(t, a, b, t.parent[x]);
    }
  }

  lemma RootOfAnc(t: Forest, a: Id, x: Id)
    requires Anc(t, a, x)
    ensures Root(t, a) == Root(t, x)
    decreases Time(t, x)
  {
    if a != x {
      RootOfAnc(t, a, t.parent[x]);
    }
  }

  lemma RootIsAnc(t: Forest, x: Id)
    ensures Anc(t, Root(t, x), x) && !HasParent(t, Root(t, x))
    decreases Time(t, x)
  {
    if HasParent(t, x) {
      RootIsAnc(t, t.parent[x]);
    }
  }

  /** The child of `u` on the way down to `x`. */
  lemma ChildToward(t: Forest, u: Id, x: Id) returns (c: Id)
    requires Anc(t, u, x) && u != x
    ensures HasParent(t, c) && t.parent[c] == u && Anc(t, c, x)
    decreases Time(t, x)
  {
    if t.parent[x] == u {
      c := x;
    } else {
      c := ChildToward(t, u, t.parent[x]);
    }
  }

  /** The tree edges are edges of the graph, parents discovered first. */
  ghost predicate TreeEdges(g: EdgeStore, t: Forest) {
    forall x :: x in t.disc && x in t.parent ==>
      t.parent[x] in t.disc && Time(t, t.parent[x]) < Time(t, x) && x in Neighbors(g, t.parent[x]) && t.parent[x] != ""
  }

  /** Every edge between visited nodes joins an ancestor and a descendant. */
  ghost predicate NoCrossEdges(g: EdgeStore, t: Forest) {
    forall x, w :: x in t.disc && w in t.disc && w in Neighbors(g, x) ==> Anc(t, x, w) || Anc(t, w, x)
  }

  ghost predicate Child(t: Forest, u: Id, c: Id) { c in t.disc && c in t.parent && t.parent[c] == u }

  /** low[x] is a lower bound: on neighbours other than the parent, and on the children's lows. */
  ghost predicate LowBounds(g: EdgeStore, t: Forest, x: Id) {
    (forall w :: w in Neighbors(g, x) && w != ParentOf(t, x) ==> LowOf(t, x) <= Time(t, w))
    && (forall c :: Child(t, x, c) ==> LowOf(t, x) <= LowOf(t, c))
  }

  /** low[x] is attained: by x itself or by an edge out of x's subtree. */
  ghost predicate LowAttained(g: EdgeStore, t: Forest, x: Id) {
    LowOf(t, x) == Time(t, x)
    || exists y, w :: y in t.disc && w in t.disc && Anc(t, x, y) && w in Neighbors(g, y) && LowOf(t, x) == Time(t, w)
  }

  /** The rule the traversal applies. */
  ghost predicate Separates(t: Forest, u: Id) {
    if ParentOf(t, u) == "" then exists c, d :: c != d && Child(t, u, c) && Child(t, u, d)
    else exists c :: Child(t, u, c) && LowOf(t, c) >= Time(t, u)
  }

  ghost predicate Finished(g: EdgeStore, t: Forest) {
    Symmetric(g) && TreeEdges(g, t) && NoCrossEdges(g, t)
    && (forall x, w :: x in t.disc && w in Neighbors(g, x) ==> w in t.disc)
    && (forall x :: x in t.disc ==> LowBounds(g, t, x) && LowAttained(g, t, x))
    && (forall x, y :: x in t.disc && y in t.disc && Time(t, x) == Time(t, y) ==> x == y)
  }

  lemma AncVisited(g: EdgeStore, t: Forest, a: Id, x: Id)
    requires TreeEdges(g, t) && x in t.disc && Anc(t, a, x)
    ensures a in t.disc
    decreases Time(t, x)
  {
    if a != x {
      AncVisited(g, t, a, t.parent[x]);
    }
  }

  /** A node not below `u` reaches its root without passing `u`. */
  lemma UpAvoiding(g: EdgeStore, t: Forest, u: Id, x: Id)
    requires Symmetric(g) && TreeEdges(g, t) && x in t.disc && !Anc(t, u, x)
    ensures Joined(g, {u}, x, Root(t, x))
    decreases Time(t, x)
  {
    hide Joined, Neighbors;
    JoinedRefl(g, {u}, x);
    if HasParent(t, x) {
      var p := t.parent[x];
      UpAvoiding(g, t, u, p);
      JoinedStep(g, {u}, x, x, p);
      JoinedTrans(g, {u}, x, p, Root(t, x));
    }
  }

  /** A child subtree of `u` hangs together without `u`. */
  lemma DownAvoiding(g: EdgeStore, t: Forest, u: Id, c: Id, x: Id)
    requires TreeEdges(g, t) && x in t.disc && Anc(t, c, x) && Time(t, u) < Time(t, c)
    ensures Joined(g, {u}, c, x)
    decreases Time(t, x)
  {
    hide Joined, Neighbors;
    AncTime(t, c, x);
    if c == x {
      JoinedRefl(g, {u}, c);
    } else {
      DownAvoiding(g, t, u, c, t.parent[x]);
      JoinedStep(g, {u}, c, t.parent[x], x);
    }
  }

  lemma JoinedSameRoot(g: EdgeStore, t: Forest, banned: set<Id>, n: nat, x: Id, y: Id)
    requires Finished(g, t) && x in t.disc && JoinedIn(g, banned, n, x, y)
    ensures y in t.disc && Root(t, y) == Root(t, x)
    decreases n
  {
    hide Neighbors, LowBounds, LowAttained;
    if n > 0 {
      var z :| JoinedIn(g, banned, n - 1, x, z) && y in Neighbors(g, z);
      JoinedSameRoot(g, t, banned, n - 1, x, z);
      if Anc(t, z, y) {
        RootOfAnc(t, z, y);
      } else {
        RootOfAnc(t, y, z);
      }
    }
  }

  lemma LowDown(g: EdgeStore, t: Forest, c: Id, z: Id)
    requires Finished(g, t) && z in t.disc && Anc(t, c, z)
    ensures LowOf(t, c) <= LowOf(t, z)
    decreases Time(t, z)
  {
    hide Neighbors, NoCrossEdges, LowAttained;
    if c != z {
      var p := t.parent[z];
      AncVisited(g, t, p, z);
      LowDown(g, t, c, p);
      assert LowBounds(g, t, p) && Child(t, p, z);
    }
  }

  /** The child subtrees that the rule singles out have no edge past `u`. */
  lemma SubtreeClosed(g: EdgeStore, t: Forest, u: Id, c: Id, z: Id, w: Id)
    requires Finished(g, t) && u in t.disc && Child(t, u, c) && (ParentOf(t, u) == "" || LowOf(t, c) >= Time(t, u))
    requires z in t.disc && Anc(t, c, z) && w in Neighbors(g, z) && w != u
    ensures w in t.disc && Anc(t, c, w)
  {
    hide Neighbors, LowAttained, LowBounds;
    assert HasParent(t, c);
    if Anc(t, z, w) {
      AncTrans(t, c, z, w);
    } else {
      assert Anc(t, w, z);
      AncChain(t, c, w, z);
      if !Anc(t, c, w) {
        assert Anc(t, w, u);
        AncTime(t, w, u);
        AncVisited(g, t, w, u);
        assert HasParent(t, u);
        assert LowOf(t, c) >= Time(t, u);
        LowDown(g, t, c, z);
        ParentInSubtree(g, t, c, z);
        assert w != ParentOf(t, z);
        EdgeBound(g, t, z, w);
      }
    }
  }

  lemma EdgeBound(g: EdgeStore, t: Forest, z: Id, w: Id)
    requires Finished(g, t) && z in t.disc && w in Neighbors(g, z) && w != ParentOf(t, z)
    ensures LowOf(t, z) <= Time(t, w)
  {
    hide Neighbors;
    assert LowBounds(g, t, z);
  }

  lemma ParentInSubtree(g: EdgeStore, t: Forest, c: Id, z: Id)
    requires TreeEdges(g, t) && z in t.disc && Anc(t, c, z)
    ensures z == c || Anc(t, c, ParentOf(t, z))
  {
  }

  lemma StaysInSubtree(g: EdgeStore, t: Forest, u: Id, c: Id, n: nat, y: Id)
    requires Finished(g, t) && u in t.disc && Child(t, u, c) && (ParentOf(t, u) == "" || LowOf(t, c) >= Time(t, u))
    requires JoinedIn(g, {u}, n, c, y)
    ensures y in t.disc && Anc(t, c, y)
    decreases n
  {
    hide Neighbors, Finished;
    if n > 0 {
      var z :| JoinedIn(g, {u}, n - 1, c, z) && y in Neighbors(g, z);
      StaysInSubtree(g, t, u, c, n - 1, z);
      SubtreeClosed(g, t, u, c, z, y);
    }
  }

  /** The child `c` of `u` is cut off from any `y` outside its subtree that is next to `u`. */
  lemma CutOff(g: EdgeStore, t: Forest, u: Id, c: Id, y: Id)
    requires Finished(g, t) && u in t.disc && Child(t, u, c) && (ParentOf(t, u) == "" || LowOf(t, c) >= Time(t, u))
    requires y in Neighbors(g, u) && y != u && !Anc(t, c, y)
    ensures IsCutVertex(g, u)
  {
    hide Neighbors, Joined, NoCrossEdges, LowBounds, LowAttained;
    assert HasParent(t, c);
    JoinedRefl(g, {}, c);
    assert u in Neighbors(g, c);
    JoinedStep(g, {}, c, c, u);
    JoinedStep(g, {}, c, u, y);
    if Joined(g, {u}, c, y) {
      var n := JoinedLength(g, {u}, c, y);
      StaysInSubtree(g, t, u, c, n, y);
    }
  }

  lemma JoinedLength(g: EdgeStore, banned: set<Id>, x: Id, y: Id) returns (n: nat)
    requires Joined(g, banned, x, y)
    ensures JoinedIn(g, banned, n, x, y)
  {
    n :| JoinedIn(g, banned, n, x, y);
  }

  lemma SeparatesCuts(g: EdgeStore, t: Forest, u: Id)
    requires Finished(g, t) && u in t.disc && Separates(t, u)
    ensures IsCutVertex(g, u)
  {
    hide Neighbors, IsCutVertex, NoCrossEdges, LowBounds, LowAttained;
    if ParentOf(t, u) == "" {
      var c, d :| c != d && Child(t, u, c) && Child(t, u, d);
      assert HasParent(t, c) && HasParent(t, d);
      if Anc(t, c, d) {
        AncTime(t, c, u);
      }
      CutOff(g, t, u, c, d);
    } else {
      var c :| Child(t, u, c) && LowOf(t, c) >= Time(t, u);
      var p := t.parent[u];
      assert HasParent(t, c) && HasParent(t, u);
      if Anc(t, c, p) {
        AncTime(t, c, p);
      }
      CutOff(g, t, u, c, p);
    }
  }

  /** A low value below `u` comes from an edge that leaves `u`'s subtree. */
  lemma Escape(g: EdgeStore, t: Forest, u: Id, c: Id) returns (y: Id, w: Id)
    requires Finished(g, t) && u in t.disc && Child(t, u, c) && LowOf(t, c) < Time(t, u)
    ensures y in t.disc && w in t.disc && Anc(t, c, y) && w in Neighbors(g, y) && w != u && !Anc(t, u, w)
  {
    hide Neighbors, NoCrossEdges, LowBounds;
    assert LowAttained(g, t, c);
    y, w :| y in t.disc && w in t.disc && Anc(t, c, y) && w in Neighbors(g, y) && LowOf(t, c) == Time(t, w);
    if Anc(t, u, w) {
      AncTime(t, u, w);
    }
  }

  /** When the rule does not single out `u`, every other node of its tree below `u` reaches the
      root, or the only child of `u`, without `u`. */
  lemma BypassNonRoot(g: EdgeStore, t: Forest, u: Id, x: Id)
    requires Finished(g, t) && u in t.disc && x in t.disc && x != u && ParentOf(t, u) != "" && !Separates(t, u)
    ensures Joined(g, {u}, x, Root(t, x))
  {
    hide Neighbors, Joined, NoCrossEdges, LowBounds, LowAttained;
    if !Anc(t, u, x) {
      UpAvoiding(g, t, u, x);
    } else {
      var c := ChildToward(t, u, x);
      AncVisited(g, t, c, x);
      assert Child(t, u, c);
      var y, w := Escape(g, t, u, c);
      BypassVia(g, t, u, c, x, y, w);
    }
  }

  lemma BypassVia(g: EdgeStore, t: Forest, u: Id, c: Id, x: Id, y: Id, w: Id)
    requires Finished(g, t) && u in t.disc && x in t.disc && x != u && Child(t, u, c) && Anc(t, c, x)
    requires y in t.disc && w in t.disc && Anc(t, c, y) && w in Neighbors(g, y) && w != u && !Anc(t, u, w)
    ensures Joined(g, {u}, x, Root(t, x))
  {
    hide Neighbors, Joined, NoCrossEdges, LowBounds, LowAttained;
    DownAvoiding(g, t, u, c, x);
    DownAvoiding(g, t, u, c, y);
    JoinedSymm(g, {u}, c, x);
    JoinedTrans(g, {u}, x, c, y);
    JoinedStep(g, {u}, x, y, w);
    UpAvoiding(g, t, u, w);
    JoinedTrans(g, {u}, x, w, Root(t, w));
    SameRootAcross(g, t, x, c, y, w);
  }

  lemma SameRootAcross(g: EdgeStore, t: Forest, x: Id, c: Id, y: Id, w: Id)
    requires Finished(g, t) && Anc(t, c, x) && Anc(t, c, y) && y in t.disc && w in t.disc && w in Neighbors(g, y)
    ensures Root(t, w) == Root(t, x)
  {
    hide Neighbors, LowBounds, LowAttained;
    RootOfAnc(t, c, x);
    RootOfAnc(t, c, y);
    if Anc(t, y, w) {
      RootOfAnc(t, y, w);
    } else {
      RootOfAnc(t, w, y);
    }
  }

  lemma BypassRoot(g: EdgeStore, t: Forest, u: Id, x: Id, y: Id)
    requires Finished(g, t) && u in t.disc && x in t.disc && y in t.disc && x != u && y != u
    requires ParentOf(t, u) == "" && !Separates(t, u) && Anc(t, u, x) && Anc(t, u, y)
    ensures Joined(g, {u}, x, y)
  {
    hide Neighbors, Joined, NoCrossEdges, LowBounds, LowAttained;
    var c := ChildToward(t, u, x);
    var d := ChildToward(t, u, y);
    AncVisited(g, t, c, x);
    AncVisited(g, t, d, y);
    assert Child(t, u, c) && Child(t, u, d);
    assert c == d;
    DownAvoiding(g, t, u, c, x);
    DownAvoiding(g, t, u, c, y);
    AncTime(t, u, x);
    JoinedSymm(g, {u}, c, x);
    JoinedTrans(g, {u}, x, c, y);
  }

  lemma Bypass(g: EdgeStore, t: Forest, u: Id, x: Id, y: Id)
    requires Finished(g, t) && u in t.disc && !Separates(t, u) && x in t.disc && x != u && y != u && Joined(g, {}, x, y)
    ensures Joined(g, {u}, x, y)
  {
    hide Neighbors, Joined, NoCrossEdges, LowBounds, LowAttained, Separates;
    var n := JoinedLength(g, {}, x, y);
    JoinedSameRoot(g, t, {}, n, x, y);
    if ParentOf(t, u) != "" {
      BypassNonRoot(g, t, u, x);
      BypassNonRoot(g, t, u, y);
    } else if Anc(t, u, x) {
      RootOfAnc(t, u, x);
      RootIsAnc(t, y);
      assert Root(t, u) == u;
      BypassRoot(g, t, u, x, y);
      return;
    } else {
      if Anc(t, u, y) {
        RootOfAnc(t, u, y);
        RootIsAnc(t, x);
      }
      UpAvoiding(g, t, u, x);
      UpAvoiding(g, t, u, y);
    }
    JoinedSymm(g, {u}, y, Root(t, y));
    JoinedTrans(g, {u}, x, Root(t, x), y);
  }

  /** Nodes the traversal never saw are joined without any node it saw. */
  lemma OutsideVisited(g: EdgeStore, t: Forest, u: Id, n: nat, x: Id, y: Id)
    requires Finished(g, t) && u in t.disc && x !in t.disc && JoinedIn(g, {}, n, x, y)
    ensures y !in t.disc && Joined(g, {u}, x, y)
    decreases n
  {
    hide Neighbors, Joined, NoCrossEdges, LowBounds, LowAttained;
    if n == 0 {
      JoinedRefl(g, {u}, x);
    } else {
      var z :| JoinedIn(g, {}, n - 1, x, z) && y in Neighbors(g, z);
      OutsideVisited(g, t, u, n - 1, x, z);
      assert z in Neighbors(g, y);
      JoinedStep(g, {u}, x, z, y);
    }
  }

  /** On a finished forest the rule holds exactly at the cut vertices. */
  lemma RuleIsExact(g: EdgeStore, t: Forest, u: Id)
    requires Finished(g, t) && u in t.disc
    ensures Separates(t, u) <==> IsCutVertex(g, u)
  {
    hide Neighbors, Joined, NoCrossEdges, LowBounds, LowAttained, Separates;
    if Separates(t, u) {
      SeparatesCuts(g, t, u);
    }
    if IsCutVertex(g, u) && !Separates(t, u) {
      var x, y :| x != u && y != u && Joined(g, {}, x, y) && !Joined(g, {u}, x, y);
      if x in t.disc {
        Bypass(g, t, u, x, y);
      } else {
        var n := JoinedLength(g, {}, x, y);
        OutsideVisited(g, t, u, n, x, y);
      }
    }
  }
}
