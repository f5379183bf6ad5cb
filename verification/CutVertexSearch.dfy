/** FindArticulationPoints: the recursive traversal, shown to build a finished forest and to apply the
    rule of module CutVertices at every node. */
module CutVertexSearch {
  import opened Graphs
  import opened CutVertices

  /** The invariant between the steps of the traversal: `gray` is the active path, everything else
      that is visited is settled. */
  ghost predicate Settled(g: EdgeStore, t: Forest, ap: set<Id>, x: Id) {
    (forall w :: w in Neighbors(g, x) ==> w in t.disc)
    && LowBounds(g, t, x) && LowAttained(g, t, x) && (x in ap <==> Separates(t, x))
  }

  ghost predicate Times(t: Forest, time: nat) {
    t.low.Keys == t.disc.Keys
    && (forall x :: x in t.disc ==> 0 <= t.disc[x] < time)
    && (forall x, y :: x in t.disc && y in t.disc && t.disc[x] == t.disc[y] ==> x == y)
  }

  ghost predicate GrayPath(t: Forest, gray: set<Id>) {
    gray <= t.disc.Keys && (forall c :: c in gray && c in t.parent ==> t.parent[c] in gray)
  }

  ghost predicate SearchInv(g: EdgeStore, t: Forest, ap: set<Id>, gray: set<Id>, time: nat) {
    Symmetric(g) && TreeEdges(g, t) && NoCrossEdges(g, t) && Times(t, time) && GrayPath(t, gray) && ap <= t.disc.Keys
    && (forall x :: x in t.disc && x !in gray ==> Settled(g, t, ap, x))
  }

  /** Old nodes keep their times and parents. */
  ghost predicate Agrees(t: Forest, t': Forest) {
    forall y :: y in t.disc ==>
      y in t'.disc && Time(t', y) == Time(t, y) && ParentOf(t', y) == ParentOf(t, y) && (y in t'.parent <==> y in t.parent)
  }

  /** Ancestry among old nodes does not change. */
  lemma AncSame(g: EdgeStore, t: Forest, t': Forest, a: Id, x: Id)
    requires TreeEdges(g, t) && x in t.disc && Agrees(t, t')
    ensures Anc(t', a, x) <==> Anc(t, a, x)
    decreases Time(t, x)
  {
    hide Neighbors;
    if HasParent(t, x) {
      assert t'.parent[x] == t.parent[x];
      AncSame(g, t, t', a, t.parent[x]);
    }
  }

  /** Neither `x`'s children nor the low values around it have changed. */
  ghost predicate SameAround(t: Forest, t': Forest, x: Id) {
    LowOf(t', x) == LowOf(t, x)
    && forall c :: (Child(t', x, c) <==> Child(t, x, c)) && (Child(t, x, c) ==> LowOf(t', c) == LowOf(t, c))
  }

  lemma AttainedStable(g: EdgeStore, t: Forest, t': Forest, x: Id)
    requires TreeEdges(g, t) && Agrees(t, t') && x in t.disc && LowAttained(g, t, x) && LowOf(t', x) == LowOf(t, x)
    ensures LowAttained(g, t', x)
  {
    hide Neighbors, TreeEdges;
    if LowOf(t, x) != Time(t, x) {
      var y, w :| y in t.disc && w in t.disc && Anc(t, x, y) && w in Neighbors(g, y) && LowOf(t, x) == Time(t, w);
      AncSame(g, t, t', x, y);
      assert Time(t', w) == Time(t, w) && y in t'.disc && w in t'.disc;
    }
  }

  lemma SettledStable(g: EdgeStore, t: Forest, t': Forest, ap: set<Id>, ap': set<Id>, x: Id)
    requires TreeEdges(g, t) && Agrees(t, t') && x in t.disc && Settled(g, t, ap, x) && SameAround(t, t', x)
    requires x in ap' <==> x in ap
    ensures Settled(g, t', ap', x)
  {
    hide Neighbors, TreeEdges, LowAttained, Child;
    AttainedStable(g, t, t', x);
    assert ParentOf(t', x) == ParentOf(t, x);
    assert Separates(t', x) <==> Separates(t, x);
  }

  /** What entering `u` requires of its parent link and of the active path. */
  ghost predicate Enterable(g: EdgeStore, t: Forest, gray: set<Id>, u: Id) {
    u !in t.disc && u != ""
    && (if u in t.parent
        then t.parent[u] in gray && t.parent[u] != "" && u in Neighbors(g, t.parent[u]) && (forall w :: w in gray ==> Anc(t, w, t.parent[u]))
        else gray == {})
  }

  function Entered(t: Forest, u: Id, time: nat): Forest {
    t.(disc := t.disc[u := time], low := t.low[u := time])
  }

  lemma EnteredSame(g: EdgeStore, t: Forest, u: Id, time: nat, a: Id, x: Id)
    requires TreeEdges(g, t) && x in t.disc && u !in t.disc
    ensures Agrees(t, Entered(t, u, time))
    ensures Anc(Entered(t, u, time), a, x) <==> Anc(t, a, x)
  {
    AncSame(g, t, Entered(t, u, time), a, x);
  }

  lemma EnteredPath(g: EdgeStore, t: Forest, ap: set<Id>, gray: set<Id>, time: nat, u: Id, w: Id)
    requires SearchInv(g, t, ap, gray, time) && Enterable(g, t, gray, u) && w in gray
    ensures Anc(Entered(t, u, time), w, u)
  {
    hide Neighbors, NoCrossEdges, Settled;
    EnteredSame(g, t, u, time, w, t.parent[u]);
  }

  lemma EnterCross(g: EdgeStore, t: Forest, ap: set<Id>, gray: set<Id>, time: nat, u: Id)
    requires SearchInv(g, t, ap, gray, time) && Enterable(g, t, gray, u)
    ensures NoCrossEdges(g, Entered(t, u, time))
  {
    hide Neighbors, LowBounds, LowAttained;
    var t' := Entered(t, u, time);
    forall x, w | x in t'.disc && w in t'.disc && w in Neighbors(g, x)
      ensures Anc(t', x, w) || Anc(t', w, x)
    {
      if x != u && w != u {
        EnteredSame(g, t, u, time, x, w);
        EnteredSame(g, t, u, time, w, x);
      } else if x != w {
        var y := if x == u then w else x;
        assert u in Neighbors(g, y);
        assert y in gray;
        EnteredPath(g, t, ap, gray, time, u, y);
      }
    }
  }

  lemma EnterSettled(g: EdgeStore, t: Forest, ap: set<Id>, gray: set<Id>, time: nat, u: Id, x: Id)
    requires SearchInv(g, t, ap, gray, time) && Enterable(g, t, gray, u) && x in t.disc && x !in gray
    ensures Settled(g, Entered(t, u, time), ap, x)
  {
    hide Neighbors, NoCrossEdges, Settled;
    SettledStable(g, t, Entered(t, u, time), ap, ap, x);
  }

  lemma EnterTimes(t: Forest, time: nat, u: Id)
    requires Times(t, time) && u !in t.disc
    ensures Times(Entered(t, u, time), time + 1)
  {
  }

  lemma EnterShape(g: EdgeStore, t: Forest, gray: set<Id>, time: nat, u: Id)
    requires TreeEdges(g, t) && Times(t, time) && GrayPath(t, gray) && Enterable(g, t, gray, u)
    ensures TreeEdges(g, Entered(t, u, time)) && GrayPath(Entered(t, u, time), gray + {u})
  {
    hide Neighbors, Anc;
    var t' := Entered(t, u, time);
    assert Time(t', u) == time;
    assert forall x :: x in t.disc ==> Time(t', x) == Time(t, x) < time;
  }

  lemma EnterInv(g: EdgeStore, t: Forest, ap: set<Id>, gray: set<Id>, time: nat, u: Id)
    requires SearchInv(g, t, ap, gray, time) && Enterable(g, t, gray, u)
    ensures SearchInv(g, Entered(t, u, time), ap, gray + {u}, time + 1)
  {
    hide Neighbors, Settled, NoCrossEdges, TreeEdges, Times, GrayPath, Symmetric;
    EnterTimes(t, time, u);
    EnterShape(g, t, gray, time, u);
    EnterCross(g, t, ap, gray, time, u);
    forall x | x in t.disc && x !in gray
      ensures Settled(g, Entered(t, u, time), ap, x)
    {
      EnterSettled(g, t, ap, gray, time, u, x);
    }
  }

  /* ---- changes at the top of the path ---- */

  /** Any change confined to gray nodes' low values, to unvisited nodes' parent links and to gray
      nodes' membership of `ap` keeps the invariant. */
  ghost predicate TouchesGrayOnly(t: Forest, t': Forest, ap: set<Id>, ap': set<Id>, gray: set<Id>) {
    t'.disc == t.disc && t'.low.Keys == t.low.Keys
    && (forall x :: x in t.disc && x !in gray ==> LowOf(t', x) == LowOf(t, x) && (x in ap' <==> x in ap))
    && (forall x :: x in t.disc ==> (x in t'.parent <==> x in t.parent) && ParentOf(t', x) == ParentOf(t, x))
    && ap' <= t.disc.Keys
  }

  lemma TouchInv(g: EdgeStore, t: Forest, t': Forest, ap: set<Id>, ap': set<Id>, gray: set<Id>, time: nat)
    requires SearchInv(g, t, ap, gray, time) && TouchesGrayOnly(t, t', ap, ap', gray)
    ensures SearchInv(g, t', ap', gray, time)
  {
    hide Neighbors, Settled, NoCrossEdges;
    TouchCross(g, t, t', ap, ap', gray);
    forall x | x in t.disc && x !in gray
      ensures Settled(g, t', ap', x)
    {
      assert SameAround(t, t', x);
      SettledStable(g, t, t', ap, ap', x);
    }
  }

  lemma TouchCross(g: EdgeStore, t: Forest, t': Forest, ap: set<Id>, ap': set<Id>, gray: set<Id>)
    requires TreeEdges(g, t) && NoCrossEdges(g, t) && TouchesGrayOnly(t, t', ap, ap', gray)
    ensures NoCrossEdges(g, t') && TreeEdges(g, t')
  {
    hide Neighbors;
    forall x, w | x in t'.disc && w in t'.disc && w in Neighbors(g, x)
      ensures Anc(t', x, w) || Anc(t', w, x)
    {
      AncSame(g, t, t', x, w);
      AncSame(g, t, t', w, x);
    }
  }

  lemma LeaveInv(g: EdgeStore, t: Forest, ap: set<Id>, gray: set<Id>, time: nat, u: Id)
    requires SearchInv(g, t, ap, gray, time) && u in gray && (forall w :: w in gray ==> Anc(t, w, u)) && Settled(g, t, ap, u)
    ensures SearchInv(g, t, ap, gray - {u}, time)
  {
    hide Neighbors, Settled, NoCrossEdges;
    forall c | c in gray - {u} && c in t.parent
      ensures t.parent[c] in gray - {u}
    {
      AncTime(t, c, u);
      assert Time(t, t.parent[c]) < Time(t, c);
    }
  }

  /* ---- a node whose neighbours are being looked at ---- */

  /** `u`'s low value is right as far as the neighbours in `looked` and the children in `kids` go. */
  ghost predicate PartialLow(g: EdgeStore, t: Forest, u: Id, looked: set<Id>, kids: set<Id>) {
    looked <= t.disc.Keys && LowAttained(g, t, u) && LowOf(t, u) <= Time(t, u)
    && (forall w :: w in looked && w != ParentOf(t, u) ==> LowOf(t, u) <= Time(t, w))
    && (forall c :: c in kids ==> LowOf(t, u) <= LowOf(t, c))
  }

  /** `u`'s place in `ap` is right as far as the children in `kids` go. */
  ghost predicate PartialMark(t: Forest, ap: set<Id>, u: Id, kids: set<Id>) {
    u in ap <==> if ParentOf(t, u) == "" then |kids| > 1 else exists c :: c in kids && LowOf(t, c) >= Time(t, u)
  }

  /** The state of `u` after the neighbours in `looked`, `kids` being the children it has so far. */
  ghost predicate Partial(g: EdgeStore, t: Forest, ap: set<Id>, u: Id, looked: set<Id>, kids: set<Id>) {
    u in t.disc && (forall c :: c in kids <==> Child(t, u, c)) && PartialLow(g, t, u, looked, kids) && PartialMark(t, ap, u, kids)
  }

  lemma TwoDistinct(kids: set<Id>)
    ensures |kids| > 1 <==> exists c, d :: c != d && c in kids && d in kids
  {
    if |kids| > 1 {
      var c :| c in kids;
      assert |kids - {c}| > 0;
      var d :| d in kids - {c};
    }
    if c, d :| c != d && c in kids && d in kids {
      assert |kids - {c}| > 0 by {
        assert d in kids - {c};
      }
    }
  }

  lemma PartialIsSettled(g: EdgeStore, t: Forest, ap: set<Id>, u: Id, kids: set<Id>)
    requires Partial(g, t, ap, u, Neighbors(g, u), kids)
    ensures Settled(g, t, ap, u)
  {
    hide Neighbors, LowAttained;
    TwoDistinct(kids);
    assert Separates(t, u) <==> u in ap;
  }

  function Lowered(t: Forest, u: Id, m: int): Forest {
    if u in t.low && m < t.low[u] then t.(low := t.low[u := m]) else t
  }

  /** `u`'s place in `ap` after its child `v` has returned, `children` counting `v`. */
  function Marked(t: Forest, ap: set<Id>, u: Id, v: Id, children: nat): set<Id>
    requires v in t.low && u in t.disc
  {
    if (ParentOf(t, u) == "" && children > 1) || (ParentOf(t, u) != "" && t.low[v] >= t.disc[u]) then ap + {u} else ap
  }

  lemma LoweredSame(g: EdgeStore, t: Forest, u: Id, m: int, a: Id, x: Id)
    requires TreeEdges(g, t) && x in t.disc
    ensures Anc(Lowered(t, u, m), a, x) <==> Anc(t, a, x)
  {
    AncSame(g, t, Lowered(t, u, m), a, x);
  }

  lemma LoweredAttained(g: EdgeStore, t: Forest, u: Id, m: int, y: Id, w: Id)
    requires TreeEdges(g, t) && u in t.disc && LowAttained(g, t, u)
    requires y in t.disc && w in t.disc && Anc(t, u, y) && w in Neighbors(g, y) && m == Time(t, w)
    ensures LowAttained(g, Lowered(t, u, m), u)
  {
    hide Neighbors, TreeEdges;
    LoweredSame(g, t, u, m, u, y);
    if Lowered(t, u, m) == t {
    } else {
      assert Time(Lowered(t, u, m), w) == Time(t, w);
    }
  }

  /** The edge from `u` to a visited node other than its parent. */
  lemma SeeBack(g: EdgeStore, t: Forest, ap: set<Id>, u: Id, v: Id, looked: set<Id>, kids: set<Id>)
    requires TreeEdges(g, t) && Partial(g, t, ap, u, looked, kids) && v in t.disc && v in Neighbors(g, u)
    requires u in t.low && v != ParentOf(t, u) && u !in kids
    ensures Partial(g, Lowered(t, u, Time(t, v)), ap, u, looked + {v}, kids)
  {
    hide Neighbors, LowAttained, TreeEdges;
    var t' := Lowered(t, u, Time(t, v));
    assert forall c :: c in kids ==> LowOf(t', c) == LowOf(t, c);
    LoweredAttained(g, t, u, Time(t, v), u, v);
    assert forall c :: Child(Lowered(t, u, Time(t, v)), u, c) <==> Child(t, u, c);
  }

  /** The recursion into the child `v` leaves what `u` knew in place. */
  lemma PartialStable(g: EdgeStore, t: Forest, t': Forest, ap: set<Id>, ap': set<Id>, u: Id, v: Id, looked: set<Id>, kids: set<Id>)
    requires TreeEdges(g, t) && Partial(g, t, ap, u, looked, kids) && Agrees(t, t')
    requires forall x :: x in t.disc ==> LowOf(t', x) == LowOf(t, x)
    requires u in ap' <==> u in ap
    requires forall c :: c in kids ==> c in t.disc
    ensures u in t'.disc && PartialLow(g, t', u, looked, kids) && PartialMark(t', ap', u, kids)
  {
    hide Neighbors, TreeEdges, LowAttained;
    AttainedStable(g, t, t', u);
  }

  lemma ChildAttained(g: EdgeStore, t: Forest, u: Id, v: Id)
    requires TreeEdges(g, t) && Child(t, u, v) && u in t.disc && LowAttained(g, t, u) && LowAttained(g, t, v)
    requires LowOf(t, u) <= Time(t, u)
    ensures LowAttained(g, Lowered(t, u, LowOf(t, v)), u)
  {
    hide Neighbors;
    assert HasParent(t, v);
    if LowOf(t, v) == Time(t, v) {
      assert Lowered(t, u, LowOf(t, v)) == t || LowOf(t, v) < LowOf(t, u);
    } else {
      var y, w :| y in t.disc && w in t.disc && Anc(t, v, y) && w in Neighbors(g, y) && LowOf(t, v) == Time(t, w);
      AncTrans(t, u, v, y);
      LoweredAttained(g, t, u, LowOf(t, v), y, w);
    }
  }

  /** `u` takes over the low value of its child `v`. */
  lemma AdoptLow(g: EdgeStore, t: Forest, u: Id, v: Id, looked: set<Id>, kids: set<Id>)
    requires TreeEdges(g, t) && PartialLow(g, t, u, looked, kids) && Child(t, u, v) && LowAttained(g, t, v)
    requires u in t.disc && v in t.low && u in t.low && u !in kids
    ensures PartialLow(g, Lowered(t, u, LowOf(t, v)), u, looked + {v}, kids + {v})
  {
    hide Neighbors, LowAttained, TreeEdges;
    ChildAttained(g, t, u, v);
    ChildAfterParent(g, t, u, v);
  }

  /** `u` applies the rule to its child `v`. */
  lemma AdoptMark(t: Forest, ap: set<Id>, u: Id, v: Id, kids: set<Id>)
    requires PartialMark(t, ap, u, kids) && v !in kids && u != v && u !in kids
    requires u in t.disc && t.disc[u] >= 0 && v in t.low && u in t.low
    ensures PartialMark(Lowered(t, u, LowOf(t, v)), Marked(Lowered(t, u, LowOf(t, v)), ap, u, v, |kids| + 1), u, kids + {v})
  {
    var t' := Lowered(t, u, LowOf(t, v));
    assert forall c :: c in kids + {v} ==> LowOf(t', c) == LowOf(t, c);
    assert Time(t', u) == t.disc[u] && ParentOf(t', u) == ParentOf(t, u);
    assert |kids + {v}| == |kids| + 1;
  }

  lemma ChildAfterParent(g: EdgeStore, t: Forest, u: Id, v: Id)
    requires TreeEdges(g, t) && Child(t, u, v)
    ensures Time(t, u) < Time(t, v)
  {
  }

  /** `t'` adds nodes to `t`. Old nodes keep times and parents, and all but `u` keep low value and
      mark; every new node but `top` has a new parent. */
  ghost predicate Grown(t: Forest, t': Forest, ap: set<Id>, ap': set<Id>, u: Id, top: Id) {
    (forall x :: x in t.disc ==> x in t'.disc && t'.disc[x] == t.disc[x])
    && (forall x :: x in t.disc ==> (x in t'.parent <==> x in t.parent) && ParentOf(t', x) == ParentOf(t, x))
    && (forall x :: x in t.disc && x != u ==> LowOf(t', x) == LowOf(t, x) && (x in ap' <==> x in ap))
    && (forall x :: x in t'.disc && x !in t.disc && x != top ==> x in t'.parent && ParentOf(t', x) in t'.disc && ParentOf(t', x) !in t.disc)
  }

  lemma GrownTrans(t: Forest, t1: Forest, t2: Forest, ap: set<Id>, ap1: set<Id>, ap2: set<Id>, u: Id, v: Id)
    requires Grown(t, t1, ap, ap1, u, u) && Grown(t1, t2, ap1, ap2, u, v)
    requires (v == u || (v in t2.parent && ParentOf(t2, v) == u)) && u in t1.disc && u !in t.disc
    ensures Grown(t, t2, ap, ap2, u, u)
  {
  }

  /* ---- the program ---- */

  /** Every neighbour of a node of `universe` is in it, and none has the empty ID. */
  ghost predicate ClosedUniverse(g: EdgeStore, universe: set<Id>) {
    "" !in universe && forall x, y :: x in universe && y in Neighbors(g, x) ==> y in universe
  }

  /** The loops over the edges of `u`, either way. */
  method CollectNeighbors(g: EdgeStore, u: Id) returns (neighbors: set<Id>)
    ensures neighbors == Neighbors(g, u)
  {
    neighbors := {};
    var out, into := Edges(g.outbound, u), Edges(g.inbound, u);
    for i := 0 to |out|
      invariant neighbors == set k | 0 <= k < i :: out[k].target
    {
      neighbors := neighbors + {out[i].target};
    }
    ghost var targets := neighbors;
    for i := 0 to |into|
      invariant neighbors == targets + set k | 0 <= k < i :: into[k].source
    {
      neighbors := neighbors + {into[i].source};
    }
  }

  /** The variables FindArticulationPoints captures; `gray` is bookkeeping for the proof. */
  class CutSearch {
    const g: EdgeStore
    var visited: set<Id>
    var discoveryTime: map<Id, int>
    var low: map<Id, int>
    var parent: map<Id, Id>
    var apSet: set<Id>
    var timeCounter: nat
    ghost var gray: set<Id>

    constructor (g: EdgeStore)
      requires Symmetric(g)
      ensures Valid() && this.g == g && gray == {} && visited == {} && parent == map[]
    {
      this.g := g;
      visited, discoveryTime, low, parent, apSet, timeCounter, gray := {}, map[], map[], map[], {}, 0, {};
    }

    function Tree(): Forest
      reads this
    {
      Forest(discoveryTime, low, parent)
    }

    ghost predicate Valid()
      reads this
    {
      SearchInv(g, Tree(), apSet, gray, timeCounter) && visited == discoveryTime.Keys && parent.Keys <= visited
    }

    /** The active path ends in `u`. */
    ghost predicate EndsIn(u: Id)
      reads this
    {
      u in gray && forall w :: w in gray ==> Anc(Tree(), w, u)
    }
  
    method Enter(u: Id)
      requires SearchInv(g, Tree(), apSet, gray, timeCounter) && visited == discoveryTime.Keys && parent.Keys <= visited + {u}
      requires Enterable(g, Tree(), gray, u)
      modifies this
      ensures Valid() && EndsIn(u) && gray == old(gray) + {u} && visited == old(visited) + {u}
      ensures Grown(old(Tree()), Tree(), old(apSet), apSet, u, u) && Partial(g, Tree(), apSet, u, {}, {})
      ensures parent == old(parent)
    {
      hide SearchInv, Neighbors, Grown, Partial, Enterable, Anc;
      EnterGrown(g, Tree(), apSet, gray, u, timeCounter);
      EnterInv(g, Tree(), apSet, gray, timeCounter, u);
      EnterPath(g, Tree(), apSet, gray, timeCounter, u);
      EnterPartial(g, Tree(), apSet, gray, timeCounter, u);
      visited, gray := visited + {u}, gray + {u};
      discoveryTime, low := discoveryTime[u := timeCounter], low[u := timeCounter];
      timeCounter := timeCounter + 1;
    }

    /** The neighbour `v` of `u` is new: it becomes a child of `u` and is traversed. */
    method VisitChild(u: Id, v: Id, children: nat, ghost looked: set<Id>, ghost kids: set<Id>, ghost universe: set<Id>, ghost origin: Id)
      requires Valid() && EndsIn(u) && v in Neighbors(g, u) && v !in visited && Partial(g, Tree(), apSet, u, looked, kids)
      requires children == |kids| + 1 && ClosedUniverse(g, universe) && visited <= universe && Joined(g, {}, origin, u)
      modifies this
      ensures Valid() && EndsIn(u) && gray == old(gray) && old(visited) + {v} <= visited <= universe
      ensures Partial(g, Tree(), apSet, u, looked + {v}, kids + {v})
      ensures Grown(old(Tree()), Tree(), old(apSet), apSet, u, v) && v in parent && parent[v] == u
      ensures v !in kids && (u in parent <==> u in old(parent)) && ParentOf(Tree(), u) == old(ParentOf(Tree(), u))
      ensures forall x :: x in visited ==> x in old(visited) || Joined(g, {}, origin, x)
      decreases universe - visited, 1
    {
      hide SearchInv, Neighbors, Partial, Grown, Joined, Anc, Enterable, Lowered, Marked, LowOf, Time;
      ghost var t, ap, time := Tree(), apSet, timeCounter;
      TopVisited(g, t, ap, gray, time, u);
      InUniverse(g, universe, u, v);
      LinkEnterable(g, t, ap, gray, time, u, v);
      JoinedStep(g, {}, origin, u, v);
      parent := parent[v := u];
      Dfs(v, universe, origin);
      ghost var t2, ap2 := Tree(), apSet;
      ChildReturned(g, t, t2, ap, ap2, gray, time, timeCounter, u, v, looked, kids);
      ReturnInv(g, t, t2, ap, ap2, gray, time, timeCounter, u, v, children);
      TopVisited(g, t2, ap2, gray, timeCounter, u);
      PartialKids(g, t, ap, u, looked, kids);
      GrownKeeps(t, t2, ap, ap2, u, v, kids);
      Adopt(u, v, children);
    }

    /** After the recursion: `u` takes over `v`'s low value and applies the rule to `v`. */
    method Adopt(u: Id, v: Id, children: nat)
      requires v in low && u in low && u in discoveryTime
      modifies this`low, this`apSet
      ensures Tree() == Lowered(old(Tree()), u, old(LowOf(Tree(), v))) && v in low
      ensures apSet == Marked(Tree(), old(apSet), u, v, children)
    {
      if low[v] < low[u] {
        low := low[u := low[v]];
      }
      if ParentOf(Tree(), u) == "" && children > 1 {
        apSet := apSet + {u};
      }
      if ParentOf(Tree(), u) != "" && low[v] >= discoveryTime[u] {
        apSet := apSet + {u};
      }
    }

    /** The loop body of dfs: one neighbour `v` of `u`. */
    method Look(u: Id, v: Id, children: nat, ghost looked: set<Id>, ghost kids: set<Id>, ghost universe: set<Id>, ghost origin: Id)
        returns (children': nat, ghost kids': set<Id>)
      requires Valid() && EndsIn(u) && v in Neighbors(g, u) && Partial(g, Tree(), apSet, u, looked, kids)
      requires children == |kids| && ClosedUniverse(g, universe) && visited <= universe && Joined(g, {}, origin, u)
      modifies this
      ensures Valid() && EndsIn(u) && gray == old(gray) && old(visited) <= visited <= universe
      ensures Partial(g, Tree(), apSet, u, looked + {v}, kids') && children' == |kids'|
      ensures (u in parent <==> u in old(parent)) && ParentOf(Tree(), u) == old(ParentOf(Tree(), u))
      ensures forall x :: x in visited ==> x in old(visited) || Joined(g, {}, origin, x)
      ensures if v in old(visited) then Grown(old(Tree()), Tree(), old(apSet), apSet, u, u)
              else Grown(old(Tree()), Tree(), old(apSet), apSet, u, v) && v in parent && ParentOf(Tree(), v) == u
      decreases universe - visited, 2
    {
      hide SearchInv, Neighbors, Partial, Grown, Joined, Anc, Enterable, ClosedUniverse;
      children', kids' := children, kids;
      if v !in visited {
        children' := children' + 1;
        VisitChild(u, v, children', looked, kids, universe, origin);
        kids' := kids + {v};
      } else {
        SeeVisited(u, v, looked, kids);
      }
    }

    /** dfs: the traversal of `u` and of everything new behind it. */
    method Dfs(u: Id, ghost universe: set<Id>, ghost origin: Id)
      requires SearchInv(g, Tree(), apSet, gray, timeCounter) && visited == discoveryTime.Keys && parent.Keys <= visited + {u}
      requires u !in visited && Enterable(g, Tree(), gray, u) && ClosedUniverse(g, universe) && visited + {u} <= universe && Joined(g, {}, origin, u)
      modifies this
      ensures Valid() && gray == old(gray) && old(visited) + {u} <= visited <= universe
      ensures Grown(old(Tree()), Tree(), old(apSet), apSet, u, u) && (u in parent <==> u in old(parent)) && ParentOf(Tree(), u) == old(ParentOf(Tree(), u))
      ensures forall x :: x in visited ==> x in old(visited) || Joined(g, {}, origin, x)
      decreases universe - visited, 0
    {
      hide SearchInv, Neighbors, Partial, Grown, Joined, Anc, Enterable, ClosedUniverse;
      ghost var t, ap := Tree(), apSet;
      GrayVisited(g, t, ap, gray, timeCounter);
      assert u in universe - visited && u !in gray;
      Enter(u);
      var children := 0;
      var neighbors := CollectNeighbors(g, u);
      ghost var looked: set<Id>, kids: set<Id> := {}, {};
      var todo := neighbors;
      while todo != {}
        invariant Valid() && EndsIn(u) && gray == old(gray) + {u} && old(visited) + {u} <= visited <= universe
        invariant Partial(g, Tree(), apSet, u, looked, kids) && looked + todo == neighbors && |kids| == children
        invariant Grown(t, Tree(), ap, apSet, u, u) && (u in parent <==> u in old(parent)) && ParentOf(Tree(), u) == old(ParentOf(Tree(), u))
        invariant forall x :: x in visited ==> x in old(visited) || Joined(g, {}, origin, x)
        decreases todo
      {
        var v :| v in todo;
        todo := todo - {v};
        ghost var t1, ap1, top := Tree(), apSet, if v in visited then u else v;
        children, kids := Look(u, v, children, looked, kids, universe, origin);
        GrownTrans(t, t1, Tree(), ap, ap1, apSet, u, top);
        looked := looked + {v};
      }
      LeaveTop(g, Tree(), apSet, gray, timeCounter, u, kids);
      gray := gray - {u};
    }

    /** The neighbour `v` of `u` has been visited before. */
    method SeeVisited(u: Id, v: Id, ghost looked: set<Id>, ghost kids: set<Id>)
      requires Valid() && EndsIn(u) && v in visited && v in Neighbors(g, u) && Partial(g, Tree(), apSet, u, looked, kids)
      modifies this`low
      ensures Valid() && EndsIn(u) && Partial(g, Tree(), apSet, u, looked + {v}, kids)
      ensures Grown(old(Tree()), Tree(), apSet, apSet, u, u)
    {
      hide SearchInv, Neighbors, Partial;
      if v != ParentOf(Tree(), u) {
        SeeBackAll(g, Tree(), apSet, gray, timeCounter, u, v, looked, kids);
        if discoveryTime[v] < low[u] {
          low := low[u := discoveryTime[v]];
        }
      } else {
        SeeParent(g, Tree(), apSet, u, v, looked, kids);
      }
    }
  }

  /* ---- the recursion ---- */

  function Linked(t: Forest, v: Id, u: Id): Forest { t.(parent := t.parent[v := u]) }

  lemma LinkEnterable(g: EdgeStore, t: Forest, ap: set<Id>, gray: set<Id>, time: nat, u: Id, v: Id)
    requires SearchInv(g, t, ap, gray, time) && u in gray && (forall w :: w in gray ==> Anc(t, w, u))
    requires v !in t.disc && v != "" && u != "" && v in Neighbors(g, u)
    ensures SearchInv(g, Linked(t, v, u), ap, gray, time) && Enterable(g, Linked(t, v, u), gray, v)
  {
    hide Neighbors, Settled, NoCrossEdges, Anc, SearchInv;
    Facts(g, t, ap, gray, time);
    MarkedVisited(g, t, ap, gray, time, u);
    TouchInv(g, t, Linked(t, v, u), ap, ap, gray, time);
    forall w | w in gray
      ensures Anc(Linked(t, v, u), w, u)
    {
      AncSame(g, t, Linked(t, v, u), w, u);
    }
  }

  lemma GrownAgrees(t: Forest, t2: Forest, ap: set<Id>, ap2: set<Id>, u: Id, v: Id, time: nat)
    requires v !in t.disc && Grown(Linked(t, v, u), t2, ap, ap2, v, v) && Times(t, time)
    ensures Agrees(t, t2) && (forall x :: x in t.disc ==> LowOf(t2, x) == LowOf(t, x) && (x in ap2 <==> x in ap))
  {
  }

  lemma GrownChildren(t: Forest, t2: Forest, ap: set<Id>, ap2: set<Id>, u: Id, v: Id)
    requires u in t.disc && v !in t.disc && v in t2.disc && Grown(Linked(t, v, u), t2, ap, ap2, v, v)
    requires v in t2.parent && ParentOf(t2, v) == u
    ensures forall c :: Child(t2, u, c) <==> Child(t, u, c) || c == v
  {
    forall c
      ensures Child(t2, u, c) <==> Child(t, u, c) || c == v
    {
      if c in t.disc {
        assert ParentOf(t2, c) == ParentOf(Linked(t, v, u), c);
      }
    }
  }

  lemma PartialKids(g: EdgeStore, t: Forest, ap: set<Id>, u: Id, looked: set<Id>, kids: set<Id>)
    requires Partial(g, t, ap, u, looked, kids)
    ensures u in t.disc && forall c :: c in kids ==> Child(t, u, c)
  {
    hide PartialLow, PartialMark;
  }

  lemma GrownKeeps(t: Forest, t2: Forest, ap: set<Id>, ap2: set<Id>, u: Id, v: Id, kids: set<Id>)
    requires v !in t.disc && u in t.disc && Grown(Linked(t, v, u), t2, ap, ap2, v, v) && forall c :: c in kids ==> Child(t, u, c)
    ensures v !in kids && (u in t2.parent <==> u in t.parent) && ParentOf(t2, u) == ParentOf(t, u)
  {
  }

  lemma Facts(g: EdgeStore, t: Forest, ap: set<Id>, gray: set<Id>, time: nat)
    requires SearchInv(g, t, ap, gray, time)
    ensures TreeEdges(g, t) && Times(t, time) && ap <= t.disc.Keys
    ensures forall x :: x in t.disc && x !in gray ==> LowAttained(g, t, x)
  {
    hide Neighbors, LowAttained, LowBounds;
    forall x | x in t.disc && x !in gray
      ensures LowAttained(g, t, x)
    {
      assert Settled(g, t, ap, x);
    }
  }

  /** What `u` has been through carries over the visit of its new child `v`. */
  lemma ChildInherited(g: EdgeStore, t: Forest, t2: Forest, ap: set<Id>, ap2: set<Id>, gray: set<Id>, time: nat, time2: nat,
                       u: Id, v: Id, looked: set<Id>, kids: set<Id>)
    requires SearchInv(g, t, ap, gray, time) && Partial(g, t, ap, u, looked, kids) && u in gray && v !in t.disc && v !in gray
    requires Grown(Linked(t, v, u), t2, ap, ap2, v, v) && SearchInv(g, t2, ap2, gray, time2) && v in t2.disc
    requires v in t2.parent && ParentOf(t2, v) == u
    ensures TreeEdges(g, t2) && Times(t2, time2) && PartialLow(g, t2, u, looked, kids) && PartialMark(t2, ap2, u, kids)
    ensures u in t2.disc && LowAttained(g, t2, v) && v !in kids && u !in kids && u != v
    ensures forall c :: Child(t2, u, c) <==> c in kids || c == v
  {
    hide Neighbors, SearchInv, Grown, TreeEdges, PartialLow, PartialMark, LowAttained, Anc;
    Facts(g, t, ap, gray, time);
    Facts(g, t2, ap2, gray, time2);
    GrownAgrees(t, t2, ap, ap2, u, v, time);
    GrownChildren(t, t2, ap, ap2, u, v);
    NotOwnChild(g, t, u);
    PartialStable(g, t, t2, ap, ap2, u, v, looked, kids);
  }

  lemma HasTimes(t: Forest, time: nat, x: Id)
    requires Times(t, time) && x in t.disc
    ensures x in t.low && t.disc[x] >= 0 && Time(t, x) == t.disc[x]
  {
  }

  lemma SameForest(t: Forest, u: Id, low: int)
    requires u in t.disc
    ensures u in Lowered(t, u, low).disc && forall c :: Child(Lowered(t, u, low), u, c) <==> Child(t, u, c)
  {
  }

  lemma ChildReturned(g: EdgeStore, t: Forest, t2: Forest, ap: set<Id>, ap2: set<Id>, gray: set<Id>, time: nat, time2: nat,
                      u: Id, v: Id, looked: set<Id>, kids: set<Id>)
    requires SearchInv(g, t, ap, gray, time) && Partial(g, t, ap, u, looked, kids) && u in gray && v !in t.disc && v !in gray
    requires Grown(Linked(t, v, u), t2, ap, ap2, v, v) && SearchInv(g, t2, ap2, gray, time2) && v in t2.disc
    requires v in t2.parent && ParentOf(t2, v) == u
    ensures v in t2.low && u in t2.disc
    ensures var t3 := Lowered(t2, u, LowOf(t2, v));
            Partial(g, t3, Marked(t3, ap2, u, v, |kids| + 1), u, looked + {v}, kids + {v})
  {
    hide Neighbors, SearchInv, Grown, TreeEdges, PartialLow, PartialMark, LowAttained, Marked, Anc, Times, Child, Lowered, LowOf;
    ChildInherited(g, t, t2, ap, ap2, gray, time, time2, u, v, looked, kids);
    HasTimes(t2, time2, u);
    HasTimes(t2, time2, v);
    AdoptLow(g, t2, u, v, looked, kids);
    AdoptMark(t2, ap2, u, v, kids);
    SameForest(t2, u, LowOf(t2, v));
  }

  lemma ReturnInv(g: EdgeStore, t: Forest, t2: Forest, ap: set<Id>, ap2: set<Id>, gray: set<Id>, time: nat, time2: nat, u: Id, v: Id, n: nat)
    requires SearchInv(g, t, ap, gray, time) && u in gray && v !in t.disc && (forall w :: w in gray ==> Anc(t, w, u))
    requires Grown(Linked(t, v, u), t2, ap, ap2, v, v) && SearchInv(g, t2, ap2, gray, time2) && v in t2.disc
    requires v in t2.parent && ParentOf(t2, v) == u
    ensures v in t2.low && u in t2.disc
    ensures var t3 := Lowered(t2, u, LowOf(t2, v));
            SearchInv(g, t3, Marked(t3, ap2, u, v, n), gray, time2)
            && (forall w :: w in gray ==> Anc(t3, w, u)) && Grown(t, t3, ap, Marked(t3, ap2, u, v, n), u, v)
  {
    hide Neighbors, SearchInv, Grown, TreeEdges, Anc, LowAttained, Times;
    var t3 := Lowered(t2, u, LowOf(t2, v));
    Facts(g, t, ap, gray, time);
    Facts(g, t2, ap2, gray, time2);
    TopVisited(g, t, ap, gray, time, u);
    TopVisited(g, t2, ap2, gray, time2, u);
    MarkedVisited(g, t2, ap2, gray, time2, u);
    GrownAgrees(t, t2, ap, ap2, u, v, time);
    TouchInv(g, t2, t3, ap2, Marked(t3, ap2, u, v, n), gray, time2);
    forall w | w in gray
      ensures Anc(t3, w, u)
    {
      AncSame(g, t, t2, w, u);
      LoweredSame(g, t2, u, LowOf(t2, v), w, u);
    }
    ReturnGrown(t, t2, ap, ap2, u, v, n);
  }

  lemma MarkedVisited(g: EdgeStore, t: Forest, ap: set<Id>, gray: set<Id>, time: nat, u: Id)
    requires SearchInv(g, t, ap, gray, time) && u in gray
    ensures u in t.disc && ap <= t.disc.Keys
  {
    hide Neighbors, Settled;
  }

  lemma ReturnGrown(t: Forest, t2: Forest, ap: set<Id>, ap2: set<Id>, u: Id, v: Id, n: nat)
    requires v !in t.disc && u in t.disc && v in t2.low && Grown(Linked(t, v, u), t2, ap, ap2, v, v)
    requires v in Lowered(t2, u, LowOf(t2, v)).low && u in t2.disc
    ensures Grown(t, Lowered(t2, u, LowOf(t2, v)), ap, Marked(Lowered(t2, u, LowOf(t2, v)), ap2, u, v, n), u, v)
  {
  }

  lemma EnterGrown(g: EdgeStore, t: Forest, ap: set<Id>, gray: set<Id>, u: Id, time: nat)
    requires Enterable(g, t, gray, u)
    ensures Grown(t, Entered(t, u, time), ap, ap, u, u)
  {
    hide Neighbors, Anc;
  }

  lemma EnterPath(g: EdgeStore, t: Forest, ap: set<Id>, gray: set<Id>, time: nat, u: Id)
    requires SearchInv(g, t, ap, gray, time) && Enterable(g, t, gray, u)
    ensures forall w :: w in gray + {u} ==> Anc(Entered(t, u, time), w, u)
  {
    hide SearchInv;
    forall w | w in gray
      ensures Anc(Entered(t, u, time), w, u)
    {
      EnteredPath(g, t, ap, gray, time, u, w);
    }
  }

  lemma EnterPartial(g: EdgeStore, t: Forest, ap: set<Id>, gray: set<Id>, time: nat, u: Id)
    requires SearchInv(g, t, ap, gray, time) && Enterable(g, t, gray, u)
    ensures Partial(g, Entered(t, u, time), ap, u, {}, {})
  {
    hide Neighbors, NoCrossEdges, Settled;
  }

  lemma LoweredTouches(g: EdgeStore, t: Forest, ap: set<Id>, gray: set<Id>, u: Id, m: int)
    requires TreeEdges(g, t) && u in gray && ap <= t.disc.Keys
    ensures TouchesGrayOnly(t, Lowered(t, u, m), ap, ap, gray)
  {
    hide Neighbors;
  }

  lemma SeeBackAll(g: EdgeStore, t: Forest, ap: set<Id>, gray: set<Id>, time: nat, u: Id, v: Id, looked: set<Id>, kids: set<Id>)
    requires SearchInv(g, t, ap, gray, time) && u in gray && v in t.disc && v in Neighbors(g, u) && v != ParentOf(t, u)
    requires Partial(g, t, ap, u, looked, kids) && (forall w :: w in gray ==> Anc(t, w, u))
    ensures SearchInv(g, Lowered(t, u, Time(t, v)), ap, gray, time) && Partial(g, Lowered(t, u, Time(t, v)), ap, u, looked + {v}, kids)
    ensures forall w :: w in gray ==> Anc(Lowered(t, u, Time(t, v)), w, u)
    ensures u in t.low && Time(t, v) == t.disc[v]
  {
    hide Neighbors, SearchInv, TreeEdges, PartialLow, PartialMark, Anc, Times, Lowered, TouchesGrayOnly, Child;
    var t' := Lowered(t, u, Time(t, v));
    Facts(g, t, ap, gray, time);
    NotOwnChild(g, t, u);
    HasTimes(t, time, u);
    HasTimes(t, time, v);
    SeeBack(g, t, ap, u, v, looked, kids);
    LoweredTouches(g, t, ap, gray, u, Time(t, v));
    TouchInv(g, t, t', ap, ap, gray, time);
    forall w | w in gray
      ensures Anc(t', w, u)
    {
      LoweredSame(g, t, u, Time(t, v), w, u);
    }
  }

  lemma GrayVisited(g: EdgeStore, t: Forest, ap: set<Id>, gray: set<Id>, time: nat)
    requires SearchInv(g, t, ap, gray, time)
    ensures gray <= t.disc.Keys
  {
    hide Neighbors, Settled, NoCrossEdges, TreeEdges, Symmetric;
  }

  lemma TopVisited(g: EdgeStore, t: Forest, ap: set<Id>, gray: set<Id>, time: nat, u: Id)
    requires SearchInv(g, t, ap, gray, time) && u in gray
    ensures u in t.disc && u in t.low && t.low.Keys == t.disc.Keys && gray <= t.disc.Keys
  {
    hide Neighbors, Settled;
  }

  lemma InUniverse(g: EdgeStore, universe: set<Id>, u: Id, v: Id)
    requires ClosedUniverse(g, universe) && u in universe && v in Neighbors(g, u)
    ensures v in universe && v != "" && u != ""
  {
    hide Neighbors;
  }

  lemma LeaveTop(g: EdgeStore, t: Forest, ap: set<Id>, gray: set<Id>, time: nat, u: Id, kids: set<Id>)
    requires SearchInv(g, t, ap, gray, time) && u in gray && (forall w :: w in gray ==> Anc(t, w, u))
    requires Partial(g, t, ap, u, Neighbors(g, u), kids)
    ensures SearchInv(g, t, ap, gray - {u}, time)
  {
    hide SearchInv, Partial, Settled;
    PartialIsSettled(g, t, ap, u, kids);
    LeaveInv(g, t, ap, gray, time, u);
  }

  lemma NotOwnChild(g: EdgeStore, t: Forest, u: Id)
    requires TreeEdges(g, t)
    ensures !Child(t, u, u)
  {
  }

  lemma SeeParent(g: EdgeStore, t: Forest, ap: set<Id>, u: Id, v: Id, looked: set<Id>, kids: set<Id>)
    requires Partial(g, t, ap, u, looked, kids) && v in t.disc && v == ParentOf(t, u)
    ensures Partial(g, t, ap, u, looked + {v}, kids)
  {
    hide LowAttained, Neighbors;
  }

  /* ---- the whole search ---- */

  ghost predicate NonEmptyIds(g: EdgeStore) {
    "" !in g.nodeIds && forall x, y :: y in Neighbors(g, x) ==> y != ""
  }

  /** `a` hangs together with some stored node. */
  ghost predicate Touched(g: EdgeStore, a: Id) {
    exists r :: r in g.nodeIds && Joined(g, {}, r, a)
  }

  ghost function Universe(g: EdgeStore): set<Id> {
    (set i | 0 <= i < |g.nodeIds| :: g.nodeIds[i])
    + (set x, k | x in g.outbound && 0 <= k < |g.outbound[x]| :: g.outbound[x][k].target)
    + (set x, k | x in g.inbound && 0 <= k < |g.inbound[x]| :: g.inbound[x][k].source)
  }

  lemma UniverseClosed(g: EdgeStore)
    requires NonEmptyIds(g) && Symmetric(g)
    ensures ClosedUniverse(g, Universe(g) - {""}) && (forall r :: r in g.nodeIds ==> r in Universe(g) - {""})
  {
    hide Symmetric;
    forall x, y | y in Neighbors(g, x)
      ensures y in Universe(g)
    {
      if k :| 0 <= k < |Edges(g.outbound, x)| && Edges(g.outbound, x)[k].target == y {
      } else {
        var k :| 0 <= k < |Edges(g.inbound, x)| && Edges(g.inbound, x)[k].source == y;
      }
    }
  }

  lemma SearchFinished(g: EdgeStore, t: Forest, ap: set<Id>, time: nat)
    requires SearchInv(g, t, ap, {}, time)
    ensures CutVertices.Finished(g, t) && forall a :: a in ap <==> a in t.disc && IsCutVertex(g, a)
  {
    hide Neighbors, NoCrossEdges, LowBounds, LowAttained, Separates, IsCutVertex;
    assert forall x :: x in t.disc ==> Settled(g, t, ap, x);
    forall a | a in t.disc
      ensures a in ap <==> IsCutVertex(g, a)
    {
      RuleIsExact(g, t, a);
    }
  }

  lemma VisitedIsTouched(g: EdgeStore, t: Forest, a: Id)
    requires CutVertices.Finished(g, t) && (forall r :: r in g.nodeIds ==> r in t.disc) && Touched(g, a)
    ensures a in t.disc
  {
    hide CutVertices.Finished;
    var r :| r in g.nodeIds && Joined(g, {}, r, a);
    var n := JoinedLength(g, {}, r, a);
    JoinedSameRoot(g, t, {}, n, r, a);
  }

  /** The traversal from every node in turn; the result lists the nodes of apSet in any order. */
  method FindArticulationPoints(g: EdgeStore) returns (points: seq<Id>)
    requires Mirrored(g) && NonEmptyIds(g)
    ensures forall i, j :: 0 <= i < j < |points| ==> points[i] != points[j]
    ensures forall a :: a in points <==> Touched(g, a) && IsCutVertex(g, a)
  {
    hide SearchInv, Neighbors, Grown, Joined, IsCutVertex, ClosedUniverse, Universe, NonEmptyIds, CutVertices.Finished;
    MirroredIsSymmetric(g);
    UniverseClosed(g);
    ghost var universe := Universe(g) - {""};
    var search := new CutSearch(g);
    for i := 0 to |g.nodeIds|
      invariant search.Valid() && search.gray == {} && search.visited <= universe
      invariant forall j :: 0 <= j < i ==> g.nodeIds[j] in search.visited
      invariant forall x :: x in search.visited ==> Touched(g, x)
    {
      var id := g.nodeIds[i];
      if id !in search.visited {
        JoinedRefl(g, {}, id);
        search.Dfs(id, universe, id);
      }
    }
    SearchFinished(g, search.Tree(), search.apSet, search.timeCounter);
    forall a | Touched(g, a)
      ensures a in search.visited
    {
      VisitedIsTouched(g, search.Tree(), a);
    }
    points := [];
    var rest := search.apSet;
    while rest != {}
      invariant rest <= search.apSet && (forall a :: a in points <==> a in search.apSet - rest)
      invariant forall i, j :: 0 <= i < j < |points| ==> points[i] != points[j]
    {
      var ap :| ap in rest;
      assert ap !in points;
      points, rest := points + [ap], rest - {ap};
    }
  }

  lemma WithoutNeighbors(g: EdgeStore, a: Id, n: nat, x: Id, y: Id)
    requires Symmetric(g) && (forall z :: z !in Neighbors(g, a)) && x != a && JoinedIn(g, {}, n, x, y)
    ensures y != a && Joined(g, {a}, x, y)
    decreases n
  {
    hide Neighbors, Joined;
    if n == 0 {
      JoinedRefl(g, {a}, x);
    } else {
      var z :| JoinedIn(g, {}, n - 1, x, z) && y in Neighbors(g, z);
      WithoutNeighbors(g, a, n - 1, x, z);
      assert z in Neighbors(g, y);
      JoinedStep(g, {a}, x, z, y);
    }
  }

  /** When every endpoint of an edge is a stored node, the report is all cut vertices of the graph. */
  lemma EveryCutVertexIsTouched(g: EdgeStore, a: Id)
    requires Symmetric(g) && IsCutVertex(g, a) && forall x, y :: y in Neighbors(g, x) ==> x in g.nodeIds
    ensures Touched(g, a)
  {
    hide Neighbors, Joined;
    var x, y :| x != a && y != a && Joined(g, {}, x, y) && !Joined(g, {a}, x, y);
    if forall z :: z !in Neighbors(g, a) {
      var n := JoinedLength(g, {}, x, y);
      WithoutNeighbors(g, a, n, x, y);
    }
    JoinedRefl(g, {}, a);
  }
}
