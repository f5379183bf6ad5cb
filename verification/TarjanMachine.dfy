/** Tarjan's algorithm as an abstract machine. Its states are the variables the two Go versions
    share; its steps (Push, Advance, Lower, Drop, Emit) are what both do to them. Module Scc holds
    the two programs and proves that each run is a run of this machine. */
module TarjanMachine {
  import opened Graphs

  datatype Frame = Frame(v: Id, next: nat)

  datatype State = State(index: nat, indices: map<Id, int>, lowlink: map<Id, int>,
                         stack: seq<Id>, frames: seq<Frame>, result: seq<seq<Id>>)

  function Elements(s: seq<Id>): set<Id> { set x | x in s }

  ghost function Num(s: State, x: Id): int { if x in s.indices then s.indices[x] else -1 }

  ghost function LowOf(s: State, x: Id): int { if x in s.lowlink then s.lowlink[x] else -1 }

  /** The numbers of frame `i`'s stretch of the stack lie below this bound. */
  ghost function Ceiling(s: State, i: int): int {
    if 0 <= i && i + 1 < |s.frames| then Num(s, s.frames[i + 1].v) else s.index
  }

  ghost predicate Numbering(s: State) {
    s.lowlink.Keys == s.indices.Keys
    && (forall v :: v in s.indices ==> 0 <= Num(s, v) < s.index)
    && (forall i :: 0 <= i < |s.stack| ==> s.stack[i] in s.indices)
    && (forall i, j :: 0 <= i < j < |s.stack| ==> Num(s, s.stack[i]) < Num(s, s.stack[j]))
  }

  /** The frames are the active path: on the stack, numbered in order, the stack starting with them. */
  ghost predicate ActivePath(g: Adjacency, s: State) {
    (forall i :: 0 <= i < |s.frames| ==> s.frames[i].v in s.stack)
    && (forall i, j :: 0 <= i < j < |s.frames| ==> Num(s, s.frames[i].v) < Num(s, s.frames[j].v))
    && (s.frames == [] ==> s.stack == [])
    && (s.frames != [] ==> forall y :: y in s.stack ==> Num(s, s.frames[0].v) <= Num(s, y))
  }

  /** An edge from `x` to `y` that has been looked at. */
  ghost predicate Scanned(g: Adjacency, s: State, x: Id, y: Id) {
    x in s.indices
    && exists k :: 0 <= k < |Edges(g, x)| && Edges(g, x)[k].target == y
                   && forall i :: 0 <= i < |s.frames| && s.frames[i].v == x ==> k < s.frames[i].next
  }

  ghost predicate ScannedAreVisited(g: Adjacency, s: State) {
    forall x, y :: Scanned(g, s, x, y) ==> y in s.indices
  }

  ghost function Done(s: State): set<Id> { s.indices.Keys - Elements(s.stack) }

  ghost predicate Output(g: Adjacency, s: State) {
    Closed(g, Done(s))
    && (forall r :: 0 <= r < |s.result| ==> |s.result[r]| > 0 && IsScc(g, Elements(s.result[r])) && Elements(s.result[r]) <= Done(s))
    && (forall v :: v in Done(s) ==> exists r :: 0 <= r < |s.result| && v in s.result[r])
    && (forall q, r :: 0 <= q < r < |s.result| ==> Elements(s.result[q]) !! Elements(s.result[r]))
    && (forall r, i, j :: 0 <= r < |s.result| && 0 <= i < j < |s.result[r]| ==> s.result[r][i] != s.result[r][j])
  }

  /** Frame `i` reaches everything numbered above it, and everything below its ceiling reaches it. */
  ghost predicate Linked(g: Adjacency, s: State, i: int) {
    0 <= i < |s.frames| ==>
      (forall y :: y in s.stack && Num(s, s.frames[i].v) <= Num(s, y) ==> Reach(g, s.frames[i].v, y))
      && (forall y :: y in s.stack && Num(s, y) < Ceiling(s, i) ==> Reach(g, y, s.frames[i].v))
  }

  ghost predicate Connected(g: Adjacency, s: State) {
    forall i :: Linked(g, s, i)
  }

  ghost predicate LowWitness(g: Adjacency, s: State, v: Id) {
    LowOf(s, v) <= Num(s, v) && exists y :: y in s.stack && Num(s, y) == LowOf(s, v) && Reach(g, v, y)
  }

  /** No scanned edge between stack nodes leaves [from, to) for a number below `low`. */
  ghost predicate LowBound(g: Adjacency, s: State, from: int, to: int, low: int) {
    forall x, y :: x in s.stack && y in s.stack && Scanned(g, s, x, y) && from <= Num(s, x) < to ==> low <= Num(s, y)
  }

  ghost predicate FrameLow(g: Adjacency, s: State, i: int) {
    0 <= i < |s.frames| ==>
      LowWitness(g, s, s.frames[i].v)
      && LowBound(g, s, Num(s, s.frames[i].v), Ceiling(s, i), LowOf(s, s.frames[i].v))
  }

  ghost predicate Low(g: Adjacency, s: State) {
    forall i :: FrameLow(g, s, i)
  }

  ghost predicate Inv(g: Adjacency, s: State) {
    Numbering(s) && ActivePath(g, s) && ScannedAreVisited(g, s) && Output(g, s) && Connected(g, s) && Low(g, s)
  }

  /* ---- discovering a node ---- */

  function Push(s: State, v: Id): State {
    s.(index := s.index + 1, indices := s.indices[v := s.index], lowlink := s.lowlink[v := s.index],
       stack := s.stack + [v], frames := s.frames + [Frame(v, 0)])
  }

  function Last(s: State): Frame requires s.frames != [] { s.frames[|s.frames| - 1] }

  lemma PushNumbering(s: State, w: Id)
    requires Numbering(s) && w !in s.indices
    ensures Numbering(Push(s, w))
  {
    var t := Push(s, w);
    forall i, j | 0 <= i < j < |t.stack|
      ensures Num(t, t.stack[i]) < Num(t, t.stack[j])
    {
      assert t.stack[i] == s.stack[i];
    }
  }

  lemma PushPath(g: Adjacency, s: State, w: Id)
    requires Numbering(s) && ActivePath(g, s) && w !in s.indices
    ensures ActivePath(g, Push(s, w))
  {
    var t := Push(s, w);
    assert forall x :: x in s.stack ==> Num(t, x) == Num(s, x) < s.index;
    forall i, j | 0 <= i < j < |t.frames|
      ensures Num(t, t.frames[i].v) < Num(t, t.frames[j].v)
    {
      assert t.frames[i] == s.frames[i] && s.frames[i].v in s.stack;
    }
  }

  lemma PushScanned(g: Adjacency, s: State, w: Id, x: Id, y: Id)
    requires w !in s.indices && Scanned(g, Push(s, w), x, y)
    ensures x != w && Scanned(g, s, x, y)
  {
    var t := Push(s, w);
    assert t.frames[|s.frames|] == Frame(w, 0);
    var k :| 0 <= k < |Edges(g, x)| && Edges(g, x)[k].target == y
             && forall i :: 0 <= i < |t.frames| && t.frames[i].v == x ==> k < t.frames[i].next;
    forall i | 0 <= i < |s.frames| && s.frames[i].v == x
      ensures k < s.frames[i].next
    {
      assert t.frames[i] == s.frames[i];
    }
  }

  lemma PushVisited(g: Adjacency, s: State, w: Id)
    requires ScannedAreVisited(g, s) && w !in s.indices
    ensures ScannedAreVisited(g, Push(s, w))
  {
    forall x, y | Scanned(g, Push(s, w), x, y)
      ensures y in s.indices
    {
      PushScanned(g, s, w, x, y);
    }
  }

  lemma PushOutput(g: Adjacency, s: State, w: Id)
    requires Output(g, s) && w !in s.indices && Numbering(s)
    ensures Output(g, Push(s, w))
  {
    assert Done(Push(s, w)) == Done(s);
  }

  lemma PushDown(g: Adjacency, s: State, w: Id, i: nat, y: Id)
    requires Linked(g, s, i) && ActivePath(g, s) && w !in s.indices && Numbering(s)
    requires s.frames == [] || HasEdge(g, Last(s).v, w)
    requires i <= |s.frames| && (y in s.stack || y == w) && Num(Push(s, w), Push(s, w).frames[i].v) <= Num(Push(s, w), y)
    ensures Reach(g, Push(s, w).frames[i].v, y)
  {
    hide Reach;
    ReachRefl(g, w);
    if i == |s.frames| {
      assert y == w;
    } else if y == w {
      assert Num(s, s.frames[i].v) <= Num(s, Last(s).v);
      assert Reach(g, s.frames[i].v, Last(s).v);
      ReachStep(g, s.frames[i].v, Last(s).v, w);
    }
  }

  lemma PushUp(g: Adjacency, s: State, w: Id, i: nat, y: Id)
    requires Linked(g, s, i) && Linked(g, s, i - 1) && ActivePath(g, s) && w !in s.indices && Numbering(s)
    requires s.frames == [] || HasEdge(g, Last(s).v, w)
    requires i <= |s.frames| && (y in s.stack || y == w) && Num(Push(s, w), y) < Ceiling(Push(s, w), i)
    ensures Reach(g, y, Push(s, w).frames[i].v)
  {
    hide Reach;
    ReachRefl(g, w);
    if i == |s.frames| && y != w {
      assert Num(s, y) < Ceiling(s, i - 1) && Reach(g, y, Last(s).v);
      ReachStep(g, y, Last(s).v, w);
    } else if i < |s.frames| {
      assert Push(s, w).frames[i] == s.frames[i] && Num(s, y) < Ceiling(s, i);
    }
  }

  lemma PushConnected(g: Adjacency, s: State, w: Id)
    requires Numbering(s) && ActivePath(g, s) && Connected(g, s) && w !in s.indices
    requires s.frames == [] || HasEdge(g, Last(s).v, w)
    ensures Connected(g, Push(s, w))
  {
    hide Reach;
    var t := Push(s, w);
    forall i
      ensures Linked(g, t, i)
    {
      assert Linked(g, s, i) && Linked(g, s, i - 1);
      forall y | 0 <= i < |t.frames| && y in t.stack && Num(t, t.frames[i].v) <= Num(t, y)
        ensures Reach(g, t.frames[i].v, y)
      {
        PushDown(g, s, w, i, y);
      }
      forall y | 0 <= i < |t.frames| && y in t.stack && Num(t, y) < Ceiling(t, i)
        ensures Reach(g, y, t.frames[i].v)
      {
        PushUp(g, s, w, i, y);
      }
    }
  }

  lemma PushLowBound(g: Adjacency, s: State, w: Id, from: int, to: int, low: int)
    requires Numbering(s) && w !in s.indices && LowBound(g, s, from, to, low) && low <= s.index
    ensures LowBound(g, Push(s, w), from, to, low)
  {
    var t := Push(s, w);
    forall x, y | x in t.stack && y in t.stack && Scanned(g, t, x, y) && from <= Num(t, x) < to
      ensures low <= Num(t, y)
    {
      PushScanned(g, s, w, x, y);
    }
  }

  lemma PushWitness(g: Adjacency, s: State, w: Id, v: Id)
    requires Numbering(s) && w !in s.indices && (v == w || (v in s.stack && LowWitness(g, s, v)))
    ensures LowWitness(g, Push(s, w), v)
  {
    hide Reach;
    var t := Push(s, w);
    if v == w {
      ReachRefl(g, w);
      assert w in t.stack && Num(t, w) == LowOf(t, w);
    } else {
      var y :| y in s.stack && Num(s, y) == LowOf(s, v) && Reach(g, v, y);
      assert y in t.stack && Num(t, y) == LowOf(t, v);
    }
  }

  lemma PushFrameLow(g: Adjacency, s: State, w: Id, i: int)
    requires Numbering(s) && ActivePath(g, s) && w !in s.indices && FrameLow(g, s, i)
    ensures FrameLow(g, Push(s, w), i)
  {
    hide Reach;
    var t := Push(s, w);
    if i == |s.frames| {
      PushWitness(g, s, w, w);
      PushLowBound(g, s, w, s.index, s.index + 1, s.index);
    } else if 0 <= i < |s.frames| {
      var v := s.frames[i].v;
      assert t.frames[i].v == v && t.frames[|s.frames|].v == w;
      PushWitness(g, s, w, v);
      PushLowBound(g, s, w, Num(s, v), Ceiling(s, i), LowOf(s, v));
      assert Ceiling(t, i) == Ceiling(s, i);
    }
  }

  lemma PushLow(g: Adjacency, s: State, w: Id)
    requires Numbering(s) && ActivePath(g, s) && Low(g, s) && w !in s.indices
    ensures Low(g, Push(s, w))
  {
    hide Reach;
    forall i
      ensures FrameLow(g, Push(s, w), i)
    {
      PushFrameLow(g, s, w, i);
    }
  }

  lemma PushInv(g: Adjacency, s: State, w: Id)
    requires Inv(g, s) && w !in s.indices
    requires s.frames == [] || HasEdge(g, Last(s).v, w)
    ensures Inv(g, Push(s, w))
  {
    PushNumbering(s, w);
    PushPath(g, s, w);
    PushVisited(g, s, w);
    PushOutput(g, s, w);
    PushConnected(g, s, w);
    PushLow(g, s, w);
  }

  /* ---- looking at an edge ---- */

  function Advance(s: State, i: nat): State
    requires i < |s.frames|
  {
    s.(frames := s.frames[i := Frame(s.frames[i].v, s.frames[i].next + 1)])
  }

  /** `t` differs from `s` at most in scan positions and low values. */
  ghost predicate SameShape(s: State, t: State) {
    t.index == s.index && t.indices == s.indices && t.stack == s.stack && t.result == s.result
    && t.lowlink.Keys == s.lowlink.Keys && |t.frames| == |s.frames|
    && forall q :: 0 <= q < |s.frames| ==> t.frames[q].v == s.frames[q].v
  }

  lemma SameShapeInv(g: Adjacency, s: State, t: State)
    requires Numbering(s) && ActivePath(g, s) && Output(g, s) && SameShape(s, t)
    ensures Numbering(t) && ActivePath(g, t) && Output(g, t)
  {
    assert Done(t) == Done(s);
  }

  lemma SameShapeConnected(g: Adjacency, s: State, t: State)
    requires Connected(g, s) && SameShape(s, t)
    ensures Connected(g, t)
  {
    hide Reach;
    forall i
      ensures Linked(g, t, i)
    {
      assert Linked(g, s, i) && Ceiling(t, i) == Ceiling(s, i);
    }
  }

  lemma SameShapeWitness(g: Adjacency, s: State, t: State, v: Id)
    requires SameShape(s, t) && LowWitness(g, s, v) && LowOf(t, v) == LowOf(s, v)
    ensures LowWitness(g, t, v)
  {
    hide Reach;
  }

  /** A scanned edge is the one just passed, or was scanned before. */
  lemma AdvanceScanned(g: Adjacency, s: State, i: nat, x: Id, y: Id)
    requires ActivePath(g, s) && i < |s.frames| && s.frames[i].next < |Edges(g, s.frames[i].v)|
    requires Scanned(g, Advance(s, i), x, y)
    ensures Scanned(g, s, x, y) || (x == s.frames[i].v && y == Edges(g, x)[s.frames[i].next].target)
  {
    var t := Advance(s, i);
    var k :| 0 <= k < |Edges(g, x)| && Edges(g, x)[k].target == y
             && forall j :: 0 <= j < |t.frames| && t.frames[j].v == x ==> k < t.frames[j].next;
    if x != s.frames[i].v || k != s.frames[i].next {
      forall j | 0 <= j < |s.frames| && s.frames[j].v == x
        ensures k < s.frames[j].next
      {
        assert t.frames[j].v == x && k < t.frames[j].next;
      }
    }
  }

  lemma AdvanceBound(g: Adjacency, s: State, i: nat, from: int, to: int, low: int)
    requires ActivePath(g, s) && i < |s.frames| && s.frames[i].next < |Edges(g, s.frames[i].v)|
    requires LowBound(g, s, from, to, low)
    requires Edges(g, s.frames[i].v)[s.frames[i].next].target in s.stack && from <= Num(s, s.frames[i].v) < to ==>
               low <= Num(s, Edges(g, s.frames[i].v)[s.frames[i].next].target)
    ensures LowBound(g, Advance(s, i), from, to, low)
  {
    var t := Advance(s, i);
    forall x, y | x in t.stack && y in t.stack && Scanned(g, t, x, y) && from <= Num(t, x) < to
      ensures low <= Num(t, y)
    {
      AdvanceScanned(g, s, i, x, y);
    }
  }

  /** A frame's own node lies in no other frame's stretch. */
  lemma StretchOfFrame(g: Adjacency, s: State, i: nat, j: nat)
    requires ActivePath(g, s) && i < |s.frames| && j < |s.frames|
    requires Num(s, s.frames[j].v) <= Num(s, s.frames[i].v) < Ceiling(s, j)
    ensures i == j
  {
  }

  /** What looking at the top edge of frame `i` needs: its target is visited, and numbered no lower
      than the frame's low value when it is on the stack. */
  ghost predicate EdgeSettled(g: Adjacency, s: State, i: nat)
    requires i < |s.frames|
  {
    var f := s.frames[i];
    f.next < |Edges(g, f.v)|
    && Edges(g, f.v)[f.next].target in s.indices
    && (Edges(g, f.v)[f.next].target in s.stack ==> LowOf(s, f.v) <= Num(s, Edges(g, f.v)[f.next].target))
  }

  lemma AdvanceFrameLow(g: Adjacency, s: State, i: nat, j: int)
    requires ActivePath(g, s) && i < |s.frames| && FrameLow(g, s, j) && EdgeSettled(g, s, i)
    ensures FrameLow(g, Advance(s, i), j)
  {
    hide Reach;
    if 0 <= j < |s.frames| {
      var v := s.frames[j].v;
      if Num(s, v) <= Num(s, s.frames[i].v) < Ceiling(s, j) {
        StretchOfFrame(g, s, i, j);
      }
      AdvanceBound(g, s, i, Num(s, v), Ceiling(s, j), LowOf(s, v));
      SameShapeWitness(g, s, Advance(s, i), v);
      assert Ceiling(Advance(s, i), j) == Ceiling(s, j);
    }
  }

  lemma AdvanceInv(g: Adjacency, s: State, i: nat)
    requires Inv(g, s) && i < |s.frames| && EdgeSettled(g, s, i)
    ensures Inv(g, Advance(s, i))
  {
    hide Reach;
    var t := Advance(s, i);
    SameShapeInv(g, s, t);
    SameShapeConnected(g, s, t);
    forall x, y | Scanned(g, t, x, y)
      ensures y in t.indices
    {
      AdvanceScanned(g, s, i, x, y);
    }
    forall j
      ensures FrameLow(g, t, j)
    {
      AdvanceFrameLow(g, s, i, j);
    }
  }

  function Lower(s: State, v: Id, m: int): State {
    if v in s.lowlink && m < s.lowlink[v] then s.(lowlink := s.lowlink[v := m]) else s
  }

  lemma LowerFrameLow(g: Adjacency, s: State, i: nat, y: Id, j: int)
    requires Numbering(s) && ActivePath(g, s) && FrameLow(g, s, j)
    requires i < |s.frames| && y in s.stack && Reach(g, s.frames[i].v, y)
    ensures FrameLow(g, Lower(s, s.frames[i].v, Num(s, y)), j)
  {
    hide Reach;
    var t := Lower(s, s.frames[i].v, Num(s, y));
    if 0 <= j < |s.frames| {
      var v := s.frames[j].v;
      assert Ceiling(t, j) == Ceiling(s, j);
      forall x, z | Scanned(g, t, x, z)
        ensures Scanned(g, s, x, z)
      {
      }
      if LowOf(t, v) == LowOf(s, v) {
        SameShapeWitness(g, s, t, v);
      }
    }
  }

  /** Lowering a frame's value to the number of a stack node it reaches. */
  lemma LowerInv(g: Adjacency, s: State, i: nat, y: Id)
    requires Inv(g, s) && i < |s.frames| && y in s.stack && Reach(g, s.frames[i].v, y)
    ensures Inv(g, Lower(s, s.frames[i].v, Num(s, y)))
  {
    hide Reach;
    var v := s.frames[i].v;
    var t := Lower(s, v, Num(s, y));
    SameShapeInv(g, s, t);
    SameShapeConnected(g, s, t);
    forall j
      ensures FrameLow(g, t, j)
    {
      LowerFrameLow(g, s, i, y, j);
    }
    forall x, z | Scanned(g, t, x, z)
      ensures z in t.indices
    {
      assert Scanned(g, s, x, z);
    }
  }

  /* ---- finishing a node ---- */

  /** The top frame has looked at every edge. */
  ghost predicate Finished(g: Adjacency, s: State) {
    s.frames != [] && Last(s).next >= |Edges(g, Last(s).v)|
  }

  function Drop(s: State): State
    requires s.frames != []
  {
    s.(frames := s.frames[..|s.frames| - 1])
  }

  lemma DropScanned(g: Adjacency, s: State, x: Id, y: Id)
    requires Finished(g, s) && Scanned(g, Drop(s), x, y)
    ensures Scanned(g, s, x, y)
  {
    var t := Drop(s);
    var k :| 0 <= k < |Edges(g, x)| && Edges(g, x)[k].target == y
             && forall i :: 0 <= i < |t.frames| && t.frames[i].v == x ==> k < t.frames[i].next;
    forall i | 0 <= i < |s.frames| && s.frames[i].v == x
      ensures k < s.frames[i].next
    {
      if i < |t.frames| {
        assert t.frames[i] == s.frames[i];
      }
    }
  }

  lemma DropPath(g: Adjacency, s: State)
    requires Numbering(s) && ActivePath(g, s) && |s.frames| >= 2
    ensures Numbering(Drop(s)) && ActivePath(g, Drop(s))
  {
  }

  lemma DropVisited(g: Adjacency, s: State)
    requires ScannedAreVisited(g, s) && Finished(g, s)
    ensures ScannedAreVisited(g, Drop(s))
  {
    forall x, y | Scanned(g, Drop(s), x, y)
      ensures y in s.indices
    {
      DropScanned(g, s, x, y);
    }
  }

  /** Through its low witness the finished node, and all above it, still reach the parent. */
  lemma MergeReach(g: Adjacency, s: State, y: Id)
    requires Numbering(s) && ActivePath(g, s) && |s.frames| >= 2 && y in s.stack
    requires Linked(g, s, |s.frames| - 2) && Linked(g, s, |s.frames| - 1)
    requires LowWitness(g, s, Last(s).v) && LowOf(s, Last(s).v) < Num(s, Last(s).v)
    ensures Reach(g, y, s.frames[|s.frames| - 2].v)
  {
    hide Reach;
    var v, p := Last(s).v, s.frames[|s.frames| - 2].v;
    if Num(s, y) >= Num(s, v) {
      var z :| z in s.stack && Num(s, z) == LowOf(s, v) && Reach(g, v, z);
      assert Reach(g, z, p) && Reach(g, y, v);
      ReachTrans(g, y, v, z);
      ReachTrans(g, y, z, p);
    }
  }

  lemma MergeLinked(g: Adjacency, s: State, i: int)
    requires |s.frames| >= 2 && Linked(g, s, i)
    requires forall y :: y in s.stack ==> Reach(g, y, s.frames[|s.frames| - 2].v)
    ensures Linked(g, Drop(s), i)
  {
    hide Reach;
    if 0 <= i < |s.frames| - 1 {
      assert Drop(s).frames[i].v == s.frames[i].v;
      if i < |s.frames| - 2 {
        assert Drop(s).frames[i + 1].v == s.frames[i + 1].v;
      }
    }
  }

  lemma MergeFrameLow(g: Adjacency, s: State, i: int)
    requires Numbering(s) && ActivePath(g, s) && |s.frames| >= 2 && Finished(g, s)
    requires FrameLow(g, s, i) && FrameLow(g, s, |s.frames| - 1)
    requires LowOf(s, s.frames[|s.frames| - 2].v) <= LowOf(s, Last(s).v)
    ensures FrameLow(g, Drop(s), i)
  {
    hide Reach;
    var t, n := Drop(s), |s.frames| - 1;
    if 0 <= i < n {
      var v := s.frames[i].v;
      assert t.frames[i].v == v;
      if i < n - 1 {
        assert Ceiling(t, i) == Ceiling(s, i);
      }
      forall x, y | x in t.stack && y in t.stack && Scanned(g, t, x, y) && Num(t, v) <= Num(t, x) < Ceiling(t, i)
        ensures LowOf(t, v) <= Num(t, y)
      {
        DropScanned(g, s, x, y);
      }
      MergeWitness(g, s, v);
    }
  }

  lemma MergeWitness(g: Adjacency, s: State, v: Id)
    requires s.frames != [] && LowWitness(g, s, v)
    ensures LowWitness(g, Drop(s), v)
  {
    hide Reach;
  }

  /** A finished node that reaches below itself is left on the stack for an ancestor. */
  lemma MergeInv(g: Adjacency, s: State)
    requires Inv(g, s) && Finished(g, s) && |s.frames| >= 2
    requires LowOf(s, Last(s).v) < Num(s, Last(s).v) && LowOf(s, s.frames[|s.frames| - 2].v) <= LowOf(s, Last(s).v)
    ensures Inv(g, Drop(s))
  {
    hide Reach;
    DropPath(g, s);
    DropVisited(g, s);
    assert FrameLow(g, s, |s.frames| - 1);
    assert Linked(g, s, |s.frames| - 2) && Linked(g, s, |s.frames| - 1);
    forall y | y in s.stack
      ensures Reach(g, y, s.frames[|s.frames| - 2].v)
    {
      MergeReach(g, s, y);
    }
    forall i
      ensures Linked(g, Drop(s), i) && FrameLow(g, Drop(s), i)
    {
      MergeLinked(g, s, i);
      MergeFrameLow(g, s, i);
    }
    assert Done(Drop(s)) == Done(s);
  }

  function Reverse(s: seq<Id>): (r: seq<Id>)
    ensures |r| == |s| && forall i :: 0 <= i < |s| ==> r[i] == s[|s| - 1 - i]
  {
    if s == [] then [] else [s[|s| - 1]] + Reverse(s[..|s| - 1])
  }

  /** Pop the component that starts at stack position `k`, topmost node first. */
  function Emit(s: State, k: nat): State
    requires s.frames != [] && k < |s.stack|
  {
    Drop(s).(stack := s.stack[..k], result := s.result + [Reverse(s.stack[k..])])
  }

  /** The situation in which a component is emitted. */
  ghost predicate AtRoot(g: Adjacency, s: State, k: nat) {
    Finished(g, s) && k < |s.stack| && s.stack[k] == Last(s).v && LowOf(s, Last(s).v) == Num(s, Last(s).v)
  }

  lemma StackOrder(s: State, k: nat, x: Id)
    requires Numbering(s) && k < |s.stack| && x in s.stack
    ensures x in s.stack[..k] <==> Num(s, x) < Num(s, s.stack[k])
    ensures x in s.stack[k..] <==> Num(s, x) >= Num(s, s.stack[k])
  {
    var i :| 0 <= i < |s.stack| && s.stack[i] == x;
    if i < k {
      assert s.stack[..k][i] == x;
    } else {
      assert s.stack[k..][i - k] == x;
    }
  }

  /** A node at or above the finished one has had all its edges scanned. */
  lemma SegmentScanned(g: Adjacency, s: State, x: Id, y: Id)
    requires Numbering(s) && ActivePath(g, s) && Finished(g, s)
    requires x in s.stack && Num(s, x) >= Num(s, Last(s).v) && HasEdge(g, x, y)
    ensures Scanned(g, s, x, y)
  {
    var k :| 0 <= k < |Edges(g, x)| && Edges(g, x)[k].target == y;
    forall i | 0 <= i < |s.frames| && s.frames[i].v == x
      ensures k < s.frames[i].next
    {
      assert i == |s.frames| - 1;
    }
  }

  lemma SegmentClosed(g: Adjacency, s: State, k: nat)
    requires Inv(g, s) && AtRoot(g, s, k)
    ensures Closed(g, Done(s) + Elements(s.stack[k..]))
  {
    var c, v := Elements(s.stack[k..]), Last(s).v;
    assert FrameLow(g, s, |s.frames| - 1);
    forall x, y | x in Done(s) + c && HasEdge(g, x, y)
      ensures y in Done(s) + c
    {
      if x in c {
        StackOrder(s, k, x);
        SegmentScanned(g, s, x, y);
        if y in s.stack {
          StackOrder(s, k, y);
        }
      }
    }
  }

  lemma SegmentStrong(g: Adjacency, s: State, k: nat, x: Id, y: Id)
    requires Numbering(s) && AtRoot(g, s, k) && Linked(g, s, |s.frames| - 1)
    requires x in s.stack[k..] && y in s.stack[k..]
    ensures Reach(g, x, y)
  {
    hide Reach;
    StackOrder(s, k, x);
    StackOrder(s, k, y);
    ReachTrans(g, x, Last(s).v, y);
  }

  lemma SegmentMaximal(g: Adjacency, s: State, k: nat, x: Id, z: Id)
    requires k < |s.stack| && Closed(g, Done(s)) && Closed(g, Done(s) + Elements(s.stack[k..]))
    requires x in s.stack[k..] && Reach(g, x, z) && Reach(g, z, x)
    ensures z in s.stack[k..]
  {
    hide Reach;
    ReachStaysIn(g, Done(s) + Elements(s.stack[k..]), x, z);
    if z in Done(s) {
      ReachStaysIn(g, Done(s), z, x);
    }
  }

  lemma SegmentIsScc(g: Adjacency, s: State, k: nat)
    requires Inv(g, s) && AtRoot(g, s, k)
    ensures IsScc(g, Elements(s.stack[k..]))
  {
    hide Reach, Closed;
    var c := Elements(s.stack[k..]);
    assert Linked(g, s, |s.frames| - 1);
    SegmentClosed(g, s, k);
    forall x, y | x in c && y in c
      ensures Reach(g, x, y)
    {
      SegmentStrong(g, s, k, x, y);
    }
    forall x, z | x in c && Reach(g, x, z) && Reach(g, z, x)
      ensures z in c
    {
      SegmentMaximal(g, s, k, x, z);
    }
  }

  lemma EmitElements(s: State, k: nat)
    requires s.frames != [] && k < |s.stack|
    ensures var last := Emit(s, k).result[|s.result|];
            |last| == |s.stack| - k && Elements(last) == Elements(s.stack[k..])
    ensures Numbering(s) ==> forall i, j :: 0 <= i < j < |s.stack| - k ==> Emit(s, k).result[|s.result|][i] != Emit(s, k).result[|s.result|][j]
  {
    var c := s.stack[k..];
    forall x | x in c
      ensures x in Reverse(c)
    {
      var i :| 0 <= i < |c| && c[i] == x;
      assert Reverse(c)[|c| - 1 - i] == x;
    }
  }

  lemma EmitBottom(g: Adjacency, s: State, k: nat)
    requires Numbering(s) && ActivePath(g, s) && AtRoot(g, s, k) && |s.frames| == 1
    ensures k == 0
  {
    assert s.stack[0] in s.stack && Num(s, s.stack[k]) <= Num(s, s.stack[0]);
  }

  lemma EmitPath(g: Adjacency, s: State, k: nat)
    requires Numbering(s) && ActivePath(g, s) && AtRoot(g, s, k)
    ensures Numbering(Emit(s, k)) && ActivePath(g, Emit(s, k))
  {
    var t, n := Emit(s, k), |s.frames| - 1;
    forall i | 0 <= i < |t.frames|
      ensures t.frames[i].v in t.stack
    {
      assert t.frames[i] == s.frames[i] && Num(s, s.frames[i].v) < Num(s, s.frames[n].v);
      StackOrder(s, k, s.frames[i].v);
    }
    if n == 0 {
      EmitBottom(g, s, k);
    }
  }

  lemma EmitDone(g: Adjacency, s: State, k: nat)
    requires Numbering(s) && s.frames != [] && k < |s.stack|
    ensures Done(Emit(s, k)) == Done(s) + Elements(s.stack[k..])
  {
    forall x | x in s.stack
      ensures x in s.stack[k..] <==> x !in s.stack[..k]
    {
      StackOrder(s, k, x);
    }
  }

  lemma EmitOutput(g: Adjacency, s: State, k: nat)
    requires Inv(g, s) && AtRoot(g, s, k)
    ensures Output(g, Emit(s, k))
  {
    hide Reach;
    var t, c := Emit(s, k), Elements(s.stack[k..]);
    SegmentIsScc(g, s, k);
    SegmentClosed(g, s, k);
    EmitDone(g, s, k);
    EmitElements(s, k);
    assert Done(s) !! c;
    forall v | v in Done(t)
      ensures exists r :: 0 <= r < |t.result| && v in t.result[r]
    {
      if v in c {
        assert v in Elements(t.result[|s.result|]);
      } else {
        var r :| 0 <= r < |s.result| && v in s.result[r];
        assert v in t.result[r];
      }
    }
  }

  /** What the emission leaves of the stack: the nodes numbered below the finished one. */
  ghost predicate KeptStack(s: State, k: nat)
    requires s.frames != [] && k < |s.stack|
  {
    forall x :: x in s.stack[..k] <==> x in s.stack && Num(s, x) < Num(s, Last(s).v)
  }

  lemma EmitKept(s: State, k: nat)
    requires Numbering(s) && s.frames != [] && k < |s.stack| && s.stack[k] == Last(s).v
    ensures KeptStack(s, k)
  {
    forall x | x in s.stack
      ensures x in s.stack[..k] <==> Num(s, x) < Num(s, Last(s).v)
    {
      StackOrder(s, k, x);
    }
  }

  lemma EmitLinked(g: Adjacency, s: State, k: nat, i: int)
    requires s.frames != [] && k < |s.stack| && KeptStack(s, k) && Linked(g, s, i)
    ensures Linked(g, Emit(s, k), i)
  {
    hide Reach;
    var t := Emit(s, k);
    if 0 <= i < |s.frames| - 1 {
      assert t.frames[i].v == s.frames[i].v;
      if i < |s.frames| - 2 {
        assert t.frames[i + 1].v == s.frames[i + 1].v;
      }
    }
  }

  lemma EmitWitness(g: Adjacency, s: State, k: nat, v: Id)
    requires s.frames != [] && k < |s.stack| && KeptStack(s, k)
    requires LowWitness(g, s, v) && Num(s, v) < Num(s, Last(s).v)
    ensures LowWitness(g, Emit(s, k), v)
  {
    hide Reach;
    var z :| z in s.stack && Num(s, z) == LowOf(s, v) && Reach(g, v, z);
    assert z in Emit(s, k).stack && Num(Emit(s, k), z) == LowOf(Emit(s, k), v);
  }

  lemma EmitBound(g: Adjacency, s: State, k: nat, from: int, to: int, to': int, low: int)
    requires Finished(g, s) && k < |s.stack| && KeptStack(s, k) && LowBound(g, s, from, to, low)
    requires to' <= to || to == Num(s, Last(s).v)
    ensures LowBound(g, Emit(s, k), from, to', low)
  {
    var t := Emit(s, k);
    forall x, y | x in t.stack && y in t.stack && Scanned(g, t, x, y) && from <= Num(t, x) < to'
      ensures low <= Num(t, y)
    {
      DropScanned(g, s, x, y);
    }
  }

  lemma EmitFrameLow(g: Adjacency, s: State, k: nat, i: int)
    requires ActivePath(g, s) && Finished(g, s) && k < |s.stack| && KeptStack(s, k) && FrameLow(g, s, i)
    ensures FrameLow(g, Emit(s, k), i)
  {
    hide Reach;
    var t := Emit(s, k);
    if 0 <= i < |s.frames| - 1 {
      var v := s.frames[i].v;
      assert t.frames[i].v == v && Num(s, v) < Num(s, Last(s).v);
      EmitWitness(g, s, k, v);
      EmitBound(g, s, k, Num(s, v), Ceiling(s, i), Ceiling(t, i), LowOf(s, v));
    }
  }

  lemma EmitVisited(g: Adjacency, s: State, k: nat)
    requires ScannedAreVisited(g, s) && Finished(g, s) && k < |s.stack|
    ensures ScannedAreVisited(g, Emit(s, k))
  {
    forall x, y | Scanned(g, Emit(s, k), x, y)
      ensures y in s.indices
    {
      DropScanned(g, s, x, y);
    }
  }

  /** A finished node whose low value is its own number closes a component. */
  lemma EmitInv(g: Adjacency, s: State, k: nat)
    requires Inv(g, s) && AtRoot(g, s, k)
    ensures Inv(g, Emit(s, k))
  {
    hide Reach;
    EmitPath(g, s, k);
    EmitOutput(g, s, k);
    EmitVisited(g, s, k);
    EmitKept(s, k);
    forall i
      ensures Linked(g, Emit(s, k), i) && FrameLow(g, Emit(s, k), i)
    {
      EmitLinked(g, s, k, i);
      EmitFrameLow(g, s, k, i);
    }
  }

  /* ---- the steps as the programs combine them ---- */

  const START := State(0, map[], map[], [], [], [])

  lemma StartInv(g: Adjacency)
    ensures Inv(g, START)
  {
    forall i
      ensures Linked(g, START, i) && FrameLow(g, START, i)
    {
    }
  }

  lemma DescendSettled(g: Adjacency, s: State, w: Id)
    requires Numbering(s) && s.frames != [] && w !in s.indices && LowWitness(g, s, Last(s).v)
    requires Last(s).v in s.indices
    requires Last(s).next < |Edges(g, Last(s).v)| && Edges(g, Last(s).v)[Last(s).next].target == w
    ensures EdgeSettled(g, Push(s, w), |s.frames| - 1)
  {
    assert Push(s, w).frames[|s.frames| - 1] == Last(s);
  }

  /** The top frame's current edge leads to an unvisited node: descend. */
  lemma DescendInv(g: Adjacency, s: State, w: Id)
    requires Inv(g, s) && s.frames != [] && w !in s.indices
    requires Last(s).next < |Edges(g, Last(s).v)| && Edges(g, Last(s).v)[Last(s).next].target == w
    ensures Inv(g, Advance(Push(s, w), |s.frames| - 1))
  {
    hide Reach;
    assert HasEdge(g, Last(s).v, w);
    assert FrameLow(g, s, |s.frames| - 1) && Last(s).v in s.stack;
    DescendSettled(g, s, w);
    PushInv(g, s, w);
    AdvanceInv(g, Push(s, w), |s.frames| - 1);
  }

  /** The current edge leads to a node on the stack: its number may lower the frame's value. */
  lemma BackInv(g: Adjacency, s: State)
    requires Inv(g, s) && s.frames != [] && Last(s).next < |Edges(g, Last(s).v)|
    requires Edges(g, Last(s).v)[Last(s).next].target in s.stack
    ensures Inv(g, Advance(Lower(s, Last(s).v, Num(s, Edges(g, Last(s).v)[Last(s).next].target)), |s.frames| - 1))
  {
    hide Reach;
    var n, v := |s.frames| - 1, Last(s).v;
    var w := Edges(g, v)[Last(s).next].target;
    assert HasEdge(g, v, w);
    ReachEdge(g, v, w);
    LowerInv(g, s, n, w);
    var t := Lower(s, v, Num(s, w));
    assert v in s.stack && w in s.indices;
    AdvanceInv(g, t, n);
  }

  /** The parent of a finished node takes over its low value. */
  lemma InheritInv(g: Adjacency, s: State)
    requires Inv(g, s) && |s.frames| >= 2
    ensures Inv(g, Lower(s, s.frames[|s.frames| - 2].v, LowOf(s, Last(s).v)))
    ensures LowOf(s, Last(s).v) == Num(s, Last(s).v) ==> Lower(s, s.frames[|s.frames| - 2].v, LowOf(s, Last(s).v)) == s
  {
    hide Reach;
    var n, v, p := |s.frames| - 1, Last(s).v, s.frames[|s.frames| - 2].v;
    assert FrameLow(g, s, n) && FrameLow(g, s, n - 1) && Linked(g, s, n - 1);
    assert Num(s, p) < Num(s, v);
    var y :| y in s.stack && Num(s, y) == LowOf(s, v) && Reach(g, v, y);
    ReachTrans(g, p, v, y);
    LowerInv(g, s, n - 1, y);
  }

  /** A finished bottom frame is always a root. */
  lemma BottomIsRoot(g: Adjacency, s: State)
    requires Inv(g, s) && |s.frames| == 1
    ensures LowOf(s, Last(s).v) == Num(s, Last(s).v)
  {
    assert FrameLow(g, s, 0);
  }

  lemma PositionOf(g: Adjacency, s: State) returns (k: nat)
    requires Inv(g, s) && s.frames != []
    ensures k < |s.stack| && s.stack[k] == Last(s).v
  {
    assert Last(s).v in s.stack;
    k :| 0 <= k < |s.stack| && s.stack[k] == Last(s).v;
  }

  /** The parts of the invariant that the programs themselves rely on. */
  lemma Facts(g: Adjacency, s: State)
    requires Inv(g, s)
    ensures s.lowlink.Keys == s.indices.Keys
    ensures forall x :: x in s.stack ==> x in s.indices
    ensures forall i, j :: 0 <= i < j < |s.stack| ==> s.stack[i] != s.stack[j]
    ensures forall i :: 0 <= i < |s.frames| ==> s.frames[i].v in s.indices && s.frames[i].v in s.stack
    ensures s.frames != [] ==> LowOf(s, Last(s).v) <= Num(s, Last(s).v) < s.index
    ensures s.frames == [] ==> s.stack == [] && Closed(g, s.indices.Keys)
  {
    if s.frames != [] {
      assert FrameLow(g, s, |s.frames| - 1) && Last(s).v in s.stack;
    } else {
      assert Done(s) == s.indices.Keys;
    }
  }

  lemma TopsDiffer(g: Adjacency, s: State)
    requires Inv(g, s) && |s.frames| >= 2
    ensures s.frames[|s.frames| - 2].v != Last(s).v
  {
  }
}
