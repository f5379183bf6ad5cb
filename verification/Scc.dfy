/** The two strongly-connected-component programs of the repository. */
module Scc {
  import opened Graphs
  import opened TarjanMachine
  import opened Wrappers

  /** The edge types isStructuralEdge accepts. */
  const STRUCTURAL_KINDS: set<string> :=
    {"DEPENDS_ON", "CALLS", "IMPLEMENTS", "EXTENDS", "CONTAINS", "COMPOSES", "REFERENCES",
     "NETWORK_RPC_CALL", "QUERIES_DB", "CALLS_CLOUD_API", "PUBLISHES_EVENT", "SUBSCRIBES_EVENT",
     "SENDS_MSG", "RECEIVES_MSG", "DISPATCHES_EVENT"}

  predicate IsStructuralEdge(kind: string) { kind in STRUCTURAL_KINDS }

  /** The architectural relationships of the edge vocabulary: dependency, use, type structure, and the calls
      and messages that cross a process. */
  ghost predicate Architectural(kind: string) {
    kind == "DEPENDS_ON" || kind == "CALLS" || kind == "REFERENCES"
    || kind == "IMPLEMENTS" || kind == "EXTENDS" || kind == "CONTAINS" || kind == "COMPOSES"
    || kind == "NETWORK_RPC_CALL" || kind == "QUERIES_DB" || kind == "CALLS_CLOUD_API"
    || kind == "PUBLISHES_EVENT" || kind == "SUBSCRIBES_EVENT" || kind == "DISPATCHES_EVENT"
    || kind == "SENDS_MSG" || kind == "RECEIVES_MSG"
  }

  lemma StructuralKinds(kind: string)
    ensures IsStructuralEdge(kind) <==> Architectural(kind)
  {
  }

  datatype GraphSnapshot = GraphSnapshot(nodeIds: seq<Id>, nodes: set<Id>, outbound: Adjacency)

  /** NewGraphSnapshot records every node once in each form. */
  ghost predicate WellFormed(snap: GraphSnapshot) { Elements(snap.nodeIds) == snap.nodes }

  function StructuralOnly(edges: seq<Edge>, nodes: set<Id>): (r: seq<Edge>)
    ensures forall e :: e in r <==> e in edges && IsStructuralEdge(e.kind) && e.target in nodes
  {
    if edges == [] then []
    else
      var rest := StructuralOnly(edges[..|edges| - 1], nodes);
      var e := edges[|edges| - 1];
      if IsStructuralEdge(e.kind) && e.target in nodes then rest + [e] else rest
  }

  /** The snapshot's cached structural adjacency. */
  function Structural(snap: GraphSnapshot): Adjacency {
    map id | id in snap.outbound :: StructuralOnly(snap.outbound[id], snap.nodes)
  }

  /** Every edge ends in `nodes`: nothing dangles. */
  ghost predicate TargetsIn(g: Adjacency, nodes: set<Id>) {
    forall x, k :: 0 <= k < |Edges(g, x)| ==> Edges(g, x)[k].target in nodes
  }

  lemma StructuralClosed(snap: GraphSnapshot)
    ensures TargetsIn(Structural(snap), snap.nodes)
  {
    forall x, k | 0 <= k < |Edges(Structural(snap), x)|
      ensures Edges(Structural(snap), x)[k].target in snap.nodes
    {
      assert Edges(Structural(snap), x)[k] in StructuralOnly(snap.outbound[x], snap.nodes);
    }
  }

  /** `result` lists exactly the strongly connected components inside `nodes`: each one maximal and
      without repetition, no two overlapping, every node in one of them. */
  ghost predicate IsSccPartition(g: Adjacency, nodes: set<Id>, result: seq<seq<Id>>) {
    (forall r :: 0 <= r < |result| ==> |result[r]| > 0 && IsScc(g, Elements(result[r])) && Elements(result[r]) <= nodes)
    && (forall v :: v in nodes ==> Listed(result, v))
    && (forall q, r :: 0 <= q < r < |result| ==> Elements(result[q]) !! Elements(result[r]))
    && (forall r, i, j :: 0 <= r < |result| && 0 <= i < j < |result[r]| ==> result[r][i] != result[r][j])
  }

  datatype ScanFrame = ScanFrame(v: Id, edges: seq<Edge>, next: nat)

  /** The program's frames and the machine's frames agree. */
  ghost predicate SameFrames(g: Adjacency, fs: seq<ScanFrame>, ms: seq<Frame>) {
    |fs| == |ms| && forall i :: 0 <= i < |fs| ==>
      ms[i] == Frame(fs[i].v, fs[i].next) && fs[i].edges == Edges(g, fs[i].v) && fs[i].next <= |fs[i].edges|
  }

  ghost function Work(fs: seq<ScanFrame>): nat {
    if fs == [] then 0
    else
      var f := fs[|fs| - 1];
      Work(fs[..|fs| - 1]) + 1 + if f.next <= |f.edges| then |f.edges| - f.next else 0
  }

  lemma WorkAfterScan(fs: seq<ScanFrame>)
    requires fs != [] && fs[|fs| - 1].next < |fs[|fs| - 1].edges|
    ensures Work(fs[|fs| - 1 := fs[|fs| - 1].(next := fs[|fs| - 1].next + 1)]) < Work(fs)
  {
    var f := fs[|fs| - 1];
    assert fs[|fs| - 1 := f.(next := f.next + 1)][..|fs| - 1] == fs[..|fs| - 1];
  }

  lemma TopFrame(g: Adjacency, fs: seq<ScanFrame>, s: State)
    requires SameFrames(g, fs, s.frames) && fs != []
    ensures |s.frames| == |fs| && Last(s).v == fs[|fs| - 1].v && SameFrames(g, fs[..|fs| - 1], s.frames[..|fs| - 1])
    ensures fs[|fs| - 1].next >= |fs[|fs| - 1].edges| ==> Finished(g, s)
    ensures |fs| >= 2 ==> s.frames[|fs| - 2].v == fs[|fs| - 2].v
    ensures Work(fs[..|fs| - 1]) < Work(fs)
  {
  }

  /** Pop the stack down to and including `v`. */
  method PopComponent(stack: seq<Id>, onStack: set<Id>, v: Id, ghost k: nat)
      returns (stack': seq<Id>, onStack': set<Id>, component: seq<Id>)
    requires k < |stack| && stack[k] == v && (forall i, j :: 0 <= i < j < |stack| ==> stack[i] != stack[j])
    requires onStack == Elements(stack)
    ensures stack' == stack[..k] && component == Reverse(stack[k..]) && onStack' == Elements(stack')
  {
    stack', onStack', component := stack, onStack, [];
    var w := stack'[|stack'| - 1];
    while true
      invariant k < |stack'| <= |stack| && stack' == stack[..|stack'|] && onStack' == Elements(stack')
      invariant |component| == |stack| - |stack'|
      invariant forall i :: 0 <= i < |component| ==> component[i] == stack[|stack| - 1 - i]
      decreases |stack'|
    {
      w := stack'[|stack'| - 1];
      ghost var top := stack';
      stack' := stack'[..|stack'| - 1];
      onStack' := onStack' - {w};
      assert top == stack' + [w];
      component := component + [w];
      if w == v {
        break;
      }
    }
  }

  /** The machine after `v` has been entered from the top frame, or as a root. */
  ghost function Entered(s: State, v: Id): State {
    if s.frames == [] then Push(s, v) else Advance(Push(s, v), |s.frames| - 1)
  }

  /** The variables both programs capture, `frames` and `components` being bookkeeping for the proof. */
  class TarjanRun {
    const g: Adjacency
    var index: nat
    var indices: map<Id, int>
    var lowlink: map<Id, int>
    var onStack: set<Id>
    var stack: seq<Id>
    ghost var frames: seq<Frame>
    ghost var components: seq<seq<Id>>

    constructor (g: Adjacency)
      ensures Valid() && this.g == g && Machine() == START
    {
      this.g := g;
      index, indices, lowlink, onStack, stack := 0, map[], map[], {}, [];
      frames, components := [], [];
      new;
      StartInv(g);
    }

    ghost function Machine(): State
      reads this
    {
      State(index, indices, lowlink, stack, frames, components)
    }

    ghost predicate Valid()
      reads this
    {
      Inv(g, Machine()) && onStack == Elements(stack)
    }

    /** Is the next edge of the top frame an edge to `w`? */
    ghost predicate Facing(w: Id)
      reads this
    {
      frames != [] && Last(Machine()).next < |Edges(g, Last(Machine()).v)|
      && Edges(g, Last(Machine()).v)[Last(Machine()).next].target == w
    }

    /** Number `v`, put it on the stack and open its frame; a parent frame moves past its edge to `v`. */
    method Enter(v: Id)
      requires Valid() && v !in indices && (frames == [] || Facing(v))
      modifies this
      ensures Valid() && Machine() == Entered(old(Machine()), v)
    {
      hide TarjanMachine.Inv;
      ghost var s := Machine();
      if frames == [] {
        PushInv(g, s, v);
      } else {
        DescendInv(g, s, v);
      }
      indices, lowlink := indices[v := index], lowlink[v := index];
      index, stack, onStack := index + 1, stack + [v], onStack + {v};
      frames := Entered(s, v).frames;
    }

    /** An edge from `v` to the visited `w`. */
    method SeeVisited(v: Id, w: Id)
      requires Valid() && Facing(w) && w in indices && v == Last(Machine()).v
      modifies this
      ensures Valid() && indices == old(indices) && stack == old(stack) && components == old(components)
      ensures frames == Advance(old(Machine()), |old(frames)| - 1).frames
    {
      hide TarjanMachine.Inv;
      Facts(g, Machine());
      ghost var s, n := Machine(), |frames| - 1;
      frames := frames[n := Frame(v, frames[n].next + 1)];
      if w in onStack {
        BackInv(g, s);
        if indices[w] < lowlink[v] {
          lowlink := lowlink[v := indices[w]];
        }
      } else {
        AdvanceInv(g, s, n);
      }
    }

    /** The finished node `w` is still the top frame and `v` the frame below it. */
    ghost predicate Pending(v: Id, w: Id)
      reads this
    {
      |frames| >= 2 && frames[|frames| - 2].v == v && Last(Machine()).v == w
    }

    /** `v` takes over the low value of its finished child `w`; a child that was emitted has none to give. */
    method Inherit(v: Id, w: Id)
      requires Valid() && v in indices && w in indices
      requires Pending(v, w) || LowOf(Machine(), v) <= LowOf(Machine(), w)
      modifies this`lowlink
      ensures Valid() && LowOf(Machine(), v) <= LowOf(Machine(), w) && LowOf(Machine(), w) == old(LowOf(Machine(), w))
    {
      hide TarjanMachine.Inv;
      Facts(g, Machine());
      if Pending(v, w) {
        InheritInv(g, Machine());
        TopsDiffer(g, Machine());
      }
      if lowlink[w] < lowlink[v] {
        lowlink := lowlink[v := lowlink[w]];
      }
    }

    /** Emit the component of the finished top frame `v`, popping the stack down to it. */
    method Close(v: Id) returns (component: seq<Id>)
      requires Valid() && Finished(g, Machine()) && Last(Machine()).v == v && lowlink.Keys == indices.Keys
      requires v in indices && lowlink[v] == indices[v]
      modifies this`stack, this`onStack, this`frames, this`components
      ensures Valid() && frames == old(frames)[..|old(frames)| - 1]
      ensures components == old(components) + [component]
    {
      hide TarjanMachine.Inv;
      Facts(g, Machine());
      ghost var k := PositionOf(g, Machine());
      EmitInv(g, Machine(), k);
      stack, onStack, component := PopComponent(stack, onStack, v, k);
      frames, components := frames[..|frames| - 1], components + [component];
    }

    /** Leave the finished top frame's nodes on the stack for its parent. */
    ghost method Leave()
      requires Valid() && Finished(g, Machine()) && |frames| >= 2
      requires LowOf(Machine(), frames[|frames| - 2].v) <= LowOf(Machine(), Last(Machine()).v) < Num(Machine(), Last(Machine()).v)
      modifies this`frames
      ensures Valid() && frames == old(frames)[..|old(frames)| - 1]
    {
      hide TarjanMachine.Inv;
      MergeInv(g, Machine());
      frames := frames[..|frames| - 1];
    }
  }

  /** The top frame looks at its next edge, descending when it leads somewhere new. */
  method ScanEdge(run: TarjanRun, frames: seq<ScanFrame>, ghost nodes: set<Id>) returns (frames': seq<ScanFrame>)
    requires run.Valid() && SameFrames(run.g, frames, run.frames) && TargetsIn(run.g, nodes)
    requires frames != [] && frames[|frames| - 1].next < |frames[|frames| - 1].edges|
    modifies run
    ensures run.Valid() && SameFrames(run.g, frames', run.frames) && run.components == old(run.components) && frames' != []
    ensures old(run.indices.Keys) <= run.indices.Keys && (old(run.indices.Keys) <= nodes ==> run.indices.Keys <= nodes)
    ensures if run.indices.Keys == old(run.indices.Keys) then Work(frames') < Work(frames)
            else nodes - run.indices.Keys < nodes - old(run.indices.Keys)
  {
    hide TarjanMachine.Inv, Work;
    var f := frames[|frames| - 1];
    var w := f.edges[f.next].target;
    WorkAfterScan(frames);
    frames' := frames[|frames| - 1 := f.(next := f.next + 1)];
    if w !in run.indices {
      run.Enter(w);
      frames' := frames' + [ScanFrame(w, Edges(run.g, w), 0)];
      assert w in nodes && run.indices.Keys == old(run.indices.Keys) + {w};
    } else {
      run.SeeVisited(f.v, w);
    }
  }

  /** One pass of the frame stack, from an unvisited `start` until no frame is left. */
  method Traverse(run: TarjanRun, start: Id, result: seq<seq<Id>>, ghost nodes: set<Id>) returns (result': seq<seq<Id>>)
    requires run.Valid() && run.frames == [] && run.components == result
    requires start in nodes - run.indices.Keys && run.indices.Keys <= nodes && TargetsIn(run.g, nodes)
    modifies run
    ensures run.Valid() && run.frames == [] && run.components == result'
    ensures old(run.indices.Keys) + {start} <= run.indices.Keys <= nodes
  {
    hide TarjanMachine.Inv;
    result' := result;
    run.Enter(start);
    var frames := [ScanFrame(start, Edges(run.g, start), 0)];
    assert SameFrames(run.g, frames, run.frames);
    hide SameFrames, TarjanRun.Valid, TarjanMachine.Finished, TargetsIn, Work, Graphs.Edges, TarjanMachine.Elements;
    hide TarjanMachine.Push, TarjanMachine.Last, TarjanMachine.Num, TarjanMachine.LowOf, TarjanMachine.Advance;
    while |frames| > 0
      invariant run.Valid() && SameFrames(run.g, frames, run.frames) && run.components == result'
      invariant frames == [] ==> run.frames == []
      invariant old(run.indices.Keys) + {start} <= run.indices.Keys <= nodes
      decreases nodes - run.indices.Keys, Work(frames)
    {
      var f := frames[|frames| - 1];
      TopFrame(run.g, frames, run.Machine());
      if f.next < |f.edges| {
        frames := ScanEdge(run, frames, nodes);
      } else {
        frames := frames[..|frames| - 1];
        result' := FinishTop(run, f.v, if |frames| > 0 then Some(frames[|frames| - 1].v) else None, result');
      }
    }
  }

  /** What happens to a node whose edges are all scanned: its parent inherits its low value, then
      its component is emitted if it is a root. */
  method FinishTop(run: TarjanRun, v: Id, parent: Option<Id>, result: seq<seq<Id>>) returns (result': seq<seq<Id>>)
    requires run.Valid() && Finished(run.g, run.Machine()) && Last(run.Machine()).v == v && run.components == result
    requires parent.None? ==> |run.frames| == 1
    requires parent.Some? ==> |run.frames| >= 2 && run.frames[|run.frames| - 2].v == parent.value
    modifies run`lowlink, run`stack, run`onStack, run`frames, run`components
    ensures run.Valid() && run.frames == old(run.frames)[..|old(run.frames)| - 1] && run.components == result'
  {
    hide TarjanMachine.Inv;
    result' := result;
    Facts(run.g, run.Machine());
    if parent.Some? {
      run.Inherit(parent.value, v);
    } else {
      BottomIsRoot(run.g, run.Machine());
    }
    Facts(run.g, run.Machine());
    if run.lowlink[v] == run.indices[v] {
      var component := run.Close(v);
      result' := result' + [component];
    } else {
      run.Leave();
    }
  }

  /** Iterative Tarjan with an explicit frame stack. */
  method SccIterative(snap: GraphSnapshot) returns (result: seq<seq<Id>>)
    requires WellFormed(snap)
    ensures IsSccPartition(Structural(snap), snap.nodes, result)
  {
    hide TarjanMachine.Inv;
    StructuralClosed(snap);
    var run := new TarjanRun(Structural(snap));
    result := [];
    for n := 0 to |snap.nodeIds|
      invariant run.Valid() && run.frames == [] && run.components == result
      invariant run.indices.Keys <= snap.nodes
      invariant forall i :: 0 <= i < n ==> snap.nodeIds[i] in run.indices
    {
      var start := snap.nodeIds[n];
      if start !in run.indices {
        result := Traverse(run, start, result, snap.nodes);
      }
    }
    SccPartition(run.g, run.Machine(), snap.nodes);
  }

  lemma SccPartition(g: Adjacency, s: State, nodes: set<Id>)
    requires Inv(g, s) && s.frames == [] && s.indices.Keys == nodes
    ensures IsSccPartition(g, nodes, s.result)
  {
    assert Done(s) == nodes;
  }

  /* ---- the recursive version ---- */

  function Larger(components: seq<seq<Id>>): (r: seq<seq<Id>>) {
    if components == [] then []
    else
      var c := components[|components| - 1];
      Larger(components[..|components| - 1]) + if |c| > 1 then [c] else []
  }

  /** Where the frames stand once `v`'s own frame is gone. */
  ghost function Base(s: State): seq<Frame> {
    if s.frames == [] then [] else Advance(s, |s.frames| - 1).frames
  }

  /** What a stretch of the recursion leaves alone and adds. */
  twostate predicate Grew(run: TarjanRun, v: Id, universe: set<Id>, origin: Id)
    reads run
  {
    old(run.indices.Keys) + {v} <= run.indices.Keys <= universe
    && (forall x :: x in old(run.indices) ==> Num(run.Machine(), x) == old(Num(run.Machine(), x)))
    && (forall x :: x in run.indices ==> x in old(run.indices) || Reach(run.g, origin, x))
  }

  /** strongconnect: the recursive visit of `v`, reached from `origin`. */
  method StrongConnect(run: TarjanRun, v: Id, cycles: seq<seq<Id>>, ghost universe: set<Id>, ghost origin: Id)
      returns (cycles': seq<seq<Id>>)
    requires run.Valid() && v in universe - run.indices.Keys && run.indices.Keys <= universe && TargetsIn(run.g, universe)
    requires (run.frames == [] || run.Facing(v)) && cycles == Larger(run.components) && Reach(run.g, origin, v)
    modifies run
    ensures run.Valid() && cycles' == Larger(run.components) && Grew(run, v, universe, origin)
    ensures if run.frames == Base(old(run.Machine())) then LowOf(run.Machine(), v) >= old(run.index)
            else old(run.frames) != [] && run.frames == Base(old(run.Machine())) + [Frame(v, |Edges(run.g, v)|)]
                 && LowOf(run.Machine(), v) < Num(run.Machine(), v)
    decreases universe - run.indices.Keys, 0
  {
    hide TarjanMachine.Inv, Reach, TargetsIn, HasEdge, TarjanMachine.Elements, TarjanMachine.LowOf, Larger;
    ghost var base := Base(run.Machine());
    run.Enter(v);
    cycles' := ConnectAll(run, v, cycles, universe, origin, base);
    cycles' := MaybeClose(run, v, cycles');
  }

  /** The loop over the out-edges of `v`. */
  method ConnectAll(run: TarjanRun, v: Id, cycles: seq<seq<Id>>, ghost universe: set<Id>, ghost origin: Id, ghost base: seq<Frame>)
      returns (cycles': seq<seq<Id>>)
    requires run.Valid() && v in run.indices && run.indices.Keys <= universe && TargetsIn(run.g, universe)
    requires run.frames == base + [Frame(v, 0)] && cycles == Larger(run.components) && Reach(run.g, origin, v)
    modifies run
    ensures run.Valid() && cycles' == Larger(run.components) && Grew(run, v, universe, origin)
    ensures run.frames == base + [Frame(v, |Edges(run.g, v)|)] && Num(run.Machine(), v) == old(Num(run.Machine(), v))
    decreases universe - run.indices.Keys, 2
  {
    hide TarjanMachine.Inv, Reach, TargetsIn, HasEdge, TarjanMachine.Elements, TarjanMachine.LowOf, Larger;
    cycles' := cycles;
    var edges := Edges(run.g, v);
    for k := 0 to |edges|
      invariant run.Valid() && cycles' == Larger(run.components) && run.frames == base + [Frame(v, k)]
      invariant Grew(run, v, universe, origin)
    {
      cycles' := ConnectEdge(run, v, edges[k].target, cycles', universe, origin);
    }
  }

  /** strongconnect's ending: a root emits its component, which is reported when it has company. */
  method MaybeClose(run: TarjanRun, v: Id, cycles: seq<seq<Id>>) returns (cycles': seq<seq<Id>>)
    requires run.Valid() && Finished(run.g, run.Machine()) && Last(run.Machine()).v == v && cycles == Larger(run.components)
    modifies run`stack, run`onStack, run`frames, run`components
    ensures run.Valid() && cycles' == Larger(run.components)
    ensures run.frames == if LowOf(run.Machine(), v) == Num(run.Machine(), v) then old(run.frames)[..|old(run.frames)| - 1] else old(run.frames)
    ensures LowOf(run.Machine(), v) <= Num(run.Machine(), v) && (|old(run.frames)| == 1 ==> run.frames == [])
  {
    hide TarjanMachine.Inv;
    cycles' := cycles;
    Facts(run.g, run.Machine());
    if run.lowlink[v] == run.indices[v] {
      var component := run.Close(v);
      if |component| > 1 {
        cycles' := cycles' + [component];
      }
    } else if |run.frames| == 1 {
      BottomIsRoot(run.g, run.Machine());
    }
  }

  lemma NextReach(g: Adjacency, s: State, origin: Id, w: Id)
    requires s.frames != [] && Last(s).next < |Edges(g, Last(s).v)| && Edges(g, Last(s).v)[Last(s).next].target == w
    requires Reach(g, origin, Last(s).v)
    ensures Reach(g, origin, w)
  {
    assert HasEdge(g, Last(s).v, w);
    ReachStep(g, origin, Last(s).v, w);
  }

  /** strongconnect's loop body: the edge from the top frame's node `v` to `w`. */
  method ConnectEdge(run: TarjanRun, v: Id, w: Id, cycles: seq<seq<Id>>, ghost universe: set<Id>, ghost origin: Id)
      returns (cycles': seq<seq<Id>>)
    requires run.Valid() && run.indices.Keys <= universe && TargetsIn(run.g, universe)
    requires run.Facing(w) && Last(run.Machine()).v == v && cycles == Larger(run.components) && Reach(run.g, origin, v)
    modifies run
    ensures run.Valid() && cycles' == Larger(run.components) && Grew(run, v, universe, origin)
    ensures run.frames == Base(old(run.Machine()))
    decreases universe - run.indices.Keys, 1
  {
    hide TarjanMachine.Inv, Reach, HasEdge, TarjanMachine.Elements, Larger, TarjanMachine.LowOf;
    cycles' := cycles;
    ghost var base := Base(run.Machine());
    Facts(run.g, run.Machine());
    if w !in run.indices {
      NextReach(run.g, run.Machine(), origin, w);
      cycles' := StrongConnect(run, w, cycles, universe, origin);
      Facts(run.g, run.Machine());
      run.Inherit(v, w);
      if run.frames != base {
        run.Leave();
      }
    } else {
      run.SeeVisited(v, w);
    }
  }

  /** `x` lies on a cycle through some other node. */
  ghost predicate OnCycle(g: Adjacency, x: Id) {
    exists y :: y != x && Reach(g, x, y) && Reach(g, y, x)
  }

  ghost predicate ReachableFrom(g: Adjacency, roots: set<Id>, x: Id) {
    exists r :: r in roots && Reach(g, r, x)
  }

  ghost predicate Listed(cs: seq<seq<Id>>, x: Id) {
    exists r :: 0 <= r < |cs| && x in cs[r]
  }

  /** `cycles` holds the strongly connected components of more than one node that the roots reach:
      exactly the reachable nodes on cycles, grouped into disjoint maximal sets. */
  ghost predicate IsCycleReport(g: Adjacency, roots: set<Id>, cycles: seq<seq<Id>>) {
    (forall r :: 0 <= r < |cycles| ==> |cycles[r]| > 1 && IsScc(g, Elements(cycles[r])))
    && (forall r, i, j :: 0 <= r < |cycles| && 0 <= i < j < |cycles[r]| ==> cycles[r][i] != cycles[r][j])
    && (forall q, r :: 0 <= q < r < |cycles| ==> Elements(cycles[q]) !! Elements(cycles[r]))
    && (forall x :: Listed(cycles, x) <==> ReachableFrom(g, roots, x) && OnCycle(g, x))
  }

  lemma LargerElements(cs: seq<seq<Id>>)
    ensures forall c :: c in Larger(cs) <==> c in cs && |c| > 1
  {
    if cs != [] {
      LargerElements(cs[..|cs| - 1]);
      assert cs == cs[..|cs| - 1] + [cs[|cs| - 1]];
    }
  }

  lemma LargerDisjoint(cs: seq<seq<Id>>)
    requires forall q, r :: 0 <= q < r < |cs| ==> Elements(cs[q]) !! Elements(cs[r])
    ensures forall q, r :: 0 <= q < r < |Larger(cs)| ==> Elements(Larger(cs)[q]) !! Elements(Larger(cs)[r])
  {
    if cs != [] {
      var n := |cs| - 1;
      LargerDisjoint(cs[..n]);
      LargerElements(cs[..n]);
      forall q | 0 <= q < |Larger(cs[..n])|
        ensures Elements(Larger(cs[..n])[q]) !! Elements(cs[n])
      {
        assert Larger(cs[..n])[q] in cs[..n];
      }
    }
  }

  /** A component of two nodes or more consists of nodes on cycles, and holds every one it shares a cycle with. */
  lemma ComponentOnCycle(g: Adjacency, c: seq<Id>, x: Id)
    requires |c| > 0 && IsScc(g, Elements(c)) && x in c && forall i, j :: 0 <= i < j < |c| ==> c[i] != c[j]
    ensures |c| > 1 <==> OnCycle(g, x)
  {
    hide Reach;
    if |c| > 1 {
      var y := if c[0] == x then c[1] else c[0];
      assert x in Elements(c) && y in Elements(c) && Reach(g, x, y) && Reach(g, y, x);
    }
    if OnCycle(g, x) {
      var y :| y != x && Reach(g, x, y) && Reach(g, y, x);
      assert x in Elements(c) && y in Elements(c);
    }
  }

  lemma VisitedIsReachable(g: Adjacency, roots: set<Id>, visited: set<Id>, x: Id)
    requires Closed(g, visited) && roots <= visited && ReachableFrom(g, roots, x)
    ensures x in visited
  {
    hide Reach;
    var r :| r in roots && Reach(g, r, x);
    ReachStaysIn(g, visited, r, x);
  }

  lemma FinishedOutput(g: Adjacency, s: State)
    requires Inv(g, s) && s.frames == []
    ensures Output(g, s) && Done(s) == s.indices.Keys
  {
    hide Output;
  }

  /** What is reported are components of more than one node, each listed once. */
  lemma ReportedSets(g: Adjacency, s: State)
    requires Output(g, s)
    ensures var cycles := Larger(s.result);
            (forall r :: 0 <= r < |cycles| ==> |cycles[r]| > 1 && IsScc(g, Elements(cycles[r])))
            && (forall r, i, j :: 0 <= r < |cycles| && 0 <= i < j < |cycles[r]| ==> cycles[r][i] != cycles[r][j])
            && (forall q, r :: 0 <= q < r < |cycles| ==> Elements(cycles[q]) !! Elements(cycles[r]))
  {
    hide Larger, IsScc;
    var cycles := Larger(s.result);
    LargerElements(s.result);
    LargerDisjoint(s.result);
    forall r | 0 <= r < |cycles|
      ensures cycles[r] in s.result && |cycles[r]| > 1
    {
      assert cycles[r] in cycles;
    }
  }

  lemma CycleReport(g: Adjacency, s: State, roots: set<Id>)
    requires Inv(g, s) && s.frames == [] && roots <= s.indices.Keys
    requires forall x :: x in s.indices ==> ReachableFrom(g, roots, x)
    ensures IsCycleReport(g, roots, Larger(s.result))
  {
    hide TarjanMachine.Inv, Output, Done, Larger, ReachableFrom, OnCycle, IsScc, Listed, Elements;
    FinishedOutput(g, s);
    ReportedSets(g, s);
    forall x
      ensures Listed(Larger(s.result), x) <==> ReachableFrom(g, roots, x) && OnCycle(g, x)
    {
      ReportedNode(g, s, roots, x);
    }
  }

  lemma ReportedNode(g: Adjacency, s: State, roots: set<Id>, x: Id)
    requires Output(g, s) && Done(s) == s.indices.Keys && roots <= s.indices.Keys
    requires x in s.indices ==> ReachableFrom(g, roots, x)
    ensures Listed(Larger(s.result), x) <==> ReachableFrom(g, roots, x) && OnCycle(g, x)
  {
    hide Reach, ReachableFrom, OnCycle, IsScc;
    var cycles := Larger(s.result);
    LargerElements(s.result);
    if Listed(cycles, x) {
      var r :| 0 <= r < |cycles| && x in cycles[r];
      var q :| 0 <= q < |s.result| && s.result[q] == cycles[r];
      assert x in Elements(s.result[q]);
      ComponentOnCycle(g, s.result[q], x);
    }
    if ReachableFrom(g, roots, x) && OnCycle(g, x) {
      VisitedIsReachable(g, roots, s.indices.Keys, x);
      var r :| 0 <= r < |s.result| && x in s.result[r];
      ComponentOnCycle(g, s.result[r], x);
      assert s.result[r] in cycles;
    }
  }

  /** Recursive Tarjan over the stored outbound edges; `nodeIds` is the order Nodes.Iterate yields. */
  method DetectCycles(g: Adjacency, nodeIds: seq<Id>) returns (cycles: seq<seq<Id>>)
    ensures IsCycleReport(g, Elements(nodeIds), cycles)
  {
    hide TarjanMachine.Inv, Reach;
    ghost var universe := Elements(nodeIds) + set x, k | x in g && 0 <= k < |g[x]| :: g[x][k].target;
    var run := new TarjanRun(g);
    cycles := [];
    for n := 0 to |nodeIds|
      invariant run.Valid() && run.frames == [] && cycles == Larger(run.components)
      invariant run.indices.Keys <= universe
      invariant forall i :: 0 <= i < n ==> nodeIds[i] in run.indices
      invariant forall x :: x in run.indices ==> ReachableFrom(g, Elements(nodeIds), x)
    {
      var v := nodeIds[n];
      if v !in run.indices {
        ReachRefl(g, v);
        cycles := StrongConnect(run, v, cycles, universe, v);
      }
    }
    CycleReport(g, run.Machine(), Elements(nodeIds));
  }

  /* ---- the two versions agree ---- */

  lemma SccsCoincide(g: Adjacency, c: set<Id>, d: set<Id>, x: Id)
    requires IsScc(g, c) && IsScc(g, d) && x in c && x in d
    ensures c == d
  {
    hide Reach;
  }

  lemma PartitionHolds(g: Adjacency, nodes: set<Id>, result: seq<seq<Id>>, c: set<Id>, x: Id)
    requires IsSccPartition(g, nodes, result) && x in c
    ensures (exists r :: 0 <= r < |result| && Elements(result[r]) == c) <==> IsScc(g, c) && c <= nodes
  {
    hide IsScc;
    if IsScc(g, c) && c <= nodes {
      var r :| 0 <= r < |result| && x in result[r];
      SccsCoincide(g, c, Elements(result[r]), x);
    }
  }

  lemma ReportHolds(g: Adjacency, nodes: set<Id>, cycles: seq<seq<Id>>, c: set<Id>, x: Id, y: Id)
    requires IsCycleReport(g, nodes, cycles) && Closed(g, nodes) && x in c && y in c && x != y
    ensures (exists r :: 0 <= r < |cycles| && Elements(cycles[r]) == c) <==> IsScc(g, c) && c <= nodes
  {
    hide Reach;
    if r :| 0 <= r < |cycles| && Elements(cycles[r]) == c {
      forall z | z in c
        ensures z in nodes
      {
        assert z in cycles[r];
        VisitedIsReachable(g, nodes, nodes, z);
      }
    }
    if IsScc(g, c) && c <= nodes {
      ReachRefl(g, x);
      assert ReachableFrom(g, nodes, x) && OnCycle(g, x);
      var r :| 0 <= r < |cycles| && x in cycles[r];
      SccsCoincide(g, c, Elements(cycles[r]), x);
    }
  }

  /** When nothing dangles, the iterative version's sets of two nodes or more and the recursive
      version's sets are the same sets. */
  lemma VersionsAgree(g: Adjacency, nodes: set<Id>, result: seq<seq<Id>>, cycles: seq<seq<Id>>, c: set<Id>, x: Id, y: Id)
    requires IsSccPartition(g, nodes, result) && IsCycleReport(g, nodes, cycles) && Closed(g, nodes)
    requires x in c && y in c && x != y
    ensures (exists r :: 0 <= r < |result| && Elements(result[r]) == c) <==> (exists r :: 0 <= r < |cycles| && Elements(cycles[r]) == c)
  {
    PartitionHolds(g, nodes, result, c, x);
    ReportHolds(g, nodes, cycles, c, x, y);
  }

  ghost predicate SameRelation(a: Adjacency, b: Adjacency) { forall x, y :: HasEdge(a, x, y) <==> HasEdge(b, x, y) }

  lemma {:induction false} SameReachIn(a: Adjacency, b: Adjacency, n: nat, x: Id, y: Id)
    requires SameRelation(a, b) && ReachIn(a, n, x, y)
    ensures ReachIn(b, n, x, y)
  {
    hide HasEdge;
    if n > 0 {
      var z :| ReachIn(a, n - 1, x, z) && HasEdge(a, z, y);
      SameReachIn(a, b, n - 1, x, z);
    }
  }

  lemma SameReach(a: Adjacency, b: Adjacency, x: Id, y: Id)
    requires SameRelation(a, b)
    ensures Reach(a, x, y) <==> Reach(b, x, y)
  {
    hide HasEdge;
    if n: nat :| ReachIn(a, n, x, y) {
      SameReachIn(a, b, n, x, y);
    }
    if n: nat :| ReachIn(b, n, x, y) {
      SameReachIn(b, a, n, x, y);
    }
  }

  lemma SameSccs(a: Adjacency, b: Adjacency, c: set<Id>)
    requires SameRelation(a, b)
    ensures IsScc(a, c) <==> IsScc(b, c)
  {
    hide SameRelation, Reach;
    forall x, y
      ensures Reach(a, x, y) <==> Reach(b, x, y)
    {
      SameReach(a, b, x, y);
    }
  }

  /** Every set of two nodes or more that the iterative version lists over a snapshot is listed by the
      recursive version over a graph with the snapshot's structural edges as its relation, and vice
      versa. */
  lemma SnapshotVersionAgrees(snap: GraphSnapshot, g: Adjacency, result: seq<seq<Id>>, cycles: seq<seq<Id>>, c: set<Id>, x: Id, y: Id)
    requires SameRelation(Structural(snap), g)
    requires IsSccPartition(Structural(snap), snap.nodes, result) && IsCycleReport(g, snap.nodes, cycles)
    requires x in c && y in c && x != y
    ensures (exists r :: 0 <= r < |result| && Elements(result[r]) == c) <==> (exists r :: 0 <= r < |cycles| && Elements(cycles[r]) == c)
  {
    StructuralClosed(snap);
    hide IsScc, IsCycleReport, IsSccPartition, Structural;
    assert Closed(g, snap.nodes);
    PartitionHolds(Structural(snap), snap.nodes, result, c, x);
    ReportHolds(g, snap.nodes, cycles, c, x, y);
    SameSccs(Structural(snap), g, c);
  }

  /** The two relations agree over a stored graph exactly when each of its pairs is joined by some
      structural edge and ends in a node. */
  lemma StructuralRelation(snap: GraphSnapshot)
    ensures SameRelation(Structural(snap), snap.outbound)
            <==> (forall x, y :: HasEdge(snap.outbound, x, y) ==> y in snap.nodes && exists e :: e in Edges(snap.outbound, x) && e.target == y && Architectural(e.kind))
  {
    hide Architectural;
    forall x, y
      ensures HasEdge(Structural(snap), x, y) <==> y in snap.nodes && exists e :: e in Edges(snap.outbound, x) && e.target == y && Architectural(e.kind)
    {
      StructuralPair(snap, x, y);
    }
    forall x, y | HasEdge(Structural(snap), x, y)
      ensures HasEdge(snap.outbound, x, y)
    {
      var e :| e in Edges(snap.outbound, x) && e.target == y && Architectural(e.kind);
      var k :| 0 <= k < |Edges(snap.outbound, x)| && Edges(snap.outbound, x)[k] == e;
    }
    hide HasEdge, Structural;
  }

  lemma StructuralPair(snap: GraphSnapshot, x: Id, y: Id)
    ensures HasEdge(Structural(snap), x, y) <==> y in snap.nodes && exists e :: e in Edges(snap.outbound, x) && e.target == y && Architectural(e.kind)
  {
    hide Architectural, IsStructuralEdge;
    var kept := Edges(Structural(snap), x);
    forall e | e in Edges(snap.outbound, x)
      ensures IsStructuralEdge(e.kind) <==> Architectural(e.kind)
    {
      StructuralKinds(e.kind);
    }
    if k :| 0 <= k < |kept| && kept[k].target == y {
      assert kept[k] in kept;
    }
    if e :| y in snap.nodes && e in Edges(snap.outbound, x) && e.target == y && Architectural(e.kind) {
      assert e in kept;
      var k :| 0 <= k < |kept| && kept[k] == e;
    }
  }
}
