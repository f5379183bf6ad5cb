/** The linter's detectCycles: three-colour depth-first search over the package graph with an explicit
    path stack. Whether a package is in scope is a parameter (MatchGlob on the rule's scope). */
module PackageCycles {
  import opened Ordering

  type Pkg = string
  type PackageGraph = map<Pkg, set<Pkg>>

  /** The in-scope dependencies of `u`. */
  ghost function Succ(graph: PackageGraph, inScope: Pkg -> bool, u: Pkg): set<Pkg> {
    if u in graph then set v | v in graph[u] && inScope(v) else {}
  }

  /** Consecutive packages depend on each other. */
  ghost predicate Chain(graph: PackageGraph, inScope: Pkg -> bool, list: seq<Pkg>) {
    forall i :: 0 <= i < |list| - 1 ==> list[i + 1] in Succ(graph, inScope, list[i])
  }

  /** A closed walk that repeats no package except its first at the end. */
  ghost predicate IsElementaryCycle(graph: PackageGraph, inScope: Pkg -> bool, c: seq<Pkg>) {
    |c| >= 2 && c[0] == c[|c| - 1] && Distinct(c[..|c| - 1]) && Chain(graph, inScope, c) && forall p :: p in c ==> inScope(p)
  }

  datatype Color = Visiting | Visited

  /** The search state: colours, the path being explored, the order in which packages were finished, and
      the cycles found. */
  ghost predicate SearchInv(graph: PackageGraph, inScope: Pkg -> bool, colors: map<Pkg, Color>, stack: seq<Pkg>, finished: seq<Pkg>, cycles: seq<seq<Pkg>>) {
    (forall p :: p in stack <==> p in colors && colors[p].Visiting?)
    && (forall p :: p in finished <==> p in colors && colors[p].Visited?)
    && Distinct(stack) && Distinct(finished) && Chain(graph, inScope, stack) && (forall p :: p in stack ==> inScope(p))
    && (forall c :: c in cycles ==> IsElementaryCycle(graph, inScope, c))
    && (cycles == [] ==> SuccessorsFirst(graph, inScope, finished))
  }

  /** As long as nothing was reported, every dependency of a finished package was finished before it. */
  ghost predicate SuccessorsFirst(graph: PackageGraph, inScope: Pkg -> bool, finished: seq<Pkg>) {
    forall i, v :: 0 <= i < |finished| && v in Succ(graph, inScope, finished[i]) ==> v in finished[..i]
  }

  lemma Entered(graph: PackageGraph, inScope: Pkg -> bool, colors: map<Pkg, Color>, stack: seq<Pkg>, finished: seq<Pkg>, cycles: seq<seq<Pkg>>, u: Pkg)
    requires SearchInv(graph, inScope, colors, stack, finished, cycles) && u !in colors && inScope(u)
    requires stack != [] ==> u in Succ(graph, inScope, stack[|stack| - 1])
    ensures SearchInv(graph, inScope, colors[u := Visiting], stack + [u], finished, cycles)
  {
    hide SuccessorsFirst, IsElementaryCycle, Succ;
  }

  lemma Left(graph: PackageGraph, inScope: Pkg -> bool, colors: map<Pkg, Color>, stack: seq<Pkg>, finished: seq<Pkg>, cycles: seq<seq<Pkg>>)
    requires SearchInv(graph, inScope, colors, stack, finished, cycles) && stack != []
    requires cycles == [] ==> forall v :: v in Succ(graph, inScope, stack[|stack| - 1]) ==> v in colors && colors[v].Visited?
    ensures var u := stack[|stack| - 1];
            SearchInv(graph, inScope, colors[u := Visited], stack[..|stack| - 1], finished + [u], cycles)
  {
    var u := stack[|stack| - 1];
    assert u in stack;
    hide IsElementaryCycle, Succ;
    PathShrinks(graph, inScope, stack);
    assert u !in finished && Distinct(finished + [u]);
    if cycles == [] {
      FinishedLast(graph, inScope, finished, u);
    }
    hide Distinct, Chain, SuccessorsFirst;
  }

  lemma PathShrinks(graph: PackageGraph, inScope: Pkg -> bool, stack: seq<Pkg>)
    requires Distinct(stack) && Chain(graph, inScope, stack) && stack != []
    ensures var u, rest := stack[|stack| - 1], stack[..|stack| - 1];
            Distinct(rest) && Chain(graph, inScope, rest) && u !in rest && forall p :: p in stack <==> p in rest || p == u
  {
    assert stack == stack[..|stack| - 1] + [stack[|stack| - 1]];
  }

  lemma FinishedLast(graph: PackageGraph, inScope: Pkg -> bool, finished: seq<Pkg>, u: Pkg)
    requires SuccessorsFirst(graph, inScope, finished) && forall v :: v in Succ(graph, inScope, u) ==> v in finished
    ensures SuccessorsFirst(graph, inScope, finished + [u])
  {
    forall i, v | 0 <= i < |finished + [u]| && v in Succ(graph, inScope, (finished + [u])[i])
      ensures v in (finished + [u])[..i]
    {
      if i < |finished| {
        assert v in finished[..i] && (finished + [u])[..i] == finished[..i];
      } else {
        assert (finished + [u])[..i] == finished;
      }
    }
  }

  lemma Reported(graph: PackageGraph, inScope: Pkg -> bool, colors: map<Pkg, Color>, stack: seq<Pkg>, finished: seq<Pkg>, cycles: seq<seq<Pkg>>, idx: nat)
    requires SearchInv(graph, inScope, colors, stack, finished, cycles) && idx < |stack| && stack[idx] in Succ(graph, inScope, stack[|stack| - 1])
    ensures SearchInv(graph, inScope, colors, stack, finished, cycles + [stack[idx..] + [stack[idx]]])
  {
    hide Succ, SuccessorsFirst;
    var c := stack[idx..] + [stack[idx]];
    assert c[..|c| - 1] == stack[idx..];
    assert IsElementaryCycle(graph, inScope, c);
  }

  /** The sorted in-scope neighbours. */
  method Neighbors(graph: PackageGraph, inScope: Pkg -> bool, u: Pkg) returns (neighbors: seq<Pkg>)
    ensures forall v :: v in neighbors <==> v in Succ(graph, inScope, u)
  {
    var deps := if u in graph then set v | v in graph[u] && inScope(v) else {};
    neighbors := Enumerate(deps);
  }

  /** Nothing is forgotten, and what was finished stays finished. */
  ghost predicate Grown(before: map<Pkg, Color>, after: map<Pkg, Color>) {
    forall p :: p in before ==> p in after && (before[p].Visited? ==> after[p].Visited?)
  }

  /** `v` has been met, and finished unless a cycle was reported. */
  ghost predicate Looked(colors: map<Pkg, Color>, cycles: seq<seq<Pkg>>, v: Pkg) {
    v in colors && (cycles == [] ==> colors[v].Visited?)
  }

  lemma StillLooked(before: map<Pkg, Color>, cyclesBefore: seq<seq<Pkg>>, after: map<Pkg, Color>, cyclesAfter: seq<seq<Pkg>>, list: seq<Pkg>)
    requires Grown(before, after) && cyclesBefore <= cyclesAfter && forall j :: 0 <= j < |list| ==> Looked(before, cyclesBefore, list[j])
    ensures forall j :: 0 <= j < |list| ==> Looked(after, cyclesAfter, list[j])
  {
  }

  class CycleSearch {
    const graph: PackageGraph
    const inScope: Pkg -> bool
    var colors: map<Pkg, Color>
    var stack: seq<Pkg>
    var cycles: seq<seq<Pkg>>
    ghost var finished: seq<Pkg>

    constructor (graph: PackageGraph, inScope: Pkg -> bool)
      ensures Valid() && this.graph == graph && this.inScope == inScope && colors == map[] && stack == [] && cycles == []
    {
      this.graph, this.inScope := graph, inScope;
      colors, stack, cycles, finished := map[], [], [], [];
    }

    ghost predicate Valid()
      reads this
    {
      SearchInv(graph, inScope, colors, stack, finished, cycles)
    }

    /** The packages the search can meet. */
    ghost function Universe(): set<Pkg> {
      (set u | u in graph && inScope(u)) + set u, v | u in graph && v in graph[u] && inScope(v) :: v
    }

    /** Record the part of the path from `v` on. */
    method Report(v: Pkg)
      requires Valid() && stack != [] && v in colors && colors[v].Visiting? && v in Succ(graph, inScope, stack[|stack| - 1])
      modifies this`cycles
      ensures Valid() && cycles != [] && old(cycles) <= cycles
    {
      assert v in stack;
      ghost var at :| 0 <= at < |stack| && stack[at] == v;
      var idx := 0;
      while idx < |stack| && stack[idx] != v
        invariant 0 <= idx <= at
      {
        idx := idx + 1;
      }
      Reported(graph, inScope, colors, stack, finished, cycles, idx);
      cycles := cycles + [stack[idx..] + [v]];
    }

    /** One neighbour of the package on top of the path. */
    method Look(v: Pkg)
      requires Valid() && stack != [] && v in Succ(graph, inScope, stack[|stack| - 1]) && v in Universe() && colors.Keys <= Universe()
      modifies this
      ensures Valid() && stack == old(stack) && colors.Keys <= Universe() && Grown(old(colors), colors) && old(cycles) <= cycles
      ensures Looked(colors, cycles, v)
      decreases Universe() - colors.Keys, 1
    {
      if v in colors && colors[v] == Visiting {
        Report(v);
      } else if v !in colors {
        Dfs(v);
      }
    }

    method Dfs(u: Pkg)
      requires Valid() && u !in colors && inScope(u) && (stack != [] ==> u in Succ(graph, inScope, stack[|stack| - 1]))
      requires u in Universe() && colors.Keys <= Universe()
      modifies this
      ensures Valid() && stack == old(stack) && colors.Keys <= Universe() && Grown(old(colors), colors) && old(cycles) <= cycles
      ensures u in colors && colors[u].Visited?
      decreases Universe() - colors.Keys, 0
    {
      hide SearchInv, Succ, Universe, Looked;
      ghost var colors0, stack0, universe := colors, stack, Universe();
      Entered(graph, inScope, colors, stack, finished, cycles, u);
      Push(u);
      ghost var colors1 := colors;
      var neighbors := Neighbors(graph, inScope, u);
      SuccInUniverse(u);
      for k := 0 to |neighbors|
        invariant Valid() && stack == stack0 + [u] && colors.Keys <= universe && Grown(colors1, colors) && old(cycles) <= cycles
        invariant forall j :: 0 <= j < k ==> Looked(colors, cycles, neighbors[j])
      {
        assert neighbors[k] in neighbors;
        assert u in universe && u !in colors0 && universe - colors.Keys < universe - colors0.Keys by { assert u in colors1; hide *; }
        ghost var before, cyclesBefore := colors, cycles;
        Look(neighbors[k]);
        hide Universe;
        StillLooked(before, cyclesBefore, colors, cycles, neighbors[..k]);
      }
      AllLooked(neighbors);
      Left(graph, inScope, colors, stack, finished, cycles);
      Pop(u);
    }

    lemma SuccInUniverse(u: Pkg)
      ensures Succ(graph, inScope, u) <= Universe()
    {
    }

    lemma AllLooked(neighbors: seq<Pkg>)
      requires forall j :: 0 <= j < |neighbors| ==> Looked(colors, cycles, neighbors[j])
      ensures cycles == [] ==> forall v :: v in neighbors ==> v in colors && colors[v].Visited?
    {
    }

    method Push(u: Pkg)
      requires SearchInv(graph, inScope, colors[u := Visiting], stack + [u], finished, cycles)
      modifies this`colors, this`stack
      ensures Valid() && colors == old(colors)[u := Visiting] && stack == old(stack) + [u]
    {
      colors, stack := colors[u := Visiting], stack + [u];
    }

    method Pop(u: Pkg)
      requires stack != [] && SearchInv(graph, inScope, colors[u := Visited], stack[..|stack| - 1], finished + [u], cycles)
      modifies this`colors, this`stack, this`finished
      ensures Valid() && colors == old(colors)[u := Visited] && stack == old(stack)[..|old(stack)| - 1]
    {
      colors, stack, finished := colors[u := Visited], stack[..|stack| - 1], finished + [u];
    }
  }

  /* ---- the report ---- */

  /** A walk along dependencies in scope that ends where it began. */
  ghost predicate IsClosedWalk(graph: PackageGraph, inScope: Pkg -> bool, c: seq<Pkg>) {
    |c| >= 2 && c[0] == c[|c| - 1] && Chain(graph, inScope, c)
  }

  ghost predicate IsCyclic(graph: PackageGraph, inScope: Pkg -> bool) {
    exists c :: IsClosedWalk(graph, inScope, c)
  }

  /** Along a walk the position in the finishing order only goes down. */
  lemma {:induction false} WalkDescends(graph: PackageGraph, inScope: Pkg -> bool, finished: seq<Pkg>, c: seq<Pkg>, start: nat, i: nat) returns (j: nat)
    requires SuccessorsFirst(graph, inScope, finished) && Chain(graph, inScope, c) && i < |c|
    requires start < |finished| && finished[start] == c[0]
    ensures j < |finished| && finished[j] == c[i] && (if i == 0 then j == start else j < start)
  {
    if i == 0 {
      j := start;
    } else {
      var before := WalkDescends(graph, inScope, finished, c, start, i - 1);
      assert c[i] in Succ(graph, inScope, finished[before]) && c[i] in finished[..before];
      j :| 0 <= j < before && finished[..before][j] == c[i];
    }
  }

  /** If nothing was reported and every in-scope package is finished, there is no closed walk. */
  lemma NoReportNoCycle(graph: PackageGraph, inScope: Pkg -> bool, finished: seq<Pkg>, c: seq<Pkg>)
    requires SuccessorsFirst(graph, inScope, finished) && Distinct(finished)
    requires forall u :: u in graph && inScope(u) ==> u in finished
    ensures !IsClosedWalk(graph, inScope, c)
  {
    if IsClosedWalk(graph, inScope, c) {
      assert c[1] in Succ(graph, inScope, c[0]) && c[|c| - 1] in Succ(graph, inScope, c[|c| - 2]);
      assert c[0] in finished;
      var start :| 0 <= start < |finished| && finished[start] == c[0];
      var j := WalkDescends(graph, inScope, finished, c, start, |c| - 1);
      assert false;
    }
  }

  /** detectCycles: every report is an elementary cycle in scope, and there is a report exactly when
      the in-scope package graph is cyclic. */
  method DetectCycles(graph: PackageGraph, inScope: Pkg -> bool) returns (cycles: seq<seq<Pkg>>)
    ensures forall c :: c in cycles ==> IsElementaryCycle(graph, inScope, c)
    ensures cycles != [] <==> IsCyclic(graph, inScope)
  {
    var search := new CycleSearch(graph, inScope);
    var allNodes := Enumerate(set u | u in graph && inScope(u));
    for k := 0 to |allNodes|
      invariant search.Valid() && search.graph == graph && search.inScope == inScope && search.stack == []
      invariant search.colors.Keys <= search.Universe()
      invariant forall j :: 0 <= j < k ==> allNodes[j] in search.colors && search.colors[allNodes[j]].Visited?
    {
      hide SearchInv;
      assert allNodes[k] in allNodes;
      if allNodes[k] !in search.colors {
        search.Dfs(allNodes[k]);
      }
    }
    cycles := search.cycles;
    ReportIsExact(graph, inScope, search.colors, search.finished, cycles, allNodes);
  }

  lemma ReportIsExact(graph: PackageGraph, inScope: Pkg -> bool, colors: map<Pkg, Color>, finished: seq<Pkg>, cycles: seq<seq<Pkg>>, allNodes: seq<Pkg>)
    requires SearchInv(graph, inScope, colors, [], finished, cycles)
    requires forall u :: u in graph && inScope(u) ==> u in allNodes
    requires forall j :: 0 <= j < |allNodes| ==> allNodes[j] in colors && colors[allNodes[j]].Visited?
    ensures forall c :: c in cycles ==> IsElementaryCycle(graph, inScope, c)
    ensures cycles != [] <==> IsCyclic(graph, inScope)
  {
    if cycles == [] {
      forall c
        ensures !IsClosedWalk(graph, inScope, c)
      {
        NoReportNoCycle(graph, inScope, finished, c);
      }
    } else {
      assert cycles[0] in cycles && IsElementaryCycle(graph, inScope, cycles[0]);
      assert IsClosedWalk(graph, inScope, cycles[0]);
    }
  }
}
