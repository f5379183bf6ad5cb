/** FindPath: breadth-first search for a shortest path of bounded length. */
module PathSearch {
  import opened Graphs

  /** A walk along stored edges, from `start`. */
  ghost predicate IsWalk(g: Adjacency, start: Id, path: seq<Id>) {
    |path| >= 1 && path[0] == start && forall i :: 0 <= i < |path| - 1 ==> HasEdge(g, path[i], path[i + 1])
  }

  function Last(path: seq<Id>): Id
    requires |path| >= 1
  {
    path[|path| - 1]
  }

  lemma {:induction false} WalkReaches(g: Adjacency, start: Id, path: seq<Id>)
    requires IsWalk(g, start, path)
    ensures ReachIn(g, |path| - 1, start, Last(path))
  {
    if |path| > 1 {
      WalkReaches(g, start, path[..|path| - 1]);
      assert HasEdge(g, path[|path| - 2], path[|path| - 1]);
    }
  }

  /* ---- what the search knows ---- */

  /** The queue holds walks in order of length; lengths differ by at most one. */
  ghost predicate QueueOk(g: Adjacency, start: Id, queue: seq<seq<Id>>, limit: int) {
    (forall q :: q in queue ==> IsWalk(g, start, q) && (|q| == 1 || |q| <= limit))
    && (forall i, j :: 0 <= i < j < |queue| ==> |queue[i]| <= |queue[j]| <= |queue[i]| + 1)
  }

  ghost predicate Queued(queue: seq<seq<Id>>, y: Id, bound: int) {
    exists q :: q in queue && |q| >= 1 && Last(q) == y && |q| <= bound
  }

  /** `y` need not be looked for again within `bound` nodes: it was expanded, is queued, or lies at the
      depth limit and is not the target. */
  ghost predicate Accounted(level: map<Id, nat>, queue: seq<seq<Id>>, limit: int, target: Id, y: Id, bound: int) {
    (y in level && level[y] <= bound) || Queued(queue, y, bound) || (bound >= limit && y != target)
  }

  ghost predicate SuccessorsOk(g: Adjacency, level: map<Id, nat>, queue: seq<seq<Id>>, limit: int, target: Id) {
    forall x, y :: x in level && HasEdge(g, x, y) ==> Accounted(level, queue, limit, target, y, level[x] + 1)
  }

  /** Expanded nodes with the length of the walk that expanded them: never longer than what is queued. */
  ghost predicate LevelsOk(level: map<Id, nat>, queue: seq<seq<Id>>, limit: int, target: Id) {
    target !in level
    && (forall x :: x in level ==> 1 <= level[x] < limit)
    && (forall x, q :: x in level && q in queue ==> level[x] <= |q|)
  }

  ghost predicate SearchInv(g: Adjacency, start: Id, target: Id, limit: int, level: map<Id, nat>, queue: seq<seq<Id>>) {
    QueueOk(g, start, queue, limit) && LevelsOk(level, queue, limit, target)
    && SuccessorsOk(g, level, queue, limit, target) && Accounted(level, queue, limit, target, start, 1)
  }

  /** Every node that `n` edges reach is expanded in time, or something on the way is still queued or
      was cut off at the limit. */
  ghost predicate OnTheWay(g: Adjacency, start: Id, level: map<Id, nat>, queue: seq<seq<Id>>, limit: int, target: Id, n: nat, y: Id) {
    (y in level && level[y] <= n + 1) || (exists q :: q in queue && |q| <= n + 1) || n + 1 > limit || (n + 1 == limit && y != target)
    || (limit <= 0 && start != target)
  }

  lemma {:induction false} WalksAreCovered(g: Adjacency, start: Id, target: Id, limit: int, level: map<Id, nat>, queue: seq<seq<Id>>, n: nat, y: Id)
    requires SearchInv(g, start, target, limit, level, queue) && ReachIn(g, n, start, y)
    ensures OnTheWay(g, start, level, queue, limit, target, n, y)
    decreases n
  {
    if n == 0 {
      assert Accounted(level, queue, limit, target, start, 1);
    } else {
      var z :| ReachIn(g, n - 1, start, z) && HasEdge(g, z, y);
      WalksAreCovered(g, start, target, limit, level, queue, n - 1, z);
      if z in level && level[z] <= n {
        assert Accounted(level, queue, limit, target, y, level[z] + 1);
      }
    }
  }

  /** The largest number of nodes a returned path may have. */
  function PathLimit(maxDepth: int): int { if maxDepth < 1 then 1 else maxDepth }

  ghost predicate Within(g: Adjacency, n: nat, start: Id, target: Id, maxDepth: int) {
    ReachIn(g, n, start, target) && n + 1 <= PathLimit(maxDepth)
  }

  /** When the front of the queue ends in the target nothing shorter exists. */
  lemma FrontIsShortest(g: Adjacency, start: Id, target: Id, maxDepth: int, level: map<Id, nat>, queue: seq<seq<Id>>, n: nat)
    requires SearchInv(g, start, target, maxDepth, level, queue) && queue != [] && Last(queue[0]) == target
    requires ReachIn(g, n, start, target)
    ensures |queue[0]| <= n + 1 && |queue[0]| <= PathLimit(maxDepth)
  {
    assert queue[0] in queue;
    if n + 1 < |queue[0]| {
      WalksAreCovered(g, start, target, maxDepth, level, queue, n, target);
      forall q | q in queue
        ensures |queue[0]| <= |q|
      {
        var i :| 0 <= i < |queue| && queue[i] == q;
      }
    }
  }

  /** When the queue is empty there is no path within the limit. */
  lemma EmptyMeansNone(g: Adjacency, start: Id, target: Id, maxDepth: int, level: map<Id, nat>, n: nat)
    requires SearchInv(g, start, target, maxDepth, level, [])
    ensures !Within(g, n, start, target, maxDepth)
  {
    if Within(g, n, start, target, maxDepth) {
      WalksAreCovered(g, start, target, maxDepth, level, [], n, target);
    }
  }

  /* ---- the steps of the search ---- */

  lemma RestOk(g: Adjacency, start: Id, queue: seq<seq<Id>>, limit: int)
    requires QueueOk(g, start, queue, limit) && queue != []
    ensures QueueOk(g, start, queue[1..], limit) && forall q :: q in queue[1..] ==> |queue[0]| <= |q| <= |queue[0]| + 1
  {
  }

  /** What was accounted for through the popped walk is accounted for without it, if its end was
      expanded in time or lies at the limit. */
  lemma AccountedAfterPop(level: map<Id, nat>, level': map<Id, nat>, queue: seq<seq<Id>>, limit: int, target: Id, y: Id, bound: int)
    requires queue != [] && |queue[0]| >= 1 && Accounted(level, queue, limit, target, y, bound)
    requires forall x :: x in level ==> x in level' && level'[x] == level[x]
    requires Last(queue[0]) != target && ((Last(queue[0]) in level' && level'[Last(queue[0])] <= |queue[0]|) || |queue[0]| >= limit)
    ensures Accounted(level', queue[1..], limit, target, y, bound)
  {
    if Queued(queue, y, bound) {
      var q :| q in queue && |q| >= 1 && Last(q) == y && |q| <= bound;
      assert q == queue[0] || q in queue[1..];
    }
  }

  /** Popping a walk that is not expanded: it is at the limit, or its end was expanded before. */
  lemma PopSkipped(g: Adjacency, start: Id, target: Id, limit: int, level: map<Id, nat>, queue: seq<seq<Id>>)
    requires SearchInv(g, start, target, limit, level, queue) && queue != [] && |queue[0]| >= 1
    requires Last(queue[0]) != target && (|queue[0]| >= limit || Last(queue[0]) in level)
    ensures SearchInv(g, start, target, limit, level, queue[1..])
  {
    RestOk(g, start, queue, limit);
    assert queue[0] in queue;
    hide Accounted, QueueOk;
    AccountedAfterPop(level, level, queue, limit, target, start, 1);
    forall x, y | x in level && HasEdge(g, x, y)
      ensures Accounted(level, queue[1..], limit, target, y, level[x] + 1)
    {
      AccountedAfterPop(level, level, queue, limit, target, y, level[x] + 1);
    }
  }

  /** The search in the middle of an expansion: the first `k` edges of `curr` have been followed. */
  ghost predicate Expanding(g: Adjacency, start: Id, target: Id, limit: int, level: map<Id, nat>, queue: seq<seq<Id>>, path: seq<Id>, k: nat)
  {
    IsWalk(g, start, path) && |path| < limit && Last(path) in level && level[Last(path)] == |path| && k <= |Edges(g, Last(path))|
    && QueueOk(g, start, queue, limit) && LevelsOk(level, queue, limit, target)
    && (forall q :: q in queue ==> |path| <= |q| <= |path| + 1)
    && (forall x, y :: x in level && x != Last(path) && HasEdge(g, x, y) ==> Accounted(level, queue, limit, target, y, level[x] + 1))
    && (forall j :: 0 <= j < k ==> Accounted(level, queue, limit, target, Edges(g, Last(path))[j].target, |path| + 1))
    && Accounted(level, queue, limit, target, start, 1) && (forall x :: x in level ==> level[x] <= |path|)
  }

  lemma LevelsAfterPop(g: Adjacency, start: Id, level: map<Id, nat>, queue: seq<seq<Id>>, limit: int, target: Id)
    requires QueueOk(g, start, queue, limit) && LevelsOk(level, queue, limit, target) && queue != [] && 1 <= |queue[0]| < limit && Last(queue[0]) != target
    ensures var level' := level[Last(queue[0]) := |queue[0]|];
            LevelsOk(level', queue[1..], limit, target) && forall x :: x in level' ==> level'[x] <= |queue[0]|
  {
    RestOk(g, start, queue, limit);
    assert queue[0] in queue;
    hide QueueOk;
  }

  lemma SuccessorsAfterPop(g: Adjacency, level: map<Id, nat>, queue: seq<seq<Id>>, limit: int, target: Id, level': map<Id, nat>)
    requires SuccessorsOk(g, level, queue, limit, target) && queue != [] && |queue[0]| >= 1
    requires Last(queue[0]) != target && Last(queue[0]) !in level && level' == level[Last(queue[0]) := |queue[0]|]
    ensures forall x, y :: x in level' && x != Last(queue[0]) && HasEdge(g, x, y) ==> Accounted(level', queue[1..], limit, target, y, level'[x] + 1)
  {
    hide Accounted, HasEdge;
    forall x, y | x in level' && x != Last(queue[0]) && HasEdge(g, x, y)
      ensures Accounted(level', queue[1..], limit, target, y, level'[x] + 1)
    {
      AccountedAfterPop(level, level', queue, limit, target, y, level[x] + 1);
    }
  }

  lemma StartExpanding(g: Adjacency, start: Id, target: Id, limit: int, level: map<Id, nat>, queue: seq<seq<Id>>)
    requires SearchInv(g, start, target, limit, level, queue) && queue != [] && |queue[0]| >= 1
    requires Last(queue[0]) != target && |queue[0]| < limit && Last(queue[0]) !in level
    ensures Expanding(g, start, target, limit, level[Last(queue[0]) := |queue[0]|], queue[1..], queue[0], 0)
  {
    var level' := level[Last(queue[0]) := |queue[0]|];
    assert IsWalk(g, start, queue[0]) by { assert queue[0] in queue; }
    hide Accounted, QueueOk, IsWalk, LevelsOk, SuccessorsOk, HasEdge;
    RestOk(g, start, queue, limit);
    AccountedAfterPop(level, level', queue, limit, target, start, 1);
    LevelsAfterPop(g, start, level, queue, limit, target);
    SuccessorsAfterPop(g, level, queue, limit, target, level');
  }

  lemma StillAccounted(level: map<Id, nat>, queue: seq<seq<Id>>, q: seq<Id>, limit: int, target: Id, y: Id, bound: int)
    requires Accounted(level, queue, limit, target, y, bound)
    ensures Accounted(level, queue + [q], limit, target, y, bound)
  {
    if Queued(queue, y, bound) {
      var p :| p in queue && |p| >= 1 && Last(p) == y && |p| <= bound;
      assert p in queue + [q];
    }
  }

  lemma PushedOk(g: Adjacency, start: Id, queue: seq<seq<Id>>, limit: int, path: seq<Id>, w: Id)
    requires QueueOk(g, start, queue, limit) && IsWalk(g, start, path) && |path| < limit && HasEdge(g, Last(path), w)
    requires forall q :: q in queue ==> |path| <= |q| <= |path| + 1
    ensures QueueOk(g, start, queue + [path + [w]], limit)
  {
    var queue' := queue + [path + [w]];
    assert IsWalk(g, start, path + [w]);
    hide IsWalk;
    forall i, j | 0 <= i < j < |queue'|
      ensures |queue'[i]| <= |queue'[j]| <= |queue'[i]| + 1
    {
      assert queue[i] in queue;
    }
  }

  /** Following one more edge, whether or not its target is pushed. */
  lemma ExpandMore(g: Adjacency, start: Id, target: Id, limit: int, level: map<Id, nat>, queue: seq<seq<Id>>, path: seq<Id>, k: nat)
    requires Expanding(g, start, target, limit, level, queue, path, k) && k < |Edges(g, Last(path))|
    ensures var w := Edges(g, Last(path))[k].target;
            Expanding(g, start, target, limit, level, if w in level then queue else queue + [path + [w]], path, k + 1)
  {
    var w := Edges(g, Last(path))[k].target;
    if w in level {
      assert Accounted(level, queue, limit, target, w, |path| + 1);
      hide Accounted, QueueOk, IsWalk, LevelsOk;
    } else {
      hide *;
      ExpandPush(g, start, target, limit, level, queue, path, k, w);
    }
  }

  lemma ExpandPush(g: Adjacency, start: Id, target: Id, limit: int, level: map<Id, nat>, queue: seq<seq<Id>>, path: seq<Id>, k: nat, w: Id)
    requires Expanding(g, start, target, limit, level, queue, path, k) && k < |Edges(g, Last(path))| && w == Edges(g, Last(path))[k].target
    ensures Expanding(g, start, target, limit, level, queue + [path + [w]], path, k + 1)
  {
    var q := path + [w];
    assert HasEdge(g, Last(path), w);
    hide Accounted, QueueOk, IsWalk, LevelsOk, HasEdge;
    PushedOk(g, start, queue, limit, path, w);
    LevelsPush(level, queue, limit, target, q);
    AccountedPush(level, queue, path, w, limit, target);
    hide Last;
  }

  lemma LevelsPush(level: map<Id, nat>, queue: seq<seq<Id>>, limit: int, target: Id, q: seq<Id>)
    requires LevelsOk(level, queue, limit, target) && forall x :: x in level ==> level[x] <= |q|
    ensures LevelsOk(level, queue + [q], limit, target)
  {
  }

  lemma AccountedPush(level: map<Id, nat>, queue: seq<seq<Id>>, path: seq<Id>, w: Id, limit: int, target: Id)
    ensures forall y, b :: Accounted(level, queue, limit, target, y, b) ==> Accounted(level, queue + [path + [w]], limit, target, y, b)
    ensures Accounted(level, queue + [path + [w]], limit, target, w, |path| + 1)
  {
    var q := path + [w];
    assert q in queue + [q] && Last(q) == w && Queued(queue + [q], w, |path| + 1);
    forall y, b | Accounted(level, queue, limit, target, y, b)
      ensures Accounted(level, queue + [q], limit, target, y, b)
    {
      hide *;
      StillAccounted(level, queue, q, limit, target, y, b);
    }
  }

  lemma DoneExpanding(g: Adjacency, start: Id, target: Id, limit: int, level: map<Id, nat>, queue: seq<seq<Id>>, path: seq<Id>)
    requires |path| >= 1 && Expanding(g, start, target, limit, level, queue, path, |Edges(g, Last(path))|)
    ensures SearchInv(g, start, target, limit, level, queue)
  {
    hide Accounted, QueueOk, IsWalk;
    forall x, y | x in level && HasEdge(g, x, y)
      ensures Accounted(level, queue, limit, target, y, level[x] + 1)
    {
      if x == Last(path) {
        var j :| 0 <= j < |Edges(g, x)| && Edges(g, x)[j].target == y;
      }
    }
  }

  /** The inner loop: the successors that are not yet expanded join the queue. */
  method Expand(g: Adjacency, path: seq<Id>, visited: set<Id>, queue: seq<seq<Id>>,
                ghost start: Id, ghost target: Id, ghost limit: int, ghost level: map<Id, nat>) returns (queue': seq<seq<Id>>)
    requires |path| >= 1 && level.Keys == visited && Expanding(g, start, target, limit, level, queue, path, 0)
    ensures SearchInv(g, start, target, limit, level, queue')
    ensures queue <= queue'
  {
    hide *;
    queue' := queue;
    var curr := path[|path| - 1];
    assert curr == Last(path) by { LastIs(path); }
    for k := 0 to |Edges(g, curr)|
      invariant Expanding(g, start, target, limit, level, queue', path, k) && queue <= queue'
    {
      var w := Edges(g, curr)[k].target;
      ExpandMore(g, start, target, limit, level, queue', path, k);
      if w !in visited {
        queue' := queue' + [path + [w]];
      }
    }
    DoneExpanding(g, start, target, limit, level, queue', path);
  }

  lemma LastIs(path: seq<Id>)
    requires |path| >= 1
    ensures path[|path| - 1] == Last(path)
  {
  }

  ghost predicate Found(g: Adjacency, start: Id, target: Id, maxDepth: int, path: seq<Id>) {
    IsWalk(g, start, path) && Last(path) == target && |path| <= PathLimit(maxDepth)
    && forall n: nat :: ReachIn(g, n, start, target) ==> |path| <= n + 1
  }

  lemma StartSearch(g: Adjacency, start: Id, target: Id, limit: int)
    ensures SearchInv(g, start, target, limit, map[], [[start]])
  {
    assert [start] in [[start]] && Last([start]) == start;
    assert Queued([[start]], start, 1);
  }

  lemma FrontIsWalk(g: Adjacency, start: Id, target: Id, limit: int, level: map<Id, nat>, queue: seq<seq<Id>>, universe: set<Id>)
    requires SearchInv(g, start, target, limit, level, queue) && queue != []
    requires start in universe && forall x, y :: HasEdge(g, x, y) ==> y in universe
    ensures IsWalk(g, start, queue[0]) && |queue[0]| >= 1 && Last(queue[0]) in universe
  {
    assert queue[0] in queue;
    var p := queue[0];
    if |p| > 1 {
      assert HasEdge(g, p[|p| - 2], p[|p| - 1]);
    }
  }

  lemma FrontFound(g: Adjacency, start: Id, target: Id, maxDepth: int, level: map<Id, nat>, queue: seq<seq<Id>>)
    requires SearchInv(g, start, target, maxDepth, level, queue) && queue != [] && |queue[0]| >= 1 && Last(queue[0]) == target
    ensures Found(g, start, target, maxDepth, queue[0])
  {
    assert queue[0] in queue;
    WalkReaches(g, start, queue[0]);
    FrontIsShortest(g, start, target, maxDepth, level, queue, |queue[0]| - 1);
    forall n: nat | ReachIn(g, n, start, target)
      ensures |queue[0]| <= n + 1
    {
      FrontIsShortest(g, start, target, maxDepth, level, queue, n);
    }
  }

  ghost function Universe(g: Adjacency, start: Id): set<Id> {
    {start} + set x, k | x in g && 0 <= k < |g[x]| :: g[x][k].target
  }

  lemma EdgesStayInUniverse(g: Adjacency, start: Id)
    ensures forall x, y :: HasEdge(g, x, y) ==> y in Universe(g, start)
  {
  }

  /** FindPath. It returns a shortest path if one with at most max(1, maxDepth) nodes exists, and
      nothing otherwise; every node is expanded at most once, so it ends on cyclic graphs too. */
  method FindPath(nodes: set<Id>, g: Adjacency, startId: Id, targetId: Id, maxDepth: int) returns (path: seq<Id>)
    ensures path != [] ==> startId in nodes && targetId in nodes && Found(g, startId, targetId, maxDepth, path)
    ensures path == [] && startId in nodes && targetId in nodes ==> forall n: nat :: !Within(g, n, startId, targetId, maxDepth)
  {
    if startId !in nodes || targetId !in nodes {
      return [];
    }
    var queue := [[startId]];
    var visited: set<Id> := {};
    ghost var level: map<Id, nat> := map[];
    ghost var universe := Universe(g, startId);
    StartSearch(g, startId, targetId, maxDepth);
    EdgesStayInUniverse(g, startId);
    hide *;
    assert startId in universe by { StartInUniverse(g, startId); }
    while |queue| > 0
      invariant SearchInv(g, startId, targetId, maxDepth, level, queue) && level.Keys == visited && visited <= universe
      decreases universe - visited, |queue|
    {
      path := queue[0];
      FrontIsWalk(g, startId, targetId, maxDepth, level, queue, universe);
      LastIs(path);
      var curr := path[|path| - 1];
      if curr == targetId {
        FrontFound(g, startId, targetId, maxDepth, level, queue);
        return path;
      }
      if |path| >= maxDepth || curr in visited {
        PopSkipped(g, startId, targetId, maxDepth, level, queue);
        queue := queue[1..];
      } else {
        StartExpanding(g, startId, targetId, maxDepth, level, queue);
        assert curr in universe - visited;
        visited, level := visited + {curr}, level[curr := |path|];
        queue := Expand(g, path, visited, queue[1..], startId, targetId, maxDepth, level);
      }
    }
    path := [];
    assert queue == [];
    forall n: nat
      ensures !Within(g, n, startId, targetId, maxDepth)
    {
      EmptyMeansNone(g, startId, targetId, maxDepth, level, n);
    }
  }

  lemma StartInUniverse(g: Adjacency, start: Id)
    ensures start in Universe(g, start)
  {
  }
}
