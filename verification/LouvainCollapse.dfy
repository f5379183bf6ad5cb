/** Aggregating level by level is aggregating once: collapsing a collapsed graph is collapsing the
    original by the composed labels. */
module LouvainCollapse {
  import opened LouvainGraphs

  ghost predicate Fits(inner: seq<nat>, outer: seq<nat>) { forall i :: 0 <= i < |inner| ==> inner[i] < |outer| }

  /** The label of a vertex's label. */
  function Composed(inner: seq<nat>, outer: seq<nat>): (labels: seq<nat>)
    requires Fits(inner, outer)
    ensures |labels| == |inner| && forall i :: 0 <= i < |inner| ==> labels[i] == outer[inner[i]]
  {
    seq(|inner|, i requires 0 <= i < |inner| => outer[inner[i]])
  }

  function Singletons(n: nat): (labels: seq<nat>)
    ensures |labels| == n && forall i :: 0 <= i < n ==> labels[i] == i
  {
    seq(n, i => i)
  }

  /* ---- sums over members ---- */

  lemma {:induction false} DegreeUpdate(deg: seq<nat>, comm: seq<nat>, c: nat, j: nat, w: nat, n: nat)
    requires n <= |comm| && n <= |deg| && j < |deg| && j < |comm|
    ensures CommDegree(deg[j := w], comm, c, n) == CommDegree(deg, comm, c, n) + if j < n && comm[j] == c then w - deg[j] else 0
  {
    if n > 0 {
      DegreeUpdate(deg, comm, c, j, w, n - 1);
    }
  }

  lemma {:induction false} NoDegree(deg: seq<nat>, comm: seq<nat>, c: nat, n: nat)
    requires n <= |comm| && n <= |deg| && forall i :: 0 <= i < n ==> deg[i] == 0
    ensures CommDegree(deg, comm, c, n) == 0
  {
    if n > 0 {
      NoDegree(deg, comm, c, n - 1);
    }
  }

  lemma {:induction false} OwnDegree(deg: seq<nat>, c: nat, n: nat, size: nat)
    requires n <= size == |deg|
    ensures CommDegree(deg, Singletons(size), c, n) == if c < n then deg[c] else 0
  {
    if n > 0 {
      OwnDegree(deg, c, n - 1, size);
    }
  }

  /** `sums` are the sums of `deg` over the communities of `inner`. */
  ghost predicate SumsTo(deg: seq<nat>, inner: seq<nat>, n: nat, sums: seq<nat>) {
    n <= |deg| && n <= |inner| && forall k :: 0 <= k < |sums| ==> sums[k] == CommDegree(deg, inner, k, n)
  }

  /** Summing the sums is summing over the composed communities. */
  lemma {:induction false} DegreesCompose(deg: seq<nat>, inner: seq<nat>, outer: seq<nat>, sums: seq<nat>, c: nat, n: nat)
    requires Fits(inner, outer) && |sums| == |outer| && SumsTo(deg, inner, n, sums)
    ensures CommDegree(sums, outer, c, |outer|) == CommDegree(deg, Composed(inner, outer), c, n)
    decreases n
  {
    if n == 0 {
      NoDegree(sums, outer, c, |outer|);
    } else {
      var k := inner[n - 1];
      assert sums[k] == CommDegree(deg, inner, k, n - 1) + deg[n - 1];
      var fewer := sums[k := sums[k] - deg[n - 1]];
      DegreesCompose(deg, inner, outer, fewer, c, n - 1);
      DegreeUpdate(sums, outer, c, k, fewer[k], |outer|);
    }
  }

  /* ---- rows ---- */

  ghost function Entries(row: Row, n: nat): (deg: seq<nat>)
    ensures |deg| == n && forall j :: 0 <= j < n ==> deg[j] == At(row, j)
  {
    seq(n, j requires j >= 0 => At(row, j))
  }

  lemma {:induction false} RowAsDegrees(row: Row, comm: seq<nat>, c: nat, n: nat)
    requires n <= |comm|
    ensures RowTo(row, comm, c, n) == CommDegree(Entries(row, |comm|), comm, c, n)
  {
    hide At;
    if n > 0 {
      RowAsDegrees(row, comm, c, n - 1);
    }
  }

  lemma RowsCompose(row: Row, inner: seq<nat>, outer: seq<nat>, sums: Row, c: nat)
    requires Fits(inner, outer) && forall k :: 0 <= k < |outer| ==> At(sums, k) == RowTo(row, inner, k, |inner|)
    ensures RowTo(sums, outer, c, |outer|) == RowTo(row, Composed(inner, outer), c, |inner|)
  {
    hide At, RowTo, CommDegree;
    RowAsDegrees(sums, outer, c, |outer|);
    RowAsDegrees(row, Composed(inner, outer), c, |inner|);
    forall k | 0 <= k < |outer|
      ensures Entries(sums, |outer|)[k] == CommDegree(Entries(row, |inner|), inner, k, |inner|)
    {
      RowAsDegrees(row, inner, k, |inner|);
    }
    DegreesCompose(Entries(row, |inner|), inner, outer, Entries(sums, |outer|), c, |inner|);
  }

  lemma {:induction false} RowsAdd(a: Row, b: Row, sum: Row, comm: seq<nat>, c: nat, n: nat)
    requires n <= |comm| && forall j :: 0 <= j < n ==> At(sum, j) == At(a, j) + At(b, j)
    ensures RowTo(sum, comm, c, n) == RowTo(a, comm, c, n) + RowTo(b, comm, c, n)
  {
    hide At;
    if n > 0 {
      RowsAdd(a, b, sum, comm, c, n - 1);
    }
  }

  lemma {:induction false} NoRow(row: Row, comm: seq<nat>, c: nat, n: nat)
    requires n <= |comm| && forall j :: 0 <= j < n ==> At(row, j) == 0
    ensures RowTo(row, comm, c, n) == 0
  {
    hide At;
    if n > 0 {
      NoRow(row, comm, c, n - 1);
    }
  }

  /* ---- blocks ---- */

  /** What each of the rows sends to community `c`. */
  ghost function Into(adj: seq<Row>, comm: seq<nat>, c: nat): (deg: seq<nat>)
    ensures |deg| == |adj| && forall i :: 0 <= i < |adj| ==> deg[i] == RowTo(adj[i], comm, c, |comm|)
  {
    seq(|adj|, i requires 0 <= i < |adj| => RowTo(adj[i], comm, c, |comm|))
  }

  lemma {:induction false} BlockAsDegrees(adj: seq<Row>, comm: seq<nat>, k: nat, c: nat, n: nat)
    requires n <= |adj| && |adj| == |comm|
    ensures Block(adj, comm, k, c, n) == CommDegree(Into(adj, comm, c), comm, k, n)
  {
    hide RowTo;
    if n > 0 {
      BlockAsDegrees(adj, comm, k, c, n - 1);
    }
  }

  /** Row `k` of the collapsed graph, from the first `n` rows. */
  ghost function BlockRow(adj: seq<Row>, comm: seq<nat>, k: nat, n: nat, size: nat): (row: Row)
    requires n <= |adj| && |adj| == |comm|
    ensures forall l :: 0 <= l < size ==> At(row, l) == Block(adj, comm, k, l, n)
  {
    map l | 0 <= l < size :: Block(adj, comm, k, l, n)
  }

  ghost function RowSums(row: Row, comm: seq<nat>, size: nat): (sums: Row)
    ensures forall l :: 0 <= l < size ==> At(sums, l) == RowTo(row, comm, l, |comm|)
  {
    map l | 0 <= l < size :: RowTo(row, comm, l, |comm|)
  }

  lemma OneMoreMember(adj: seq<Row>, inner: seq<nat>, outer: seq<nat>, k: nat, c: nat, n: nat, row: Row)
    requires n < |adj| && |adj| == |inner| && Fits(inner, outer) && inner[n] == k
    requires forall l :: 0 <= l < |outer| ==> At(row, l) == Block(adj, inner, k, l, n + 1)
    ensures RowTo(row, outer, c, |outer|)
            == RowTo(BlockRow(adj, inner, k, n, |outer|), outer, c, |outer|) + RowTo(adj[n], Composed(inner, outer), c, |inner|)
  {
    var before, last := BlockRow(adj, inner, k, n, |outer|), RowSums(adj[n], inner, |outer|);
    forall l | 0 <= l < |outer|
      ensures At(row, l) == At(before, l) + At(last, l)
    {
      assert Block(adj, inner, k, l, n + 1) == Block(adj, inner, k, l, n) + RowTo(adj[n], inner, l, |inner|);
    }
    hide At, RowTo, Block, BlockRow, RowSums;
    RowsAdd(before, last, row, outer, c, |outer|);
    RowsCompose(adj[n], inner, outer, last, c);
  }

  /** A collapsed row sends to a community of communities what its members send to it. */
  lemma {:induction false} CollapsedRow(adj: seq<Row>, inner: seq<nat>, outer: seq<nat>, k: nat, c: nat, n: nat, row: Row)
    requires n <= |adj| && |adj| == |inner| && Fits(inner, outer)
    requires forall l :: 0 <= l < |outer| ==> At(row, l) == Block(adj, inner, k, l, n)
    ensures RowTo(row, outer, c, |outer|) == CommDegree(Into(adj, Composed(inner, outer), c), inner, k, n)
  {
    hide At, RowTo, BlockRow, RowSums;
    if n == 0 {
      NoRow(row, outer, c, |outer|);
    } else {
      var before := BlockRow(adj, inner, k, n - 1, |outer|);
      CollapsedRow(adj, inner, outer, k, c, n - 1, before);
      if inner[n - 1] == k {
        OneMoreMember(adj, inner, outer, k, c, n - 1, row);
      } else {
        SameRow(before, row, outer, c, |outer|);
      }
    }
  }

  lemma {:induction false} SameRow(a: Row, b: Row, comm: seq<nat>, c: nat, n: nat)
    requires n <= |comm| && forall j :: 0 <= j < n ==> At(a, j) == At(b, j)
    ensures RowTo(a, comm, c, n) == RowTo(b, comm, c, n)
  {
    hide At;
    if n > 0 {
      SameRow(a, b, comm, c, n - 1);
    }
  }

  lemma BlocksCompose(g: LouvainGraph, inner: seq<nat>, outer: seq<nat>, ng: LouvainGraph, k: nat, c: nat)
    requires Collapsed(g, inner, ng) && Fits(inner, outer) && |outer| == ng.size
    ensures Block(ng.adj, outer, k, c, ng.size) == Block(g.adj, Composed(inner, outer), k, c, g.size)
  {
    var labels := Composed(inner, outer);
    BlockAsDegrees(ng.adj, outer, k, c, ng.size);
    BlockAsDegrees(g.adj, labels, k, c, g.size);
    forall v | 0 <= v < ng.size
      ensures Into(ng.adj, outer, c)[v] == CommDegree(Into(g.adj, labels, c), inner, v, g.size)
    {
      hide Block, RowTo, CommDegree, At, Into;
      CollapsedRow(g.adj, inner, outer, v, c, g.size, ng.adj[v]);
    }
    hide Block, RowTo, CommDegree, At, Into;
    DegreesCompose(Into(g.adj, labels, c), inner, outer, Into(ng.adj, outer, c), k, g.size);
  }

  /** Two aggregations in a row are one. */
  lemma CollapseComposes(g: LouvainGraph, inner: seq<nat>, ng: LouvainGraph, outer: seq<nat>, last: LouvainGraph)
    requires Collapsed(g, inner, ng) && Collapsed(ng, outer, last)
    ensures Fits(inner, outer) && Collapsed(g, Composed(inner, outer), last)
  {
    hide Block, CommDegree, At;
    forall k | 0 <= k < last.size
      ensures last.deg[k] == CommDegree(g.deg, Composed(inner, outer), k, g.size)
    {
      DegreesCompose(g.deg, inner, outer, ng.deg, k, g.size);
    }
    forall k, l | 0 <= k < last.size && 0 <= l < last.size
      ensures At(last.adj[k], l) == Block(g.adj, Composed(inner, outer), k, l, g.size)
    {
      BlocksCompose(g, inner, outer, ng, k, l);
    }
  }

  /** With every vertex by itself nothing collapses. */
  lemma CollapsedToItself(g: LouvainGraph)
    requires Shaped(g)
    ensures Collapsed(g, Singletons(g.size), g)
  {
    var own := Singletons(g.size);
    hide Block, CommDegree, At, RowTo;
    forall k | 0 <= k < g.size
      ensures g.deg[k] == CommDegree(g.deg, own, k, g.size)
    {
      OwnDegree(g.deg, k, g.size, g.size);
    }
    forall k, l | 0 <= k < g.size && 0 <= l < g.size
      ensures At(g.adj[k], l) == Block(g.adj, own, k, l, g.size)
    {
      BlockAsDegrees(g.adj, own, k, l, g.size);
      OwnDegree(Into(g.adj, own, l), k, g.size, g.size);
      RowAsDegrees(g.adj[k], own, l, g.size);
      OwnDegree(Entries(g.adj[k], g.size), l, g.size, g.size);
    }
  }
}
