/** The weighted undirected graphs of the Louvain method, their sums, and aggregation. A vertex's
    adjacency row is kept as a map: the slice it stands for is sorted and holds each neighbour once. */
module LouvainGraphs {

  type Row = map<nat, nat>

  /** `deg` counts self-loops of aggregated levels too, contrary to the comment on the field. */
  datatype LouvainGraph = LouvainGraph(size: nat, adj: seq<Row>, deg: seq<nat>, m: nat)

  function Put(row: Row, j: nat, w: nat): Row { row[j := w] }

  function At(row: Row, j: nat): nat { if j in row then row[j] else 0 }

  /** The sum of the first `n` entries of a row. */
  ghost function RowSum(row: Row, n: nat): nat {
    if n == 0 then 0 else RowSum(row, n - 1) + At(row, n - 1)
  }

  ghost function SumOf(deg: seq<nat>): nat {
    if deg == [] then 0 else SumOf(deg[..|deg| - 1]) + deg[|deg| - 1]
  }

  ghost predicate Shaped(g: LouvainGraph) {
    |g.adj| == g.size && |g.deg| == g.size && forall i, j :: 0 <= i < g.size && j in g.adj[i] ==> j < g.size
  }

  ghost predicate Symmetric(adj: seq<Row>) {
    forall i, j :: 0 <= i < |adj| && 0 <= j < |adj| ==> At(adj[i], j) == At(adj[j], i)
  }

  /** Weights are symmetric, rows sum to the degrees, and the degrees sum to twice the weight. */
  ghost predicate WellFormed(g: LouvainGraph) {
    Shaped(g) && Symmetric(g.adj) && (forall i :: 0 <= i < g.size ==> RowSum(g.adj[i], g.size) == g.deg[i]) && SumOf(g.deg) == 2 * g.m
  }

  /* ---- sums under updates ---- */

  lemma {:induction false} RowSumUpdate(row: Row, j: nat, w: nat, n: nat)
    ensures RowSum(Put(row, j, w), n) == RowSum(row, n) + if j < n then w - At(row, j) else 0
  {
    if n > 0 {
      RowSumUpdate(row, j, w, n - 1);
    }
  }

  lemma {:induction false} SumOfUpdate(deg: seq<nat>, i: nat, d: nat)
    requires i < |deg|
    ensures SumOf(deg[i := d]) == SumOf(deg) - deg[i] + d
  {
    var n := |deg| - 1;
    if i < n {
      SumOfUpdate(deg[..n], i, d);
      assert deg[i := d][..n] == deg[..n][i := d];
    } else {
      assert deg[i := d][..n] == deg[..n];
    }
  }

  /** An undirected edge of weight `w` between two vertices not yet adjacent. */
  function WithEdge(g: LouvainGraph, a: nat, b: nat, w: nat): LouvainGraph
    requires a < g.size && b < g.size && |g.adj| == g.size && |g.deg| == g.size && a != b
  {
    var adj := g.adj[a := Put(g.adj[a], b, w)];
    var adj' := adj[b := Put(adj[b], a, w)];
    var deg := g.deg[a := g.deg[a] + w];
    g.(adj := adj', deg := deg[b := deg[b] + w], m := g.m + w)
  }

  lemma WithEdgeSymmetric(g: LouvainGraph, a: nat, b: nat, w: nat)
    requires Shaped(g) && Symmetric(g.adj) && a < g.size && b < g.size && a != b
    ensures Shaped(WithEdge(g, a, b, w)) && Symmetric(WithEdge(g, a, b, w).adj)
  {
    var g' := WithEdge(g, a, b, w);
    forall i, j | 0 <= i < g.size && 0 <= j < g.size
      ensures At(g'.adj[i], j) == if (i == a && j == b) || (i == b && j == a) then w else At(g.adj[i], j)
    {
    }
    hide At, WithEdge;
  }

  lemma WithEdgeRows(g: LouvainGraph, a: nat, b: nat, w: nat, i: nat)
    requires Shaped(g) && a < g.size && b < g.size && a != b && b !in g.adj[a] && a !in g.adj[b] && i < g.size
    requires RowSum(g.adj[i], g.size) == g.deg[i]
    ensures var g' := WithEdge(g, a, b, w); RowSum(g'.adj[i], g'.size) == g'.deg[i]
  {
    RowSumUpdate(g.adj[a], b, w, g.size);
    RowSumUpdate(g.adj[b], a, w, g.size);
    hide RowSum;
  }

  lemma WithEdgeTotal(g: LouvainGraph, a: nat, b: nat, w: nat)
    requires |g.adj| == g.size && |g.deg| == g.size && a < g.size && b < g.size && a != b
    ensures var g' := WithEdge(g, a, b, w);
            SumOf(g'.deg) == SumOf(g.deg) + 2 * w && g'.m == g.m + w && g'.size == g.size && |g'.adj| == g.size && |g'.deg| == g.size
  {
    SumOfUpdate(g.deg, a, g.deg[a] + w);
    SumOfUpdate(g.deg[a := g.deg[a] + w], b, g.deg[b] + w);
    hide SumOf;
  }

  lemma WithEdgeWellFormed(g: LouvainGraph, a: nat, b: nat, w: nat)
    requires WellFormed(g) && a < g.size && b < g.size && a != b && b !in g.adj[a] && a !in g.adj[b]
    ensures WellFormed(WithEdge(g, a, b, w))
  {
    hide RowSum, Symmetric, SumOf, WithEdge, At, Put;
    WithEdgeSymmetric(g, a, b, w);
    WithEdgeTotal(g, a, b, w);
    forall i | 0 <= i < g.size
      ensures RowSum(WithEdge(g, a, b, w).adj[i], g.size) == WithEdge(g, a, b, w).deg[i]
    {
      assert RowSum(g.adj[i], g.size) == g.deg[i];
      WithEdgeRows(g, a, b, w, i);
    }
  }

  /* ---- communities ---- */

  /** The weight from a row into community `c`. */
  ghost function RowTo(row: Row, comm: seq<nat>, c: nat, n: nat): nat
    requires n <= |comm|
  {
    if n == 0 then 0 else RowTo(row, comm, c, n - 1) + if comm[n - 1] == c then At(row, n - 1) else 0
  }

  /** The total degree of community `c` among the first `n` vertices. */
  ghost function CommDegree(deg: seq<nat>, comm: seq<nat>, c: nat, n: nat): nat
    requires n <= |comm| && n <= |deg|
  {
    if n == 0 then 0 else CommDegree(deg, comm, c, n - 1) + if comm[n - 1] == c then deg[n - 1] else 0
  }

  lemma {:induction false} CommDegreeMove(deg: seq<nat>, comm: seq<nat>, i: nat, best: nat, c: nat, n: nat)
    requires n <= |comm| && n <= |deg| && i < |comm| && i < |deg|
    ensures CommDegree(deg, comm[i := best], c, n)
            == CommDegree(deg, comm, c, n) - (if i < n && comm[i] == c then deg[i] else 0) + if i < n && best == c then deg[i] else 0
  {
    if n > 0 {
      CommDegreeMove(deg, comm, i, best, c, n - 1);
    }
  }

  /** The weight from community `k` among the first `n` vertices into community `c`. */
  ghost function Block(adj: seq<Row>, comm: seq<nat>, k: nat, c: nat, n: nat): nat
    requires n <= |adj| && |adj| == |comm|
  {
    if n == 0 then 0 else Block(adj, comm, k, c, n - 1) + if comm[n - 1] == k then RowTo(adj[n - 1], comm, c, |comm|) else 0
  }

  /** The weight from community `k` among the first `n` vertices into vertex `j`. */
  ghost function ColTo(adj: seq<Row>, comm: seq<nat>, k: nat, j: nat, n: nat): nat
    requires n <= |adj| && |adj| == |comm|
  {
    if n == 0 then 0 else ColTo(adj, comm, k, j, n - 1) + if comm[n - 1] == k then At(adj[n - 1], j) else 0
  }

  /** A block summed by columns: the columns `j < cols` of community `c`. */
  ghost function ByColumns(adj: seq<Row>, comm: seq<nat>, k: nat, c: nat, rows: nat, cols: nat): nat
    requires rows <= |adj| && |adj| == |comm| && cols <= |comm|
  {
    if cols == 0 then 0 else ByColumns(adj, comm, k, c, rows, cols - 1) + if comm[cols - 1] == c then ColTo(adj, comm, k, cols - 1, rows) else 0
  }

  lemma {:induction false} OneMoreRow(adj: seq<Row>, comm: seq<nat>, k: nat, c: nat, rows: nat, cols: nat)
    requires rows < |adj| && |adj| == |comm| && cols <= |comm|
    ensures ByColumns(adj, comm, k, c, rows + 1, cols)
            == ByColumns(adj, comm, k, c, rows, cols) + if comm[rows] == k then RowTo(adj[rows], comm, c, cols) else 0
  {
    if cols > 0 {
      OneMoreRow(adj, comm, k, c, rows, cols - 1);
    }
  }

  lemma {:induction false} NoRows(adj: seq<Row>, comm: seq<nat>, k: nat, c: nat, cols: nat)
    requires |adj| == |comm| && cols <= |comm|
    ensures ByColumns(adj, comm, k, c, 0, cols) == 0
  {
    if cols > 0 {
      NoRows(adj, comm, k, c, cols - 1);
    }
  }

  lemma {:induction false} RowsAreColumns(adj: seq<Row>, comm: seq<nat>, k: nat, c: nat, rows: nat)
    requires rows <= |adj| && |adj| == |comm|
    ensures Block(adj, comm, k, c, rows) == ByColumns(adj, comm, k, c, rows, |comm|)
  {
    if rows == 0 {
      NoRows(adj, comm, k, c, |comm|);
    } else {
      RowsAreColumns(adj, comm, k, c, rows - 1);
      OneMoreRow(adj, comm, k, c, rows - 1, |comm|);
    }
  }

  lemma {:induction false} ColumnIsRow(adj: seq<Row>, comm: seq<nat>, k: nat, j: nat, n: nat)
    requires Symmetric(adj) && n <= |adj| && |adj| == |comm| && j < |adj|
    ensures ColTo(adj, comm, k, j, n) == RowTo(adj[j], comm, k, n)
  {
    if n > 0 {
      ColumnIsRow(adj, comm, k, j, n - 1);
    }
  }

  lemma {:induction false} ColumnsAreRows(adj: seq<Row>, comm: seq<nat>, k: nat, c: nat, cols: nat)
    requires Symmetric(adj) && cols <= |adj| && |adj| == |comm|
    ensures ByColumns(adj, comm, k, c, |adj|, cols) == Block(adj, comm, c, k, cols)
  {
    if cols > 0 {
      ColumnsAreRows(adj, comm, k, c, cols - 1);
      ColumnIsRow(adj, comm, k, cols - 1, |adj|);
    }
  }

  /** Blocks of a symmetric matrix are symmetric. */
  lemma BlocksSymmetric(adj: seq<Row>, comm: seq<nat>, k: nat, c: nat)
    requires Symmetric(adj) && |adj| == |comm|
    ensures Block(adj, comm, k, c, |adj|) == Block(adj, comm, c, k, |adj|)
  {
    RowsAreColumns(adj, comm, k, c, |adj|);
    ColumnsAreRows(adj, comm, k, c, |adj|);
  }

  /* ---- aggregation ---- */

  lemma {:induction false} RowToUpdate(row: Row, comm: seq<nat>, c: nat, j: nat, w: nat, n: nat)
    requires n <= |comm| && j < |comm|
    ensures RowTo(Put(row, j, w), comm, c, n) == RowTo(row, comm, c, n) + if j < n && comm[j] == c then w - At(row, j) else 0
  {
    if n > 0 {
      RowToUpdate(row, comm, c, j, w, n - 1);
    }
  }

  /** The sum of a row split by community. */
  ghost function RowParts(row: Row, comm: seq<nat>, n: nat, k: nat): nat
    requires n <= |comm|
  {
    if k == 0 then 0 else RowParts(row, comm, n, k - 1) + RowTo(row, comm, k - 1, n)
  }

  lemma {:induction false} PartsStep(row: Row, comm: seq<nat>, n: nat, k: nat)
    requires n < |comm|
    ensures RowParts(row, comm, n + 1, k) == RowParts(row, comm, n, k) + if comm[n] < k then At(row, n) else 0
  {
    if k > 0 {
      PartsStep(row, comm, n, k - 1);
    }
  }

  lemma {:induction false} NoParts(row: Row, comm: seq<nat>, k: nat)
    ensures RowParts(row, comm, 0, k) == 0
  {
    if k > 0 {
      NoParts(row, comm, k - 1);
    }
  }

  lemma {:induction false} PartsAddUp(row: Row, comm: seq<nat>, n: nat, k: nat)
    requires n <= |comm| && forall i :: 0 <= i < n ==> comm[i] < k
    ensures RowParts(row, comm, n, k) == RowSum(row, n)
  {
    if n == 0 {
      NoParts(row, comm, k);
    } else {
      PartsAddUp(row, comm, n - 1, k);
      PartsStep(row, comm, n - 1, k);
    }
  }

  /** The blocks of community `k` against every community below `l`. */
  ghost function BlockSum(adj: seq<Row>, comm: seq<nat>, k: nat, n: nat, l: nat): nat
    requires n <= |adj| && |adj| == |comm|
  {
    if l == 0 then 0 else BlockSum(adj, comm, k, n, l - 1) + Block(adj, comm, k, l - 1, n)
  }

  lemma {:induction false} BlockSumStep(adj: seq<Row>, comm: seq<nat>, k: nat, n: nat, l: nat)
    requires n < |adj| && |adj| == |comm|
    ensures BlockSum(adj, comm, k, n + 1, l) == BlockSum(adj, comm, k, n, l) + if comm[n] == k then RowParts(adj[n], comm, |comm|, l) else 0
  {
    if l > 0 {
      BlockSumStep(adj, comm, k, n, l - 1);
    }
  }

  lemma {:induction false} NoBlocks(adj: seq<Row>, comm: seq<nat>, k: nat, l: nat)
    requires |adj| == |comm|
    ensures BlockSum(adj, comm, k, 0, l) == 0
  {
    if l > 0 {
      NoBlocks(adj, comm, k, l - 1);
    }
  }

  /** The blocks of one community add up to its degree. */
  lemma {:induction false} BlocksAddUp(g: LouvainGraph, comm: seq<nat>, k: nat, n: nat, size: nat)
    requires Shaped(g) && |comm| == g.size && n <= g.size && forall i :: 0 <= i < g.size ==> comm[i] < size && RowSum(g.adj[i], g.size) == g.deg[i]
    ensures BlockSum(g.adj, comm, k, n, size) == CommDegree(g.deg, comm, k, n)
  {
    if n == 0 {
      NoBlocks(g.adj, comm, k, size);
    } else {
      BlocksAddUp(g, comm, k, n - 1, size);
      BlockSumStep(g.adj, comm, k, n - 1, size);
      PartsAddUp(g.adj[n - 1], comm, |comm|, size);
    }
  }

  /** The degrees of the communities below `k`. */
  ghost function DegreeSum(deg: seq<nat>, comm: seq<nat>, n: nat, k: nat): nat
    requires n <= |comm| && n <= |deg|
  {
    if k == 0 then 0 else DegreeSum(deg, comm, n, k - 1) + CommDegree(deg, comm, k - 1, n)
  }

  lemma {:induction false} DegreeSumStep(deg: seq<nat>, comm: seq<nat>, n: nat, k: nat)
    requires n < |comm| && n < |deg|
    ensures DegreeSum(deg, comm, n + 1, k) == DegreeSum(deg, comm, n, k) + if comm[n] < k then deg[n] else 0
  {
    if k > 0 {
      DegreeSumStep(deg, comm, n, k - 1);
    }
  }

  lemma {:induction false} NoDegrees(deg: seq<nat>, comm: seq<nat>, k: nat)
    ensures DegreeSum(deg, comm, 0, k) == 0
  {
    if k > 0 {
      NoDegrees(deg, comm, k - 1);
    }
  }

  /** No degree is lost between communities. */
  lemma {:induction false} DegreesAddUp(deg: seq<nat>, comm: seq<nat>, n: nat, k: nat)
    requires n <= |comm| && n <= |deg| && forall i :: 0 <= i < n ==> comm[i] < k
    ensures DegreeSum(deg, comm, n, k) == SumOf(deg[..n])
  {
    if n == 0 {
      NoDegrees(deg, comm, k);
    } else {
      DegreesAddUp(deg, comm, n - 1, k);
      DegreeSumStep(deg, comm, n - 1, k);
      assert deg[..n][..n - 1] == deg[..n - 1];
    }
  }

  /** `ng` is `g` with every community of `comm` collapsed to one vertex. */
  ghost predicate Collapsed(g: LouvainGraph, comm: seq<nat>, ng: LouvainGraph) {
    Shaped(g) && Shaped(ng) && |comm| == g.size && (forall i :: 0 <= i < g.size ==> comm[i] < ng.size) && ng.m == g.m
    && (forall k :: 0 <= k < ng.size ==> ng.deg[k] == CommDegree(g.deg, comm, k, g.size))
    && (forall k, l :: 0 <= k < ng.size && 0 <= l < ng.size ==> At(ng.adj[k], l) == Block(g.adj, comm, k, l, g.size))
  }

  lemma {:induction false} RowOfBlocks(g: LouvainGraph, comm: seq<nat>, ng: LouvainGraph, k: nat, l: nat)
    requires Collapsed(g, comm, ng) && k < ng.size && l <= ng.size
    ensures RowSum(ng.adj[k], l) == BlockSum(g.adj, comm, k, g.size, l)
  {
    if l > 0 {
      RowOfBlocks(g, comm, ng, k, l - 1);
    }
  }

  lemma {:induction false} DegreesOfCollapsed(g: LouvainGraph, comm: seq<nat>, ng: LouvainGraph, k: nat)
    requires Collapsed(g, comm, ng) && k <= ng.size
    ensures SumOf(ng.deg[..k]) == DegreeSum(g.deg, comm, g.size, k)
  {
    if k > 0 {
      DegreesOfCollapsed(g, comm, ng, k - 1);
      assert ng.deg[..k][..k - 1] == ng.deg[..k - 1];
    }
  }

  /** Collapsing keeps weights symmetric, rows summing to degrees, and the total degree at 2m. */
  lemma CollapsedWellFormed(g: LouvainGraph, comm: seq<nat>, ng: LouvainGraph)
    requires WellFormed(g) && Collapsed(g, comm, ng)
    ensures WellFormed(ng)
  {
    hide Block, BlockSum, CommDegree, DegreeSum, RowSum, SumOf, At;
    forall k, l | 0 <= k < ng.size && 0 <= l < ng.size
      ensures At(ng.adj[k], l) == At(ng.adj[l], k)
    {
      BlocksSymmetric(g.adj, comm, k, l);
    }
    forall k | 0 <= k < ng.size
      ensures RowSum(ng.adj[k], ng.size) == ng.deg[k]
    {
      RowOfBlocks(g, comm, ng, k, ng.size);
      BlocksAddUp(g, comm, k, g.size, ng.size);
    }
    DegreesOfCollapsed(g, comm, ng, ng.size);
    DegreesAddUp(g.deg, comm, g.size, ng.size);
    assert ng.deg[..ng.size] == ng.deg && g.deg[..g.size] == g.deg;
  }
}
