/** The copy-on-write map on heap nodes. No method here has a node in a modifies clause unless it
    allocated that node itself, so no tree that was handed out is ever written: a root keeps modelling
    the same value whatever is done to the maps derived from it. */
module CowHeap {
  import opened CowTree
  import Ordering
  import opened Wrappers

  class CowNode<V> {
    var key: Key
    var val: V
    var left: CowNode?<V>
    var right: CowNode?<V>
    var height: int

    constructor (key: Key, val: V, left: CowNode?<V>, right: CowNode?<V>, height: int)
      ensures this.key == key && this.val == val && this.left == left && this.right == right && this.height == height
    {
      this.key, this.val, this.left, this.right, this.height := key, val, left, right, height;
    }
  }

  type Nodes<V> = set<CowNode<V>>

  /** The structure hanging from `n` is the tree `t`, using no node outside `s`. Nodes may be shared. */
  ghost predicate Models<V>(n: CowNode?<V>, t: Tree<V>, s: Nodes<V>)
    reads s
    decreases t
  {
    if t.Leaf? then n == null
    else n != null && n in s && n.key == t.key && n.val == t.val && n.height == t.height
         && Models(n.left, t.left, s) && Models(n.right, t.right, s)
  }

  lemma ModelsGrow<V>(n: CowNode?<V>, t: Tree<V>, s: Nodes<V>, s': Nodes<V>)
    requires Models(n, t, s) && s <= s'
    ensures Models(n, t, s')
    decreases t
  {
    if t.Node? {
      ModelsGrow(n.left, t.left, s, s');
      ModelsGrow(n.right, t.right, s, s');
    }
  }

  /** A new node over two structures. */
  method Build<V>(key: Key, val: V, left: CowNode?<V>, right: CowNode?<V>, height: int,
                  ghost l: Tree<V>, ghost r: Tree<V>, ghost s: Nodes<V>) returns (n: CowNode<V>)
    requires Models(left, l, s) && Models(right, r, s)
    ensures fresh(n) && Models(n, Node(key, val, l, r, height), s + {n})
    ensures n.left == left && n.right == right && n.key == key && n.val == val && n.height == height
  {
    n := new CowNode(key, val, left, right, height);
    ModelsGrow(left, l, s, s + {n});
    ModelsGrow(right, r, s, s + {n});
  }

  method HeightOfNode<V>(n: CowNode?<V>, ghost t: Tree<V>, ghost s: Nodes<V>) returns (h: int)
    requires Models(n, t, s)
    ensures h == HeightOf(t)
  {
    h := if n == null then 0 else n.height;
  }

  method RotateRightNode<V>(y: CowNode?<V>, ghost t: Tree<V>, ghost s: Nodes<V>) returns (r: CowNode?<V>, ghost s': Nodes<V>)
    requires Models(y, t, s)
    ensures s <= s' && fresh(s' - s) && Models(r, RotateRight(t), s')
  {
    if y == null || y.left == null {
      return y, s;
    }
    var x := y.left;
    var hl := HeightOfNode(x.right, t.left.right, s);
    var hr := HeightOfNode(y.right, t.right, s);
    var newY := Build(y.key, y.val, x.right, y.right, Max(hl, hr) + 1, t.left.right, t.right, s);
    hl := HeightOfNode(x.left, t.left.left, s);
    ModelsGrow(x.left, t.left.left, s, s + {newY});
    var newX := Build(x.key, x.val, x.left, newY, Max(hl, newY.height) + 1, t.left.left, Join(t.key, t.val, t.left.right, t.right), s + {newY});
    r, s' := newX, s + {newY} + {newX};
  }

  method RotateLeftNode<V>(x: CowNode?<V>, ghost t: Tree<V>, ghost s: Nodes<V>) returns (r: CowNode?<V>, ghost s': Nodes<V>)
    requires Models(x, t, s)
    ensures s <= s' && fresh(s' - s) && Models(r, RotateLeft(t), s')
  {
    if x == null || x.right == null {
      return x, s;
    }
    var y := x.right;
    var hl := HeightOfNode(x.left, t.left, s);
    var hr := HeightOfNode(y.left, t.right.left, s);
    var newX := Build(x.key, x.val, x.left, y.left, Max(hl, hr) + 1, t.left, t.right.left, s);
    hr := HeightOfNode(y.right, t.right.right, s);
    ModelsGrow(y.right, t.right.right, s, s + {newX});
    var newY := Build(y.key, y.val, newX, y.right, Max(newX.height, hr) + 1, Join(t.key, t.val, t.left, t.right.left), t.right.right, s + {newX});
    r, s' := newY, s + {newX} + {newY};
  }

  /** The nodes below a root that is not among its own descendants' nodes. */
  ghost predicate ModelsAbove<V>(n: CowNode<V>, t: Tree<V>, s: Nodes<V>)
    reads n, s
  {
    n !in s && t.Node? && n.key == t.key && n.val == t.val && n.height == t.height
    && Models(n.left, t.left, s) && Models(n.right, t.right, s)
  }

  lemma AboveModels<V>(n: CowNode<V>, t: Tree<V>, s: Nodes<V>)
    requires ModelsAbove(n, t, s)
    ensures Models(n, t, s + {n})
  {
    ModelsGrow(n.left, t.left, s, s + {n});
    ModelsGrow(n.right, t.right, s, s + {n});
  }

  /** The double rotation's first half: the private node `n` gets a rotated left child. */
  method RotateChildLeft<V>(n: CowNode<V>, ghost t: Tree<V>, ghost s: Nodes<V>) returns (ghost s': Nodes<V>)
    requires ModelsAbove(n, t, s)
    modifies n
    ensures s <= s' && fresh(s' - s) && ModelsAbove(n, t.(left := RotateLeft(t.left)), s')
  {
    var l;
    l, s' := RotateLeftNode(n.left, t.left, s);
    ModelsGrow(n.right, t.right, s, s');
    n.left := l;
  }

  method RotateChildRight<V>(n: CowNode<V>, ghost t: Tree<V>, ghost s: Nodes<V>) returns (ghost s': Nodes<V>)
    requires ModelsAbove(n, t, s)
    modifies n
    ensures s <= s' && fresh(s' - s) && ModelsAbove(n, t.(right := RotateRight(t.right)), s')
  {
    var r;
    r, s' := RotateRightNode(n.right, t.right, s);
    ModelsGrow(n.left, t.left, s, s');
    n.right := r;
  }

  /** cowMapSet's choice of rotation for the rebuilt node `n`. */
  method FixInsertedNode<V>(n: CowNode<V>, key: Key, ghost t: Tree<V>, ghost s: Nodes<V>) returns (r: CowNode?<V>, ghost s': Nodes<V>)
    requires ModelsAbove(n, t, s)
    modifies n
    ensures s <= s' && fresh(s' - s - {n}) && Models(r, FixInserted(t, key), s')
  {
    var hl := HeightOfNode(n.left, t.left, s);
    var hr := HeightOfNode(n.right, t.right, s);
    var bf := hl - hr;
    AboveModels(n, t, s);
    if bf > 1 && n.left != null && Ordering.Less(key, n.left.key) {
      r, s' := RotateRightNode(n, t, s + {n});
    } else if bf < -1 && n.right != null && Ordering.Less(n.right.key, key) {
      r, s' := RotateLeftNode(n, t, s + {n});
    } else if bf > 1 && n.left != null && Ordering.Less(n.left.key, key) {
      s' := RotateChildLeft(n, t, s);
      AboveModels(n, t.(left := RotateLeft(t.left)), s');
      r, s' := RotateRightNode(n, t.(left := RotateLeft(t.left)), s' + {n});
    } else if bf < -1 && n.right != null && Ordering.Less(key, n.right.key) {
      s' := RotateChildRight(n, t, s);
      AboveModels(n, t.(right := RotateRight(t.right)), s');
      r, s' := RotateLeftNode(n, t.(right := RotateRight(t.right)), s' + {n});
    } else {
      r, s' := n, s + {n};
    }
  }

  method CowMapSet<V>(root: CowNode?<V>, key: Key, val: V, ghost t: Tree<V>, ghost s: Nodes<V>) returns (r: CowNode?<V>, ghost s': Nodes<V>)
    requires Models(root, t, s)
    ensures s <= s' && fresh(s' - s) && Models(r, Set(t, key, val), s')
    decreases t
  {
    if root == null {
      r := new CowNode(key, val, null, null, 1);
      s' := s + {r};
      return;
    }
    if key == root.key {
      r := Build(root.key, val, root.left, root.right, root.height, t.left, t.right, s);
      s' := s + {r};
      return;
    }
    var left, right := root.left, root.right;
    ghost var l, rt := t.left, t.right;
    if Ordering.Less(key, root.key) {
      left, s' := CowMapSet(root.left, key, val, t.left, s);
      l := Set(t.left, key, val);
      ModelsGrow(right, rt, s, s');
    } else {
      right, s' := CowMapSet(root.right, key, val, t.right, s);
      rt := Set(t.right, key, val);
      ModelsGrow(left, l, s, s');
    }
    var hl := HeightOfNode(left, l, s');
    var hr := HeightOfNode(right, rt, s');
    var n := new CowNode(root.key, root.val, left, right, Max(hl, hr) + 1);
    r, s' := FixInsertedNode(n, key, Join(t.key, t.val, l, rt), s');
  }

  /** cowMapGet's cursor loop; `probes` counts the nodes it looks at. */
  method CowMapGet<V>(root: CowNode?<V>, key: Key, ghost t: Tree<V>, ghost s: Nodes<V>) returns (val: Option<V>, ghost probes: nat)
    requires Models(root, t, s)
    ensures val == Get(t, key) && probes == Probes(t, key)
  {
    var current := root;
    ghost var rest := t;
    probes := 0;
    while current != null
      invariant Models(current, rest, s) && Get(rest, key) == Get(t, key) && probes + Probes(rest, key) == Probes(t, key)
      decreases rest
    {
      probes := probes + 1;
      if key == current.key {
        return Some(current.val), probes;
      }
      if Ordering.Less(key, current.key) {
        current, rest := current.left, rest.left;
      } else {
        current, rest := current.right, rest.right;
      }
    }
    return None, probes;
  }

  method MinValueNode<V>(n: CowNode<V>, ghost t: Tree<V>, ghost s: Nodes<V>) returns (m: CowNode<V>)
    requires Models(n, t, s)
    ensures Models(m, MinNode(t), s)
  {
    m := n;
    ghost var rest := t;
    while m.left != null
      invariant Models(m, rest, s) && MinNode(rest) == MinNode(t)
      decreases rest
    {
      m, rest := m.left, rest.left;
    }
  }

  /** Recomputes `n`'s height in place and rotates by the children's balance. */
  method CowMapRebalance<V>(n: CowNode<V>, ghost t: Tree<V>, ghost s: Nodes<V>) returns (r: CowNode?<V>, ghost s': Nodes<V>)
    requires ModelsAbove(n, t, s)
    modifies n
    ensures s <= s' && fresh(s' - s - {n}) && Models(r, Rebalance(t), s')
  {
    var hl := HeightOfNode(n.left, t.left, s);
    var hr := HeightOfNode(n.right, t.right, s);
    n.height := Max(hl, hr) + 1;
    ghost var m := Join(t.key, t.val, t.left, t.right);
    var bf := hl - hr;
    AboveModels(n, m, s);
    var bl := BalanceFactorNode(n.left, t.left, s);
    var br := BalanceFactorNode(n.right, t.right, s);
    if bf > 1 && bl >= 0 {
      r, s' := RotateRightNode(n, m, s + {n});
    } else if bf < -1 && br <= 0 {
      r, s' := RotateLeftNode(n, m, s + {n});
    } else if bf > 1 && bl < 0 {
      s' := RotateChildLeft(n, m, s);
      AboveModels(n, m.(left := RotateLeft(m.left)), s');
      r, s' := RotateRightNode(n, m.(left := RotateLeft(m.left)), s' + {n});
    } else if bf < -1 && br > 0 {
      s' := RotateChildRight(n, m, s);
      AboveModels(n, m.(right := RotateRight(m.right)), s');
      r, s' := RotateLeftNode(n, m.(right := RotateRight(m.right)), s' + {n});
    } else {
      r, s' := n, s + {n};
    }
  }

  method BalanceFactorNode<V>(n: CowNode?<V>, ghost t: Tree<V>, ghost s: Nodes<V>) returns (bf: int)
    requires Models(n, t, s)
    ensures bf == BalanceFactor(t)
  {
    if n == null {
      return 0;
    }
    var hl := HeightOfNode(n.left, t.left, s);
    var hr := HeightOfNode(n.right, t.right, s);
    bf := hl - hr;
  }

  method CowMapDelete<V>(root: CowNode?<V>, key: Key, ghost t: Tree<V>, ghost s: Nodes<V>) returns (r: CowNode?<V>, ghost s': Nodes<V>)
    requires Models(root, t, s)
    ensures s <= s' && fresh(s' - s) && Models(r, Delete(t, key), s')
    decreases t
  {
    if root == null {
      return null, s;
    }
    if Ordering.Less(key, root.key) {
      var left;
      left, s' := CowMapDelete(root.left, key, t.left, s);
      ModelsGrow(root.right, t.right, s, s');
      var n := new CowNode(root.key, root.val, left, root.right, root.height);
      r, s' := CowMapRebalance(n, t.(left := Delete(t.left, key)), s');
      return;
    }
    if Ordering.Less(root.key, key) {
      var right;
      right, s' := CowMapDelete(root.right, key, t.right, s);
      ModelsGrow(root.left, t.left, s, s');
      var n := new CowNode(root.key, root.val, root.left, right, root.height);
      r, s' := CowMapRebalance(n, t.(right := Delete(t.right, key)), s');
      return;
    }
    if root.left == null {
      return root.right, s;
    }
    if root.right == null {
      return root.left, s;
    }
    var successor := MinValueNode(root.right, t.right, s);
    ghost var m := MinNode(t.right);
    SuccessorSmaller(t);
    var right;
    right, s' := CowMapDelete(root.right, successor.key, t.right, s);
    ModelsGrow(root.left, t.left, s, s');
    var n := new CowNode(successor.key, successor.val, root.left, right, successor.height);
    r, s' := CowMapRebalance(n, Node(m.key, m.val, t.left, Delete(t.right, m.key), m.height), s');
  }

  lemma SuccessorSmaller<V>(t: Tree<V>)
    requires t.Node? && t.right.Node?
    ensures t.right < t
  {
  }

  /** cowMapIterate: the calls it makes, in order. */
  method CowMapIterate<V>(root: CowNode?<V>, ghost t: Tree<V>, ghost s: Nodes<V>) returns (visits: seq<(Key, V)>)
    requires Models(root, t, s)
    ensures visits == InOrder(t)
    decreases t
  {
    if root == null {
      return [];
    }
    var before := CowMapIterate(root.left, t.left, s);
    var after := CowMapIterate(root.right, t.right, s);
    visits := before + [(root.key, root.val)] + after;
  }

  /** The persistent map: a root and an incrementally kept count. */
  class CowMap<V> {
    var root: CowNode?<V>
    var count: int
    ghost var tree: Tree<V>
    ghost var nodes: Nodes<V>

    constructor ()
      ensures Valid() && Contents() == map[] && fresh(nodes)
    {
      root, count, tree, nodes := null, 0, Leaf, {};
    }

    constructor Of(root: CowNode?<V>, count: int, ghost tree: Tree<V>, ghost nodes: Nodes<V>)
      ensures this.root == root && this.count == count && this.tree == tree && this.nodes == nodes
    {
      this.root, this.count, this.tree, this.nodes := root, count, tree, nodes;
    }

    ghost predicate Valid()
      reads this, nodes
    {
      Models(root, tree, nodes) && Ordered(tree) && Avl(tree) && count == |CowTree.Contents(tree)|
    }

    ghost function Contents(): map<Key, V>
      reads this
    {
      CowTree.Contents(tree)
    }

    /** A lookup looks at a number of nodes logarithmic in the number of entries. */
    method Get(key: Key) returns (val: Option<V>, ghost probes: nat)
      requires Valid()
      ensures val == if key in Contents() then Some(Contents()[key]) else None
      ensures Pow2(probes / 2) <= |Contents()| + 1
    {
      val, probes := CowMapGet(root, key, tree, nodes);
      GetMap(tree, key);
      ProbesAreLogarithmic(tree, key);
      SizeIsCardinality(tree);
    }

    method Set(key: Key, val: V) returns (m: CowMap<V>)
      requires Valid()
      ensures fresh(m) && m.Valid() && m.Contents() == Contents()[key := val]
      ensures nodes <= m.nodes && fresh(m.nodes - nodes)
    {
      hide Ordered, Avl, CowTree.Set, CowTree.Get, CowTree.Contents;
      ghost var probes;
      var existed;
      existed, probes := CowMapGet(root, key, tree, nodes);
      GetMap(tree, key);
      ghost var s;
      var newRoot;
      newRoot, s := CowMapSet(root, key, val, tree, nodes);
      SetMap(tree, key, val);
      SetAvl(tree, key, val);
      CardinalityAfterSet(CowTree.Contents(tree), key, val);
      m := new CowMap.Of(newRoot, if existed.None? then count + 1 else count, CowTree.Set(tree, key, val), s);
    }

    method Delete(key: Key) returns (m: CowMap<V>)
      requires Valid()
      ensures fresh(m) && m.Valid() && m.Contents() == Contents() - {key}
      ensures nodes <= m.nodes && fresh(m.nodes - nodes)
    {
      hide Ordered, Avl, CowTree.Delete, CowTree.Get, CowTree.Contents;
      ghost var probes;
      var existed;
      existed, probes := CowMapGet(root, key, tree, nodes);
      GetMap(tree, key);
      ghost var s;
      var newRoot;
      newRoot, s := CowMapDelete(root, key, tree, nodes);
      DeleteMap(tree, key);
      DeleteAvl(tree, key);
      CardinalityAfterDelete(CowTree.Contents(tree), key);
      m := new CowMap.Of(newRoot, if existed.Some? then count - 1 else count, CowTree.Delete(tree, key), s);
    }

    method Len() returns (n: int)
      requires Valid()
      ensures n == |Contents()|
    {
      n := count;
    }

    method Iterate() returns (visits: seq<(Key, V)>)
      requires Valid()
      ensures Ascending(visits) && |visits| == |Contents()|
      ensures forall k, v :: (k, v) in visits <==> k in Contents() && Contents()[k] == v
    {
      visits := CowMapIterate(root, tree, nodes);
      InOrderAscending(tree);
      SizeIsCardinality(tree);
      forall k, v
        ensures (k, v) in visits <==> k in Contents() && Contents()[k] == v
      {
        InOrderEntries(tree, k, v);
      }
    }

    /** Shares the whole tree. */
    method Clone() returns (m: CowMap<V>)
      requires Valid()
      ensures fresh(m) && m.Valid() && m.Contents() == Contents() && m.nodes == nodes
    {
      m := new CowMap.Of(root, count, tree, nodes);
    }
  }

  lemma CardinalityAfterSet<V>(m: map<Key, V>, key: Key, val: V)
    ensures |m[key := val]| == if key in m then |m| else |m| + 1
  {
    assert m[key := val].Keys == m.Keys + {key};
  }

  lemma CardinalityAfterDelete<V>(m: map<Key, V>, key: Key)
    ensures |m - {key}| == if key in m then |m| - 1 else |m|
  {
    assert (m - {key}).Keys == m.Keys - {key};
  }

  /* ---- whole histories ---- */

  /** An operation on version number `base`, which need not be the newest one. */
  datatype Op<V> = SetOp(base: nat, key: Key, val: V) | DeleteOp(base: nat, key: Key) | CloneOp(base: nat)

  ghost function Apply<V>(m: map<Key, V>, op: Op<V>): map<Key, V> {
    match op
    case SetOp(_, k, v) => m[k := v]
    case DeleteOp(_, k) => m - {k}
    case CloneOp(_) => m
  }

  /** One operation on one version. */
  method Derive<V>(m: CowMap<V>, op: Op<V>) returns (next: CowMap<V>)
    requires m.Valid()
    ensures fresh(next) && next.Valid() && next.Contents() == Apply(m.Contents(), op)
  {
    match op {
      case SetOp(_, k, v) => next := m.Set(k, v);
      case DeleteOp(_, k) => next := m.Delete(k);
      case CloneOp(_) => next := m.Clone();
    }
  }

  ghost predicate Holds<V>(m: CowMap<V>, contents: map<Key, V>)
    reads m, m.nodes
  {
    m.Valid() && m.Contents() == contents
  }

  /** Version 0 is the empty map; operation i makes version i + 1 out of some version up to i. */
  ghost predicate Planned<V(!new)>(ops: seq<Op<V>>) {
    forall i :: 0 <= i < |ops| ==> ops[i].base <= i
  }

  /** The contents of each version. */
  ghost function Histories<V(!new)>(ops: seq<Op<V>>): (h: seq<map<Key, V>>)
    requires Planned(ops)
    ensures |h| == |ops| + 1
  {
    if ops == [] then [map[]]
    else
      var n := |ops| - 1;
      var h := Histories(ops[..n]);
      h + [Apply(h[ops[n].base], ops[n])]
  }

  /** Every version holds the contents listed for it. */
  ghost predicate AllHold<V>(versions: seq<CowMap<V>>, contents: seq<map<Key, V>>)
    reads set i | 0 <= i < |versions| :: versions[i]
    reads set i, n | 0 <= i < |versions| && n in versions[i].nodes :: n
  {
    |versions| == |contents| && forall i :: 0 <= i < |versions| ==> Holds(versions[i], contents[i])
  }

  lemma HistoriesMore<V(!new)>(ops: seq<Op<V>>)
    requires Planned(ops) && ops != []
    ensures var n := |ops| - 1;
            Planned(ops[..n]) && ops[n].base <= n && Histories(ops) == Histories(ops[..n]) + [Apply(Histories(ops[..n])[ops[n].base], ops[n])]
  {
  }

  /** One more version; the others are not touched. */
  method Extend<V>(versions: seq<CowMap<V>>, ghost contents: seq<map<Key, V>>, op: Op<V>) returns (versions': seq<CowMap<V>>)
    requires AllHold(versions, contents) && op.base < |versions|
    ensures AllHold(versions', contents + [Apply(contents[op.base], op)])
  {
    hide Models, Ordered, Avl, CowTree.Contents, Apply;
    assert Holds(versions[op.base], contents[op.base]);
    hide CowMap.Valid, CowMap.Contents;
    var next := Derive(versions[op.base], op);
    versions' := versions + [next];
  }

  /** Any tree of operations, each on whichever version it names, keeping every version: at the end each
      of them still holds exactly the contents it had when it was made, is a balanced search tree and
      knows its size. */
  method RunHistory<V(!new)>(ops: seq<Op<V>>) returns (versions: seq<CowMap<V>>)
    requires Planned(ops)
    ensures AllHold(versions, Histories(ops))
    decreases |ops|
  {
    if ops == [] {
      var empty := new CowMap();
      return [empty];
    }
    hide CowMap.Valid, CowMap.Contents, Apply;
    HistoriesMore(ops);
    var n := |ops| - 1;
    versions := RunHistory(ops[..n]);
    versions := Extend(versions, Histories(ops[..n]), ops[n]);
  }

  /** What a reader of any one of the versions gets. */
  method ReadVersion<V>(versions: seq<CowMap<V>>, ghost contents: seq<map<Key, V>>, i: nat, key: Key)
      returns (found: Option<V>, size: int, visits: seq<(Key, V)>)
    requires AllHold(versions, contents) && i < |versions|
    ensures found == if key in contents[i] then Some(contents[i][key]) else None
    ensures size == |contents[i]| == |visits| && Ascending(visits)
    ensures forall k, v :: (k, v) in visits <==> k in contents[i] && contents[i][k] == v
  {
    assert Holds(versions[i], contents[i]);
    hide CowMap.Valid, CowMap.Contents;
    ghost var probes;
    found, probes := versions[i].Get(key);
    size := versions[i].Len();
    visits := versions[i].Iterate();
  }
}
