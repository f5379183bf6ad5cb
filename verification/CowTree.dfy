/** The tree algorithms of mvcc_lazy.go as functions on values: rotations, insertion, deletion,
    rebalancing, lookup and traversal, with the proofs that they keep an ordered AVL tree and act as
    a finite map. Module CowHeap holds the programs on heap nodes that compute them. */
module CowTree {
  import opened Ordering
  import opened Wrappers

  type Key = string

  datatype Tree<V> = Leaf | Node(key: Key, val: V, left: Tree<V>, right: Tree<V>, height: int)

  function HeightOf<V>(t: Tree<V>): int { if t.Leaf? then 0 else t.height }

  function Max(a: int, b: int): int { if a > b then a else b }

  function BalanceFactor<V>(t: Tree<V>): int {
    if t.Leaf? then 0 else HeightOf(t.left) - HeightOf(t.right)
  }

  /** A node whose height field is recomputed from its children. */
  function Join<V>(key: Key, val: V, left: Tree<V>, right: Tree<V>): Tree<V> {
    Node(key, val, left, right, Max(HeightOf(left), HeightOf(right)) + 1)
  }

  function RotateRight<V>(y: Tree<V>): Tree<V> {
    if y.Leaf? || y.left.Leaf? then y
    else Join(y.left.key, y.left.val, y.left.left, Join(y.key, y.val, y.left.right, y.right))
  }

  function RotateLeft<V>(x: Tree<V>): Tree<V> {
    if x.Leaf? || x.right.Leaf? then x
    else Join(x.right.key, x.right.val, Join(x.key, x.val, x.left, x.right.left), x.right.right)
  }

  /** What insertion of `key` does with the rebuilt node: the rotation is picked by comparing `key`
      with the child's key. */
  function FixInserted<V>(n: Tree<V>, key: Key): Tree<V>
    requires n.Node?
  {
    var bf := BalanceFactor(n);
    if bf > 1 && n.left.Node? && Less(key, n.left.key) then RotateRight(n)
    else if bf < -1 && n.right.Node? && Less(n.right.key, key) then RotateLeft(n)
    else if bf > 1 && n.left.Node? && Less(n.left.key, key) then RotateRight(n.(left := RotateLeft(n.left)))
    else if bf < -1 && n.right.Node? && Less(key, n.right.key) then RotateLeft(n.(right := RotateRight(n.right)))
    else n
  }

  function Set<V>(t: Tree<V>, key: Key, val: V): Tree<V> {
    if t.Leaf? then Node(key, val, Leaf, Leaf, 1)
    else if key == t.key then t.(val := val)
    else if Less(key, t.key) then FixInserted(Join(t.key, t.val, Set(t.left, key, val), t.right), key)
    else FixInserted(Join(t.key, t.val, t.left, Set(t.right, key, val)), key)
  }

  function Get<V>(t: Tree<V>, key: Key): Option<V> {
    if t.Leaf? then None
    else if key == t.key then Some(t.val)
    else if Less(key, t.key) then Get(t.left, key)
    else Get(t.right, key)
  }

  function MinNode<V>(t: Tree<V>): Tree<V>
    requires t.Node?
    ensures MinNode(t).Node?
  {
    if t.left.Leaf? then t else MinNode(t.left)
  }

  /** What deletion does with the rebuilt node: the rotation is picked by the child's balance. */
  function Rebalance<V>(n: Tree<V>): Tree<V> {
    if n.Leaf? then n
    else
      var m := Join(n.key, n.val, n.left, n.right);
      var bf := BalanceFactor(m);
      if bf > 1 && BalanceFactor(m.left) >= 0 then RotateRight(m)
      else if bf < -1 && BalanceFactor(m.right) <= 0 then RotateLeft(m)
      else if bf > 1 then RotateRight(m.(left := RotateLeft(m.left)))
      else if bf < -1 then RotateLeft(m.(right := RotateRight(m.right)))
      else m
  }

  function Delete<V>(t: Tree<V>, key: Key): Tree<V>
    decreases t
  {
    if t.Leaf? then t
    else if Less(key, t.key) then Rebalance(t.(left := Delete(t.left, key)))
    else if Less(t.key, key) then Rebalance(t.(right := Delete(t.right, key)))
    else if t.left.Leaf? then t.right
    else if t.right.Leaf? then t.left
    else
      var s := MinNode(t.right);
      Rebalance(Node(s.key, s.val, t.left, Delete(t.right, s.key), s.height))
  }

  function Size<V>(t: Tree<V>): nat { if t.Leaf? then 0 else 1 + Size(t.left) + Size(t.right) }

  function InOrder<V>(t: Tree<V>): seq<(Key, V)> {
    if t.Leaf? then [] else InOrder(t.left) + [(t.key, t.val)] + InOrder(t.right)
  }

  /* ---- what the trees mean ---- */

  ghost function Contents<V>(t: Tree<V>): map<Key, V> {
    if t.Leaf? then map[] else (Contents(t.left) + Contents(t.right))[t.key := t.val]
  }

  ghost predicate Ordered<V>(t: Tree<V>) {
    t.Leaf? || (Ordered(t.left) && Ordered(t.right)
                && (forall k :: k in Contents(t.left) ==> Less(k, t.key))
                && (forall k :: k in Contents(t.right) ==> Less(t.key, k)))
  }

  ghost predicate Avl<V>(t: Tree<V>) {
    t.Leaf? || (Avl(t.left) && Avl(t.right) && t.height == Max(HeightOf(t.left), HeightOf(t.right)) + 1
                && -1 <= BalanceFactor(t) <= 1)
  }

  /* ---- order and contents ---- */

  lemma MapRotation<V>(a: map<Key, V>, b: map<Key, V>, c: map<Key, V>, x: Key, vx: V, y: Key, vy: V)
    requires x != y && x !in c
    ensures ((a + b)[x := vx] + c)[y := vy] == (a + (b + c)[y := vy])[x := vx]
  {
    var l, r := ((a + b)[x := vx] + c)[y := vy], (a + (b + c)[y := vy])[x := vx];
    assert l.Keys == r.Keys;
    forall k | k in l
      ensures l[k] == r[k]
    {
    }
  }

  lemma RotateRightContents<V>(y: Tree<V>)
    requires Ordered(y)
    ensures Contents(RotateRight(y)) == Contents(y)
  {
    hide Less;
    LessIsTotalOrder();
    if y.Node? && y.left.Node? {
      var x := y.left;
      assert x.key in Contents(y.left);
      MapRotation(Contents(x.left), Contents(x.right), Contents(y.right), x.key, x.val, y.key, y.val);
    }
  }

  lemma RotateRightOrdered<V>(y: Tree<V>)
    requires Ordered(y)
    ensures Ordered(RotateRight(y))
  {
    hide Less;
    LessIsTotalOrder();
    if y.Node? && y.left.Node? {
      assert y.left.key in Contents(y.left);
    }
  }

  lemma RotateLeftContents<V>(x: Tree<V>)
    requires Ordered(x)
    ensures Contents(RotateLeft(x)) == Contents(x)
  {
    hide Less;
    LessIsTotalOrder();
    if x.Node? && x.right.Node? {
      var y := x.right;
      assert y.key in Contents(x.right);
      assert x.key !in Contents(y.right);
      MapRotation(Contents(x.left), Contents(y.left), Contents(y.right), x.key, x.val, y.key, y.val);
    }
  }

  lemma RotateLeftOrdered<V>(x: Tree<V>)
    requires Ordered(x)
    ensures Ordered(RotateLeft(x))
  {
    hide Less;
    LessIsTotalOrder();
    if x.Node? && x.right.Node? {
      assert x.right.key in Contents(x.right);
    }
  }

  /** Replacing a subtree by one with the same contents. */
  lemma SwapLeft<V>(n: Tree<V>, l: Tree<V>)
    requires n.Node? && Ordered(n) && Ordered(l) && Contents(l) == Contents(n.left)
    ensures Ordered(n.(left := l)) && Contents(n.(left := l)) == Contents(n)
  {
    hide Less;
  }

  lemma SwapRight<V>(n: Tree<V>, r: Tree<V>)
    requires n.Node? && Ordered(n) && Ordered(r) && Contents(r) == Contents(n.right)
    ensures Ordered(n.(right := r)) && Contents(n.(right := r)) == Contents(n)
  {
    hide Less;
  }

  lemma FixInsertedMap<V>(n: Tree<V>, key: Key)
    requires n.Node? && Ordered(n)
    ensures Ordered(FixInserted(n, key)) && Contents(FixInserted(n, key)) == Contents(n)
  {
    hide Less, Ordered, Contents;
    RotateRightContents(n);
    RotateRightOrdered(n);
    RotateLeftContents(n);
    RotateLeftOrdered(n);
    Halves(n);
    RotateLeftContents(n.left);
    RotateLeftOrdered(n.left);
    RotateRightContents(n.right);
    RotateRightOrdered(n.right);
    SwapLeft(n, RotateLeft(n.left));
    SwapRight(n, RotateRight(n.right));
    RotateRightContents(n.(left := RotateLeft(n.left)));
    RotateRightOrdered(n.(left := RotateLeft(n.left)));
    RotateLeftContents(n.(right := RotateRight(n.right)));
    RotateLeftOrdered(n.(right := RotateRight(n.right)));
  }

  lemma Halves<V>(n: Tree<V>)
    requires n.Node? && Ordered(n)
    ensures Ordered(n.left) && Ordered(n.right)
  {
  }

  lemma RebalanceMap<V>(n: Tree<V>)
    requires Ordered(n)
    ensures Ordered(Rebalance(n)) && Contents(Rebalance(n)) == Contents(n)
  {
    hide Less, Ordered, Contents;
    if n.Node? {
      var m := Join(n.key, n.val, n.left, n.right);
      JoinSame(n);
      Halves(n);
      RotateRightContents(m);
      RotateRightOrdered(m);
      RotateLeftContents(m);
      RotateLeftOrdered(m);
      RotateLeftContents(n.left);
      RotateLeftOrdered(n.left);
      RotateRightContents(n.right);
      RotateRightOrdered(n.right);
      SwapLeft(m, RotateLeft(m.left));
      SwapRight(m, RotateRight(m.right));
      RotateRightContents(m.(left := RotateLeft(m.left)));
      RotateRightOrdered(m.(left := RotateLeft(m.left)));
      RotateLeftContents(m.(right := RotateRight(m.right)));
      RotateLeftOrdered(m.(right := RotateRight(m.right)));
    }
  }

  lemma JoinSame<V>(n: Tree<V>)
    requires n.Node? && Ordered(n)
    ensures Ordered(Join(n.key, n.val, n.left, n.right)) && Contents(Join(n.key, n.val, n.left, n.right)) == Contents(n)
  {
  }

  lemma MapInsertLeft<V>(l: map<Key, V>, r: map<Key, V>, x: Key, vx: V, key: Key, val: V)
    requires key != x && key !in r
    ensures (l[key := val] + r)[x := vx] == (l + r)[x := vx][key := val]
  {
    var a, b := (l[key := val] + r)[x := vx], (l + r)[x := vx][key := val];
    assert a.Keys == b.Keys;
    forall k | k in a
      ensures a[k] == b[k]
    {
    }
  }

  lemma MapInsertRight<V>(l: map<Key, V>, r: map<Key, V>, x: Key, vx: V, key: Key, val: V)
    requires key != x
    ensures (l + r[key := val])[x := vx] == (l + r)[x := vx][key := val]
  {
    var a, b := (l + r[key := val])[x := vx], (l + r)[x := vx][key := val];
    assert a.Keys == b.Keys;
    forall k | k in a
      ensures a[k] == b[k]
    {
    }
  }

  lemma KeysAfterInsert<V>(m: map<Key, V>, key: Key, val: V, k: Key)
    requires k in m[key := val]
    ensures k == key || k in m
  {
  }

  /** Inserting into one side of an ordered node. */
  lemma GrowLeft<V>(n: Tree<V>, l: Tree<V>, key: Key, val: V)
    requires n.Node? && Ordered(n) && Less(key, n.key) && Ordered(l) && Contents(l) == Contents(n.left)[key := val]
    ensures Ordered(Join(n.key, n.val, l, n.right)) && Contents(Join(n.key, n.val, l, n.right)) == Contents(n)[key := val]
  {
    hide Less;
    LessIsTotalOrder();
    MapInsertLeft(Contents(n.left), Contents(n.right), n.key, n.val, key, val);
    hide Contents;
    forall k | k in Contents(l)
      ensures Less(k, n.key)
    {
      KeysAfterInsert(Contents(n.left), key, val, k);
    }
  }

  lemma GrowRight<V>(n: Tree<V>, r: Tree<V>, key: Key, val: V)
    requires n.Node? && Ordered(n) && Less(n.key, key) && Ordered(r) && Contents(r) == Contents(n.right)[key := val]
    ensures Ordered(Join(n.key, n.val, n.left, r)) && Contents(Join(n.key, n.val, n.left, r)) == Contents(n)[key := val]
  {
    hide Less;
    LessIsTotalOrder();
    MapInsertRight(Contents(n.left), Contents(n.right), n.key, n.val, key, val);
    hide Contents;
    forall k | k in Contents(r)
      ensures Less(n.key, k)
    {
      KeysAfterInsert(Contents(n.right), key, val, k);
    }
  }

  /** Set is map update. */
  lemma {:induction false} SetMap<V>(t: Tree<V>, key: Key, val: V)
    requires Ordered(t)
    ensures Ordered(Set(t, key, val)) && Contents(Set(t, key, val)) == Contents(t)[key := val]
    decreases t
  {
    hide Less;
    LessIsTotalOrder();
    if t.Leaf? || key == t.key {
    } else if Less(key, t.key) {
      SetMap(t.left, key, val);
      GrowLeft(t, Set(t.left, key, val), key, val);
      FixInsertedMap(Join(t.key, t.val, Set(t.left, key, val), t.right), key);
    } else {
      SetMap(t.right, key, val);
      GrowRight(t, Set(t.right, key, val), key, val);
      FixInsertedMap(Join(t.key, t.val, t.left, Set(t.right, key, val)), key);
    }
  }

  /** Get is map lookup. */
  lemma {:induction false} GetMap<V>(t: Tree<V>, key: Key)
    requires Ordered(t)
    ensures Get(t, key) == if key in Contents(t) then Some(Contents(t)[key]) else None
    decreases t
  {
    hide Less;
    LessIsTotalOrder();
    if t.Node? && key != t.key {
      GetMap(if Less(key, t.key) then t.left else t.right, key);
    }
  }

  lemma {:induction false} MinIsLeast<V>(t: Tree<V>)
    requires t.Node? && Ordered(t)
    ensures MinNode(t).key in Contents(t) && Contents(t)[MinNode(t).key] == MinNode(t).val
    ensures forall k :: k in Contents(t) && k != MinNode(t).key ==> Less(MinNode(t).key, k)
    decreases t
  {
    hide Less;
    LessIsTotalOrder();
    if t.left.Node? {
      MinIsLeast(t.left);
      assert MinNode(t).key in Contents(t.left);
      assert MinNode(t).key !in Contents(t.right);
    }
  }

  lemma MapDeleteLeft<V>(l: map<Key, V>, r: map<Key, V>, x: Key, vx: V, key: Key)
    requires key != x && key !in r
    ensures (l - {key} + r)[x := vx] == (l + r)[x := vx] - {key}
  {
    var a, b := (l - {key} + r)[x := vx], (l + r)[x := vx] - {key};
    assert a.Keys == b.Keys;
    forall k | k in a
      ensures a[k] == b[k]
    {
    }
  }

  lemma MapDeleteRight<V>(l: map<Key, V>, r: map<Key, V>, x: Key, vx: V, key: Key)
    requires key != x && key !in l
    ensures (l + (r - {key}))[x := vx] == (l + r)[x := vx] - {key}
  {
    var a, b := (l + (r - {key}))[x := vx], (l + r)[x := vx] - {key};
    assert a.Keys == b.Keys;
    forall k | k in a
      ensures a[k] == b[k]
    {
    }
  }

  /** Replacing the root by its successor `s`. */
  lemma MapDeleteRoot<V>(l: map<Key, V>, r: map<Key, V>, x: Key, vx: V, s: Key)
    requires x !in l && x !in r && s in r
    ensures (l + (r - {s}))[s := r[s]] == (l + r)[x := vx] - {x}
  {
    var a, b := (l + (r - {s}))[s := r[s]], (l + r)[x := vx] - {x};
    assert a.Keys == b.Keys;
    forall k | k in a
      ensures a[k] == b[k]
    {
    }
  }

  lemma ShrinkLeft<V>(n: Tree<V>, l: Tree<V>, key: Key)
    requires n.Node? && Ordered(n) && Less(key, n.key) && Ordered(l) && Contents(l) == Contents(n.left) - {key}
    ensures Ordered(n.(left := l)) && Contents(n.(left := l)) == Contents(n) - {key}
  {
    hide Less;
    LessIsTotalOrder();
    MapDeleteLeft(Contents(n.left), Contents(n.right), n.key, n.val, key);
  }

  lemma ShrinkRight<V>(n: Tree<V>, r: Tree<V>, key: Key)
    requires n.Node? && Ordered(n) && Less(n.key, key) && Ordered(r) && Contents(r) == Contents(n.right) - {key}
    ensures Ordered(n.(right := r)) && Contents(n.(right := r)) == Contents(n) - {key}
  {
    hide Less;
    LessIsTotalOrder();
    MapDeleteRight(Contents(n.left), Contents(n.right), n.key, n.val, key);
  }

  lemma DropRoot<V>(t: Tree<V>)
    requires t.Node? && Ordered(t)
    ensures t.left.Leaf? ==> Contents(t.right) == Contents(t) - {t.key}
    ensures t.right.Leaf? ==> Contents(t.left) == Contents(t) - {t.key}
  {
    hide Less;
    LessIsTotalOrder();
    assert t.key !in Contents(t.left) && t.key !in Contents(t.right);
  }

  lemma PromoteSuccessor<V>(t: Tree<V>, r: Tree<V>, h: int)
    requires t.Node? && t.left.Node? && t.right.Node? && Ordered(t) && Ordered(r)
    requires Contents(r) == Contents(t.right) - {MinNode(t.right).key}
    ensures var s := MinNode(t.right); var n := Node(s.key, s.val, t.left, r, h);
            Ordered(n) && Contents(n) == Contents(t) - {t.key}
  {
    hide Less;
    LessIsTotalOrder();
    MinIsLeast(t.right);
    var s := MinNode(t.right);
    MapDeleteRoot(Contents(t.left), Contents(t.right), t.key, t.val, s.key);
    forall k | k in Contents(t.left)
      ensures Less(k, s.key)
    {
      assert Less(k, t.key) && Less(t.key, s.key);
    }
  }

  /** Delete is map removal. */
  lemma {:induction false} DeleteMap<V>(t: Tree<V>, key: Key)
    requires Ordered(t)
    ensures Ordered(Delete(t, key)) && Contents(Delete(t, key)) == Contents(t) - {key}
    decreases t
  {
    hide Less;
    LessIsTotalOrder();
    if t.Leaf? {
    } else if Less(key, t.key) {
      DeleteMap(t.left, key);
      ShrinkLeft(t, Delete(t.left, key), key);
      RebalanceMap(t.(left := Delete(t.left, key)));
    } else if Less(t.key, key) {
      DeleteMap(t.right, key);
      ShrinkRight(t, Delete(t.right, key), key);
      RebalanceMap(t.(right := Delete(t.right, key)));
    } else if t.left.Leaf? || t.right.Leaf? {
      DropRoot(t);
    } else {
      var s := MinNode(t.right);
      DeleteMap(t.right, s.key);
      PromoteSuccessor(t, Delete(t.right, s.key), s.height);
      RebalanceMap(Node(s.key, s.val, t.left, Delete(t.right, s.key), s.height));
    }
  }

  /* ---- balance ---- */

  lemma AvlHeight<V>(t: Tree<V>)
    requires Avl(t)
    ensures HeightOf(t) >= 0 && (HeightOf(t) == 0 <==> t.Leaf?)
  {
  }

  /** `key` went to the side that is now taller. */
  ghost predicate LeansToward<V>(r: Tree<V>, key: Key) {
    r.Node? && key != r.key && BalanceFactor(r) == if Less(key, r.key) then 1 else -1
  }

  lemma FixLeft<V>(t: Tree<V>, l: Tree<V>, key: Key)
    requires t.Node? && Avl(t) && Avl(l) && HeightOf(t.left) <= HeightOf(l) <= HeightOf(t.left) + 1 && Less(key, t.key)
    requires t.left.Node? && HeightOf(l) == HeightOf(t.left) + 1 ==> LeansToward(l, key)
    ensures var r := FixInserted(Join(t.key, t.val, l, t.right), key);
            Avl(r) && t.height <= HeightOf(r) <= t.height + 1 && (HeightOf(r) == t.height + 1 ==> LeansToward(r, key))
  {
    hide Less;
    LessIsTotalOrder();
    AvlHeight(t.left);
    AvlHeight(t.right);
    AvlHeight(l);
  }

  lemma FixRight<V>(t: Tree<V>, r: Tree<V>, key: Key)
    requires t.Node? && Avl(t) && Avl(r) && HeightOf(t.right) <= HeightOf(r) <= HeightOf(t.right) + 1 && Less(t.key, key)
    requires t.right.Node? && HeightOf(r) == HeightOf(t.right) + 1 ==> LeansToward(r, key)
    ensures var n := FixInserted(Join(t.key, t.val, t.left, r), key);
            Avl(n) && t.height <= HeightOf(n) <= t.height + 1 && (HeightOf(n) == t.height + 1 ==> LeansToward(n, key))
  {
    hide Less;
    LessIsTotalOrder();
    AvlHeight(t.left);
    AvlHeight(t.right);
    AvlHeight(r);
  }

  /** Insertion keeps the tree balanced: a subtree that grew leans toward the inserted key, so picking
      the rotation by comparing keys picks the right one. */
  lemma {:induction false} SetAvl<V>(t: Tree<V>, key: Key, val: V)
    requires Avl(t)
    ensures Avl(Set(t, key, val)) && HeightOf(t) <= HeightOf(Set(t, key, val)) <= HeightOf(t) + 1
    ensures t.Node? && HeightOf(Set(t, key, val)) == HeightOf(t) + 1 ==> LeansToward(Set(t, key, val), key)
    decreases t
  {
    hide Less;
    LessIsTotalOrder();
    if t.Leaf? || key == t.key {
    } else if Less(key, t.key) {
      SetAvl(t.left, key, val);
      FixLeft(t, Set(t.left, key, val), key);
    } else {
      SetAvl(t.right, key, val);
      FixRight(t, Set(t.right, key, val), key);
    }
  }

  lemma JoinAvl<V>(key: Key, val: V, l: Tree<V>, r: Tree<V>)
    requires Avl(l) && Avl(r) && -1 <= HeightOf(l) - HeightOf(r) <= 1
    ensures Avl(Join(key, val, l, r)) && HeightOf(Join(key, val, l, r)) == Max(HeightOf(l), HeightOf(r)) + 1
  {
  }

  /** A node whose left child is two higher, repaired as Rebalance does. */
  lemma RepairLeft<V>(m: Tree<V>)
    requires m.Node? && Avl(m.left) && Avl(m.right) && BalanceFactor(m) == 2
    ensures var r := if BalanceFactor(m.left) >= 0 then RotateRight(m) else RotateRight(m.(left := RotateLeft(m.left)));
            Avl(r) && HeightOf(m.left) <= HeightOf(r) <= HeightOf(m.left) + 1
  {
    AvlHeight(m.right);
    AvlHeight(m.left);
    var x := m.left;
    AvlHeight(x.left);
    AvlHeight(x.right);
    if BalanceFactor(x) >= 0 {
      JoinAvl(m.key, m.val, x.right, m.right);
      JoinAvl(x.key, x.val, x.left, Join(m.key, m.val, x.right, m.right));
    } else {
      var y := x.right;
      AvlHeight(y.left);
      AvlHeight(y.right);
      JoinAvl(x.key, x.val, x.left, y.left);
      JoinAvl(m.key, m.val, y.right, m.right);
      JoinAvl(y.key, y.val, Join(x.key, x.val, x.left, y.left), Join(m.key, m.val, y.right, m.right));
    }
  }

  lemma RepairRight<V>(m: Tree<V>)
    requires m.Node? && Avl(m.left) && Avl(m.right) && BalanceFactor(m) == -2
    ensures var r := if BalanceFactor(m.right) <= 0 then RotateLeft(m) else RotateLeft(m.(right := RotateRight(m.right)));
            Avl(r) && HeightOf(m.right) <= HeightOf(r) <= HeightOf(m.right) + 1
  {
    AvlHeight(m.left);
    AvlHeight(m.right);
    var y := m.right;
    AvlHeight(y.left);
    AvlHeight(y.right);
    if BalanceFactor(y) <= 0 {
      JoinAvl(m.key, m.val, m.left, y.left);
      JoinAvl(y.key, y.val, Join(m.key, m.val, m.left, y.left), y.right);
    } else {
      var x := y.left;
      AvlHeight(x.left);
      AvlHeight(x.right);
      JoinAvl(m.key, m.val, m.left, x.left);
      JoinAvl(y.key, y.val, x.right, y.right);
      JoinAvl(x.key, x.val, Join(m.key, m.val, m.left, x.left), Join(y.key, y.val, x.right, y.right));
    }
  }

  lemma RebalanceAvl<V>(n: Tree<V>)
    requires n.Node? && Avl(n.left) && Avl(n.right) && -2 <= BalanceFactor(n) <= 2
    ensures Avl(Rebalance(n))
    ensures Max(HeightOf(n.left), HeightOf(n.right)) <= HeightOf(Rebalance(n)) <= Max(HeightOf(n.left), HeightOf(n.right)) + 1
    ensures -1 <= BalanceFactor(n) <= 1 ==> HeightOf(Rebalance(n)) == Max(HeightOf(n.left), HeightOf(n.right)) + 1
  {
    hide RotateLeft, RotateRight;
    var m := Join(n.key, n.val, n.left, n.right);
    if BalanceFactor(n) == 2 {
      RepairLeft(m);
    } else if BalanceFactor(n) == -2 {
      RepairRight(m);
    }
  }

  /** Deletion keeps the tree balanced and lowers it by at most one. */
  lemma {:induction false} DeleteAvl<V>(t: Tree<V>, key: Key)
    requires Avl(t)
    ensures Avl(Delete(t, key)) && HeightOf(t) - 1 <= HeightOf(Delete(t, key)) <= HeightOf(t)
    decreases t
  {
    hide Less;
    if t.Leaf? {
    } else if Less(key, t.key) {
      DeleteAvl(t.left, key);
      RebalanceAvl(t.(left := Delete(t.left, key)));
    } else if Less(t.key, key) {
      DeleteAvl(t.right, key);
      RebalanceAvl(t.(right := Delete(t.right, key)));
    } else if t.left.Leaf? || t.right.Leaf? {
      AvlHeight(t.left);
      AvlHeight(t.right);
    } else {
      var s := MinNode(t.right);
      DeleteAvl(t.right, s.key);
      RebalanceAvl(Node(s.key, s.val, t.left, Delete(t.right, s.key), s.height));
    }
  }

  /* ---- size, depth and traversal ---- */

  function Fib(n: nat): nat { if n < 2 then n else Fib(n - 2) + Fib(n - 1) }

  lemma FibMonotone(n: nat)
    ensures Fib(n) <= Fib(n + 1)
  {
  }

  lemma FibOfChildren(l: nat, r: nat)
    requires -1 <= l - r <= 1
    ensures Fib(l + 2) + Fib(r + 2) >= Fib(Max(l, r) + 3)
  {
    var h := Max(l, r) + 1;
    FibMonotone(h);
    assert Fib(h + 2) == Fib(h) + Fib(h + 1);
  }

  /** An AVL tree of height h holds at least Fib(h + 2) - 1 keys. */
  lemma {:induction false} SizeBound<V>(t: Tree<V>)
    requires Avl(t)
    ensures HeightOf(t) >= 0 && Size(t) + 1 >= Fib(HeightOf(t) + 2)
    decreases t
  {
    if t.Node? {
      hide Fib;
      SizeBound(t.left);
      SizeBound(t.right);
      FibOfChildren(HeightOf(t.left), HeightOf(t.right));
    }
  }

  function Pow2(n: nat): nat { if n == 0 then 1 else 2 * Pow2(n - 1) }

  lemma {:induction false} FibIsExponential(n: nat)
    ensures Fib(n + 2) >= Pow2(n / 2)
  {
    if n >= 2 {
      FibIsExponential(n - 2);
      FibMonotone(n);
      assert Fib(n + 2) == Fib(n) + Fib(n + 1);
    }
  }

  /** How many nodes cowMapGet looks at. */
  function Probes<V>(t: Tree<V>, key: Key): nat {
    if t.Leaf? then 0
    else if key == t.key then 1
    else 1 + Probes(if Less(key, t.key) then t.left else t.right, key)
  }

  lemma {:induction false} ProbesWithinHeight<V>(t: Tree<V>, key: Key)
    requires Avl(t)
    ensures Probes(t, key) <= HeightOf(t)
    decreases t
  {
    hide Less;
    AvlHeight(t);
    if t.Node? {
      ProbesWithinHeight(t.left, key);
      ProbesWithinHeight(t.right, key);
    }
  }

  lemma Pow2Monotone(m: nat, n: nat)
    requires m <= n
    ensures Pow2(m) <= Pow2(n)
  {
  }

  /** Lookup depth is logarithmic in the size. */
  lemma ProbesAreLogarithmic<V>(t: Tree<V>, key: Key)
    requires Avl(t)
    ensures Pow2(Probes(t, key) / 2) <= Size(t) + 1
  {
    ProbesWithinHeight(t, key);
    SizeBound(t);
    FibIsExponential(HeightOf(t));
    Pow2Monotone(Probes(t, key) / 2, HeightOf(t) / 2);
  }

  lemma {:induction false} SizeIsCardinality<V>(t: Tree<V>)
    requires Ordered(t)
    ensures Size(t) == |Contents(t)| == |InOrder(t)|
    decreases t
  {
    hide Less;
    LessIsTotalOrder();
    if t.Node? {
      SizeIsCardinality(t.left);
      SizeIsCardinality(t.right);
      var l, r := Contents(t.left), Contents(t.right);
      assert l.Keys !! r.Keys && t.key !in l && t.key !in r;
      assert (l + r).Keys == l.Keys + r.Keys;
      assert |l + r| == |(l + r).Keys| == |l| + |r|;
      assert (l + r)[t.key := t.val].Keys == (l + r).Keys + {t.key};
      assert |(l + r)[t.key := t.val]| == |(l + r)[t.key := t.val].Keys|;
    }
  }

  /** The traversal lists exactly the map's entries. */
  lemma {:induction false} InOrderEntries<V>(t: Tree<V>, k: Key, v: V)
    requires Ordered(t)
    ensures (k, v) in InOrder(t) <==> k in Contents(t) && Contents(t)[k] == v
    decreases t
  {
    hide Less;
    LessIsTotalOrder();
    if t.Node? {
      InOrderEntries(t.left, k, v);
      InOrderEntries(t.right, k, v);
      assert t.key !in Contents(t.left) && t.key !in Contents(t.right);
    }
  }

  ghost predicate Ascending<V>(s: seq<(Key, V)>) {
    forall i, j :: 0 <= i < j < |s| ==> Less(s[i].0, s[j].0)
  }

  /** The traversal is in strictly ascending key order. */
  lemma {:induction false} InOrderAscending<V>(t: Tree<V>)
    requires Ordered(t)
    ensures Ascending(InOrder(t))
    decreases t
  {
    hide Less;
    LessIsTotalOrder();
    if t.Node? {
      InOrderAscending(t.left);
      InOrderAscending(t.right);
      forall p | p in InOrder(t.left)
        ensures Less(p.0, t.key)
      {
        InOrderEntries(t.left, p.0, p.1);
      }
      forall p | p in InOrder(t.right)
        ensures Less(t.key, p.0)
      {
        InOrderEntries(t.right, p.0, p.1);
      }
    }
  }
}
