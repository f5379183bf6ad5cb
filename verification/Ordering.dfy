/** The order Go gives strings: lexicographic on their characters. */
module Ordering {

  predicate Less(a: string, b: string) {
    |b| > 0 && (|a| == 0 || a[0] < b[0] || (a[0] == b[0] && Less(a[1..], b[1..])))
  }

  /** `a` is `b` cut short, or the first character in which they differ is smaller in `a`. */
  ghost predicate Precedes(a: string, b: string, k: nat) {
    k < |b| && k <= |a| && a[..k] == b[..k] && (k < |a| ==> a[k] < b[k])
  }

  lemma PrecedesLater(a: string, b: string, k: nat)
    requires Precedes(a, b, k) && k > 0
    ensures a != [] && b != [] && a[0] == b[0] && Precedes(a[1..], b[1..], k - 1)
  {
    assert a[0] == a[..k][0] && b[0] == b[..k][0];
    assert a[1..][..k - 1] == a[..k][1..] && b[1..][..k - 1] == b[..k][1..];
  }

  lemma {:induction false} LessIsLexicographic(a: string, b: string)
    ensures Less(a, b) <==> exists k: nat :: Precedes(a, b, k)
  {
    forall k: nat | Precedes(a, b, k) && k > 0
      ensures a != [] && b != [] && a[0] == b[0] && Precedes(a[1..], b[1..], k - 1)
    {
      PrecedesLater(a, b, k);
    }
    if a != [] && b != [] && a[0] == b[0] {
      LessIsLexicographic(a[1..], b[1..]);
      if k: nat :| Precedes(a[1..], b[1..], k) {
        assert a[..k + 1] == [a[0]] + a[1..][..k] && b[..k + 1] == [b[0]] + b[1..][..k];
        assert Precedes(a, b, k + 1);
      }
    } else if Less(a, b) {
      assert Precedes(a, b, 0);
    }
  }

  lemma LessIrreflexive(a: string)
    ensures !Less(a, a)
  {
    if |a| > 0 {
      LessIrreflexive(a[1..]);
    }
  }

  lemma LessTransitive(a: string, b: string, c: string)
    requires Less(a, b) && Less(b, c)
    ensures Less(a, c)
  {
    if |a| > 0 && a[0] == b[0] && b[0] == c[0] {
      LessTransitive(a[1..], b[1..], c[1..]);
    }
  }

  lemma LessTotal(a: string, b: string)
    ensures a == b || Less(a, b) || Less(b, a)
  {
    if |a| > 0 && |b| > 0 && a[0] == b[0] {
      LessTotal(a[1..], b[1..]);
      if a[1..] == b[1..] {
        assert a == [a[0]] + a[1..] && b == [b[0]] + b[1..];
      }
    }
  }

  /** Less is a strict total order, in the form proofs use it with its body hidden. */
  lemma LessIsTotalOrder()
    ensures forall a :: !Less(a, a)
    ensures forall a, b, c {:trigger Less(a, b), Less(b, c)} :: Less(a, b) && Less(b, c) ==> Less(a, c)
    ensures forall a, b {:trigger Less(a, b)} :: Less(a, b) ==> !Less(b, a)
    ensures forall a, b {:trigger Less(a, b)} :: a == b || Less(a, b) || Less(b, a)
  {
    forall a
      ensures !Less(a, a)
    {
      LessIrreflexive(a);
    }
    forall a, b, c | Less(a, b) && Less(b, c)
      ensures Less(a, c)
    {
      LessTransitive(a, b, c);
    }
    forall a, b
      ensures a == b || Less(a, b) || Less(b, a)
    {
      LessTotal(a, b);
    }
  }

  ghost predicate Distinct(list: seq<string>) {
    forall i, j :: 0 <= i < j < |list| ==> list[i] != list[j]
  }

  /* ---- ascending enumeration of a key set, the order CowMap.Iterate visits ---- */

  ghost predicate IsLeast(keys: set<string>, least: string) {
    least in keys && forall x :: x in keys ==> x == least || Less(least, x)
  }

  lemma LeastExists(keys: set<string>) returns (least: string)
    requires keys != {}
    ensures IsLeast(keys, least)
    decreases |keys|
  {
    hide Less;
    LessIsTotalOrder();
    least :| least in keys;
    if keys != {least} {
      var rest := LeastExists(keys - {least});
      if Less(rest, least) {
        least := rest;
      }
    }
  }

  lemma LeastIsUnique(keys: set<string>, a: string, b: string)
    requires IsLeast(keys, a) && IsLeast(keys, b)
    ensures a == b
  {
    hide Less;
    LessIsTotalOrder();
  }

  ghost predicate IsAscending(list: seq<string>) {
    forall i, j :: 0 <= i < j < |list| ==> Less(list[i], list[j])
  }

  ghost function Ascending(keys: set<string>): (list: seq<string>)
    ensures forall k :: k in list <==> k in keys
    ensures IsAscending(list)
    decreases |keys|
  {
    if keys == {} then []
    else
      assert exists k :: IsLeast(keys, k) by { var least := LeastExists(keys); }
      var least :| IsLeast(keys, least);
      assert least in keys;
      [least] + Ascending(keys - {least})
  }

  lemma AscendingFirst(list: seq<string>, keys: set<string>)
    requires IsAscending(list) && (forall k :: k in list <==> k in keys) && keys != {}
    ensures |list| > 0 && forall k :: k in keys ==> k == list[0] || Less(list[0], k)
  {
    var k :| k in keys;
    assert k in list;
    forall k | k in keys
      ensures k == list[0] || Less(list[0], k)
    {
      var i :| 0 <= i < |list| && list[i] == k;
    }
  }

  /** A key set has one ascending enumeration. */
  lemma {:induction false} AscendingIsUnique(list: seq<string>, keys: set<string>)
    requires IsAscending(list) && forall k :: k in list <==> k in keys
    ensures list == Ascending(keys)
    decreases |keys|
  {
    hide Less;
    if list == [] {
      assert keys == {};
    } else {
      assert list[0] in list;
      AscendingFirst(list, keys);
      AscendingFirst(Ascending(keys), keys);
      LeastIsUnique(keys, list[0], Ascending(keys)[0]);
      LessIsTotalOrder();
      assert forall i :: 1 <= i < |list| ==> list[i] != list[0];
      assert forall k :: k in list[1..] <==> k in keys - {list[0]};
      AscendingIsUnique(list[1..], keys - {list[0]});
    }
  }

  /** Visit a key set in ascending order, as an in-order walk does. */
  method Enumerate(keys: set<string>) returns (list: seq<string>)
    ensures list == Ascending(keys)
  {
    hide Less;
    list := [];
    var rest := keys;
    while rest != {}
      invariant rest <= keys && IsAscending(list) && forall k :: k in list <==> k in keys - rest
      invariant forall i, k :: 0 <= i < |list| && k in rest ==> Less(list[i], k)
    {
      ghost var least := LeastExists(rest);
      var next :| next in rest && forall k :: k in rest ==> k == next || Less(next, k);
      LessIsTotalOrder();
      list, rest := list + [next], rest - {next};
    }
    AscendingIsUnique(list, keys);
  }

  /* ---- sorting by a comparison, as sort.Slice promises it: nothing is said about ties ---- */

  ghost predicate WeakOrder<T(!new)>(before: (T, T) -> bool) {
    (forall a, b :: before(a, b) ==> !before(b, a))
    && (forall a, b, c {:trigger before(b, a), before(c, b)} :: !before(b, a) && !before(c, b) ==> !before(c, a))
  }

  ghost predicate SortedBy<T(!new)>(list: seq<T>, before: (T, T) -> bool) {
    forall i, j :: 0 <= i < j < |list| ==> !before(list[j], list[i])
  }

  lemma InsertedAt<T(!new)>(sorted: seq<T>, x: T, i: nat, before: (T, T) -> bool)
    requires SortedBy(sorted, before) && i <= |sorted|
    requires forall j :: 0 <= j < i ==> !before(x, sorted[j])
    requires forall j :: i <= j < |sorted| ==> !before(sorted[j], x)
    ensures SortedBy(sorted[..i] + [x] + sorted[i..], before)
    ensures multiset(sorted[..i] + [x] + sorted[i..]) == multiset(sorted) + multiset{x}
  {
    assert sorted == sorted[..i] + sorted[i..];
    var s := sorted[..i] + [x] + sorted[i..];
    forall p, q | 0 <= p < q < |s|
      ensures !before(s[q], s[p])
    {
      if p != i && q != i {
        assert s[p] == sorted[if p < i then p else p - 1] && s[q] == sorted[if q < i then q else q - 1];
      }
    }
  }

  method Insert<T(!new)>(sorted: seq<T>, x: T, before: (T, T) -> bool) returns (sorted': seq<T>)
    requires WeakOrder(before) && SortedBy(sorted, before)
    ensures SortedBy(sorted', before) && multiset(sorted') == multiset(sorted) + multiset{x}
  {
    var i := |sorted|;
    while i > 0 && before(x, sorted[i - 1])
      invariant 0 <= i <= |sorted|
      invariant forall j :: i <= j < |sorted| ==> !before(sorted[j], x)
    {
      i := i - 1;
    }
    forall j | 0 <= j < i
      ensures !before(x, sorted[j])
    {
      assert !before(x, sorted[i - 1]) && (j < i - 1 ==> !before(sorted[i - 1], sorted[j]));
    }
    hide *;
    InsertedAt(sorted, x, i, before);
    sorted' := sorted[..i] + [x] + sorted[i..];
  }

  method SortSlice<T(!new)>(list: seq<T>, before: (T, T) -> bool) returns (sorted: seq<T>)
    requires WeakOrder(before)
    ensures SortedBy(sorted, before) && multiset(sorted) == multiset(list)
  {
    sorted := [];
    for i := 0 to |list|
      invariant SortedBy(sorted, before) && multiset(sorted) == multiset(list[..i])
    {
      hide *;
      assert list[..i + 1] == list[..i] + [list[i]];
      sorted := Insert(sorted, list[i], before);
    }
    assert list[..|list|] == list;
  }

  ghost predicate Tied<T(!new)>(before: (T, T) -> bool, a: T, b: T) { !before(a, b) && !before(b, a) }

  lemma RemoveFirst<T>(a: seq<T>, b: seq<T>, k: nat)
    requires multiset(a) == multiset(b) && |a| > 0 && k < |b| && b[k] == a[0]
    ensures multiset(a[1..]) == multiset(b[..k] + b[k + 1..])
  {
    assert a == [a[0]] + a[1..];
    assert b == b[..k] + [b[k]] + b[k + 1..];
    assert multiset(a[1..]) == multiset(a) - multiset{a[0]};
    assert multiset(b[..k] + b[k + 1..]) == multiset(b) - multiset{b[k]};
  }

  lemma FirstsTied<T(!new)>(a: seq<T>, b: seq<T>, before: (T, T) -> bool)
    requires WeakOrder(before) && SortedBy(a, before) && SortedBy(b, before) && multiset(a) == multiset(b) && |a| > 0
    ensures |b| == |a| && Tied(before, a[0], b[0])
  {
    assert |a| == |multiset(a)| && |b| == |multiset(b)|;
    assert a[0] in multiset(b) && b[0] in multiset(a);
    var k :| 0 <= k < |b| && b[k] == a[0];
    var m :| 0 <= m < |a| && a[m] == b[0];
    assert k > 0 ==> !before(b[k], b[0]);
    assert m > 0 ==> !before(a[m], a[0]);
  }

  lemma TiedTrans<T(!new)>(before: (T, T) -> bool, a: T, b: T, c: T)
    requires WeakOrder(before) && Tied(before, a, b) && Tied(before, b, c)
    ensures Tied(before, a, c) && Tied(before, b, a)
  {
  }

  lemma WithoutAt<T(!new)>(b: seq<T>, k: nat, before: (T, T) -> bool)
    requires SortedBy(b, before) && k < |b|
    ensures SortedBy(b[..k] + b[k + 1..], before)
  {
    var s := b[..k] + b[k + 1..];
    forall p, q | 0 <= p < q < |s|
      ensures !before(s[q], s[p])
    {
      assert s[p] == b[if p < k then p else p + 1] && s[q] == b[if q < k then q else q + 1];
    }
  }

  /** Two sorted lists with the same elements agree up to the order of ties. */
  lemma {:induction false} SortedAgree<T(!new)>(a: seq<T>, b: seq<T>, before: (T, T) -> bool)
    requires WeakOrder(before) && SortedBy(a, before) && SortedBy(b, before) && multiset(a) == multiset(b)
    ensures |a| == |b| && forall i :: 0 <= i < |a| ==> Tied(before, a[i], b[i])
  {
    assert |a| == |multiset(a)| && |b| == |multiset(b)|;
    if |a| > 0 {
      FirstsTied(a, b, before);
      assert a[0] in multiset(b);
      var k :| 0 <= k < |b| && b[k] == a[0];
      var b' := b[..k] + b[k + 1..];
      RemoveFirst(a, b, k);
      WithoutAt(b, k, before);
      assert SortedBy(a[1..], before);
      SortedAgree(a[1..], b', before);
      forall i | 0 <= i < |a|
        ensures Tied(before, a[i], b[i])
      {
        if i > k {
          assert a[i] == a[1..][i - 1] && b[i] == b'[i - 1];
        } else {
          AllTied(b, k, i, before);
          if i > 0 {
            assert a[i] == a[1..][i - 1] && b[i - 1] == b'[i - 1];
            AllTied(b, k, i - 1, before);
            TiedTrans(before, a[i], b[i - 1], a[0]);
            TiedTrans(before, a[i], a[0], b[i]);
          }
        }
      }
    }
  }

  /** Everything up to an element that ties with the first one ties with it too. */
  lemma AllTied<T(!new)>(b: seq<T>, k: nat, i: nat, before: (T, T) -> bool)
    requires WeakOrder(before) && SortedBy(b, before) && i <= k < |b| && Tied(before, b[0], b[k])
    ensures Tied(before, b[i], b[k]) && Tied(before, b[k], b[i])
  {
    assert i > 0 ==> !before(b[i], b[0]);
    assert i < k ==> !before(b[k], b[i]);
  }

  lemma OccursTwice<T>(b: seq<T>, i: nat, j: nat)
    requires i < j < |b| && b[i] == b[j]
    ensures multiset(b)[b[i]] >= 2
  {
    assert b == b[..j] + [b[j]] + b[j + 1..];
    assert b[..j][i] == b[i] && b[i] in multiset(b[..j]);
  }

  lemma SubsetCount<T>(a: set<T>, b: set<T>)
    requires a <= b
    ensures |a| <= |b|
  {
    assert b == a + (b - a);
  }
}
