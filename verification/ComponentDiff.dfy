/** Diff's reconciliation of added and removed components into splits, merges, renames and a raw rest.
    Name similarity is a parameter with values between zero and one; scores are reals. */
module ComponentDiff {
  import opened Ordering

  datatype Component = Component(id: string, name: string, nodeIds: seq<string>)

  /** diffComponentKey. */
  function Key(c: Component): string { if c.id != "" then c.id else c.name }

  ghost predicate DistinctKeys(cs: seq<Component>) {
    forall i, j :: 0 <= i < j < |cs| ==> Key(cs[i]) != Key(cs[j])
  }

  ghost function KeysOf(cs: seq<Component>): set<string> { set c | c in cs :: Key(c) }

  /** One component became several, or several became one: the source's or target's side is `one`. */
  datatype Regroup = Regroup(one: Component, many: seq<Component>)

  datatype Rename = Rename(before: Component, after: Component, similarity: real, overlap: nat)

  /* ---- pools ---- */

  /** The components of `pool` whose key none of `drops` has. */
  ghost function Dropped(pool: seq<Component>, drops: seq<Component>): seq<Component> {
    if pool == [] then []
    else
      var rest, c := Dropped(pool[..|pool| - 1], drops), pool[|pool| - 1];
      if Key(c) in KeysOf(drops) then rest else rest + [c]
  }

  lemma NoneDropped(drops: seq<Component>)
    ensures Dropped([], drops) == []
  {
  }

  /** Compacts the first `n` components in place, as appending to `pool[:0]` does: what is kept moves to
      the front, and behind it everything stays as it was. */
  method RemoveComponents(pool: array<Component>, n: nat, drops: seq<Component>) returns (m: nat)
    requires n <= pool.Length
    modifies pool
    ensures m <= n && pool[..m] == Dropped(old(pool[..n]), drops)
    ensures forall k :: m <= k < pool.Length ==> pool[k] == old(pool[k])
  {
    hide Dropped, KeysOf;
    m := 0;
    ghost var was := pool[..n];
    assert pool[..0] == [] && was[..0] == [];
    NoneDropped(drops);
    for i := 0 to n
      invariant m <= i && pool[..m] == Dropped(was[..i], drops)
      invariant forall k :: m <= k < pool.Length ==> pool[k] == old(pool[k])
    {
      var c := pool[i];
      var drop := IsDropped(c, drops);
      DroppedMore(was, drops, i);
      if !drop {
        ghost var kept := pool[..m];
        pool[m] := c;
        m := m + 1;
        assert pool[..m] == kept + [c];
      }
    }
    assert was[..n] == was;
  }

  method IsDropped(c: Component, drops: seq<Component>) returns (drop: bool)
    ensures drop <==> Key(c) in KeysOf(drops)
  {
    drop := false;
    for k := 0 to |drops|
      invariant drop <==> exists j :: 0 <= j < k && Key(drops[j]) == Key(c)
    {
      drop := drop || Key(drops[k]) == Key(c);
    }
  }

  lemma DroppedMore(pool: seq<Component>, drops: seq<Component>, i: nat)
    requires i < |pool|
    ensures Dropped(pool[..i + 1], drops) == if Key(pool[i]) in KeysOf(drops) then Dropped(pool[..i], drops) else Dropped(pool[..i], drops) + [pool[i]]
  {
    assert pool[..i + 1][..i] == pool[..i];
  }

  /** In order, the components of `pool` at the positions in `some`. */
  ghost predicate IsPartOf(some: seq<Component>, pool: seq<Component>) {
    DistinctKeys(some) && forall c :: c in some ==> c in pool
  }

  lemma DroppedElements(pool: seq<Component>, drops: seq<Component>)
    ensures forall c :: c in Dropped(pool, drops) <==> c in pool && Key(c) !in KeysOf(drops)
  {
    if pool != [] {
      DroppedElements(pool[..|pool| - 1], drops);
      assert pool == pool[..|pool| - 1] + [pool[|pool| - 1]];
    }
  }

  lemma DroppedDistinct(pool: seq<Component>, drops: seq<Component>)
    requires DistinctKeys(pool)
    ensures DistinctKeys(Dropped(pool, drops))
  {
    if pool != [] {
      var rest := pool[..|pool| - 1];
      DroppedDistinct(rest, drops);
      DroppedElements(rest, drops);
      forall i | 0 <= i < |Dropped(rest, drops)|
        ensures Key(Dropped(rest, drops)[i]) != Key(pool[|pool| - 1])
      {
        assert Dropped(rest, drops)[i] in rest;
      }
    }
  }

  /** With distinct keys a component occurs at most once. */
  lemma OccursOnce(cs: seq<Component>, c: Component)
    requires DistinctKeys(cs)
    ensures multiset(cs)[c] == if c in cs then 1 else 0
  {
    if cs != [] {
      var rest := cs[..|cs| - 1];
      OccursOnce(rest, c);
      assert cs == rest + [cs[|cs| - 1]];
      assert cs[|cs| - 1] !in rest;
    }
  }

  /** Removing part of a pool splits it into the part and the rest. */
  lemma PoolSplits(pool: seq<Component>, drops: seq<Component>)
    requires DistinctKeys(pool) && IsPartOf(drops, pool)
    ensures multiset(pool) == multiset(Dropped(pool, drops)) + multiset(drops)
  {
    DroppedElements(pool, drops);
    DroppedDistinct(pool, drops);
    forall c
      ensures multiset(pool)[c] == multiset(Dropped(pool, drops))[c] + multiset(drops)[c]
    {
      OccursOnce(pool, c);
      OccursOnce(drops, c);
      OccursOnce(Dropped(pool, drops), c);
      if c in pool && Key(c) in KeysOf(drops) {
        var d :| d in drops && Key(d) == Key(c);
        SameKeySame(pool, c, d);
      }
    }
  }

  lemma SameKeySame(pool: seq<Component>, c: Component, d: Component)
    requires DistinctKeys(pool) && c in pool && d in pool && Key(c) == Key(d)
    ensures c == d
  {
    var i :| 0 <= i < |pool| && pool[i] == c;
    var j :| 0 <= j < |pool| && pool[j] == d;
  }

  /* ---- name order ---- */

  predicate NameBefore(a: Component, b: Component) { Less(a.name, b.name) }

  lemma NameOrder()
    ensures WeakOrder(NameBefore)
  {
    hide Less;
    LessIsTotalOrder();
  }

  /** No component comes before one with a smaller name. */
  ghost predicate InOrder(cs: seq<Component>) { forall i, j :: 0 <= i < j < |cs| ==> !Less(cs[j].name, cs[i].name) }

  lemma DroppedInOrder(pool: seq<Component>, drops: seq<Component>)
    requires InOrder(pool)
    ensures InOrder(Dropped(pool, drops))
  {
    hide Less;
    if pool != [] {
      var rest := pool[..|pool| - 1];
      DroppedInOrder(rest, drops);
      DroppedElements(rest, drops);
      EndInOrder(rest, Dropped(rest, drops), pool[|pool| - 1]);
    }
  }

  lemma EndInOrder(rest: seq<Component>, some: seq<Component>, last: Component)
    requires InOrder(rest + [last]) && InOrder(some) && forall c :: c in some ==> c in rest
    ensures InOrder(some + [last])
  {
    hide Less;
    forall i | 0 <= i < |some|
      ensures !Less(last.name, some[i].name)
    {
      assert some[i] in some;
      var j :| 0 <= j < |rest| && rest[j] == some[i];
      assert (rest + [last])[j] == some[i] && (rest + [last])[|rest|] == last;
    }
  }

  /* ---- splits and merges ---- */

  /** How many of the entries of `a` are members of `b`. */
  ghost function Overlap(a: Component, b: Component): nat { OverlapOf(a.nodeIds, b.nodeIds) }

  ghost function OverlapOf(ids: seq<string>, others: seq<string>): nat { |PositionsIn(ids, others)| }

  ghost function PositionsIn(ids: seq<string>, others: seq<string>): set<nat> { set i: nat | i < |ids| && ids[i] in others }

  lemma OverlapMore(ids: seq<string>, others: seq<string>, i: nat)
    requires i < |ids|
    ensures OverlapOf(ids[..i + 1], others) == OverlapOf(ids[..i], others) + if ids[i] in others then 1 else 0
  {
    assert PositionsIn(ids[..i + 1], others) == PositionsIn(ids[..i], others) + if ids[i] in others then {i} else {};
  }

  lemma OverlapMeansShared(ids: seq<string>, others: seq<string>)
    ensures OverlapOf(ids, others) > 0 <==> exists id :: id in ids && id in others
  {
    var shared := PositionsIn(ids, others);
    if id :| id in ids && id in others {
      var i :| 0 <= i < |ids| && ids[i] == id;
      assert i in shared;
    }
    if shared != {} {
      var i :| i in shared;
      assert ids[i] in ids;
    }
  }

  /** nodeOverlapRatio, which counts. */
  method NodeOverlap(a: Component, b: Component) returns (overlap: nat)
    ensures overlap == Overlap(a, b)
  {
    overlap := 0;
    for i := 0 to |a.nodeIds|
      invariant overlap == OverlapOf(a.nodeIds[..i], b.nodeIds)
    {
      hide OverlapOf;
      OverlapMore(a.nodeIds, b.nodeIds, i);
      if a.nodeIds[i] in b.nodeIds {
        overlap := overlap + 1;
      }
    }
    assert a.nodeIds[..|a.nodeIds|] == a.nodeIds;
  }

  ghost function Members(cs: seq<Component>): set<Component> { set c | c in cs }

  ghost predicate Shares(one: Component, c: Component) { exists id :: id in c.nodeIds && id in one.nodeIds }

  ghost function Sharing(one: Component, others: set<Component>): set<Component> { set c | c in others && Shares(one, c) }

  /** The members of `one` that the components in `many` account for. */
  ghost function Covered(one: Component, many: set<Component>): set<string> {
    set c, id | c in many && id in c.nodeIds && id in one.nodeIds :: id
  }

  const COVERAGE := 0.6

  /** The code's gate: at least two of `others` share a member with `one`, and together they account for
      six tenths of it. */
  ghost predicate Regroupable(one: Component, others: set<Component>) {
    one.nodeIds != [] && |Sharing(one, others)| >= 2 && 10 * |Covered(one, others)| >= 6 * |one.nodeIds|
  }

  /** Fewer components left to regroup with never open the gate. */
  lemma GateIsMonotone(one: Component, fewer: set<Component>, others: set<Component>)
    requires fewer <= others && Regroupable(one, fewer)
    ensures Regroupable(one, others)
  {
    SubsetCount(Sharing(one, fewer), Sharing(one, others));
    SubsetCount(Covered(one, fewer), Covered(one, others));
    hide Sharing, Covered;
  }

  ghost function Sources(gs: seq<Regroup>): set<Component> { set g | g in gs :: g.one }

  ghost function Parts(gs: seq<Regroup>): set<Component> { set g, c | g in gs && c in g.many :: c }

  /** The group at `i` passed the gate with what the groups before it left, and took everything there
      that shares a member with its source. */
  ghost predicate GroupedAt(others: set<Component>, groups: seq<Regroup>, i: nat)
    requires i < |groups|
  {
    var left := others - Parts(groups[..i]);
    Regroupable(groups[i].one, left) && Members(groups[i].many) == Sharing(groups[i].one, left)
  }

  /** A whole pass: every group is one the gate let through, and no component that stays could still be
      regrouped with what stays. */
  ghost predicate Passed(ones: set<Component>, others: set<Component>, groups: seq<Regroup>) {
    (forall i :: 0 <= i < |groups| ==> GroupedAt(others, groups, i))
    && forall c :: c in ones - Sources(groups) ==> !Regroupable(c, others - Parts(groups))
  }

  ghost function Ones(gs: seq<Regroup>): multiset<Component> {
    if gs == [] then multiset{} else Ones(gs[..|gs| - 1]) + multiset{gs[|gs| - 1].one}
  }

  ghost function Manys(gs: seq<Regroup>): multiset<Component> {
    if gs == [] then multiset{} else Manys(gs[..|gs| - 1]) + multiset(gs[|gs| - 1].many)
  }

  /** The candidates for one component: those sharing a member with it, and what they account for. */
  method Candidates(one: Component, others: seq<Component>) returns (many: seq<Component>, covered: set<string>)
    requires DistinctKeys(others)
    ensures IsPartOf(many, others) && Members(many) == Sharing(one, Members(others)) && covered == Covered(one, Members(others))
  {
    many, covered := [], {};
    for i := 0 to |others|
      invariant IsPartOf(many, others[..i]) && Members(many) == Sharing(one, Members(others[..i]))
      invariant covered == Covered(one, Members(others[..i]))
    {
      hide Covered, Sharing, Members, IsPartOf, DistinctKeys, OverlapOf;
      var c := others[i];
      OverlapMeansShared(one.nodeIds, c.nodeIds);
      LookedAt(one, others, i);
      var overlap := NodeOverlap(one, c);
      if |c.nodeIds| > 0 && overlap > 0 {
        NewKey(many, others, i);
        MembersMore(many, c);
        many, covered := many + [c], covered + set id | id in c.nodeIds && id in one.nodeIds;
      }
    }
    assert others[..|others|] == others;
  }

  lemma LookedAt(one: Component, others: seq<Component>, i: nat)
    requires i < |others|
    ensures Sharing(one, Members(others[..i + 1])) == Sharing(one, Members(others[..i])) + if Shares(one, others[i]) then {others[i]} else {}
    ensures Covered(one, Members(others[..i + 1])) == Covered(one, Members(others[..i])) + set id | id in others[i].nodeIds && id in one.nodeIds
    ensures !Shares(one, others[i]) ==> Covered(one, Members(others[..i + 1])) == Covered(one, Members(others[..i]))
  {
    assert others[..i + 1] == others[..i] + [others[i]];
    MembersMore(others[..i], others[i]);
  }

  lemma MembersMore(cs: seq<Component>, c: Component)
    ensures Members(cs + [c]) == Members(cs) + {c}
  {
  }

  lemma NewKey(many: seq<Component>, others: seq<Component>, i: nat)
    requires DistinctKeys(others) && i < |others| && IsPartOf(many, others[..i])
    ensures IsPartOf(many + [others[i]], others[..i + 1])
  {
    assert others[..i + 1] == others[..i] + [others[i]];
    forall j | 0 <= j < |many|
      ensures Key(many[j]) != Key(others[i])
    {
      assert many[j] in many && many[j] in others[..i];
    }
  }

  /** With distinct keys a list has as many members as entries. */
  lemma {:induction false} DistinctCount(cs: seq<Component>)
    requires DistinctKeys(cs)
    ensures |Members(cs)| == |cs|
  {
    if cs != [] {
      var rest, c := cs[..|cs| - 1], cs[|cs| - 1];
      assert cs == rest + [c] && c !in rest && DistinctKeys(rest);
      assert c !in Members(rest);
      MembersMore(rest, c);
      hide DistinctKeys, Members;
      DistinctCount(rest);
    }
  }

  lemma DropOne(pool: seq<Component>, i: nat)
    requires DistinctKeys(pool) && i < |pool|
    ensures Dropped(pool, [pool[i]]) == pool[..i] + pool[i + 1..]
  {
    var before, after := pool[..i], pool[i + 1..];
    assert pool == before + [pool[i]] + after;
    OneKey(pool[i]);
    assert forall c :: c in before || c in after ==> Key(c) != Key(pool[i]);
    assert Dropped([pool[i]], [pool[i]]) == [];
    hide KeysOf, Key, Dropped, DistinctKeys;
    DroppedConcat(before + [pool[i]], after, [pool[i]]);
    DroppedConcat(before, [pool[i]], [pool[i]]);
    NothingDropped(before, [pool[i]]);
    NothingDropped(after, [pool[i]]);
  }

  lemma {:induction false} DroppedConcat(a: seq<Component>, b: seq<Component>, drops: seq<Component>)
    ensures Dropped(a + b, drops) == Dropped(a, drops) + Dropped(b, drops)
  {
    if b == [] {
      assert a + b == a;
    } else {
      assert (a + b)[..|a + b| - 1] == a + b[..|b| - 1];
      DroppedConcat(a, b[..|b| - 1], drops);
      hide KeysOf, Key;
    }
  }

  lemma OneKey(c: Component)
    ensures KeysOf([c]) == {Key(c)}
  {
    assert [c][0] == c;
    hide Key;
  }

  lemma NothingDropped(pool: seq<Component>, drops: seq<Component>)
    requires forall c :: c in pool ==> Key(c) !in KeysOf(drops)
    ensures Dropped(pool, drops) == pool
  {
    if pool != [] {
      assert pool == pool[..|pool| - 1] + [pool[|pool| - 1]];
      NothingDropped(pool[..|pool| - 1], drops);
    }
  }

  lemma MembersLeft(pool: seq<Component>, drops: seq<Component>)
    requires DistinctKeys(pool) && IsPartOf(drops, pool)
    ensures Members(Dropped(pool, drops)) == Members(pool) - Members(drops)
  {
    DroppedElements(pool, drops);
    forall c | c in pool && Key(c) in KeysOf(drops)
      ensures c in drops
    {
      var d :| d in drops && Key(d) == Key(c);
      SameKeySame(pool, c, d);
    }
  }

  /** What a pass has taken from the two pools, and the groups it made of it. */
  ghost predicate Accounted(ones0: seq<Component>, others0: seq<Component>, ones: seq<Component>, others: seq<Component>, groups: seq<Regroup>) {
    DistinctKeys(ones) && DistinctKeys(others)
    && multiset(ones0) == multiset(ones) + Ones(groups) && multiset(others0) == multiset(others) + Manys(groups)
    && Members(ones) == Members(ones0) - Sources(groups) && Members(others) == Members(others0) - Parts(groups)
  }

  /** The state of one regrouping pass that has looked at the first `i` of `ones`. */
  ghost predicate Regrouping(ones0: seq<Component>, others0: seq<Component>, ones: seq<Component>, others: seq<Component>, groups: seq<Regroup>, i: nat) {
    Accounted(ones0, others0, ones, others, groups) && i <= |ones|
    && (forall j :: 0 <= j < |groups| ==> GroupedAt(Members(others0), groups, j))
    && (forall k :: 0 <= k < i ==> !Regroupable(ones[k], Members(others)))
  }

  lemma Shifted(all: multiset<Component>, rest: multiset<Component>, less: multiset<Component>, done: multiset<Component>, moved: multiset<Component>)
    requires all == rest + done && rest == less + moved
    ensures all == less + (done + moved)
  {
  }

  lemma AccountGroup(ones0: seq<Component>, others0: seq<Component>, ones: seq<Component>, others: seq<Component>, groups: seq<Regroup>, i: nat, many: seq<Component>)
    requires Accounted(ones0, others0, ones, others, groups) && i < |ones| && IsPartOf(many, others)
    ensures Accounted(ones0, others0, Dropped(ones, [ones[i]]), Dropped(others, many), groups + [Regroup(ones[i], many)])
  {
    var g := Regroup(ones[i], many);
    Single(ones, i);
    hide DistinctKeys, Dropped, Ones, Manys, IsPartOf, Members, Sources, Parts;
    TakeFrom(ones0, ones, [ones[i]], Ones(groups));
    TakeFrom(others0, others, many, Manys(groups));
    GroupsMore(groups, g);
  }

  lemma Single(cs: seq<Component>, i: nat)
    requires i < |cs|
    ensures IsPartOf([cs[i]], cs) && multiset([cs[i]]) == multiset{cs[i]} && Members([cs[i]]) == {cs[i]}
  {
  }

  lemma TakeFrom(pool0: seq<Component>, pool: seq<Component>, drops: seq<Component>, done: multiset<Component>)
    requires DistinctKeys(pool) && IsPartOf(drops, pool) && multiset(pool0) == multiset(pool) + done
    ensures DistinctKeys(Dropped(pool, drops)) && multiset(pool0) == multiset(Dropped(pool, drops)) + (done + multiset(drops))
    ensures Members(Dropped(pool, drops)) == Members(pool) - Members(drops)
  {
    hide *;
    PoolSplits(pool, drops);
    DroppedDistinct(pool, drops);
    MembersLeft(pool, drops);
    Shifted(multiset(pool0), multiset(pool), multiset(Dropped(pool, drops)), done, multiset(drops));
  }

  lemma GroupsMore(groups: seq<Regroup>, g: Regroup)
    ensures Ones(groups + [g]) == Ones(groups) + multiset{g.one} && Manys(groups + [g]) == Manys(groups) + multiset(g.many)
    ensures Sources(groups + [g]) == Sources(groups) + {g.one} && Parts(groups + [g]) == Parts(groups) + Members(g.many)
  {
    assert (groups + [g])[..|groups|] == groups;
    hide Ones, Manys;
    forall c
      ensures c in Parts(groups + [g]) <==> c in Parts(groups) || c in g.many
    {
      if c in g.many {
        assert g in groups + [g];
      }
    }
  }

  lemma GroupFits(others0: set<Component>, groups: seq<Regroup>, g: Regroup)
    requires forall j :: 0 <= j < |groups| ==> GroupedAt(others0, groups, j)
    requires Regroupable(g.one, others0 - Parts(groups)) && Members(g.many) == Sharing(g.one, others0 - Parts(groups))
    ensures forall j :: 0 <= j < |groups + [g]| ==> GroupedAt(others0, groups + [g], j)
  {
    hide Regroupable, Members, Sharing, Parts;
    forall j | 0 <= j < |groups + [g]|
      ensures GroupedAt(others0, groups + [g], j)
    {
      assert (groups + [g])[..j] == groups[..j] && groups[..|groups|] == groups;
      if j < |groups| {
        assert GroupedAt(others0, groups, j);
      }
    }
  }

  lemma RegroupMore(ones0: seq<Component>, others0: seq<Component>, ones: seq<Component>, others: seq<Component>, groups: seq<Regroup>, i: nat, many: seq<Component>)
    requires Regrouping(ones0, others0, ones, others, groups, i) && i < |ones| && IsPartOf(many, others)
    requires Regroupable(ones[i], Members(others)) && Members(many) == Sharing(ones[i], Members(others))
    ensures Regrouping(ones0, others0, Dropped(ones, [ones[i]]), Dropped(others, many), groups + [Regroup(ones[i], many)], i)
    ensures |Dropped(ones, [ones[i]])| == |ones| - 1
  {
    var g := Regroup(ones[i], many);
    DropOne(ones, i);
    MembersLeft(others, many);
    hide DistinctKeys, Dropped, Members, Sharing, Parts, IsPartOf, Regroupable, GroupedAt;
    AccountGroup(ones0, others0, ones, others, groups, i, many);
    assert Members(others) == Members(others0) - Parts(groups);
    hide Accounted;
    GroupFits(Members(others0), groups, g);
    forall k | 0 <= k < i
      ensures !Regroupable(Dropped(ones, [ones[i]])[k], Members(Dropped(others, many)))
    {
      if Regroupable(ones[k], Members(Dropped(others, many))) {
        GateIsMonotone(ones[k], Members(Dropped(others, many)), Members(others));
      }
    }
  }

  ghost function OnesOf(gs: seq<Regroup>): seq<Component> {
    if gs == [] then [] else OnesOf(gs[..|gs| - 1]) + [gs[|gs| - 1].one]
  }

  /** The pools stay in name order, and the groups are made in it. */
  ghost predicate PassOrder(ones: seq<Component>, others: seq<Component>, groups: seq<Regroup>, i: nat) {
    InOrder(ones) && InOrder(others) && InOrder(OnesOf(groups))
    && forall c, k :: c in OnesOf(groups) && i <= k < |ones| ==> !Less(ones[k].name, c.name)
  }

  lemma OrderKept(ones: seq<Component>, others: seq<Component>, groups: seq<Regroup>, i: nat, many: seq<Component>)
    requires PassOrder(ones, others, groups, i) && i < |ones| && DistinctKeys(ones)
    ensures PassOrder(Dropped(ones, [ones[i]]), Dropped(others, many), groups + [Regroup(ones[i], many)], i)
  {
    OnesMore(groups, Regroup(ones[i], many));
    DropOne(ones, i);
    DroppedInOrder(ones, [ones[i]]);
    DroppedInOrder(others, many);
    OneMoreInOrder(OnesOf(groups), ones, i);
    hide Less, OnesOf, Dropped, DistinctKeys, InOrder;
    assert forall k :: i <= k < |ones| - 1 ==> Dropped(ones, [ones[i]])[k] == ones[k + 1];
  }

  lemma OneMoreInOrder(done: seq<Component>, ones: seq<Component>, i: nat)
    requires InOrder(done) && InOrder(ones) && i < |ones| && forall c, k :: c in done && i <= k < |ones| ==> !Less(ones[k].name, c.name)
    ensures InOrder(done + [ones[i]])
    ensures forall c, k :: c in done + [ones[i]] && i < k < |ones| ==> !Less(ones[k].name, c.name)
  {
    hide Less;
    forall j | 0 <= j < |done|
      ensures !Less(ones[i].name, done[j].name)
    {
      assert done[j] in done;
    }
  }

  lemma OnesMore(groups: seq<Regroup>, g: Regroup)
    ensures OnesOf(groups + [g]) == OnesOf(groups) + [g.one]
  {
    assert (groups + [g])[..|groups|] == groups;
  }

  method RemoveBoth(onesPool: array<Component>, n: nat, othersPool: array<Component>, m: nat, one: Component, many: seq<Component>) returns (n': nat, m': nat)
    requires onesPool != othersPool && n <= onesPool.Length && m <= othersPool.Length
    modifies onesPool, othersPool
    ensures n' <= n && m' <= m
    ensures onesPool[..n'] == Dropped(old(onesPool[..n]), [one]) && othersPool[..m'] == Dropped(old(othersPool[..m]), many)
  {
    hide Dropped;
    ghost var others := othersPool[..m];
    n' := RemoveComponents(onesPool, n, [one]);
    assert othersPool[..m] == others;
    m' := RemoveComponents(othersPool, m, many);
  }

  /** The loop over a working pool that both split and merge detection run, with the two pools in
      swapped roles: the pool shrinks under the index, and every component leaves it at most once. Both
      pools are compacted in place. */
  method RegroupPass(onesPool: array<Component>, n0: nat, othersPool: array<Component>, m0: nat) returns (n: nat, m: nat, groups: seq<Regroup>)
    requires onesPool != othersPool && n0 <= onesPool.Length && m0 <= othersPool.Length
    requires DistinctKeys(onesPool[..n0]) && DistinctKeys(othersPool[..m0]) && InOrder(onesPool[..n0]) && InOrder(othersPool[..m0])
    modifies onesPool, othersPool
    ensures n <= n0 && m <= m0 && Accounted(old(onesPool[..n0]), old(othersPool[..m0]), onesPool[..n], othersPool[..m], groups)
    ensures Passed(Members(old(onesPool[..n0])), Members(old(othersPool[..m0])), groups)
    ensures InOrder(onesPool[..n]) && InOrder(othersPool[..m]) && InOrder(OnesOf(groups))
  {
    hide *;
    ghost var ones0, others0 := onesPool[..n0], othersPool[..m0];
    StartPass(ones0, others0);
    n, m, groups := n0, m0, [];
    var i := 0;
    while i < n
      invariant n <= n0 && m <= m0 && i <= n
      invariant Regrouping(ones0, others0, onesPool[..n], othersPool[..m], groups, i) && PassOrder(onesPool[..n], othersPool[..m], groups, i)
      decreases n - i
    {
      ghost var ones, others := onesPool[..n], othersPool[..m];
      PoolsDistinct(ones0, others0, ones, others, groups, i);
      var one := onesPool[i];
      if |one.nodeIds| == 0 {
        LookedPast(ones0, others0, ones, others, groups, i);
        i := i + 1;
      } else {
        var many, covered := Candidates(one, othersPool[..m]);
        CandidateCount(many, others);
        GateIs(one, many, covered, others);
        if |many| >= 2 && |covered| as real / |one.nodeIds| as real >= COVERAGE {
          RegroupMore(ones0, others0, ones, others, groups, i, many);
          OrderKept(ones, others, groups, i, many);
          DropOne(ones, i);
          groups := groups + [Regroup(one, many)];
          n, m := RemoveBoth(onesPool, n, othersPool, m, one, many);
        } else {
          LookedPast(ones0, others0, ones, others, groups, i);
          i := i + 1;
        }
      }
    }
    EndPass(ones0, others0, onesPool[..n], othersPool[..m], groups, i);
  }

  lemma StartPass(ones: seq<Component>, others: seq<Component>)
    requires DistinctKeys(ones) && DistinctKeys(others) && InOrder(ones) && InOrder(others)
    ensures Regrouping(ones, others, ones, others, [], 0) && PassOrder(ones, others, [], 0)
  {
  }

  lemma PoolsDistinct(ones0: seq<Component>, others0: seq<Component>, ones: seq<Component>, others: seq<Component>, groups: seq<Regroup>, i: nat)
    requires Regrouping(ones0, others0, ones, others, groups, i)
    ensures DistinctKeys(ones) && DistinctKeys(others)
  {
    hide DistinctKeys;
  }

  lemma GateIs(one: Component, many: seq<Component>, covered: set<string>, others: seq<Component>)
    requires |one.nodeIds| > 0
    requires Members(many) == Sharing(one, Members(others)) && |Members(many)| == |many| && covered == Covered(one, Members(others))
    ensures Regroupable(one, Members(others)) <==> |many| >= 2 && |covered| as real / |one.nodeIds| as real >= COVERAGE
  {
    hide Members, Sharing, Covered;
    SixTenths(|covered|, |one.nodeIds|);
  }

  lemma AtLeast(part: real, whole: real, bar: real)
    requires whole > 0.0
    ensures part / whole >= bar <==> part >= bar * whole
  {
    var ratio := part / whole;
    assert ratio * whole == part;
    assert (ratio - bar) * whole == part - bar * whole;
  }

  lemma SixTenths(part: nat, whole: nat)
    requires whole > 0
    ensures part as real / whole as real >= COVERAGE <==> 10 * part >= 6 * whole
  {
    AtLeast(part as real, whole as real, COVERAGE);
    assert (10 * part) as real == 10.0 * part as real && (6 * whole) as real == 6.0 * whole as real;
  }

  lemma LookedPast(ones0: seq<Component>, others0: seq<Component>, ones: seq<Component>, others: seq<Component>, groups: seq<Regroup>, i: nat)
    requires Regrouping(ones0, others0, ones, others, groups, i) && PassOrder(ones, others, groups, i)
    requires i < |ones| && (ones[i].nodeIds == [] || !Regroupable(ones[i], Members(others)))
    ensures Regrouping(ones0, others0, ones, others, groups, i + 1) && PassOrder(ones, others, groups, i + 1)
  {
    assert !Regroupable(ones[i], Members(others));
    hide Accounted, GroupedAt, Regroupable, Members, InOrder, OnesOf, Less;
  }

  lemma EndPass(ones0: seq<Component>, others0: seq<Component>, ones: seq<Component>, others: seq<Component>, groups: seq<Regroup>, i: nat)
    requires Regrouping(ones0, others0, ones, others, groups, i) && PassOrder(ones, others, groups, i) && i >= |ones|
    ensures Accounted(ones0, others0, ones, others, groups) && Passed(Members(ones0), Members(others0), groups)
    ensures InOrder(ones) && InOrder(others) && InOrder(OnesOf(groups))
  {
    hide GroupedAt, Regroupable, InOrder, OnesOf, Less;
  }

  lemma CandidateCount(many: seq<Component>, others: seq<Component>)
    requires IsPartOf(many, others)
    ensures |Members(many)| == |many|
  {
    DistinctCount(many);
  }

  /* ---- renames ---- */

  const RENAME_THRESHOLD := 0.5

  ghost function Larger(a: nat, b: nat): nat { if a > b then a else b }

  /** The better of name similarity and shared membership. */
  ghost function Score(similarity: (string, string) -> real, a: Component, b: Component): real {
    var overlapRatio := if |a.nodeIds| > 0 && |b.nodeIds| > 0 then Overlap(a, b) as real / Larger(|a.nodeIds|, |b.nodeIds|) as real else 0.0;
    var ns := similarity(a.name, b.name);
    if overlapRatio > ns then overlapRatio else ns
  }

  /** renameScore. */
  method RenameScore(similarity: (string, string) -> real, a: Component, b: Component) returns (score: real, overlap: nat)
    ensures score == Score(similarity, a, b) && overlap == Overlap(a, b)
  {
    hide Overlap;
    overlap := NodeOverlap(a, b);
    var overlapRatio := 0.0;
    if |a.nodeIds| > 0 && |b.nodeIds| > 0 {
      var maxLen := |a.nodeIds|;
      if |b.nodeIds| > maxLen {
        maxLen := |b.nodeIds|;
      }
      overlapRatio := overlap as real / maxLen as real;
    }
    score := similarity(a.name, b.name);
    if overlapRatio > score {
      score := overlapRatio;
    }
  }

  /** Two components are close if their names are half similar or they share half of the larger one. */
  ghost predicate Close(similarity: (string, string) -> real, a: Component, b: Component) {
    2.0 * similarity(a.name, b.name) >= 1.0
    || (a.nodeIds != [] && b.nodeIds != [] && 2 * Overlap(a, b) >= |a.nodeIds| && 2 * Overlap(a, b) >= |b.nodeIds|)
  }

  lemma Half(part: nat, whole: nat)
    requires whole > 0
    ensures part as real / whole as real >= 0.5 <==> 2 * part >= whole
  {
    AtLeast(part as real, whole as real, 0.5);
    assert (2 * part) as real == 2.0 * part as real;
  }

  /** The threshold asks for exactly that. */
  lemma CloseEnough(similarity: (string, string) -> real, a: Component, b: Component)
    ensures Score(similarity, a, b) >= RENAME_THRESHOLD <==> Close(similarity, a, b)
  {
    hide Overlap;
    if |a.nodeIds| > 0 && |b.nodeIds| > 0 {
      Half(Overlap(a, b), Larger(|a.nodeIds|, |b.nodeIds|));
    }
  }

  /** A score is no less than either measure and equals one of them; components without members share
      nothing. */
  lemma ScoreIsTheBetter(similarity: (string, string) -> real, a: Component, b: Component)
    ensures Score(similarity, a, b) >= similarity(a.name, b.name)
    ensures a.nodeIds != [] && b.nodeIds != [] ==>
              var s, most := Score(similarity, a, b), (if |a.nodeIds| > |b.nodeIds| then |a.nodeIds| else |b.nodeIds|) as real;
              s * most >= Overlap(a, b) as real && (s == similarity(a.name, b.name) || s * most == Overlap(a, b) as real)
    ensures a.nodeIds == [] || b.nodeIds == [] ==>
              Score(similarity, a, b) >= 0.0 && (Score(similarity, a, b) == similarity(a.name, b.name) || Score(similarity, a, b) == 0.0)
  {
    hide Overlap;
    var most := Larger(|a.nodeIds|, |b.nodeIds|) as real;
    if |a.nodeIds| > 0 && |b.nodeIds| > 0 {
      var ratio := Overlap(a, b) as real / most;
      assert ratio * most == Overlap(a, b) as real;
      assert (Score(similarity, a, b) - ratio) * most >= 0.0;
    }
  }

  /** `ri` is a removed component that nobody of `used` took, with the best score for `a`; among equal
      scores the smallest name wins. It is -1 exactly when every score is below the threshold. */
  ghost predicate IsBest(similarity: (string, string) -> real, removed: seq<Component>, used: set<int>, a: Component, ri: int) {
    if ri == -1 then forall r :: 0 <= r < |removed| && r !in used ==> Score(similarity, removed[r], a) < RENAME_THRESHOLD
    else
      0 <= ri < |removed| && ri !in used && Score(similarity, removed[ri], a) >= RENAME_THRESHOLD
      && forall r :: 0 <= r < |removed| && r !in used ==> NoBetter(similarity, removed[r], removed[ri], a)
  }

  ghost predicate NoBetter(similarity: (string, string) -> real, r: Component, best: Component, a: Component) {
    Score(similarity, r, a) < Score(similarity, best, a) || (Score(similarity, r, a) == Score(similarity, best, a) && !Less(r.name, best.name))
  }

  /** The inner loop: the best unmatched removed component for one added component. */
  method BestMatch(similarity: (string, string) -> real, removed: seq<Component>, used: set<int>, a: Component) returns (bestRi: int, bestScore: real, bestOverlap: nat)
    ensures IsBest(similarity, removed, used, a, bestRi)
    ensures bestRi >= 0 ==> bestScore == Score(similarity, removed[bestRi], a) && bestOverlap == Overlap(removed[bestRi], a)
  {
    hide Less, Score, Overlap;
    LessIsTotalOrder();
    bestRi, bestScore, bestOverlap := -1, RENAME_THRESHOLD, 0;
    for ri := 0 to |removed|
      invariant if bestRi == -1 then bestScore == RENAME_THRESHOLD && forall r :: 0 <= r < ri && r !in used ==> Score(similarity, removed[r], a) < RENAME_THRESHOLD
                else 0 <= bestRi < ri && bestRi !in used && bestScore == Score(similarity, removed[bestRi], a) >= RENAME_THRESHOLD
                     && bestOverlap == Overlap(removed[bestRi], a)
                     && forall r :: 0 <= r < ri && r !in used ==> NoBetter(similarity, removed[r], removed[bestRi], a)
    {
      if ri !in used {
        var score, overlap := RenameScore(similarity, removed[ri], a);
        if score >= bestScore && score >= RENAME_THRESHOLD {
          if !(score == bestScore && bestRi >= 0 && !Less(removed[ri].name, removed[bestRi].name)) {
            bestRi, bestScore, bestOverlap := ri, score, overlap;
          }
        }
      }
    }
  }

  /** The components at the positions that were not matched. */
  ghost function Remaining(pool: seq<Component>, matched: set<int>): seq<Component> {
    if pool == [] then []
    else
      var rest := Remaining(pool[..|pool| - 1], matched);
      if |pool| - 1 in matched then rest else rest + [pool[|pool| - 1]]
  }

  lemma RemainingSame(pool: seq<Component>, matched: set<int>, k: int)
    requires k < 0 || k >= |pool|
    ensures Remaining(pool, matched + {k}) == Remaining(pool, matched)
  {
    if pool != [] {
      RemainingSame(pool[..|pool| - 1], matched, k);
    }
  }

  lemma RemainingStep(pool: seq<Component>, matched: set<int>)
    requires pool != []
    ensures var n := |pool| - 1;
            multiset(Remaining(pool, matched)) == multiset(Remaining(pool[..n], matched)) + if n in matched then multiset{} else multiset{pool[n]}
  {
  }

  lemma {:induction false} RemainingLess(pool: seq<Component>, matched: set<int>, k: int)
    requires 0 <= k < |pool| && k !in matched
    ensures multiset(Remaining(pool, matched)) == multiset(Remaining(pool, matched + {k})) + multiset{pool[k]}
  {
    hide Remaining;
    var n := |pool| - 1;
    RemainingStep(pool, matched);
    RemainingStep(pool, matched + {k});
    if k < n {
      RemainingLess(pool[..n], matched, k);
    } else {
      RemainingSame(pool[..n], matched, k);
    }
  }

  lemma RemainingAll(pool: seq<Component>)
    ensures Remaining(pool, {}) == pool
  {
    if pool != [] {
      RemainingAll(pool[..|pool| - 1]);
    }
  }

  ghost function Befores(rs: seq<Rename>): multiset<Component> {
    if rs == [] then multiset{} else Befores(rs[..|rs| - 1]) + multiset{rs[|rs| - 1].before}
  }

  ghost function Afters(rs: seq<Rename>): multiset<Component> {
    if rs == [] then multiset{} else Afters(rs[..|rs| - 1]) + multiset{rs[|rs| - 1].after}
  }

  /** remainingComponents. */
  method RemainingComponents(pool: seq<Component>, matched: set<int>) returns (out: seq<Component>)
    ensures out == Remaining(pool, matched)
  {
    out := [];
    for i := 0 to |pool|
      invariant out == Remaining(pool[..i], matched)
    {
      assert pool[..i + 1][..i] == pool[..i];
      if i !in matched {
        out := out + [pool[i]];
      }
    }
    assert pool[..|pool|] == pool;
  }

  /** The components at the positions that were matched. */
  ghost function Matched(pool: seq<Component>, matched: set<int>): seq<Component> {
    if pool == [] then []
    else
      var rest := Matched(pool[..|pool| - 1], matched);
      if |pool| - 1 in matched then rest + [pool[|pool| - 1]] else rest
  }

  lemma MatchedSame(pool: seq<Component>, matched: set<int>, k: int)
    requires k >= |pool|
    ensures Matched(pool, matched + {k}) == Matched(pool, matched)
  {
    if pool != [] {
      MatchedSame(pool[..|pool| - 1], matched, k);
    }
  }

  lemma MatchedInOrder(pool: seq<Component>, matched: set<int>)
    requires InOrder(pool)
    ensures InOrder(Matched(pool, matched)) && forall c :: c in Matched(pool, matched) ==> c in pool
  {
    hide Less;
    if pool != [] {
      var rest := pool[..|pool| - 1];
      assert pool == rest + [pool[|pool| - 1]];
      MatchedInOrder(rest, matched);
      EndInOrder(rest, Matched(rest, matched), pool[|pool| - 1]);
      assert Matched(pool, matched) == if |pool| - 1 in matched then Matched(rest, matched) + [pool[|pool| - 1]] else Matched(rest, matched);
      hide Matched, InOrder;
    }
  }

  ghost function AftersOf(rs: seq<Rename>): seq<Component> {
    if rs == [] then [] else AftersOf(rs[..|rs| - 1]) + [rs[|rs| - 1].after]
  }

  /** A rename carries its own score, which reaches the threshold, and its own overlap. */
  ghost predicate IsScored(similarity: (string, string) -> real, n: Rename) {
    n.similarity == Score(similarity, n.before, n.after) >= RENAME_THRESHOLD && n.overlap == Overlap(n.before, n.after)
  }

  /** Greedy: no component matched later would have served an earlier rename better. */
  ghost predicate BestFirst(similarity: (string, string) -> real, renames: seq<Rename>) {
    (forall n :: n in renames ==> IsScored(similarity, n))
    && forall i, j :: 0 <= i < j < |renames| ==> NoBetter(similarity, renames[j].before, renames[i].before, renames[i].after)
  }

  ghost predicate IsFree(pool: seq<Component>, used: set<int>, r: int) { 0 <= r < |pool| && r !in used }

  /** No component left over would have served a rename better. */
  ghost predicate NoneBetter(similarity: (string, string) -> real, removed: seq<Component>, used: set<int>, renames: seq<Rename>) {
    forall r, n :: IsFree(removed, used, r) && n in renames ==> NoBetter(similarity, removed[r], n.before, n.after)
  }

  /** Of the first `n` added components, those left over reach the threshold with nothing left over. */
  ghost predicate NoneClose(similarity: (string, string) -> real, removed: seq<Component>, usedRemoved: set<int>,
                            added: seq<Component>, usedAdded: set<int>, n: nat) {
    n <= |added| && forall r, a :: IsFree(removed, usedRemoved, r) && IsFree(added[..n], usedAdded, a) ==> Score(similarity, removed[r], added[a]) < RENAME_THRESHOLD
  }

  /** The rename recorded for the added component at position `ai`. */
  ghost function RenameOf(similarity: (string, string) -> real, removed: seq<Component>, added: seq<Component>, ri: nat, ai: nat): Rename
    requires ri < |removed| && ai < |added|
  {
    Rename(removed[ri], added[ai], Score(similarity, removed[ri], added[ai]), Overlap(removed[ri], added[ai]))
  }

  /** `pool` is what remains of it plus `done`. */
  ghost predicate AccountedFor(pool: seq<Component>, used: set<int>, done: multiset<Component>) {
    multiset(pool) == multiset(Remaining(pool, used)) + done
  }

  lemma AccountedMore(pool: seq<Component>, used: set<int>, done: multiset<Component>, k: int)
    requires AccountedFor(pool, used, done) && 0 <= k < |pool| && k !in used
    ensures AccountedFor(pool, used + {k}, done + multiset{pool[k]})
  {
    RemainingLess(pool, used, k);
    hide Remaining;
    Shifted(multiset(pool), multiset(Remaining(pool, used)), multiset(Remaining(pool, used + {k})), done, multiset{pool[k]});
  }

  /** Both sides are accounted for, and the renames follow the order of the first `n` added components. */
  ghost predicate Paired(removed: seq<Component>, added: seq<Component>, usedRemoved: set<int>, usedAdded: set<int>, renames: seq<Rename>, n: nat) {
    AccountedFor(removed, usedRemoved, Befores(renames)) && AccountedFor(added, usedAdded, Afters(renames))
    && n <= |added| && (forall a :: a in usedAdded ==> 0 <= a < n) && AftersOf(renames) == Matched(added[..n], usedAdded)
  }

  /** The state of the rename loop that has looked at the first `n` added components. */
  ghost predicate Renaming(similarity: (string, string) -> real, removed: seq<Component>, added: seq<Component>,
                           usedRemoved: set<int>, usedAdded: set<int>, renames: seq<Rename>, n: nat) {
    Paired(removed, added, usedRemoved, usedAdded, renames, n) && BestFirst(similarity, renames)
    && NoneBetter(similarity, removed, usedRemoved, renames) && NoneClose(similarity, removed, usedRemoved, added, usedAdded, n)
  }

  lemma BestInRange(similarity: (string, string) -> real, removed: seq<Component>, used: set<int>, a: Component, c: int)
    requires IsBest(similarity, removed, used, a, c)
    ensures c == -1 || (0 <= c < |removed| && c !in used)
  {
  }

  lemma RenamesMore(rs: seq<Rename>, r: Rename)
    ensures Befores(rs + [r]) == Befores(rs) + multiset{r.before} && Afters(rs + [r]) == Afters(rs) + multiset{r.after}
    ensures AftersOf(rs + [r]) == AftersOf(rs) + [r.after]
  {
    assert (rs + [r])[..|rs|] == rs;
  }

  lemma PairMore(similarity: (string, string) -> real, removed: seq<Component>, added: seq<Component>,
                 usedRemoved: set<int>, usedAdded: set<int>, renames: seq<Rename>, n: nat, ri: int)
    requires Paired(removed, added, usedRemoved, usedAdded, renames, n) && n < |added| && IsFree(removed, usedRemoved, ri)
    ensures Paired(removed, added, usedRemoved + {ri}, usedAdded + {n}, renames + [RenameOf(similarity, removed, added, ri, n)], n + 1)
  {
    assert n !in usedAdded && added[..n + 1][..n] == added[..n];
    MatchedSame(added[..n], usedAdded, n);
    assert Matched(added[..n + 1], usedAdded + {n}) == Matched(added[..n], usedAdded) + [added[n]];
    hide AccountedFor, Befores, Afters, AftersOf, Score, Overlap, Matched;
    AccountedMore(removed, usedRemoved, Befores(renames), ri);
    AccountedMore(added, usedAdded, Afters(renames), n);
    RenamesMore(renames, RenameOf(similarity, removed, added, ri, n));
  }

  lemma PairSkips(removed: seq<Component>, added: seq<Component>, usedRemoved: set<int>, usedAdded: set<int>, renames: seq<Rename>, n: nat)
    requires Paired(removed, added, usedRemoved, usedAdded, renames, n) && n < |added|
    ensures Paired(removed, added, usedRemoved, usedAdded, renames, n + 1)
  {
    assert added[..n + 1][..n] == added[..n] && n !in usedAdded;
    assert Matched(added[..n + 1], usedAdded) == Matched(added[..n], usedAdded);
    hide AccountedFor, Befores, Afters, AftersOf, Matched;
  }

  /** If nothing is best, nothing left over is close. */
  lemma NothingClose(similarity: (string, string) -> real, removed: seq<Component>, used: set<int>, a: Component)
    requires IsBest(similarity, removed, used, a, -1)
    ensures forall r :: IsFree(removed, used, r) ==> Score(similarity, removed[r], a) < RENAME_THRESHOLD
  {
    hide Score;
  }

  lemma CloseSkips(similarity: (string, string) -> real, removed: seq<Component>, usedRemoved: set<int>, added: seq<Component>, usedAdded: set<int>, n: nat)
    requires NoneClose(similarity, removed, usedRemoved, added, usedAdded, n) && n < |added|
    requires forall r :: IsFree(removed, usedRemoved, r) ==> Score(similarity, removed[r], added[n]) < RENAME_THRESHOLD
    ensures NoneClose(similarity, removed, usedRemoved, added, usedAdded, n + 1)
  {
    hide Score;
    forall r, a | IsFree(removed, usedRemoved, r) && IsFree(added[..n + 1], usedAdded, a)
      ensures Score(similarity, removed[r], added[a]) < RENAME_THRESHOLD
    {
      if a < n {
        assert IsFree(added[..n], usedAdded, a);
      }
    }
  }

  lemma CloseTakes(similarity: (string, string) -> real, removed: seq<Component>, usedRemoved: set<int>, added: seq<Component>, usedAdded: set<int>, n: nat, ri: int)
    requires NoneClose(similarity, removed, usedRemoved, added, usedAdded, n) && n < |added|
    ensures NoneClose(similarity, removed, usedRemoved + {ri}, added, usedAdded + {n}, n + 1)
  {
    hide Score;
    forall r, a | IsFree(removed, usedRemoved + {ri}, r) && IsFree(added[..n + 1], usedAdded + {n}, a)
      ensures Score(similarity, removed[r], added[a]) < RENAME_THRESHOLD
    {
      assert IsFree(removed, usedRemoved, r) && IsFree(added[..n], usedAdded, a);
    }
  }

  lemma RenamingSkips(similarity: (string, string) -> real, removed: seq<Component>, added: seq<Component>,
                      usedRemoved: set<int>, usedAdded: set<int>, renames: seq<Rename>, n: nat)
    requires Renaming(similarity, removed, added, usedRemoved, usedAdded, renames, n) && n < |added|
    requires IsBest(similarity, removed, usedRemoved, added[n], -1)
    ensures Renaming(similarity, removed, added, usedRemoved, usedAdded, renames, n + 1)
  {
    hide Paired, BestFirst, NoneBetter, NoneClose, IsBest, IsFree, Score;
    PairSkips(removed, added, usedRemoved, usedAdded, renames, n);
    NothingClose(similarity, removed, usedRemoved, added[n]);
    CloseSkips(similarity, removed, usedRemoved, added, usedAdded, n);
  }

  /** The best choice is free, is scored, and is better than what stays free. */
  lemma BestIsFree(similarity: (string, string) -> real, removed: seq<Component>, added: seq<Component>, used: set<int>, n: nat, ri: nat)
    requires n < |added| && IsBest(similarity, removed, used, added[n], ri)
    ensures IsFree(removed, used, ri) && IsScored(similarity, RenameOf(similarity, removed, added, ri, n))
    ensures forall r :: IsFree(removed, used, r) ==> NoBetter(similarity, removed[r], removed[ri], added[n])
  {
    hide Score, Overlap;
  }

  lemma RenamingTakes(similarity: (string, string) -> real, removed: seq<Component>, added: seq<Component>,
                      usedRemoved: set<int>, usedAdded: set<int>, renames: seq<Rename>, n: nat, ri: nat)
    requires Renaming(similarity, removed, added, usedRemoved, usedAdded, renames, n) && n < |added|
    requires IsBest(similarity, removed, usedRemoved, added[n], ri)
    ensures IsFree(removed, usedRemoved, ri)
    ensures Renaming(similarity, removed, added, usedRemoved + {ri}, usedAdded + {n}, renames + [RenameOf(similarity, removed, added, ri, n)], n + 1)
  {
    hide Paired, BestFirst, NoneBetter, NoneClose, IsBest, Score, Overlap, NoBetter, IsScored;
    BestIsFree(similarity, removed, added, usedRemoved, n, ri);
    PairMore(similarity, removed, added, usedRemoved, usedAdded, renames, n, ri);
    TakesBest(similarity, removed, usedRemoved, renames, RenameOf(similarity, removed, added, ri, n), ri);
    CloseTakes(similarity, removed, usedRemoved, added, usedAdded, n, ri);
  }

  lemma TakesBest(similarity: (string, string) -> real, removed: seq<Component>, used: set<int>, renames: seq<Rename>, rename: Rename, ri: int)
    requires BestFirst(similarity, renames) && NoneBetter(similarity, removed, used, renames)
    requires IsFree(removed, used, ri) && IsScored(similarity, rename) && rename.before == removed[ri]
    requires forall r :: IsFree(removed, used, r) ==> NoBetter(similarity, removed[r], rename.before, rename.after)
    ensures BestFirst(similarity, renames + [rename]) && NoneBetter(similarity, removed, used + {ri}, renames + [rename])
  {
    hide IsScored, NoBetter;
    forall r, m | IsFree(removed, used + {ri}, r) && m in renames + [rename]
      ensures NoBetter(similarity, removed[r], m.before, m.after)
    {
      assert IsFree(removed, used, r);
    }
    forall i, j | 0 <= i < j < |renames + [rename]|
      ensures NoBetter(similarity, (renames + [rename])[j].before, (renames + [rename])[i].before, (renames + [rename])[i].after)
    {
      assert renames[i] in renames;
    }
  }

  lemma StartRenaming(similarity: (string, string) -> real, removed: seq<Component>, added: seq<Component>)
    ensures Renaming(similarity, removed, added, {}, {}, [], 0)
  {
    RemainingAll(removed);
    RemainingAll(added);
  }

  lemma RenameIs(similarity: (string, string) -> real, removed: seq<Component>, added: seq<Component>, ri: nat, ai: nat)
    requires ri < |removed| && ai < |added|
    ensures RenameOf(similarity, removed, added, ri, ai)
            == Rename(removed[ri], added[ai], Score(similarity, removed[ri], added[ai]), Overlap(removed[ri], added[ai]))
  {
  }

  /** The greedy rename loop. */
  method MatchRenames(similarity: (string, string) -> real, removed: seq<Component>, added: seq<Component>)
      returns (matchedRemoved: set<int>, matchedAdded: set<int>, renames: seq<Rename>)
    ensures Renaming(similarity, removed, added, matchedRemoved, matchedAdded, renames, |added|)
  {
    matchedRemoved, matchedAdded, renames := {}, {}, [];
    StartRenaming(similarity, removed, added);
    hide *;
    for ai := 0 to |added|
      invariant Renaming(similarity, removed, added, matchedRemoved, matchedAdded, renames, ai)
    {
      var bestRi, bestScore, bestOverlap := BestMatch(similarity, removed, matchedRemoved, added[ai]);
      BestInRange(similarity, removed, matchedRemoved, added[ai], bestRi);
      if bestRi == -1 {
        RenamingSkips(similarity, removed, added, matchedRemoved, matchedAdded, renames, ai);
      } else {
        RenamingTakes(similarity, removed, added, matchedRemoved, matchedAdded, renames, ai, bestRi);
        RenameIs(similarity, removed, added, bestRi, ai);
        renames := renames + [Rename(removed[bestRi], added[ai], bestScore, bestOverlap)];
        matchedRemoved, matchedAdded := matchedRemoved + {bestRi}, matchedAdded + {ai};
      }
    }
  }

  /* ---- the whole diff ---- */

  /** The components of `some` whose key `others` does not have. */
  ghost function OnlyIn(some: seq<Component>, others: seq<Component>): seq<Component> {
    if some == [] then []
    else
      var rest, c := OnlyIn(some[..|some| - 1], others), some[|some| - 1];
      if exists o :: o in others && Key(o) == Key(c) then rest else rest + [c]
  }

  /** The loops that compare the keys of the two snapshots. */
  method FindOnlyIn(some: seq<Component>, others: seq<Component>) returns (only: seq<Component>)
    ensures only == OnlyIn(some, others)
  {
    var keys := set o | o in others :: Key(o);
    only := [];
    for i := 0 to |some|
      invariant only == OnlyIn(some[..i], others)
    {
      assert some[..i + 1][..i] == some[..i];
      if Key(some[i]) !in keys {
        only := only + [some[i]];
      }
    }
    assert some[..|some|] == some;
  }

  /** A component is on one side only when the other has none of its ID; one without an ID goes by its
      name. */
  lemma OnlyInFields(some: seq<Component>, others: seq<Component>, c: Component)
    ensures c in OnlyIn(some, others) <==>
              c in some && forall o :: o in others ==>
                if c.id == "" then (if o.id == "" then o.name != c.name else o.id != c.name) else if o.id == "" then o.name != c.id else o.id != c.id
  {
    OnlyInElements(some, others);
  }

  lemma OnlyInElements(some: seq<Component>, others: seq<Component>)
    ensures forall c :: c in OnlyIn(some, others) <==> c in some && Key(c) !in KeysOf(others)
  {
    if some != [] {
      OnlyInElements(some[..|some| - 1], others);
      assert some == some[..|some| - 1] + [some[|some| - 1]];
    }
  }

  lemma OnlyInDistinct(some: seq<Component>, others: seq<Component>)
    requires DistinctKeys(some)
    ensures DistinctKeys(OnlyIn(some, others))
  {
    if some != [] {
      var rest := some[..|some| - 1];
      OnlyInDistinct(rest, others);
      OnlyInElements(rest, others);
      forall i | 0 <= i < |OnlyIn(rest, others)|
        ensures Key(OnlyIn(rest, others)[i]) != Key(some[|some| - 1])
      {
        assert OnlyIn(rest, others)[i] in rest;
      }
    }
  }

  lemma PermutedDistinct(a: seq<Component>, b: seq<Component>)
    requires DistinctKeys(a) && multiset(a) == multiset(b)
    ensures DistinctKeys(b)
  {
    forall i, j | 0 <= i < j < |b|
      ensures Key(b[i]) != Key(b[j])
    {
      assert b[i] in multiset(b) && b[j] in multiset(b);
      assert b[i] in a && b[j] in a;
      hide DistinctKeys;
      OccursOnce(a, b[i]);
      if Key(b[i]) == Key(b[j]) {
        SameKeySame(a, b[i], b[j]);
        OccursTwice(b, i, j);
        assert false;
      }
    }
  }

  /** What Diff makes of the components only one snapshot has. */
  datatype Reconciled = Reconciled(splits: seq<Regroup>, merges: seq<Regroup>, renames: seq<Rename>,
                                   addedComponents: seq<Component>, removedComponents: seq<Component>)

  /** The renames are greedy, and nothing left over on the two sides would still be a rename. */
  ghost predicate RenamesDone(similarity: (string, string) -> real, r: Reconciled) {
    BestFirst(similarity, r.renames)
    && (forall n :: n in r.renames ==> Close(similarity, n.before, n.after))
    && (forall c, n :: c in r.removedComponents && n in r.renames ==> NoBetter(similarity, c, n.before, n.after))
    && (forall c, a :: c in r.removedComponents && a in r.addedComponents ==> !Close(similarity, c, a))
  }

  /** Every added component is accounted for exactly once, as a raw addition, a split target, a merge
      target or the new side of a rename, and every removed one exactly once as a raw removal, a split
      source, a merge source or the old side of a rename. */
  ghost predicate AllAccounted(removed: seq<Component>, added: seq<Component>, r: Reconciled) {
    multiset(added) == multiset(r.addedComponents) + Manys(r.splits) + Ones(r.merges) + Afters(r.renames)
    && multiset(removed) == multiset(r.removedComponents) + Ones(r.splits) + Manys(r.merges) + Befores(r.renames)
  }

  predicate OldNameBefore(a: Rename, b: Rename) { NameBefore(a.before, b.before) }

  ghost predicate ByOldName(renames: seq<Rename>) {
    forall i, j :: 0 <= i < j < |renames| ==> !Less(renames[j].before.name, renames[i].before.name)
  }

  lemma SortedIsByOldName(renames: seq<Rename>)
    requires SortedBy(renames, OldNameBefore)
    ensures ByOldName(renames)
  {
    hide Less;
    assert forall i, j :: 0 <= i < j < |renames| ==> !OldNameBefore(renames[j], renames[i]);
  }

  lemma OldNameOrder()
    ensures WeakOrder(OldNameBefore)
  {
    NameOrder();
    hide NameBefore;
  }

  /** The component half of Diff: splits before merges before renames, each pass run to the end on what
      the passes before it left. `found` are the renames in the order they were found. Every list of the
      result is in name order. */
  method Diff(base: seq<Component>, head: seq<Component>, similarity: (string, string) -> real) returns (r: Reconciled, ghost found: seq<Rename>)
    requires DistinctKeys(base) && DistinctKeys(head)
    ensures multiset(r.renames) == multiset(found) && ByOldName(r.renames)
    ensures AllAccounted(OnlyIn(base, head), OnlyIn(head, base), r.(renames := found))
    ensures Passed(Members(OnlyIn(base, head)), Members(OnlyIn(head, base)), r.splits)
    ensures Passed(Members(OnlyIn(head, base)) - Parts(r.splits), Members(OnlyIn(base, head)) - Sources(r.splits), r.merges)
    ensures RenamesDone(similarity, r.(renames := found)) && InOrder(AftersOf(found))
    ensures InOrder(OnesOf(r.splits)) && InOrder(OnesOf(r.merges)) && InOrder(r.addedComponents) && InOrder(r.removedComponents)
  {
    OnlyInDistinct(head, base);
    OnlyInDistinct(base, head);
    NameOrder();
    OldNameOrder();
    hide *;
    var added := FindOnlyIn(head, base);
    var removed := FindOnlyIn(base, head);
    added := SortSlice(added, NameBefore);
    removed := SortSlice(removed, NameBefore);
    PermutedDistinct(OnlyIn(head, base), added);
    PermutedDistinct(OnlyIn(base, head), removed);
    SameMembers(OnlyIn(head, base), added);
    SameMembers(OnlyIn(base, head), removed);
    SortedIsInOrder(added);
    SortedIsInOrder(removed);
    var addedAfter := Copy(added);
    var removedAfter := Copy(removed);
    assert addedAfter[..] == added && removedAfter[..] == removed;
    r, found := Reconcile(addedAfter, removedAfter, similarity);
    AllPermuted(OnlyIn(base, head), OnlyIn(head, base), removed, added, r.(renames := found));
  }

  method Copy(cs: seq<Component>) returns (pool: array<Component>)
    ensures fresh(pool) && pool[..] == cs
  {
    pool := new Component[|cs|](i requires 0 <= i < |cs| => cs[i]);
  }

  lemma AllPermuted(removed: seq<Component>, added: seq<Component>, removed': seq<Component>, added': seq<Component>, r: Reconciled)
    requires multiset(removed) == multiset(removed') && multiset(added) == multiset(added') && AllAccounted(removed', added', r)
    ensures AllAccounted(removed, added, r)
  {
    hide Ones, Manys, Befores, Afters;
  }

  /** The passes, on two working pools that they compact. */
  method Reconcile(addedAfter: array<Component>, removedAfter: array<Component>, similarity: (string, string) -> real) returns (r: Reconciled, ghost found: seq<Rename>)
    requires addedAfter != removedAfter
    requires DistinctKeys(addedAfter[..]) && DistinctKeys(removedAfter[..]) && InOrder(addedAfter[..]) && InOrder(removedAfter[..])
    modifies addedAfter, removedAfter
    ensures multiset(r.renames) == multiset(found) && ByOldName(r.renames)
    ensures AllAccounted(old(removedAfter[..]), old(addedAfter[..]), r.(renames := found))
    ensures Passed(Members(old(removedAfter[..])), Members(old(addedAfter[..])), r.splits)
    ensures Passed(Members(old(addedAfter[..])) - Parts(r.splits), Members(old(removedAfter[..])) - Sources(r.splits), r.merges)
    ensures RenamesDone(similarity, r.(renames := found)) && InOrder(AftersOf(found))
    ensures InOrder(OnesOf(r.splits)) && InOrder(OnesOf(r.merges)) && InOrder(r.addedComponents) && InOrder(r.removedComponents)
  {
    OldNameOrder();
    hide *;
    ghost var removed, added := removedAfter[..], addedAfter[..];
    assert removedAfter[..removedAfter.Length] == removed && addedAfter[..addedAfter.Length] == added;
    var n, m, splits := RegroupPass(removedAfter, removedAfter.Length, addedAfter, addedAfter.Length);
    ghost var removedMid, addedMid := removedAfter[..n], addedAfter[..m];
    RegroupingIs(removed, added, removedMid, addedMid, splits);
    var merges;
    m, n, merges := RegroupPass(addedAfter, m, removedAfter, n);
    var removedRest, addedRest := removedAfter[..n], addedAfter[..m];
    RegroupingIs(addedMid, removedMid, addedRest, removedRest, merges);
    var matchedRemoved, matchedAdded, renames := MatchRenames(similarity, removedRest, addedRest);
    found := renames;
    var addedLeft := RemainingComponents(addedRest, matchedAdded);
    var removedLeft := RemainingComponents(removedRest, matchedRemoved);
    r := Reconciled(splits, merges, renames, addedLeft, removedLeft);
    RenamingIs(similarity, removedRest, addedRest, matchedRemoved, matchedAdded, r);
    MatchedInOrder(addedRest, matchedAdded);
    RemainingInOrder(addedRest, matchedAdded);
    RemainingInOrder(removedRest, matchedRemoved);
    AllTogether(removed, added, removedMid, addedMid, removedRest, addedRest, r);
    renames := SortSlice(renames, OldNameBefore);
    SortedIsByOldName(renames);
    r := r.(renames := renames);
  }

  lemma RemainingInOrder(pool: seq<Component>, matched: set<int>)
    requires InOrder(pool)
    ensures InOrder(Remaining(pool, matched)) && forall c :: c in Remaining(pool, matched) ==> c in pool
  {
    hide Less;
    if pool != [] {
      var rest := pool[..|pool| - 1];
      assert pool == rest + [pool[|pool| - 1]];
      RemainingInOrder(rest, matched);
      EndInOrder(rest, Remaining(rest, matched), pool[|pool| - 1]);
      assert Remaining(pool, matched) == if |pool| - 1 in matched then Remaining(rest, matched) else Remaining(rest, matched) + [pool[|pool| - 1]];
      hide Remaining, InOrder;
    }
  }

  lemma SortedIsInOrder(cs: seq<Component>)
    requires SortedBy(cs, NameBefore)
    ensures InOrder(cs)
  {
    hide Less;
    assert forall i, j :: 0 <= i < j < |cs| ==> !NameBefore(cs[j], cs[i]);
  }

  lemma SameMembers(a: seq<Component>, b: seq<Component>)
    requires multiset(a) == multiset(b)
    ensures Members(a) == Members(b)
  {
    forall c
      ensures c in a <==> c in b
    {
      assert c in a <==> c in multiset(a);
      assert c in b <==> c in multiset(b);
    }
  }

  lemma AllTogether(removed: seq<Component>, added: seq<Component>, removedAfter: seq<Component>, addedAfter: seq<Component>,
                    removedRest: seq<Component>, addedRest: seq<Component>, r: Reconciled)
    requires multiset(removed) == multiset(removedAfter) + Ones(r.splits) && multiset(added) == multiset(addedAfter) + Manys(r.splits)
    requires multiset(addedAfter) == multiset(addedRest) + Ones(r.merges) && multiset(removedAfter) == multiset(removedRest) + Manys(r.merges)
    requires multiset(removedRest) == multiset(r.removedComponents) + Befores(r.renames)
    requires multiset(addedRest) == multiset(r.addedComponents) + Afters(r.renames)
    ensures AllAccounted(removed, added, r)
  {
    hide Ones, Manys, Befores, Afters;
  }

  lemma RegroupingIs(ones0: seq<Component>, others0: seq<Component>, ones: seq<Component>, others: seq<Component>, groups: seq<Regroup>)
    requires Accounted(ones0, others0, ones, others, groups)
    ensures DistinctKeys(ones) && DistinctKeys(others)
    ensures multiset(ones0) == multiset(ones) + Ones(groups) && multiset(others0) == multiset(others) + Manys(groups)
    ensures Members(ones) == Members(ones0) - Sources(groups) && Members(others) == Members(others0) - Parts(groups)
  {
  }

  lemma RemainingFree(pool: seq<Component>, used: set<int>, c: Component) returns (r: int)
    requires c in Remaining(pool, used)
    ensures IsFree(pool, used, r) && pool[r] == c
  {
    var n := |pool| - 1;
    if n !in used && pool[n] == c {
      r := n;
    } else {
      r := RemainingFree(pool[..n], used, c);
    }
  }

  lemma RenamingIs(similarity: (string, string) -> real, removed: seq<Component>, added: seq<Component>,
                   usedRemoved: set<int>, usedAdded: set<int>, r: Reconciled)
    requires Renaming(similarity, removed, added, usedRemoved, usedAdded, r.renames, |added|)
    requires r.removedComponents == Remaining(removed, usedRemoved) && r.addedComponents == Remaining(added, usedAdded)
    ensures multiset(removed) == multiset(r.removedComponents) + Befores(r.renames)
    ensures multiset(added) == multiset(r.addedComponents) + Afters(r.renames)
    ensures RenamesDone(similarity, r) && AftersOf(r.renames) == Matched(added, usedAdded)
  {
    forall n | n in r.renames
      ensures Close(similarity, n.before, n.after)
    {
      assert IsScored(similarity, n);
      CloseEnough(similarity, n.before, n.after);
    }
    hide Befores, Afters, AftersOf, Matched, Score, NoBetter, BestFirst, Remaining, Close;
    assert added[..|added|] == added;
    forall c, n | c in r.removedComponents && n in r.renames
      ensures NoBetter(similarity, c, n.before, n.after)
    {
      var i := RemainingFree(removed, usedRemoved, c);
    }
    forall c, a | c in r.removedComponents && a in r.addedComponents
      ensures !Close(similarity, c, a)
    {
      CloseEnough(similarity, c, a);
      var i := RemainingFree(removed, usedRemoved, c);
      var j := RemainingFree(added, usedAdded, a);
    }
  }
}
