/** The two phases of one Louvain level: local moving and aggregation. `col` names, for every vertex,
    the component of the original graph it stands for. */
module LouvainPhases {
  import opened LouvainGraphs
  import opened LouvainCollapse
  import Ordering

  type Component = set<string>

  /** Adjacent vertices stand for the same component. */
  ghost predicate Colored(g: LouvainGraph, col: seq<Component>) {
    |col| == g.size && |g.adj| == g.size && forall i, j :: 0 <= i < g.size && j in g.adj[i] ==> j < g.size && col[i] == col[j]
  }

  /** Vertices of one community stand for the same component. */
  ghost predicate Coherent(comm: seq<nat>, col: seq<Component>) {
    |comm| == |col| && forall i, j :: 0 <= i < |comm| && 0 <= j < |comm| && comm[i] == comm[j] ==> col[i] == col[j]
  }

  /* ---- local moving ---- */

  /** The table of community degrees is what the members add up to. */
  ghost predicate DegreesOk(g: LouvainGraph, comm: seq<nat>, commDegree: seq<nat>) {
    |comm| == g.size && |commDegree| == g.size && |g.deg| == g.size && (forall i :: 0 <= i < g.size ==> comm[i] < g.size)
    && forall c :: 0 <= c < g.size ==> commDegree[c] == CommDegree(g.deg, comm, c, g.size)
  }

  ghost predicate PhaseInv(g: LouvainGraph, comm: seq<nat>, commDegree: seq<nat>, col: seq<Component>) {
    DegreesOk(g, comm, commDegree) && Colored(g, col) && Coherent(comm, col)
  }

  ghost function Without(row: Row, i: nat): Row { map j | j in row && j != i :: row[j] }

  ghost function OnlyTo(row: Row, keys: set<nat>): Row { map j | j in row && j in keys :: row[j] }

  lemma OneMoreKey(row: Row, keys: set<nat>, j: nat)
    requires j in row && j !in keys
    ensures OnlyTo(row, keys + {j}) == Put(OnlyTo(row, keys), j, row[j]) && At(OnlyTo(row, keys), j) == 0
  {
  }

  /** Some neighbour of vertex `i` is in community `c`. */
  ghost predicate Neighbouring(g: LouvainGraph, comm: seq<nat>, i: nat, c: nat) {
    |comm| == g.size && i < |g.adj| && exists j :: j in g.adj[i] && j != i && j < g.size && comm[j] == c
  }

  /** The communities of the neighbours in `done`. */
  ghost predicate GainKeys(row: Row, comm: seq<nat>, keys: set<nat>, done: set<nat>) {
    (forall j :: j in done ==> j in row && j < |comm| && comm[j] in keys)
    && (forall c :: c in keys ==> exists j :: j in done && j < |comm| && comm[j] == c) && |keys| <= |done|
  }

  /** The weight the neighbours in `done` bring. */
  ghost predicate GainWeights(row: Row, comm: seq<nat>, gains: map<nat, nat>, done: set<nat>) {
    forall c :: At(gains, c) == RowTo(OnlyTo(row, done), comm, c, |comm|)
  }

  lemma KeysMore(row: Row, comm: seq<nat>, keys: set<nat>, done: set<nat>, j: nat)
    requires GainKeys(row, comm, keys, done) && j in row && j !in done && j < |comm|
    ensures GainKeys(row, comm, keys + {comm[j]}, done + {j})
  {
    forall c | c in keys + {comm[j]}
      ensures exists k :: k in done + {j} && k < |comm| && comm[k] == c
    {
      if c == comm[j] {
        assert j in done + {j};
      } else {
        var k :| k in done && k < |comm| && comm[k] == c;
        assert k in done + {j};
      }
    }
    assert |keys + {comm[j]}| <= |keys| + 1;
  }

  lemma WeightsMore(row: Row, comm: seq<nat>, gains: map<nat, nat>, done: set<nat>, j: nat)
    requires GainWeights(row, comm, gains, done) && j in row && j !in done && j < |comm|
    ensures GainWeights(row, comm, Put(gains, comm[j], At(gains, comm[j]) + row[j]), done + {j})
  {
    var gains' := Put(gains, comm[j], At(gains, comm[j]) + row[j]);
    OneMoreKey(row, done, j);
    forall c
      ensures At(gains', c) == RowTo(OnlyTo(row, done + {j}), comm, c, |comm|)
    {
      assert At(gains, c) == RowTo(OnlyTo(row, done), comm, c, |comm|);
      RowToUpdate(OnlyTo(row, done), comm, c, j, row[j], |comm|);
      hide RowTo, OnlyTo, GainWeights;
    }
  }

  lemma AllKeys(g: LouvainGraph, comm: seq<nat>, i: nat, keys: set<nat>)
    requires Shaped(g) && |comm| == g.size && i < g.size && GainKeys(g.adj[i], comm, keys, g.adj[i].Keys - {i})
    ensures (forall c :: c in keys <==> Neighbouring(g, comm, i, c)) && |keys| <= |g.adj[i]|
  {
    FewerKeys(g.adj[i], i);
  }

  lemma AllWeights(row: Row, comm: seq<nat>, i: nat, gains: map<nat, nat>)
    requires GainWeights(row, comm, gains, row.Keys - {i})
    ensures forall c :: At(gains, c) == RowTo(Without(row, i), comm, c, |comm|)
  {
    assert OnlyTo(row, row.Keys - {i}) == Without(row, i);
    hide RowTo, OnlyTo, Without, At;
  }

  /** The weight from vertex `i` into each neighbouring community; a self-loop does not count. */
  method Gains(g: LouvainGraph, comm: seq<nat>, i: nat) returns (gains: map<nat, nat>)
    requires Shaped(g) && |comm| == g.size && i < g.size
    ensures forall c :: c in gains <==> Neighbouring(g, comm, i, c)
    ensures forall c :: At(gains, c) == RowTo(Without(g.adj[i], i), comm, c, g.size)
    ensures |gains| <= |g.adj[i]|
  {
    gains := map[];
    var row := g.adj[i];
    assert forall j :: j in row ==> j < g.size;
    hide *;
    StartGains(row, comm, gains);
    var rest := row.Keys - {i};
    ghost var all, done: set<nat> := rest, {};
    while rest != {}
      invariant done <= all && rest == all - done
      invariant GainKeys(row, comm, gains.Keys, done) && GainWeights(row, comm, gains, done)
    {
      var j :| j in rest;
      KeysMore(row, comm, gains.Keys, done, j);
      WeightsMore(row, comm, gains, done, j);
      PutKeys(gains, comm[j], At(gains, comm[j]) + row[j]);
      OneFewer(all, done, j);
      gains := Put(gains, comm[j], At(gains, comm[j]) + row[j]);
      rest, done := rest - {j}, done + {j};
    }
    assert done == all;
    assert |gains| == |gains.Keys|;
    AllKeys(g, comm, i, gains.Keys);
    AllWeights(row, comm, i, gains);
  }

  lemma OneFewer(all: set<nat>, done: set<nat>, j: nat)
    requires done <= all && j in all - done
    ensures done + {j} <= all && all - done - {j} == all - (done + {j})
  {
  }

  lemma PutKeys(gains: map<nat, nat>, c: nat, w: nat)
    ensures Put(gains, c, w).Keys == gains.Keys + {c}
  {
  }

  lemma StartGains(row: Row, comm: seq<nat>, gains: map<nat, nat>)
    requires gains == map[]
    ensures GainKeys(row, comm, gains.Keys, {}) && GainWeights(row, comm, gains, {})
  {
    assert OnlyTo(row, {}) == map[];
    EmptyRowTo(comm, |comm|);
    hide RowTo, OnlyTo;
  }

  lemma FewerKeys(row: Row, i: nat)
    ensures |row.Keys - {i}| <= |row|
  {
    assert row.Keys == (row.Keys - {i}) + (row.Keys * {i});
    assert |row| == |row.Keys|;
  }

  lemma EmptyRowTo(comm: seq<nat>, n: nat)
    requires n <= |comm|
    ensures forall c :: RowTo(map[], comm, c, n) == 0
  {
    if n > 0 {
      EmptyRowTo(comm, n - 1);
    }
  }

  const EPSILON := 0.000000000001

  /** louvainDeltaQ. A move pays exactly when the weight into the community outweighs what the degrees let expect. */
  function DeltaQ(kIn: real, sumTot: real, kI: real, m: real): (gain: real)
    requires m > 0.0
    ensures gain * (2.0 * m * m) == kIn * m - sumTot * kI
    ensures gain > 0.0 <==> kIn * m > sumTot * kI
  {
    var inv2m := 1.0 / (2.0 * m);
    var qNew := (sumTot + kIn) * inv2m - (sumTot + kI) * inv2m * (sumTot + kI) * inv2m;
    var qOld := sumTot * inv2m - sumTot * inv2m * sumTot * inv2m - kI * inv2m * kI * inv2m;
    DeltaQIs(kIn, sumTot, kI, m, inv2m, qNew - qOld);
    qNew - qOld
  }

  lemma DeltaQIs(kIn: real, sumTot: real, kI: real, m: real, r: real, gain: real)
    requires m > 0.0 && r == 1.0 / (2.0 * m)
    requires gain == (sumTot + kIn) * r - (sumTot + kI) * r * (sumTot + kI) * r - (sumTot * r - sumTot * r * sumTot * r - kI * r * kI * r)
    ensures gain * (2.0 * m * m) == kIn * m - sumTot * kI
    ensures gain > 0.0 <==> kIn * m > sumTot * kI
  {
    assert r * (2.0 * m) == 1.0;
    assert gain == kIn * r - 2.0 * (sumTot * kI) * (r * r);
    Scaled(kIn, sumTot * kI, m, r, gain);
    SignOf(gain, 2.0 * m * m);
  }

  lemma Scaled(kIn: real, pull: real, m: real, r: real, gain: real)
    requires r * (2.0 * m) == 1.0 && gain == kIn * r - 2.0 * pull * (r * r)
    ensures gain * (2.0 * m * m) == kIn * m - pull
  {
    var x := r * (2.0 * m);
    assert gain * (2.0 * m * m) == kIn * m * x - pull * (x * x);
  }

  lemma SignOf(gain: real, scale: real)
    requires scale > 0.0
    ensures gain > 0.0 <==> gain * scale > 0.0
  {
  }

  /** The gain in modularity, over twice the squared weight: the weight into the community times the total
      weight, less the product of the degrees. */
  ghost function Worth(kIn: nat, sumTot: nat, kI: nat, m: nat): real
    requires m > 0
  {
    (kIn * m - sumTot * kI) as real / (2 * m * m) as real
  }

  lemma DeltaQIsWorth(kIn: nat, sumTot: nat, kI: nat, m: nat)
    requires m > 0
    ensures DeltaQ(kIn as real, sumTot as real, kI as real, m as real) == Worth(kIn, sumTot, kI, m)
  {
    var gain := DeltaQ(kIn as real, sumTot as real, kI as real, m as real);
    hide DeltaQ;
    assert (2 * m * m) as real == 2.0 * m as real * m as real;
    assert (kIn * m - sumTot * kI) as real == kIn as real * m as real - sumTot as real * kI as real;
    Divided(gain, (2 * m * m) as real, (kIn * m - sumTot * kI) as real);
  }

  lemma Divided(gain: real, scale: real, pull: real)
    requires scale > 0.0 && gain * scale == pull
    ensures gain == pull / scale
  {
  }

  /** The gain of moving into `c`, read off the tables; staying counts as nothing. */
  ghost function GainOf(gains: map<nat, nat>, cur: nat, commDegree: seq<nat>, kI: nat, m: nat, c: nat): real
    requires m > 0 && c < |commDegree|
  {
    if c == cur then 0.0 else Worth(At(gains, c), commDegree[c], kI, m)
  }

  /** Any two candidates gain the same or differ by more than epsilon. */
  ghost predicate GainsApart(gains: map<nat, nat>, cur: nat, commDegree: seq<nat>, kI: nat, m: nat)
    requires m > 0 && cur < |commDegree| && forall c :: c in gains ==> c < |commDegree|
  {
    forall c, d :: c in gains.Keys + {cur} && d in gains.Keys + {cur} ==>
      var x, y := GainOf(gains, cur, commDegree, kI, m, c), GainOf(gains, cur, commDegree, kI, m, d);
      x == y || x > y + 0.000000000001 || y > x + 0.000000000001
  }

  /** `best` gains the most of the candidates in `among`, and among equals it is the smallest. */
  ghost predicate LeastOfBest(gains: map<nat, nat>, cur: nat, commDegree: seq<nat>, kI: nat, m: nat, among: set<nat>, best: nat)
    requires m > 0 && best < |commDegree| && forall c :: c in among ==> c < |commDegree|
  {
    forall c :: c in among ==>
      var x, y := GainOf(gains, cur, commDegree, kI, m, c), GainOf(gains, cur, commDegree, kI, m, best);
      x < y || (x == y && best <= c)
  }

  /** The best neighbouring community, or the present one, visited in any order. As a tie may lower the
      best gain by one epsilon at every visit, the choice is optimal up to one epsilon per neighbour; if
      gains are apart it is the smallest of the best, whatever the order of the visits. */
  method BestCommunity(gains: map<nat, nat>, cur: nat, commDegree: seq<nat>, kI: nat, m: nat) returns (best: nat)
    requires m > 0 && cur < |commDegree| && forall c :: c in gains ==> c < |commDegree|
    ensures best == cur || best in gains
    ensures forall c :: c in gains ==>
              GainOf(gains, cur, commDegree, kI, m, c) <= GainOf(gains, cur, commDegree, kI, m, best) + (|gains| + 1) as real * 0.000000000001
    ensures GainsApart(gains, cur, commDegree, kI, m) ==> LeastOfBest(gains, cur, commDegree, kI, m, gains.Keys + {cur}, best)
  {
    best := cur;
    var bestGain := 0.0;
    var rest := gains.Keys;
    ghost var met: set<nat>, k := {cur}, 0;
    ghost var apart := GainsApart(gains, cur, commDegree, kI, m);
    StartsWithStaying(gains, cur, commDegree, kI, m);
    hide *;
    while rest != {}
      invariant rest <= gains.Keys && MetSoFar(gains.Keys, rest, cur, met) && k + |rest| == |gains.Keys| && best in met
      invariant bestGain == GainOf(gains, cur, commDegree, kI, m, best)
      invariant NearBest(gains, cur, commDegree, kI, m, met, best, k)
      invariant apart ==> LeastOfBest(gains, cur, commDegree, kI, m, met, best)
    {
      var c :| c in rest;
      OneMet(gains.Keys, rest, cur, met, c);
      ghost var was := best;
      if c != cur {
        var gain := DeltaQ(gains[c] as real, commDegree[c] as real, kI as real, m as real);
        GainIs(gains, cur, commDegree, kI, m, c);
        if gain > bestGain + EPSILON {
          bestGain, best := gain, c;
        } else if gain > bestGain - EPSILON && c < best {
          bestGain, best := gain, c;
        }
        PickIs(gains, cur, commDegree, kI, m, was, c);
      } else {
        PickStays(gains, cur, commDegree, kI, m, was);
      }
      NearStep(gains, cur, commDegree, kI, m, met, was, c, k);
      if apart {
        ApartStep(gains, cur, commDegree, kI, m, met, was, c);
      }
      rest, met, k := rest - {c}, met + {c}, k + 1;
    }
    AllMet(gains, cur, met, k);
    NearEnd(gains, cur, commDegree, kI, m, met, best, k);
  }

  /** The gain of `best` is not far below that of any candidate in `among`, nor below nothing. */
  ghost predicate NearBest(gains: map<nat, nat>, cur: nat, commDegree: seq<nat>, kI: nat, m: nat, among: set<nat>, best: nat, k: nat)
    requires m > 0 && best < |commDegree| && forall c :: c in among ==> c < |commDegree|
  {
    0.0 <= GainOf(gains, cur, commDegree, kI, m, best) + k as real * 0.000000000001
    && forall c :: c in among ==> GainOf(gains, cur, commDegree, kI, m, c) <= GainOf(gains, cur, commDegree, kI, m, best) + (k + 1) as real * 0.000000000001
  }

  /** What a visit makes of the best so far. */
  ghost function Pick(gains: map<nat, nat>, cur: nat, commDegree: seq<nat>, kI: nat, m: nat, best: nat, c: nat): nat
    requires m > 0 && best < |commDegree| && c < |commDegree|
  {
    var x, y := GainOf(gains, cur, commDegree, kI, m, c), GainOf(gains, cur, commDegree, kI, m, best);
    if c != cur && (x > y + 0.000000000001 || (x > y - 0.000000000001 && c < best)) then c else best
  }

  lemma PickIs(gains: map<nat, nat>, cur: nat, commDegree: seq<nat>, kI: nat, m: nat, best: nat, c: nat)
    requires m > 0 && best < |commDegree| && c < |commDegree| && c != cur
    ensures var x, y := GainOf(gains, cur, commDegree, kI, m, c), GainOf(gains, cur, commDegree, kI, m, best);
            Pick(gains, cur, commDegree, kI, m, best, c) == if x > y + EPSILON || (x > y - EPSILON && c < best) then c else best
  {
    hide GainOf;
  }

  lemma PickStays(gains: map<nat, nat>, cur: nat, commDegree: seq<nat>, kI: nat, m: nat, best: nat)
    requires m > 0 && best < |commDegree| && cur < |commDegree|
    ensures Pick(gains, cur, commDegree, kI, m, best, cur) == best
  {
  }

  /** The candidates that have been visited. */
  ghost predicate MetSoFar(keys: set<nat>, rest: set<nat>, cur: nat, met: set<nat>) {
    rest <= keys && cur in met && met <= keys + {cur} && keys <= met + rest
  }

  lemma OneMet(keys: set<nat>, rest: set<nat>, cur: nat, met: set<nat>, c: nat)
    requires MetSoFar(keys, rest, cur, met) && c in rest
    ensures MetSoFar(keys, rest - {c}, cur, met + {c}) && |rest - {c}| == |rest| - 1
    ensures c in keys && (forall d :: d in met ==> d == cur || d in keys)
  {
  }

  lemma AllMet(gains: map<nat, nat>, cur: nat, met: set<nat>, k: nat)
    requires MetSoFar(gains.Keys, {}, cur, met) && k == |gains.Keys|
    ensures met == gains.Keys + {cur} && gains.Keys <= met && k == |gains|
  {
    assert |gains.Keys| == |gains|;
  }

  lemma StartsWithStaying(gains: map<nat, nat>, cur: nat, commDegree: seq<nat>, kI: nat, m: nat)
    requires m > 0 && cur < |commDegree|
    ensures GainOf(gains, cur, commDegree, kI, m, cur) == 0.0 && NearBest(gains, cur, commDegree, kI, m, {cur}, cur, 0)
    ensures LeastOfBest(gains, cur, commDegree, kI, m, {cur}, cur) && MetSoFar(gains.Keys, gains.Keys, cur, {cur})
  {
  }

  lemma NearStep(gains: map<nat, nat>, cur: nat, commDegree: seq<nat>, kI: nat, m: nat, among: set<nat>, best: nat, c: nat, k: nat)
    requires m > 0 && best < |commDegree| && c < |commDegree| && cur in among && forall d :: d in among ==> d < |commDegree|
    requires NearBest(gains, cur, commDegree, kI, m, among, best, k)
    ensures NearBest(gains, cur, commDegree, kI, m, among + {c}, Pick(gains, cur, commDegree, kI, m, best, c), k + 1)
  {
    hide GainOf;
    assert (k + 1) as real * 0.000000000001 == k as real * 0.000000000001 + 0.000000000001;
    assert (k + 2) as real * 0.000000000001 == k as real * 0.000000000001 + 0.000000000002;
  }

  lemma NearEnd(gains: map<nat, nat>, cur: nat, commDegree: seq<nat>, kI: nat, m: nat, among: set<nat>, best: nat, k: nat)
    requires m > 0 && best < |commDegree| && (forall c :: c in among ==> c < |commDegree|) && gains.Keys <= among
    requires NearBest(gains, cur, commDegree, kI, m, among, best, k)
    ensures forall c :: c in gains ==>
              GainOf(gains, cur, commDegree, kI, m, c) <= GainOf(gains, cur, commDegree, kI, m, best) + (k + 1) as real * 0.000000000001
  {
    hide GainOf;
  }

  lemma GainIs(gains: map<nat, nat>, cur: nat, commDegree: seq<nat>, kI: nat, m: nat, c: nat)
    requires m > 0 && c in gains && c < |commDegree| && c != cur
    ensures GainOf(gains, cur, commDegree, kI, m, c) == DeltaQ(gains[c] as real, commDegree[c] as real, kI as real, m as real)
  {
    DeltaQIsWorth(gains[c], commDegree[c], kI, m);
    hide DeltaQ, Worth;
  }

  /** One more candidate: it replaces the best if it gains more, or as much with a smaller label. */
  lemma ApartStep(gains: map<nat, nat>, cur: nat, commDegree: seq<nat>, kI: nat, m: nat, among: set<nat>, best: nat, c: nat)
    requires m > 0 && cur < |commDegree| && (forall d :: d in gains ==> d < |commDegree|) && GainsApart(gains, cur, commDegree, kI, m)
    requires among <= gains.Keys + {cur} && best in gains.Keys + {cur} && cur in among && c in gains && LeastOfBest(gains, cur, commDegree, kI, m, among, best)
    ensures LeastOfBest(gains, cur, commDegree, kI, m, among + {c}, Pick(gains, cur, commDegree, kI, m, best, c))
  {
    hide GainOf;
  }

  /** The gain of moving vertex `i` into `c`; staying counts as nothing. */
  ghost function Gain(g: LouvainGraph, comm: seq<nat>, i: nat, c: nat): real
    requires g.m > 0 && |comm| == g.size == |g.deg| == |g.adj| && i < g.size
  {
    if c == comm[i] then 0.0
    else Worth(RowTo(Without(g.adj[i], i), comm, c, g.size), CommDegree(g.deg, comm, c, g.size), g.deg[i], g.m)
  }

  ghost function Slack(g: LouvainGraph, i: nat): real
    requires i < |g.adj|
  {
    (|g.adj[i]| + 1) as real * 0.000000000001
  }

  /** `c` is the present community of vertex `i` or a neighbouring one, and up to the accumulated epsilons
      no neighbouring one promises more. A vertex without weight stays. */
  ghost predicate IsBestFor(g: LouvainGraph, comm: seq<nat>, i: nat, c: nat) {
    g.m > 0 && |comm| == g.size == |g.deg| == |g.adj| && i < g.size
    && (c == comm[i] || (g.deg[i] > 0 && Neighbouring(g, comm, i, c)))
    && (g.deg[i] > 0 ==> forall d :: Neighbouring(g, comm, i, d) ==> Gain(g, comm, i, d) <= Gain(g, comm, i, c) + Slack(g, i))
  }

  /** Every vertex is where it wants to be. */
  ghost predicate Settled(g: LouvainGraph, comm: seq<nat>) {
    forall i :: 0 <= i < g.size ==> i < |comm| && IsBestFor(g, comm, i, comm[i])
  }

  /** Community `d` draws vertex `i` by no more than the accumulated epsilons. */
  ghost predicate HardlyDrawn(g: LouvainGraph, comm: seq<nat>, i: nat, d: nat)
    requires |comm| == g.size == |g.deg| == |g.adj| && i < g.size
  {
    (RowTo(Without(g.adj[i], i), comm, d, g.size) * g.m - CommDegree(g.deg, comm, d, g.size) * g.deg[i]) as real
    <= (2 * g.m * g.m) as real * ((|g.adj[i]| + 1) as real * 0.000000000001)
  }

  /** What it takes to be settled, in whole numbers. */
  lemma SettledMeans(g: LouvainGraph, comm: seq<nat>)
    requires g.m > 0 && |comm| == g.size == |g.deg| == |g.adj|
    ensures Settled(g, comm) <==>
            forall i, d: nat :: 0 <= i < g.size && g.deg[i] > 0 && d != comm[i] && Neighbouring(g, comm, i, d) ==> HardlyDrawn(g, comm, i, d)
  {
    forall i, d: nat | 0 <= i < g.size && d != comm[i]
      ensures Gain(g, comm, i, d) <= Gain(g, comm, i, comm[i]) + Slack(g, i) <==> HardlyDrawn(g, comm, i, d)
    {
      Cleared((RowTo(Without(g.adj[i], i), comm, d, g.size) * g.m - CommDegree(g.deg, comm, d, g.size) * g.deg[i]) as real,
              (2 * g.m * g.m) as real, (|g.adj[i]| + 1) as real * 0.000000000001);
    }
    forall i | 0 <= i < g.size
      ensures Gain(g, comm, i, comm[i]) == 0.0 && Slack(g, i) >= 0.0
    {
    }
    hide Gain, Slack, Neighbouring, HardlyDrawn;
  }

  lemma Cleared(pull: real, scale: real, bound: real)
    requires scale > 0.0
    ensures pull / scale <= bound <==> pull <= scale * bound
  {
    var q := pull / scale;
    assert q * scale == pull;
    if q <= bound {
      assert (bound - q) * scale >= 0.0;
    } else {
      assert (q - bound) * scale > 0.0;
    }
  }

  /** While the weights are small against epsilon, no community draws a settled vertex at all. */
  lemma SettledIsLocalOptimum(g: LouvainGraph, comm: seq<nat>, i: nat, d: nat)
    requires g.m > 0 && |comm| == g.size == |g.deg| == |g.adj| && Settled(g, comm)
    requires i < g.size && g.deg[i] > 0 && d != comm[i] && Neighbouring(g, comm, i, d)
    requires 2 * g.m * g.m * (|g.adj[i]| + 1) < 1_000_000_000_000
    ensures RowTo(Without(g.adj[i], i), comm, d, g.size) * g.m <= CommDegree(g.deg, comm, d, g.size) * g.deg[i]
  {
    assert HardlyDrawn(g, comm, i, d) by {
      hide *;
      SettledMeans(g, comm);
    }
    HardlyIsNot(g, comm, i, d);
  }

  lemma HardlyIsNot(g: LouvainGraph, comm: seq<nat>, i: nat, d: nat)
    requires |comm| == g.size == |g.deg| == |g.adj| && i < g.size && HardlyDrawn(g, comm, i, d)
    requires 2 * g.m * g.m * (|g.adj[i]| + 1) < 1_000_000_000_000
    ensures RowTo(Without(g.adj[i], i), comm, d, g.size) * g.m <= CommDegree(g.deg, comm, d, g.size) * g.deg[i]
  {
    var pull := RowTo(Without(g.adj[i], i), comm, d, g.size) * g.m - CommDegree(g.deg, comm, d, g.size) * g.deg[i];
    hide RowTo, CommDegree, Without;
    BelowOne(pull, 2 * g.m * g.m, |g.adj[i]| + 1);
  }

  lemma BelowOne(pull: int, scale: nat, slack: nat)
    requires pull as real <= scale as real * (slack as real * 0.000000000001) && scale * slack < 1_000_000_000_000
    ensures pull <= 0
  {
    assert (scale * slack) as real == scale as real * slack as real;
    assert scale as real * (slack as real * 0.000000000001) == (scale * slack) as real * 0.000000000001;
  }

  lemma SameGain(g: LouvainGraph, comm: seq<nat>, commDegree: seq<nat>, i: nat, gains: map<nat, nat>, c: nat)
    requires g.m > 0 && DegreesOk(g, comm, commDegree) && |g.adj| == g.size && i < g.size && c < g.size
    requires At(gains, c) == RowTo(Without(g.adj[i], i), comm, c, g.size)
    ensures GainOf(gains, comm[i], commDegree, g.deg[i], g.m, c) == Gain(g, comm, i, c)
  {
    hide Worth;
  }

  lemma BestIsBest(g: LouvainGraph, comm: seq<nat>, commDegree: seq<nat>, i: nat, gains: map<nat, nat>, best: nat)
    requires g.m > 0 && DegreesOk(g, comm, commDegree) && |g.adj| == g.size && i < g.size && g.deg[i] > 0
    requires forall c :: c in gains <==> Neighbouring(g, comm, i, c)
    requires forall c :: At(gains, c) == RowTo(Without(g.adj[i], i), comm, c, g.size)
    requires |gains| <= |g.adj[i]| && (best == comm[i] || best in gains) && forall c :: c in gains ==> c < g.size
    requires forall c :: c in gains ==>
               GainOf(gains, comm[i], commDegree, g.deg[i], g.m, c) <= GainOf(gains, comm[i], commDegree, g.deg[i], g.m, best) + (|gains| + 1) as real * 0.000000000001
    ensures IsBestFor(g, comm, i, best)
  {
    hide RowTo, Neighbouring;
    assert (|gains| + 1) as real * 0.000000000001 <= Slack(g, i);
    forall d | Neighbouring(g, comm, i, d)
      ensures Gain(g, comm, i, d) <= Gain(g, comm, i, best) + Slack(g, i)
    {
      SameGain(g, comm, commDegree, i, gains, d);
      SameGain(g, comm, commDegree, i, gains, best);
      hide *;
    }
  }

  lemma WeightlessStays(g: LouvainGraph, comm: seq<nat>, i: nat)
    requires g.m > 0 && |comm| == g.size == |g.deg| == |g.adj| && i < g.size && g.deg[i] == 0
    ensures IsBestFor(g, comm, i, comm[i])
  {
  }

  lemma Moved(g: LouvainGraph, comm: seq<nat>, commDegree: seq<nat>, col: seq<Component>, i: nat, j: nat)
    requires PhaseInv(g, comm, commDegree, col) && i < g.size && j in g.adj[i] && j < g.size && comm[j] != comm[i]
    ensures commDegree[comm[i]] >= g.deg[i]
    ensures PhaseInv(g, comm[i := comm[j]],
                     commDegree[comm[i] := commDegree[comm[i]] - g.deg[i]][comm[j] := commDegree[comm[j]] + g.deg[i]], col)
  {
    var cur, best := comm[i], comm[j];
    forall c | 0 <= c < g.size
      ensures CommDegree(g.deg, comm[i := best], c, g.size)
              == CommDegree(g.deg, comm, c, g.size) - (if cur == c then g.deg[i] else 0) + if best == c then g.deg[i] else 0
    {
      CommDegreeMove(g.deg, comm, i, best, c, g.size);
    }
    assert CommDegree(g.deg, comm, cur, g.size) == commDegree[cur];
    hide CommDegree;
    assert col[i] == col[j];
    assert commDegree[cur] >= g.deg[i];
  }

  /** The three assignments that move a vertex of degree `d`. */
  method Relocate(comm: array<nat>, commDegree: array<nat>, i: nat, best: nat, d: nat)
    requires comm != commDegree && i < comm.Length && comm[i] < commDegree.Length && best < commDegree.Length
    requires comm[i] != best && commDegree[comm[i]] >= d
    modifies comm, commDegree
    ensures comm[..] == old(comm[..])[i := best]
    ensures commDegree[..] == old(commDegree[..])[old(comm[i]) := old(commDegree[comm[i]]) - d][best := old(commDegree[best]) + d]
  {
    var cur := comm[i];
    comm[i] := best;
    commDegree[cur] := commDegree[cur] - d;
    commDegree[best] := commDegree[best] + d;
  }

  /** One vertex: it joins the best neighbouring community. */
  method MoveVertex(g: LouvainGraph, comm: array<nat>, commDegree: array<nat>, i: nat, ghost col: seq<Component>) returns (moved: bool)
    requires g.m > 0 && Shaped(g) && i < g.size && comm != commDegree && PhaseInv(g, comm[..], commDegree[..], col)
    modifies comm, commDegree
    ensures PhaseInv(g, comm[..], commDegree[..], col)
    ensures comm[..] == old(comm[..])[i := comm[i]] && IsBestFor(g, old(comm[..]), i, comm[i])
    ensures moved <==> comm[i] != old(comm[i])
  {
    moved := false;
    var cur := comm[i];
    assert comm[..] == comm[..][i := comm[i]];
    hide GainOf, RowTo, IsBestFor, Gain, Slack, CommDegree, Without, At;
    if g.deg[i] == 0 {
      WeightlessStays(g, comm[..], i);
      return;
    }
    var gains := Gains(g, comm[..], i);
    var best := BestCommunity(gains, cur, commDegree[..], g.deg[i], g.m);
    BestIsBest(g, comm[..], commDegree[..], i, gains, best);
    if best != cur {
      ghost var j :| j in g.adj[i] && j != i && j < g.size && comm[..][j] == best;
      Moved(g, comm[..], commDegree[..], col, i, j);
      hide *;
      Relocate(comm, commDegree, i, best, g.deg[i]);
      moved := true;
    }
  }

  /** The community degrees at the start of the phase. */
  method StartDegrees(g: LouvainGraph, comm: seq<nat>) returns (commDegree: array<nat>)
    requires |comm| == g.size && |g.deg| == g.size && forall i :: 0 <= i < g.size ==> comm[i] < g.size
    ensures fresh(commDegree) && DegreesOk(g, comm, commDegree[..])
  {
    commDegree := new nat[g.size](i => 0);
    for i := 0 to g.size
      invariant forall c :: 0 <= c < g.size ==> commDegree[c] == CommDegree(g.deg, comm, c, i)
    {
      commDegree[comm[i]] := commDegree[comm[i]] + g.deg[i];
    }
  }

  /** Nobody is in community `e`. */
  ghost predicate IsEmpty(comm: seq<nat>, e: nat) { e < |comm| && e !in comm }

  /** Either everybody is still alone, or some community is empty. */
  ghost predicate AloneOrEmpty(comm: seq<nat>, alone: bool) {
    if alone then comm == Singletons(|comm|) else exists e: nat :: IsEmpty(comm, e)
  }

  /** A move empties the community of a vertex that was alone, and never fills an empty one. */
  lemma StaysEmpty(g: LouvainGraph, comm: seq<nat>, i: nat, c: nat, alone: bool)
    requires IsBestFor(g, comm, i, c) && AloneOrEmpty(comm, alone)
    ensures AloneOrEmpty(comm[i := c], alone && c == comm[i])
  {
    hide Gain, Slack;
    if c == comm[i] {
      assert comm[i := c] == comm;
    } else if alone {
      assert IsEmpty(comm[i := c], i);
    } else {
      var e: nat :| IsEmpty(comm, e);
      assert IsEmpty(comm[i := c], e);
    }
  }

  /** One pass over the vertices; if nobody moved, everybody is settled. */
  method Pass(g: LouvainGraph, comm: array<nat>, commDegree: array<nat>, ghost col: seq<Component>, ghost alone: bool) returns (moved: bool)
    requires g.m > 0 && Shaped(g) && comm != commDegree && PhaseInv(g, comm[..], commDegree[..], col) && AloneOrEmpty(comm[..], alone)
    modifies comm, commDegree
    ensures PhaseInv(g, comm[..], commDegree[..], col) && AloneOrEmpty(comm[..], alone && !moved)
    ensures !moved ==> comm[..] == old(comm[..]) && Settled(g, comm[..])
  {
    moved := false;
    for i := 0 to g.size
      invariant PhaseInv(g, comm[..], commDegree[..], col) && AloneOrEmpty(comm[..], alone && !moved)
      invariant !moved ==> comm[..] == old(comm[..]) && forall k :: 0 <= k < i ==> IsBestFor(g, comm[..], k, comm[k])
    {
      assert |comm[..]| == g.size by {
        hide Colored, Coherent;
      }
      hide PhaseInv, IsBestFor, AloneOrEmpty;
      ghost var before := comm[..];
      var m := MoveVertex(g, comm, commDegree, i, col);
      StaysEmpty(g, before, i, comm[i], alone && !moved);
      if !m {
        assert comm[..] == before;
      }
      moved := moved || m;
    }
    assert !moved ==> Settled(g, comm[..]) by {
      hide IsBestFor;
    }
  }

  /** louvainPhase1: communities stay within components. `moves` counts the passes that moved a vertex;
      unless the limit on passes is reached every vertex is settled. */
  method Phase1(g: LouvainGraph, comm: array<nat>, maxPasses: nat, ghost col: seq<Component>) returns (changed: bool, ghost moves: nat)
    requires Shaped(g) && Colored(g, col) && comm.Length == g.size && comm[..] == Singletons(g.size)
    modifies comm
    ensures Coherent(comm[..], col) && forall i :: 0 <= i < g.size ==> comm[i] < g.size
    ensures moves <= maxPasses && (changed <==> moves > 0) && AloneOrEmpty(comm[..], !changed)
    ensures g.m > 0 && moves < maxPasses ==> Settled(g, comm[..])
  {
    changed, moves := false, 0;
    if g.m == 0 {
      return;
    }
    var commDegree := StartDegrees(g, comm[..]);
    var pass, moved := 0, true;
    while pass < maxPasses && moved
      invariant PhaseInv(g, comm[..], commDegree[..], col) && AloneOrEmpty(comm[..], !changed)
      invariant pass <= maxPasses && (changed <==> moves > 0) && moves == (if moved then pass else pass - 1)
      invariant !moved ==> Settled(g, comm[..])
      decreases maxPasses - pass
    {
      hide PhaseInv, Settled, AloneOrEmpty;
      moved := Pass(g, comm, commDegree, col, !changed);
      pass := pass + 1;
      changed := changed || moved;
      if moved {
        moves := moves + 1;
      }
    }
  }

  /* ---- relabelling ---- */

  ghost predicate IsAscending(order: seq<nat>) { forall i, j :: 0 <= i < j < |order| ==> order[i] < order[j] }

  /** `order` lists the communities in use in ascending order, `rank` their positions. */
  ghost predicate IsRanking(comm: seq<nat>, order: seq<nat>, rank: map<nat, nat>) {
    IsAscending(order) && (forall c :: c in order <==> c in comm)
    && (forall k :: 0 <= k < |order| ==> order[k] in rank && rank[order[k]] == k) && (forall c :: c in rank <==> c in comm)
  }

  method SortInts(values: set<nat>) returns (order: seq<nat>)
    ensures IsAscending(order) && forall c :: c in order <==> c in values
  {
    order := [];
    var rest := values;
    while rest != {}
      invariant rest <= values && IsAscending(order) && forall c :: c in order <==> c in values - rest
      invariant forall c, i :: c in rest && 0 <= i < |order| ==> order[i] < c
    {
      ghost var least := Least(rest);
      var next :| next in rest && forall c :: c in rest ==> next <= c;
      order, rest := order + [next], rest - {next};
    }
  }

  lemma Least(values: set<nat>) returns (least: nat)
    requires values != {}
    ensures least in values && forall c :: c in values ==> least <= c
    decreases |values|
  {
    least :| least in values;
    if values != {least} {
      assert forall c :: c in values ==> c == least || c in values - {least};
      var rest := Least(values - {least});
      if rest < least {
        least := rest;
      }
    }
  }

  method RankCommunities(comm: seq<nat>) returns (order: seq<nat>, rank: map<nat, nat>)
    ensures IsRanking(comm, order, rank)
  {
    var seen := set c | c in comm;
    order := SortInts(seen);
    rank := map[];
    for k := 0 to |order|
      invariant forall i :: 0 <= i < k ==> order[i] in rank && rank[order[i]] == i
      invariant forall c :: c in rank <==> c in order[..k]
    {
      assert order[..k + 1] == order[..k] + [order[k]];
      rank := rank[order[k] := k];
    }
    assert order[..|order|] == order;
  }

  /** There is one ranking: aggregation and the main loop, which rank separately, agree. */
  lemma {:induction false} AscendingAgree(a: seq<nat>, b: seq<nat>)
    requires IsAscending(a) && IsAscending(b) && forall c :: c in a <==> c in b
    ensures a == b
  {
    assert b != [] ==> b[0] in b;
    if a == [] {
    } else {
      assert a[|a| - 1] in b;
      var m := |a| - 1;
      var n := |b| - 1;
      assert b[n] in a;
      assert a[m] == b[n];
      forall c
        ensures c in a[..m] <==> c in b[..n]
      {
        assert c in a[..m] <==> c in a && c != a[m];
        assert c in b[..n] <==> c in b && c != b[n];
      }
      AscendingAgree(a[..m], b[..n]);
      assert a == a[..m] + [a[m]] && b == b[..n] + [b[n]];
    }
  }

  lemma RankingsAgree(comm: seq<nat>, order1: seq<nat>, rank1: map<nat, nat>, order2: seq<nat>, rank2: map<nat, nat>)
    requires IsRanking(comm, order1, rank1) && IsRanking(comm, order2, rank2)
    ensures order1 == order2 && rank1 == rank2
  {
    AscendingAgree(order1, order2);
    forall c | c in rank1
      ensures c in rank2 && rank1[c] == rank2[c]
    {
      var k :| 0 <= k < |order1| && order1[k] == c;
    }
  }

  /** Leaving an empty community behind, the next graph is smaller. */
  lemma FewerCommunities(comm: seq<nat>, order: seq<nat>, rank: map<nat, nat>)
    requires IsRanking(comm, order, rank) && (forall i :: 0 <= i < |comm| ==> comm[i] < |comm|) && exists e: nat :: IsEmpty(comm, e)
    ensures |order| < |comm|
  {
    var e: nat :| IsEmpty(comm, e);
    BelowIs(|comm|);
    InUseCount(order);
    forall c | c in InUse(order)
      ensures c in Below(|comm|) - {e}
    {
    }
    hide InUse, Below;
    Ordering.SubsetCount(InUse(order), Below(|comm|) - {e});
  }

  ghost function Below(n: nat): set<nat> { if n == 0 then {} else Below(n - 1) + {n - 1} }

  lemma BelowIs(n: nat)
    ensures |Below(n)| == n && forall c: nat :: c in Below(n) <==> c < n
  {
  }

  ghost function InUse(order: seq<nat>): set<nat> { set c | c in order }

  lemma LastIsNew(order: seq<nat>)
    requires IsAscending(order) && order != []
    ensures var n := |order| - 1;
            IsAscending(order[..n]) && order[n] !in InUse(order[..n]) && InUse(order) == InUse(order[..n]) + {order[n]}
  {
    assert order == order[..|order| - 1] + [order[|order| - 1]];
  }

  lemma {:induction false} InUseCount(order: seq<nat>)
    requires IsAscending(order)
    ensures |InUse(order)| == |order|
  {
    if order == [] {
      assert InUse(order) == {};
    } else {
      hide IsAscending, InUse;
      LastIsNew(order);
      InUseCount(order[..|order| - 1]);
    }
  }

  /** Every vertex's new label. */
  function Relabel(comm: seq<nat>, rank: map<nat, nat>): seq<nat>
    requires forall c :: c in comm ==> c in rank
  {
    seq(|comm|, i requires 0 <= i < |comm| => assert comm[i] in comm; rank[comm[i]])
  }

  /* ---- aggregation ---- */

  /** The aggregated rows and degrees after the first `n` vertices, and part of the row of the next. */
  ghost predicate Aggregated(g: LouvainGraph, cc: seq<nat>, size: nat, adj: seq<Row>, deg: seq<nat>, n: nat, keys: set<nat>) {
    Shaped(g) && |cc| == g.size && n <= g.size && |adj| == size && |deg| == size && (forall i :: 0 <= i < g.size ==> cc[i] < size)
    && (forall k, l :: 0 <= k < size && 0 <= l < size ==>
          At(adj[k], l) == Block(g.adj, cc, k, l, n) + if n < g.size && cc[n] == k then RowTo(OnlyTo(g.adj[n], keys), cc, l, g.size) else 0)
    && (forall k :: 0 <= k < size ==> deg[k] == CommDegree(g.deg, cc, k, n))
  }

  /** An aggregated entry stems from some entry between the two communities. */
  ghost predicate Stems(g: LouvainGraph, cc: seq<nat>, adj: seq<Row>) {
    |g.adj| == g.size == |cc|
    && forall k, l :: 0 <= k < |adj| && l in adj[k] ==> exists i, j :: 0 <= i < g.size && j in g.adj[i] && j < g.size && cc[i] == k && cc[j] == l
  }

  lemma AggregateEntry(g: LouvainGraph, cc: seq<nat>, size: nat, adj: seq<Row>, deg: seq<nat>, n: nat, keys: set<nat>, j: nat)
    requires Aggregated(g, cc, size, adj, deg, n, keys) && Stems(g, cc, adj) && n < g.size && j in g.adj[n] && j !in keys
    ensures j < g.size
    ensures var adj' := adj[cc[n] := Put(adj[cc[n]], cc[j], At(adj[cc[n]], cc[j]) + g.adj[n][j])];
            Aggregated(g, cc, size, adj', deg, n, keys + {j}) && Stems(g, cc, adj')
  {
    assert j < g.size;
    var row := g.adj[n];
    OneMoreKey(row, keys, j);
    forall l
      ensures RowTo(OnlyTo(row, keys + {j}), cc, l, g.size) == RowTo(OnlyTo(row, keys), cc, l, g.size) + if cc[j] == l then row[j] else 0
    {
      RowToUpdate(OnlyTo(row, keys), cc, l, j, row[j], g.size);
    }
    hide RowTo, Block, CommDegree;
  }

  lemma AggregateRow(g: LouvainGraph, cc: seq<nat>, size: nat, adj: seq<Row>, deg: seq<nat>, n: nat)
    requires n < g.size == |g.adj| && Aggregated(g, cc, size, adj, deg, n, g.adj[n].Keys)
    ensures Aggregated(g, cc, size, adj, deg[cc[n] := deg[cc[n]] + g.deg[n]], n + 1, {})
  {
    assert OnlyTo(g.adj[n], g.adj[n].Keys) == g.adj[n];
    EmptyRowTo(cc, g.size);
    hide RowTo;
    forall k, l | 0 <= k < size && 0 <= l < size
      ensures At(adj[k], l) == Block(g.adj, cc, k, l, n + 1) + if n + 1 < g.size && cc[n + 1] == k then RowTo(OnlyTo(g.adj[n + 1], {}), cc, l, g.size) else 0
    {
      if n + 1 < g.size {
        assert OnlyTo(g.adj[n + 1], {}) == map[];
      }
      assert Block(g.adj, cc, k, l, n + 1) == Block(g.adj, cc, k, l, n) + if cc[n] == k then RowTo(g.adj[n], cc, l, g.size) else 0;
    }
  }

  lemma StartAggregate(g: LouvainGraph, cc: seq<nat>, size: nat)
    requires Shaped(g) && |cc| == g.size && forall i :: 0 <= i < g.size ==> cc[i] < size
    ensures Aggregated(g, cc, size, seq(size, i => map[]), seq(size, i => 0), 0, {}) && Stems(g, cc, seq(size, i => map[]))
  {
    if g.size > 0 {
      assert OnlyTo(g.adj[0], {}) == map[];
      EmptyRowTo(cc, g.size);
    }
    hide RowTo;
  }

  /** One vertex of the old graph: its degree and its row go to its community. */
  method AggregateVertex(g: LouvainGraph, cc: seq<nat>, size: nat, adj: seq<Row>, deg: seq<nat>, n: nat) returns (adj': seq<Row>, deg': seq<nat>)
    requires n < g.size && Aggregated(g, cc, size, adj, deg, n, {}) && Stems(g, cc, adj)
    ensures Aggregated(g, cc, size, adj', deg', n + 1, {}) && Stems(g, cc, adj')
  {
    adj' := adj;
    var row := g.adj[n];
    var rest := row.Keys;
    ghost var done: set<nat> := {};
    var nc := cc[n];
    while rest != {}
      invariant rest !! done && rest + done == row.Keys && |adj'| == size && nc < size && |cc| == g.size
      invariant Aggregated(g, cc, size, adj', deg, n, done) && Stems(g, cc, adj')
    {
      var j :| j in rest;
      AggregateEntry(g, cc, size, adj', deg, n, done, j);
      adj' := adj'[nc := Put(adj'[nc], cc[j], At(adj'[nc], cc[j]) + row[j])];
      hide *;
      rest, done := rest - {j}, done + {j};
    }
    assert done == row.Keys;
    AggregateRow(g, cc, size, adj', deg, n);
    deg' := deg[nc := deg[nc] + g.deg[n]];
  }

  lemma AggregateDone(g: LouvainGraph, cc: seq<nat>, size: nat, adj: seq<Row>, deg: seq<nat>)
    requires Aggregated(g, cc, size, adj, deg, g.size, {}) && Stems(g, cc, adj)
    ensures Collapsed(g, cc, LouvainGraph(size, adj, deg, g.m))
  {
    hide Block, CommDegree;
  }

  /** louvainAggregate: the communities collapse to the vertices of the next graph. */
  method Aggregate(g: LouvainGraph, comm: seq<nat>) returns (ng: LouvainGraph, ghost rank: map<nat, nat>, ghost order: seq<nat>)
    requires LouvainGraphs.WellFormed(g) && |comm| == g.size
    ensures IsRanking(comm, order, rank) && ng.size == |order| && (forall c :: c in comm ==> c in rank)
    ensures Collapsed(g, Relabel(comm, rank), ng) && LouvainGraphs.WellFormed(ng) && Stems(g, Relabel(comm, rank), ng.adj)
  {
    var sorted, newIdx := RankCommunities(comm);
    order, rank := sorted, newIdx;
    var cc, size := Relabel(comm, newIdx), |sorted|;
    RanksFit(comm, sorted, newIdx);
    var adj: seq<Row>, deg: seq<nat> := seq(size, i => map[]), seq(size, i => 0);
    StartAggregate(g, cc, size);
    hide *;
    for n := 0 to g.size
      invariant Aggregated(g, cc, size, adj, deg, n, {}) && Stems(g, cc, adj)
    {
      adj, deg := AggregateVertex(g, cc, size, adj, deg, n);
    }
    ng := LouvainGraph(size, adj, deg, g.m);
    AggregateDone(g, cc, size, adj, deg);
    CollapsedWellFormed(g, cc, ng);
  }

  lemma RanksFit(comm: seq<nat>, order: seq<nat>, rank: map<nat, nat>)
    requires IsRanking(comm, order, rank)
    ensures (forall c :: c in comm ==> c in rank) && forall i :: 0 <= i < |comm| ==> Relabel(comm, rank)[i] < |order|
  {
    forall i | 0 <= i < |comm|
      ensures comm[i] in rank && rank[comm[i]] < |order|
    {
      assert comm[i] in comm && comm[i] in order;
      var k :| 0 <= k < |order| && order[k] == comm[i];
    }
  }

  lemma SameRankSameCommunity(comm: seq<nat>, order: seq<nat>, rank: map<nat, nat>, a: nat, b: nat)
    requires IsRanking(comm, order, rank) && a in comm && b in comm && a in rank && b in rank && rank[a] == rank[b]
    ensures a == b
  {
    assert a in order && b in order;
    var i :| 0 <= i < |order| && order[i] == a;
    var j :| 0 <= j < |order| && order[j] == b;
  }

  /** The components carry over: a vertex of the next graph stands for the component of its members. */
  lemma ColorsCarryOver(g: LouvainGraph, comm: seq<nat>, col: seq<Component>, ng: LouvainGraph, order: seq<nat>, rank: map<nat, nat>) returns (col': seq<Component>)
    requires Colored(g, col) && Coherent(comm, col) && |comm| == g.size && IsRanking(comm, order, rank) && ng.size == |order|
    requires (forall c :: c in comm ==> c in rank) && Shaped(ng) && Stems(g, Relabel(comm, rank), ng.adj)
    ensures Colored(ng, col') && forall i :: 0 <= i < g.size ==> Relabel(comm, rank)[i] < ng.size && col'[Relabel(comm, rank)[i]] == col[i]
  {
    var cc := Relabel(comm, rank);
    RanksFit(comm, order, rank);
    col' := seq(|order|, k requires 0 <= k < |order| => MemberColor(cc, col, k));
    forall i | 0 <= i < g.size
      ensures cc[i] < ng.size && col'[cc[i]] == col[i]
    {
      var k := cc[i];
      var r :| 0 <= r < |cc| && cc[r] == k && MemberColor(cc, col, k) == col[r];
      assert comm[i] in comm && comm[r] in comm;
      SameRankSameCommunity(comm, order, rank, comm[i], comm[r]);
    }
  }

  ghost function MemberColor(cc: seq<nat>, col: seq<Component>, k: nat): Component
    requires |cc| == |col|
  {
    if exists i :: 0 <= i < |cc| && cc[i] == k then
      var i :| 0 <= i < |cc| && cc[i] == k;
      col[i]
    else {}
  }
}
