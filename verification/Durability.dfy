/** One manager's commits as steps, with a crash allowed between any two of them and restarts in
    between. The file system offers one atomic step, the rename; digests are injective. */
module Durability {
  import opened Wrappers
  import opened Graphs
  import opened AkgStore
  import opened Ordering
  import opened GraphJson
  import opened Transactions

  /** Where a transaction stands. `staged` is what the temp file holds: nothing readable until the
      write is complete. */
  datatype Phase =
    | Idle
    | Began(shadow: GraphValue)
    | Staged(shadow: GraphValue, staged: Option<GraphDoc>)
    | Verified(shadow: GraphValue, doc: GraphDoc)
    | Renamed(shadow: GraphValue, before: Option<GraphDoc>)

  datatype Process = Down | Up(active: GraphValue, txCounter: nat, phase: Phase)

  /** `disk` is akg.json; `committed` remembers the graphs whose file was renamed into place. */
  datatype State = State(disk: Option<GraphDoc>, process: Process, committed: seq<GraphValue>)

  datatype Event =
    | Load
    | Begin(shadow: GraphValue)
    | WritePart
    | WriteAll(doc: GraphDoc)
    | CheckDigest
    | RenameFile
    | PromoteShadow
    | Fail
    | Crash

  /** NewCodePropertyGraph("initial") with version 0, as loadFromDisk sets it up without a file. */
  const INITIAL := GraphValue(CURRENT_SCHEMA_VERSION, "initial", 0, [], map[], map[], map[], [])

  ghost predicate Storable(g: GraphValue) {
    g.schemaVersion == CURRENT_SCHEMA_VERSION && UnderOwnIds(g.nodes) && NonEmptyKeys(g.nodes)
  }

  ghost function Loaded(disk: Option<GraphDoc>): GraphValue {
    match disk
    case None => INITIAL
    case Some(doc) => Imported(doc)
  }

  ghost predicate Next(s: State, e: Event, s': State) {
    match e
    case Load =>
      s.process.Down? && var g := Loaded(s.disk); s' == s.(process := Up(g, g.version, Idle))
    case Begin(shadow) =>
      s.process.Up? && s.process.phase.Idle? && Storable(shadow) && shadow.version == s.process.txCounter + 1
      && s' == s.(process := s.process.(txCounter := s.process.txCounter + 1, phase := Began(shadow)))
    case WritePart =>
      s.process.Up? && s.process.phase.Began?
      && s' == s.(process := s.process.(phase := Staged(s.process.phase.shadow, None)))
    case WriteAll(doc) =>
      s.process.Up? && s.process.phase.Began? && IsDocOf(doc, s.process.phase.shadow) && DocClosed(doc)
      && s' == s.(process := s.process.(phase := Staged(s.process.phase.shadow, Some(doc))))
    case CheckDigest =>
      s.process.Up? && s.process.phase.Staged? && s.process.phase.staged.Some?
      && s' == s.(process := s.process.(phase := Verified(s.process.phase.shadow, s.process.phase.staged.value)))
    case RenameFile =>
      s.process.Up? && s.process.phase.Verified?
      && s' == State(Some(s.process.phase.doc), s.process.(phase := Renamed(s.process.phase.shadow, s.disk)), s.committed + [s.process.phase.shadow])
    case PromoteShadow =>
      s.process.Up? && s.process.phase.Renamed?
      && s' == s.(process := s.process.(active := s.process.phase.shadow, phase := Idle))
    case Fail =>
      s.process.Up? && (s.process.phase.Began? || s.process.phase.Staged? || s.process.phase.Verified?)
      && s' == s.(process := s.process.(phase := Idle))
    case Crash =>
      s.process.Up? && s' == s.(process := Down)
  }

  /** A crash may come at any moment, and the restart after it reads the file: nothing else survives. Short
      of the rename a transaction may also just fail, and its version is spent. */
  lemma CrashAnywhere(s: State) returns (t: State)
    requires s.process.Up?
    ensures Next(s, Crash, s.(process := Down)) && Next(s.(process := Down), Load, t)
    ensures t.disk == s.disk && t.committed == s.committed && t.process.Up? && t.process.phase.Idle? && t.process.txCounter == t.process.active.version
    ensures s.disk.None? ==> t.process.active == GraphValue(3, "initial", 0, [], map[], map[], map[], [])
    ensures s.disk.Some? ==> t.process.active == Imported(s.disk.value)
    ensures !s.process.phase.Idle? && !s.process.phase.Renamed? ==> Next(s, Fail, s.(process := Up(s.process.active, s.process.txCounter, Idle)))
  {
    hide Imported;
    var g := Loaded(s.disk);
    t := s.(process := Up(g, g.version, Idle));
  }

  /** A fresh storage directory. */
  ghost predicate Init(s: State) { s == State(None, Down, []) }

  ghost predicate Steps(states: seq<State>, events: seq<Event>) {
    |states| == |events| + 1 && forall i :: 0 <= i < |events| ==> Next(states[i], events[i], states[i + 1])
  }

  ghost predicate Run(states: seq<State>, events: seq<Event>) { Steps(states, events) && Init(states[0]) }

  /* ---- the invariant ---- */

  /** The file is a complete export of `g`. */
  ghost predicate CompleteExport(doc: GraphDoc, g: GraphValue) {
    IsDocOf(doc, g) && DocClosed(doc) && Storable(g)
  }

  /** `active` is what the file says: exporting it gives the file again, up to tied edges. */
  ghost predicate Agrees(active: GraphValue, disk: Option<GraphDoc>) {
    match disk
    case None => active == INITIAL
    case Some(doc) => Storable(active) && active.version == doc.version && forall doc' :: IsDocOf(doc', active) ==> SameUpToTies(doc', doc)
  }

  ghost predicate SameUpToTies(a: GraphDoc, b: GraphDoc) {
    a.(edges := b.edges) == b && multiset(a.edges) == multiset(b.edges)
  }

  ghost predicate Increasing(gs: seq<GraphValue>) {
    forall i, j :: 0 <= i < j < |gs| ==> gs[i].version < gs[j].version
  }

  ghost predicate DiskIsLastCommit(s: State) {
    match s.disk
    case None => s.committed == []
    case Some(doc) => s.committed != [] && CompleteExport(doc, s.committed[|s.committed| - 1])
  }

  ghost predicate AllBelow(gs: seq<GraphValue>, bound: nat) { forall i :: 0 <= i < |gs| ==> gs[i].version <= bound }

  /** The process side: its graph is that of the file, except between rename and promotion, when it is
      that of the file before. */
  ghost predicate ProcessOk(s: State) {
    s.process.Up? ==>
      AllBelow(s.committed, s.process.txCounter)
      && match s.process.phase
         case Idle => Agrees(s.process.active, s.disk)
         case Began(shadow) => Agrees(s.process.active, s.disk) && Pending(s, shadow)
         case Staged(shadow, staged) => Agrees(s.process.active, s.disk) && Pending(s, shadow) && (staged.Some? ==> CompleteExport(staged.value, shadow))
         case Verified(shadow, doc) => Agrees(s.process.active, s.disk) && Pending(s, shadow) && CompleteExport(doc, shadow)
         case Renamed(shadow, before) =>
           Agrees(s.process.active, before) && s.process.active.version < shadow.version
           && s.disk.Some? && CompleteExport(s.disk.value, shadow)
  }

  /** A shadow not yet on disk is newer than everything committed. */
  ghost predicate Pending(s: State, shadow: GraphValue)
    requires s.process.Up?
  {
    Storable(shadow) && shadow.version == s.process.txCounter && s.process.active.version < shadow.version
    && forall i :: 0 <= i < |s.committed| ==> s.committed[i].version < shadow.version
  }

  ghost predicate Inv(s: State) {
    DiskIsLastCommit(s) && Increasing(s.committed) && ProcessOk(s) && (s.process.Up? ==> s.process.active.version <= s.process.txCounter)
  }

  lemma ExportsAgree(doc: GraphDoc, g: GraphValue)
    requires CompleteExport(doc, g)
    ensures Agrees(g, Some(doc))
  {
    hide EdgesInOrder, NodesInOrder, Listing, FirstOfEachKey, Met, DocClosed, UnderOwnIds;
    forall doc' | IsDocOf(doc', g)
      ensures SameUpToTies(doc', doc)
    {
      NodesRoundTrip(doc, g);
      NodesRoundTrip(doc', g);
    }
  }

  lemma ImportAgrees(doc: GraphDoc, g: GraphValue)
    requires CompleteExport(doc, g)
    ensures Agrees(Imported(doc), Some(doc))
  {
    hide EdgesInOrder, NodesInOrder, Listing, FirstOfEachKey, Met, DocClosed, UnderOwnIds, SameEnds, NodesFrom, OutFrom;
    NodesRoundTrip(doc, g);
    EndpointsNamed(doc, g);
    forall doc' | IsDocOf(doc', Imported(doc))
      ensures SameUpToTies(doc', doc)
    {
      RoundTrip(g, doc, doc');
    }
  }

  lemma InitialAgrees()
    ensures Agrees(INITIAL, None)
  {
  }

  lemma InvLoad(s: State, s': State)
    requires Inv(s) && Next(s, Load, s')
    ensures Inv(s')
  {
    hide CompleteExport, Agrees, Imported;
    match s.disk
    case None =>
      InitialAgrees();
    case Some(doc) =>
      var last := s.committed[|s.committed| - 1];
      ImportAgrees(doc, last);
      VersionOf(doc, last);
  }

  lemma VersionOf(doc: GraphDoc, g: GraphValue)
    requires CompleteExport(doc, g)
    ensures Imported(doc).version == g.version == doc.version
  {
  }

  lemma InvBegin(s: State, shadow: GraphValue, s': State)
    requires Inv(s) && Next(s, Begin(shadow), s')
    ensures Inv(s')
  {
    hide CompleteExport, Agrees, Storable;
  }

  lemma InvWrite(s: State, e: Event, s': State)
    requires Inv(s) && Next(s, e, s') && (e.WritePart? || e.WriteAll? || e.CheckDigest?)
    ensures Inv(s')
  {
    hide Agrees, IsDocOf, DocClosed, UnderOwnIds;
  }

  lemma InvRename(s: State, s': State)
    requires Inv(s) && Next(s, RenameFile, s')
    ensures Inv(s')
  {
    hide CompleteExport, Agrees, Storable;
  }

  lemma InvPromote(s: State, s': State)
    requires Inv(s) && Next(s, PromoteShadow, s')
    ensures Inv(s')
  {
    ExportsAgree(s.disk.value, s.process.phase.shadow);
    hide CompleteExport, Agrees;
  }

  lemma InvStop(s: State, e: Event, s': State)
    requires Inv(s) && Next(s, e, s') && (e.Fail? || e.Crash?)
    ensures Inv(s')
  {
    hide CompleteExport, Agrees, Storable;
  }

  lemma InvNext(s: State, e: Event, s': State)
    requires Inv(s) && Next(s, e, s')
    ensures Inv(s')
  {
    hide Inv, Next;
    match e
    case Load => InvLoad(s, s');
    case Begin(shadow) => InvBegin(s, shadow, s');
    case WritePart => InvWrite(s, e, s');
    case WriteAll(_) => InvWrite(s, e, s');
    case CheckDigest => InvWrite(s, e, s');
    case RenameFile => InvRename(s, s');
    case PromoteShadow => InvPromote(s, s');
    case Fail => InvStop(s, e, s');
    case Crash => InvStop(s, e, s');
  }

  /** Every reachable state satisfies the invariant, whatever crashes happened on the way. */
  lemma {:induction false} RunInv(states: seq<State>, events: seq<Event>, i: nat)
    requires Run(states, events) && i < |states|
    ensures Inv(states[i])
  {
    if i > 0 {
      RunInv(states, events, i - 1);
      hide Inv, Next;
      InvNext(states[i - 1], events[i - 1], states[i]);
    }
  }

  /* ---- what follows ---- */

  /** akg.json is always the complete export of the last committed graph, and loading it succeeds. */
  lemma DiskIsAlwaysComplete(states: seq<State>, events: seq<Event>, i: nat)
    requires Run(states, events) && i < |states| && states[i].disk.Some?
    ensures states[i].committed != [] && CompleteExport(states[i].disk.value, states[i].committed[|states[i].committed| - 1])
    ensures states[i].disk.value.schemaVersion == CURRENT_SCHEMA_VERSION
  {
    RunInv(states, events, i);
  }

  /** The active graph is never newer than the file. */
  lemma NeverAheadOfDisk(states: seq<State>, events: seq<Event>, i: nat)
    requires Run(states, events) && i < |states| && states[i].process.Up?
    ensures states[i].process.active.version <= Loaded(states[i].disk).version
  {
    RunInv(states, events, i);
    hide IsDocOf, DocClosed, Storable;
  }

  /** Committed versions strictly increase, across crashes and restarts. */
  lemma CommitsIncrease(states: seq<State>, events: seq<Event>, i: nat)
    requires Run(states, events) && i < |states|
    ensures Increasing(states[i].committed)
  {
    RunInv(states, events, i);
  }

  /** A commit is never lost: what is committed at one time is still the beginning of what is committed
      later. */
  lemma {:induction false} CommitsSurvive(states: seq<State>, events: seq<Event>, i: nat, j: nat)
    requires Run(states, events) && i <= j < |states|
    ensures states[i].committed <= states[j].committed
  {
    if i < j {
      CommitsSurvive(states, events, i, j - 1);
      assert Next(states[j - 1], events[j - 1], states[j]);
    }
  }

  /** Until its rename a transaction leaves the file and the active graph as they were; so a
      transaction that fails has changed neither. */
  lemma {:induction false} FailureChangesNothing(states: seq<State>, events: seq<Event>, i: nat, j: nat)
    requires Run(states, events) && i <= j < |states| && states[i].process.Up? && states[i].process.phase.Idle?
    requires forall k :: i <= k < j ==> !events[k].RenameFile? && !events[k].Crash?
    ensures states[j].process.Up? && !states[j].process.phase.Renamed?
    ensures states[j].disk == states[i].disk && states[j].process.active == states[i].process.active
  {
    if i < j {
      FailureChangesNothing(states, events, i, j - 1);
      assert Next(states[j - 1], events[j - 1], states[j]);
      hide IsDocOf, DocClosed, Storable;
    }
  }

  /* ---- transactions are such steps ---- */

  /** The state `s` is what the manager `tm` and its directory hold between transactions. */
  ghost predicate Mirrors(s: State, tm: TransactionManager)
    reads tm, tm.dir, tm.active, tm.active.outbound.Values, tm.active.nodes.Values
    reads set id | id in tm.active.nodes :: tm.active.nodes[id].properties
  {
    s.process == Up(ValueOf(tm.active), tm.txCounter, Idle) && s.disk == tm.dir.akgJson
  }

  lemma CommitSteps(s: State, shadow: GraphValue, doc: GraphDoc) returns (states: seq<State>, events: seq<Event>)
    requires s.process.Up? && s.process.phase.Idle? && Storable(shadow) && shadow.version == s.process.txCounter + 1
    requires IsDocOf(doc, shadow) && DocClosed(doc)
    ensures Steps(states, events) && states != [] && states[0] == s
    ensures states[|states| - 1] == State(Some(doc), Up(shadow, shadow.version, Idle), s.committed + [shadow])
  {
    hide IsDocOf, DocClosed, Storable;
    var up := s.process.(txCounter := shadow.version);
    events := [Begin(shadow), WriteAll(doc), CheckDigest, RenameFile, PromoteShadow];
    states := [s,
               s.(process := up.(phase := Began(shadow))),
               s.(process := up.(phase := Staged(shadow, Some(doc)))),
               s.(process := up.(phase := Verified(shadow, doc))),
               State(Some(doc), up.(phase := Renamed(shadow, s.disk)), s.committed + [shadow]),
               State(Some(doc), Up(shadow, shadow.version, Idle), s.committed + [shadow])];
  }

  lemma FailSteps(s: State, shadow: GraphValue) returns (states: seq<State>, events: seq<Event>)
    requires s.process.Up? && s.process.phase.Idle? && Storable(shadow) && shadow.version == s.process.txCounter + 1
    ensures Steps(states, events) && states != [] && states[0] == s
    ensures states[|states| - 1] == s.(process := s.process.(txCounter := shadow.version))
  {
    hide Storable;
    var up := s.process.(txCounter := shadow.version);
    events := [Begin(shadow), Fail];
    states := [s, s.(process := up.(phase := Began(shadow))), s.(process := up)];
  }

  lemma CommittedIsStorable(s0: Snapshot, step: Step, norm: string -> string, g: CodePropertyGraph)
    requires Committed(s0, step, norm, SnapshotOf(g)) && NamesItself(s0) && PayloadNamesItself(step.edges, step.nodes)
    requires s0.value.schemaVersion == CURRENT_SCHEMA_VERSION
    ensures Storable(ValueOf(g)) && GuardPasses(ValueOf(g))
  {
    hide *;
    CommittedSchema(s0, step, norm, SnapshotOf(g));
    NeverRejected(s0, step, norm, g);
    ValueIn(g);
    NamedIsStorable(g);
  }

  lemma CommittedSchema(s0: Snapshot, step: Step, norm: string -> string, s1: Snapshot)
    requires Committed(s0, step, norm, s1)
    ensures s1.value.schemaVersion == s0.value.schemaVersion
  {
  }

  lemma NamedIsStorable(g: CodePropertyGraph)
    ensures NamesItself(SnapshotOf(g)) && ValueOf(g).schemaVersion == CURRENT_SCHEMA_VERSION ==> Storable(ValueOf(g))
  {
    SameIds(g);
    ValueIn(g);
    hide SnapshotOf, ValueOf, UnderOwnIds, OwnSources;
  }

  /** A transaction of a manager is a sequence of protocol steps: a granted one commits what it made
      active, a refused one begins and fails, or does not begin. */
  method Execute(tm: TransactionManager, r: Request, norm: string -> string, ghost s: State)
      returns (ok: bool, ghost states: seq<State>, ghost events: seq<Event>)
    requires (forall p :: norm(p) != "") && Transactions.WellFormed(r) && Mirrors(s, tm)
    requires NamesItself(SnapshotOf(tm.active)) && ValueOf(tm.active).schemaVersion == CURRENT_SCHEMA_VERSION
    requires PayloadNamesItself(Look(r).edges, Look(r).nodes)
    modifies tm, tm.dir
    ensures Steps(states, events) && states[0] == s && Mirrors(states[|states| - 1], tm)
    ensures states[|states| - 1].committed == s.committed + if ok then [ValueOf(tm.active)] else []
  {
    hide *;
    ghost var s0, seen, v0 := SnapshotOf(tm.active), Look(r), ValueOf(tm.active);
    ValueIn(tm.active);
    MirrorIs(s, tm);
    NamedIsStorable(tm.active);
    StepParts(r, seen, norm);
    ok := ExecuteDelta(tm, r, norm);
    if ok {
      CommittedIsStorable(s0, StepOf(r, seen, norm), norm, tm.active);
      GuardIsAboutTheGraph(tm.dir.akgJson.value, ValueOf(tm.active));
      VersionIn(tm.active);
      states, events := CommitSteps(s, ValueOf(tm.active), tm.dir.akgJson.value);
    } else if tm.txCounter == s.process.txCounter {
      assert ValueOf(tm.active) == v0;
      states, events := [s], [];
      NoSteps(s);
    } else {
      assert ValueOf(tm.active) == v0;
      OnlyVersion(v0, tm.txCounter);
      states, events := FailSteps(s, v0.(version := tm.txCounter));
    }
    MirrorIs(states[|states| - 1], tm);
  }

  lemma MirrorIs(s: State, tm: TransactionManager)
    ensures Mirrors(s, tm) <==> s.process == Up(ValueOf(tm.active), tm.txCounter, Idle) && s.disk == tm.dir.akgJson
  {
  }

  lemma StepParts(r: Request, seen: Seen, norm: string -> string)
    ensures StepOf(r, seen, norm).edges == seen.edges && StepOf(r, seen, norm).nodes == seen.nodes
  {
  }

  lemma VersionIn(g: CodePropertyGraph)
    ensures ValueOf(g).version == g.version
  {
  }

  lemma NoSteps(s: State)
    ensures Steps([s], [])
  {
  }

  lemma OnlyVersion(v: GraphValue, version: nat)
    requires Storable(v)
    ensures Storable(v.(version := version))
  {
  }
}
