/** The db.lock protocol: AcquireLock, the stale-lock steal, the heartbeat and ReleaseLock of several
    managers, one file-system call per step, with a clock and crashes. */
module DbLock {
  import opened Wrappers

  /** staleLockAge, in seconds. */
  const STALE_LOCK_AGE := 60

  type Nonce = nat
  type Manager = nat

  /** db.lock: its inode, the nonce inside once the creator has written it, and its modification time. */
  datatype LockFile = Absent | Present(inode: nat, nonce: Option<Nonce>, mtime: nat)

  /** Where a manager stands between two file-system calls. */
  datatype Pc =
    | Idle
    | Created(nonce: Nonce, inode: nat)          // O_EXCL succeeded, contents not written yet
    | Held(nonce: Nonce)                         // lockNonce is set: this manager may write the database
    | SawStale                                   // Stat said the file is too old
    | ReadStale(want: Option<Nonce>)             // the nonce read afterwards
    | StealMatched(want: Option<Nonce>)          // removeLockIfNonce read the same nonce again
    | Releasing(nonce: Nonce)                    // fields cleared, heartbeat told to stop
    | ReleaseMatched(nonce: Nonce)               // removeLockIfNonce read our nonce
    | Dead

  /** The heartbeat goroutine: between ticks, or about to write after its check. */
  datatype Beat = NoBeat | Beating(nonce: Nonce) | BeatMatched(nonce: Nonce)

  datatype State = State(clock: nat, file: LockFile, pc: map<Manager, Pc>, beat: map<Manager, Beat>,
                         owner: map<Nonce, Manager>, nextInode: nat)

  datatype Event =
    | Create(m: Manager, nonce: Nonce)
    | Write(m: Manager)
    | WriteFails(m: Manager)
    | StatStale(m: Manager)
    | ReadNonce(m: Manager)
    | Recheck(m: Manager)
    | Steal(m: Manager)
    | BeginRelease(m: Manager)
    | CheckRelease(m: Manager)
    | Remove(m: Manager)
    | CheckBeat(m: Manager)
    | WriteBeat(m: Manager)
    | Tick(seconds: nat)
    | Crash(m: Manager)

  function NonceOf(f: LockFile): Option<Nonce> { if f.Present? then f.nonce else None }

  function PcOf(s: State, m: Manager): Pc { if m in s.pc then s.pc[m] else Dead }

  function BeatOf(s: State, m: Manager): Beat { if m in s.beat then s.beat[m] else NoBeat }

  function WithPc(s: State, m: Manager, pc: Pc): State { s.(pc := s.pc[m := pc]) }

  predicate Enabled(s: State, e: Event) {
    match e
    case Create(m, n) => PcOf(s, m).Idle? && s.file.Absent? && n !in s.owner
    case Write(m) => PcOf(s, m).Created?
    case WriteFails(m) => PcOf(s, m).Created?
    case StatStale(m) => PcOf(s, m).Idle? && s.file.Present? && s.clock > s.file.mtime + STALE_LOCK_AGE
    case ReadNonce(m) => PcOf(s, m).SawStale?
    case Recheck(m) => PcOf(s, m).ReadStale?
    case Steal(m) => PcOf(s, m).StealMatched?
    case BeginRelease(m) => PcOf(s, m).Held?
    case CheckRelease(m) => PcOf(s, m).Releasing?
    case Remove(m) => PcOf(s, m).ReleaseMatched?
    case CheckBeat(m) => BeatOf(s, m).Beating? && !PcOf(s, m).Dead?
    case WriteBeat(m) => BeatOf(s, m).BeatMatched? && !PcOf(s, m).Dead?
    case Tick(d) => true
    case Crash(m) => !PcOf(s, m).Dead?
  }

  /** One step of the protocol. Create succeeds only without a file; a write goes to the inode that was
      opened, a heartbeat and a removal to the path. */
  function Apply(s: State, e: Event): State
    requires Enabled(s, e)
  {
    match e
    case Create(m, n) =>
      State(s.clock, Present(s.nextInode, None, s.clock), s.pc[m := Created(n, s.nextInode)], s.beat, s.owner[n := m], s.nextInode + 1)
    case Write(m) =>
      var pc := s.pc[m];
      var file := if s.file.Present? && s.file.inode == pc.inode then Present(pc.inode, Some(pc.nonce), s.clock) else s.file;
      State(s.clock, file, s.pc[m := Held(pc.nonce)], s.beat[m := Beating(pc.nonce)], s.owner, s.nextInode)
    case WriteFails(m) => WithPc(s, m, Idle).(file := Absent)
    case StatStale(m) => WithPc(s, m, SawStale)
    case ReadNonce(m) => WithPc(s, m, if s.file.Absent? then Idle else ReadStale(s.file.nonce))
    case Recheck(m) =>
      WithPc(s, m, if s.file.Present? && s.file.nonce == s.pc[m].want then StealMatched(s.pc[m].want) else Idle)
    case Steal(m) => WithPc(s, m, Idle).(file := Absent)
    case BeginRelease(m) =>
      s.(pc := s.pc[m := Releasing(s.pc[m].nonce)], beat := s.beat[m := if BeatOf(s, m).BeatMatched? then s.beat[m] else NoBeat])
    case CheckRelease(m) =>
      WithPc(s, m, if NonceOf(s.file) == Some(s.pc[m].nonce) then ReleaseMatched(s.pc[m].nonce) else Idle)
    case Remove(m) => WithPc(s, m, Idle).(file := Absent)
    case CheckBeat(m) =>
      s.(beat := s.beat[m := if NonceOf(s.file) == Some(s.beat[m].nonce) then BeatMatched(s.beat[m].nonce) else NoBeat])
    case WriteBeat(m) =>
      var n := s.beat[m].nonce;
      var inode := if s.file.Present? then s.file.inode else s.nextInode;
      State(s.clock, Present(inode, Some(n), s.clock), s.pc, s.beat[m := if PcOf(s, m).Held? then Beating(n) else NoBeat], s.owner, s.nextInode + 1)
    case Tick(d) => s.(clock := s.clock + d)
    case Crash(m) => s.(pc := s.pc[m := Dead], beat := s.beat[m := NoBeat])
  }

  ghost predicate Next(s: State, e: Event, s': State) { Enabled(s, e) && s' == Apply(s, e) }

  ghost predicate Init(s: State) {
    s.file.Absent? && s.owner == map[] && (forall m :: m in s.pc ==> s.pc[m].Idle?) && s.beat == map[]
  }

  ghost predicate Run(states: seq<State>, events: seq<Event>) {
    |states| == |events| + 1 && Init(states[0]) && forall i :: 0 <= i < |events| ==> Next(states[i], events[i], states[i + 1])
  }

  /* ---- the assumptions ---- */

  /** A live manager that is creating or holding the lock keeps its file younger than the stale age. */
  ghost predicate Timely(s: State) {
    forall m :: (PcOf(s, m).Created? || PcOf(s, m).Held?) && OwnsFile(s, m) ==> s.clock <= s.file.mtime + STALE_LOCK_AGE
  }

  predicate OwnsFile(s: State, m: Manager) {
    s.file.Present? && match PcOf(s, m)
                       case Created(n, i) => s.file.inode == i && s.file.nonce == None
                       case Held(n) => s.file.nonce == Some(n)
                       case _ => false
  }

  /** When a step acts on an earlier check, what it checked still holds. */
  predicate Undisturbed(s: State, e: Event) {
    match e
    case Steal(m) => PcOf(s, m).StealMatched? ==> s.file.Present? && s.file.nonce == s.pc[m].want && s.clock > s.file.mtime + STALE_LOCK_AGE
    case Remove(m) => PcOf(s, m).ReleaseMatched? ==> NonceOf(s.file) == Some(s.pc[m].nonce)
    case WriteBeat(m) => BeatOf(s, m).BeatMatched? ==> NonceOf(s.file) == Some(s.beat[m].nonce)
    case _ => true
  }

  /* ---- mutual exclusion ---- */

  ghost predicate AtMostOneHolder(s: State) {
    forall m, m' :: PcOf(s, m).Held? && PcOf(s, m').Held? ==> m == m'
  }

  function PcNonce(pc: Pc): Option<Nonce> {
    match pc
    case Created(n, _) => Some(n)
    case Held(n) => Some(n)
    case Releasing(n) => Some(n)
    case ReleaseMatched(n) => Some(n)
    case _ => None
  }

  ghost predicate OwnNonces(s: State, m: Manager) {
    (PcNonce(PcOf(s, m)).Some? ==> PcNonce(PcOf(s, m)).value in s.owner && s.owner[PcNonce(PcOf(s, m)).value] == m)
    && (!BeatOf(s, m).NoBeat? ==> BeatOf(s, m).nonce in s.owner && s.owner[BeatOf(s, m).nonce] == m)
  }

  ghost predicate Inv(s: State) {
    (forall m :: OwnNonces(s, m))
    && (forall m :: PcOf(s, m).Created? || PcOf(s, m).Held? ==> OwnsFile(s, m))
    && (s.file.Present? ==> s.file.inode < s.nextInode)
    && (forall m :: PcOf(s, m).Created? ==> PcOf(s, m).inode < s.nextInode)
    && (s.file.Present? && s.file.nonce.Some? ==> s.file.nonce.value in s.owner)
    && (forall m, m' :: PcOf(s, m).Created? && PcOf(s, m').Created? && PcOf(s, m).inode == PcOf(s, m').inode ==> m == m')
  }

  lemma InvExcludes(s: State)
    requires Inv(s)
    ensures AtMostOneHolder(s)
  {
    forall m, m' | PcOf(s, m).Held? && PcOf(s, m').Held?
      ensures m == m'
    {
      assert OwnsFile(s, m) && OwnsFile(s, m') && OwnNonces(s, m) && OwnNonces(s, m');
    }
  }

  lemma InvInit(s: State)
    requires Init(s)
    ensures Inv(s)
  {
  }

  function Actor(e: Event): Manager {
    match e
    case Create(m, _) => m
    case Write(m) => m
    case WriteFails(m) => m
    case StatStale(m) => m
    case ReadNonce(m) => m
    case Recheck(m) => m
    case Steal(m) => m
    case BeginRelease(m) => m
    case CheckRelease(m) => m
    case Remove(m) => m
    case CheckBeat(m) => m
    case WriteBeat(m) => m
    case Tick(_) => 0
    case Crash(m) => m
  }

  /** The files of the managers that did not act are still theirs. */
  lemma OthersKeepFile(s: State, e: Event, s': State, m: Manager)
    requires Inv(s) && Next(s, e, s') && Timely(s) && Undisturbed(s, e)
    requires m != Actor(e) || e.Tick?
    ensures PcOf(s', m).Created? || PcOf(s', m).Held? ==> OwnsFile(s', m)
  {
    var a := Actor(e);
    assert PcOf(s', m) == PcOf(s, m);
    assert OwnNonces(s, m) && OwnNonces(s, a);
    if PcOf(s, m).Created? || PcOf(s, m).Held? {
      assert OwnsFile(s, m);
      assert PcOf(s, a).Created? || PcOf(s, a).Held? ==> OwnsFile(s, a);
    }
  }

  lemma ActorOwnsFile(s: State, e: Event, s': State)
    requires Inv(s) && Next(s, e, s') && Timely(s) && Undisturbed(s, e) && !e.Tick?
    ensures var a := Actor(e); PcOf(s', a).Created? || PcOf(s', a).Held? ==> OwnsFile(s', a)
  {
    var a := Actor(e);
    assert OwnNonces(s, a);
    assert PcOf(s, a).Created? || PcOf(s, a).Held? ==> OwnsFile(s, a);
  }

  lemma NoncesKept(s: State, e: Event, s': State, m: Manager)
    requires Inv(s) && Next(s, e, s')
    ensures OwnNonces(s', m)
  {
    assert OwnNonces(s, m) && OwnNonces(s, Actor(e));
    hide Inv, OwnsFile;
  }

  /** A step keeps the invariant if live holders were timely and nobody disturbed the check it acts on. */
  lemma InvNext(s: State, e: Event, s': State)
    requires Inv(s) && Next(s, e, s') && Timely(s) && Undisturbed(s, e)
    ensures Inv(s')
  {
    forall m
      ensures OwnNonces(s', m)
      ensures PcOf(s', m).Created? || PcOf(s', m).Held? ==> OwnsFile(s', m)
    {
      NoncesKept(s, e, s', m);
      if m == Actor(e) && !e.Tick? {
        ActorOwnsFile(s, e, s');
      } else {
        OthersKeepFile(s, e, s', m);
      }
    }
    FileFacts(s, e, s');
    hide Apply, OwnNonces, OwnsFile;
  }

  lemma FileFacts(s: State, e: Event, s': State)
    requires Inv(s) && Next(s, e, s') && Undisturbed(s, e)
    ensures s'.file.Present? ==> s'.file.inode < s'.nextInode
    ensures forall m :: PcOf(s', m).Created? ==> PcOf(s', m).inode < s'.nextInode
    ensures s'.file.Present? && s'.file.nonce.Some? ==> s'.file.nonce.value in s'.owner
    ensures forall m, m' :: PcOf(s', m).Created? && PcOf(s', m').Created? && PcOf(s', m).inode == PcOf(s', m').inode ==> m == m'
  {
    assert OwnNonces(s, Actor(e));
    assert forall m :: PcOf(s', m).Created? ==> (PcOf(s', m) == PcOf(s, m) || (m == Actor(e) && e.Create? && PcOf(s', m).inode == s.nextInode));
  }

  /** Mutual exclusion: whatever the interleaving, if live holders' heartbeats land in time and no
      check is outdated when it is acted on, at most one manager holds the lock. */
  lemma {:induction false} MutualExclusion(states: seq<State>, events: seq<Event>, i: nat)
    requires Run(states, events) && i < |states|
    requires forall j :: 0 <= j < i ==> Timely(states[j]) && Undisturbed(states[j], events[j])
    ensures Inv(states[i]) && AtMostOneHolder(states[i])
  {
    if i == 0 {
      InvInit(states[0]);
    } else {
      MutualExclusion(states, events, i - 1);
      assert Next(states[i - 1], events[i - 1], states[i]);
      hide Inv, Next;
      InvNext(states[i - 1], events[i - 1], states[i]);
    }
    InvExcludes(states[i]);
  }

  /* ---- atomic check-and-act ---- */

  /** The checks a step relies on are the steps just before it. */
  predicate Uninterrupted(events: seq<Event>, i: nat)
    requires i < |events|
  {
    match events[i]
    case Steal(m) => i >= 3 && events[i - 3] == StatStale(m) && events[i - 2] == ReadNonce(m) && events[i - 1] == Recheck(m)
    case Remove(m) => i >= 1 && events[i - 1] == CheckRelease(m)
    case WriteBeat(m) => i >= 1 && events[i - 1] == CheckBeat(m)
    case _ => true
  }

  lemma UninterruptedIsUndisturbed(states: seq<State>, events: seq<Event>, i: nat)
    requires Run(states, events) && i < |events| && Uninterrupted(events, i)
    ensures Undisturbed(states[i], events[i])
  {
    hide Init;
    assert Next(states[i], events[i], states[i + 1]);
    match events[i]
    case Steal(m) =>
      assert Next(states[i - 1], events[i - 1], states[i]);
      assert Next(states[i - 2], events[i - 2], states[i - 1]);
      assert Next(states[i - 3], events[i - 3], states[i - 2]);
    case Remove(m) => assert Next(states[i - 1], events[i - 1], states[i]);
    case WriteBeat(m) => assert Next(states[i - 1], events[i - 1], states[i]);
    case _ =>
  }

  /** With check-and-act atomic and live holders timely, at most one manager holds the lock in every
      reachable state. */
  lemma AtomicMutualExclusion(states: seq<State>, events: seq<Event>, i: nat)
    requires Run(states, events) && i < |states|
    requires forall j :: 0 <= j < i ==> Timely(states[j]) && Uninterrupted(events, j)
    ensures AtMostOneHolder(states[i])
  {
    forall j | 0 <= j < i
      ensures Undisturbed(states[j], events[j])
    {
      UninterruptedIsUndisturbed(states, events, j);
    }
    MutualExclusion(states, events, i);
  }

  /** And then release and heartbeat never touch a file that carries another nonce. */
  lemma AtomicActsAreOwn(states: seq<State>, events: seq<Event>, i: nat)
    requires Run(states, events) && i < |events| && Uninterrupted(events, i)
    requires events[i].Remove? || events[i].WriteBeat?
    ensures NonceOf(states[i].file).Some?
    ensures events[i].Remove? ==> NonceOf(states[i].file) == PcNonce(PcOf(states[i], events[i].m))
    ensures events[i].WriteBeat? ==> !BeatOf(states[i], events[i].m).NoBeat? && NonceOf(states[i].file) == Some(BeatOf(states[i], events[i].m).nonce)
  {
    assert Next(states[i], events[i], states[i + 1]);
    UninterruptedIsUndisturbed(states, events, i);
  }

  /* ---- progress ---- */

  /** The steps lead from `s` to `t`, manager `m` taking all of them. */
  ghost predicate Does(s: State, m: Manager, events: seq<Event>, t: State)
    decreases |events|
  {
    if events == [] then s == t
    else Actor(events[0]) == m && !events[0].Tick? && Enabled(s, events[0]) && Does(Apply(s, events[0]), m, events[1..], t)
  }

  lemma DoesFirst(s: State, m: Manager, e: Event, events: seq<Event>, t: State)
    requires Enabled(s, e) && Actor(e) == m && !e.Tick? && Does(Apply(s, e), m, events, t)
    ensures Does(s, m, [e] + events, t)
  {
    assert ([e] + events)[1..] == events;
    hide Enabled, Apply;
  }

  /** Where there is no file, an idle manager acquires the lock in two steps. */
  lemma FreeLockIsAcquired(s: State, m: Manager, nonce: Nonce) returns (t: State)
    requires m in s.pc && s.pc[m].Idle? && s.file.Absent? && nonce !in s.owner
    ensures Does(s, m, [Create(m, nonce), Write(m)], t) && PcOf(t, m) == Held(nonce) && BeatOf(t, m) == Beating(nonce)
    ensures t.file == Present(s.nextInode, Some(nonce), s.clock) && forall k :: k != m ==> PcOf(t, k) == PcOf(s, k)
  {
    var s1 := Apply(s, Create(m, nonce));
    t := Apply(s1, Write(m));
    assert Does(t, m, [], t);
    DoesFirst(s1, m, Write(m), [], t);
    DoesFirst(s, m, Create(m, nonce), [Write(m)], t);
    assert [Create(m, nonce)] + [Write(m)] == [Create(m, nonce), Write(m)];
    assert [Write(m)] + [] == [Write(m)];
  }

  /** A file left behind for more than sixty seconds is removed in four steps, whoever wrote it. */
  lemma LeftoverIsRemoved(s: State, m: Manager) returns (t: State)
    requires m in s.pc && s.pc[m].Idle? && s.file.Present? && s.clock > s.file.mtime + 60
    ensures Does(s, m, [StatStale(m), ReadNonce(m), Recheck(m), Steal(m)], t) && t == s.(file := Absent)
  {
    var s1 := Apply(s, StatStale(m));
    var s2 := Apply(s1, ReadNonce(m));
    var s3 := Apply(s2, Recheck(m));
    t := Apply(s3, Steal(m));
    assert t.pc == s.pc;
    assert Does(t, m, [], t);
    DoesFirst(s3, m, Steal(m), [], t);
    DoesFirst(s2, m, Recheck(m), [Steal(m)], t);
    DoesFirst(s1, m, ReadNonce(m), [Recheck(m), Steal(m)], t);
    DoesFirst(s, m, StatStale(m), [ReadNonce(m), Recheck(m), Steal(m)], t);
    assert [Steal(m)] + [] == [Steal(m)] && [Recheck(m)] + [Steal(m)] == [Recheck(m), Steal(m)];
    assert [ReadNonce(m)] + [Recheck(m), Steal(m)] == [ReadNonce(m), Recheck(m), Steal(m)];
    assert [StatStale(m)] + [ReadNonce(m), Recheck(m), Steal(m)] == [StatStale(m), ReadNonce(m), Recheck(m), Steal(m)];
  }

  /** A holder whose file still carries its nonce releases it in three steps. */
  lemma HeldIsReleased(s: State, m: Manager) returns (t: State)
    requires m in s.pc && s.pc[m].Held? && NonceOf(s.file) == Some(s.pc[m].nonce)
    ensures Does(s, m, [BeginRelease(m), CheckRelease(m), Remove(m)], t) && PcOf(t, m).Idle? && t.file.Absent?
    ensures forall k :: k != m ==> PcOf(t, k) == PcOf(s, k) && BeatOf(t, k) == BeatOf(s, k)
  {
    var s1 := Apply(s, BeginRelease(m));
    var s2 := Apply(s1, CheckRelease(m));
    t := Apply(s2, Remove(m));
    assert Does(t, m, [], t);
    DoesFirst(s2, m, Remove(m), [], t);
    DoesFirst(s1, m, CheckRelease(m), [Remove(m)], t);
    DoesFirst(s, m, BeginRelease(m), [CheckRelease(m), Remove(m)], t);
    assert [Remove(m)] + [] == [Remove(m)] && [CheckRelease(m)] + [Remove(m)] == [CheckRelease(m), Remove(m)];
    assert [BeginRelease(m)] + [CheckRelease(m), Remove(m)] == [BeginRelease(m), CheckRelease(m), Remove(m)];
  }

  /** An acquisition that fails to write leaves no file behind. */
  lemma FailedWriteLeavesNothing(s: State, m: Manager, nonce: Nonce) returns (t: State)
    requires m in s.pc && s.pc[m].Idle? && s.file.Absent? && nonce !in s.owner
    ensures Does(s, m, [Create(m, nonce), WriteFails(m)], t) && t.file.Absent? && t.pc == s.pc && t.beat == s.beat
  {
    var s1 := Apply(s, Create(m, nonce));
    t := Apply(s1, WriteFails(m));
    assert t.pc == s.pc;
    assert Does(t, m, [], t);
    DoesFirst(s1, m, WriteFails(m), [], t);
    DoesFirst(s, m, Create(m, nonce), [WriteFails(m)], t);
    assert [WriteFails(m)] + [] == [WriteFails(m)] && [Create(m, nonce)] + [WriteFails(m)] == [Create(m, nonce), WriteFails(m)];
  }

  /** A heartbeat makes the holder's file young again and goes on. */
  lemma HeartbeatRefreshes(s: State, m: Manager) returns (t: State)
    requires m in s.pc && s.pc[m].Held? && m in s.beat && s.beat[m] == Beating(s.pc[m].nonce) && NonceOf(s.file) == Some(s.pc[m].nonce)
    ensures Does(s, m, [CheckBeat(m), WriteBeat(m)], t)
    ensures t.file == s.file.(mtime := s.clock) && t.pc == s.pc && t.beat == s.beat
  {
    var s1 := Apply(s, CheckBeat(m));
    t := Apply(s1, WriteBeat(m));
    assert t.beat == s.beat;
    assert Does(t, m, [], t);
    DoesFirst(s1, m, WriteBeat(m), [], t);
    DoesFirst(s, m, CheckBeat(m), [WriteBeat(m)], t);
    assert [WriteBeat(m)] + [] == [WriteBeat(m)] && [CheckBeat(m)] + [WriteBeat(m)] == [CheckBeat(m), WriteBeat(m)];
  }

  /** Nothing waits for the heartbeat to stop: one that is past its check writes the file again after the
      release, and the lock that nobody holds stays taken until the file is stale. */
  lemma LateBeatRelocks(s: State, m: Manager) returns (t: State)
    requires m in s.pc && s.pc[m].Held? && m in s.beat && s.beat[m] == BeatMatched(s.pc[m].nonce) && NonceOf(s.file) == Some(s.pc[m].nonce)
    ensures Does(s, m, [BeginRelease(m), CheckRelease(m), Remove(m), WriteBeat(m)], t)
    ensures PcOf(t, m).Idle? && BeatOf(t, m).NoBeat? && t.file.Present? && t.file.nonce == Some(s.pc[m].nonce) && t.file.mtime == s.clock
  {
    var s1 := Apply(s, BeginRelease(m));
    var s2 := Apply(s1, CheckRelease(m));
    var s3 := Apply(s2, Remove(m));
    t := Apply(s3, WriteBeat(m));
    assert Does(t, m, [], t);
    DoesFirst(s3, m, WriteBeat(m), [], t);
    DoesFirst(s2, m, Remove(m), [WriteBeat(m)], t);
    DoesFirst(s1, m, CheckRelease(m), [Remove(m), WriteBeat(m)], t);
    DoesFirst(s, m, BeginRelease(m), [CheckRelease(m), Remove(m), WriteBeat(m)], t);
    assert [WriteBeat(m)] + [] == [WriteBeat(m)] && [Remove(m)] + [WriteBeat(m)] == [Remove(m), WriteBeat(m)];
    assert [CheckRelease(m)] + [Remove(m), WriteBeat(m)] == [CheckRelease(m), Remove(m), WriteBeat(m)];
    assert [BeginRelease(m)] + [CheckRelease(m), Remove(m), WriteBeat(m)] == [BeginRelease(m), CheckRelease(m), Remove(m), WriteBeat(m)];
  }

  /* ---- what a steal has checked ---- */

  lemma {:induction false} StatBefore(states: seq<State>, events: seq<Event>, i: nat, m: Manager) returns (l: nat)
    requires Run(states, events) && i < |states| && PcOf(states[i], m).SawStale?
    ensures l < i && events[l] == StatStale(m) && states[l].file.Present? && states[l].clock > states[l].file.mtime + 60
  {
    assert i > 0 && Next(states[i - 1], events[i - 1], states[i]);
    if events[i - 1] == StatStale(m) {
      l := i - 1;
    } else {
      l := StatBefore(states, events, i - 1, m);
    }
  }

  lemma {:induction false} ReadBefore(states: seq<State>, events: seq<Event>, i: nat, m: Manager) returns (l: nat, k: nat)
    requires Run(states, events) && i < |states| && PcOf(states[i], m).ReadStale?
    ensures l < k < i && events[l] == StatStale(m) && states[l].file.Present? && states[l].clock > states[l].file.mtime + 60
    ensures events[k] == ReadNonce(m) && states[k].file.Present? && states[k].file.nonce == PcOf(states[i], m).want
  {
    assert i > 0 && Next(states[i - 1], events[i - 1], states[i]);
    if events[i - 1] == ReadNonce(m) {
      k := i - 1;
      l := StatBefore(states, events, k, m);
    } else {
      l, k := ReadBefore(states, events, i - 1, m);
    }
  }

  lemma {:induction false} RecheckBefore(states: seq<State>, events: seq<Event>, i: nat, m: Manager) returns (l: nat, k: nat, j: nat)
    requires Run(states, events) && i < |states| && PcOf(states[i], m).StealMatched?
    ensures l < k < j < i && events[l] == StatStale(m) && states[l].file.Present? && states[l].clock > states[l].file.mtime + 60
    ensures events[k] == ReadNonce(m) && events[j] == Recheck(m) && states[k].file.Present? && states[j].file.Present?
    ensures states[k].file.nonce == states[j].file.nonce == PcOf(states[i], m).want
  {
    assert i > 0 && Next(states[i - 1], events[i - 1], states[i]);
    if events[i - 1] == Recheck(m) {
      j := i - 1;
      l, k := ReadBefore(states, events, j, m);
    } else {
      l, k, j := RecheckBefore(states, events, i - 1, m);
    }
  }

  /** Every steal was preceded by a look at a file older than sixty seconds and by two reads of the same
      nonce. That the file looked at carried that nonce is not among its checks. */
  lemma StealsAreChecked(states: seq<State>, events: seq<Event>, i: nat, m: Manager) returns (l: nat, k: nat, j: nat)
    requires Run(states, events) && i < |events| && events[i] == Steal(m)
    ensures l < k < j < i && events[l] == StatStale(m) && states[l].file.Present? && states[l].clock > states[l].file.mtime + 60
    ensures events[k] == ReadNonce(m) && events[j] == Recheck(m) && states[k].file.Present? && states[j].file.Present?
    ensures states[k].file.nonce == states[j].file.nonce
  {
    assert Next(states[i], events[i], states[i + 1]);
    l, k, j := RecheckBefore(states, events, i, m);
  }

  /** A file is changed only by steals, removals and heartbeats, by a writer that gives up, and by its own
      creator: a late write goes to the file that was opened, not to the one that has taken its place. */
  lemma WhoChangesTheFile(s: State, e: Event, s': State)
    requires Next(s, e, s') && s.file.Present? && s'.file != s.file
    ensures e.Steal? || e.Remove? || e.WriteBeat? || e.WriteFails? || (e.Write? && PcOf(s, e.m).Created? && PcOf(s, e.m).inode == s.file.inode)
  {
  }

  /** No step of another manager touches a written file that is at most sixty seconds old. */
  lemma YoungFileStands(s: State, e: Event, s': State)
    requires Inv(s) && Next(s, e, s') && Undisturbed(s, e)
    requires s.file.Present? && s.file.nonce.Some? && s.clock <= s.file.mtime + 60 && Actor(e) != s.owner[s.file.nonce.value]
    ensures s'.file == s.file
  {
    assert OwnNonces(s, Actor(e));
    assert PcOf(s, Actor(e)).Created? ==> OwnsFile(s, Actor(e));
  }

  /* ---- and without it ---- */

  ghost predicate AllTimely(states: seq<State>) { forall i :: 0 <= i < |states| ==> Timely(states[i]) }

  lemma RunExtends(states: seq<State>, events: seq<Event>, e: Event)
    requires Run(states, events) && AllTimely(states) && Enabled(states[|states| - 1], e)
    requires Timely(Apply(states[|states| - 1], e))
    ensures Run(states + [Apply(states[|states| - 1], e)], events + [e]) && AllTimely(states + [Apply(states[|states| - 1], e)])
  {
    var states', events' := states + [Apply(states[|states| - 1], e)], events + [e];
    hide Timely, Enabled, Apply;
    forall i | 0 <= i < |events'|
      ensures Next(states'[i], events'[i], states'[i + 1])
    {
      if i < |events| {
        assert Next(states[i], events[i], states[i + 1]);
      }
    }
  }

  /** One more step, with the resulting state spelled out. */
  lemma Extend(states: seq<State>, events: seq<Event>, e: Event, t: State) returns (states': seq<State>, events': seq<Event>)
    requires Run(states, events) && AllTimely(states) && Next(states[|states| - 1], e, t) && Timely(t)
    ensures Run(states', events') && AllTimely(states') && states' == states + [t] && events' == events + [e]
  {
    RunExtends(states, events, e);
    states', events' := states + [t], events + [e];
  }

  const STALE_FILE := Present(0, Some(11), 0)

  lemma StartRun(s: State)
    requires Init(s)
    ensures Run([s], []) && AllTimely([s])
  {
  }

  /** Manager 1 acquires. */
  lemma Acquired() returns (states: seq<State>, events: seq<Event>)
    ensures Run(states, events) && AllTimely(states)
    ensures states[|states| - 1] == State(0, STALE_FILE, map[1 := Held(11), 2 := Idle, 3 := Idle], map[1 := Beating(11)], map[11 := 1], 1)
  {
    var idle := map[1 := Idle, 2 := Idle, 3 := Idle];
    states, events := [State(0, Absent, idle, map[], map[], 0)], [];
    hide Run, AllTimely;
    StartRun(states[0]);
    var own := map[11 := 1];
    states, events := Extend(states, events, Create(1, 11), State(0, Present(0, None, 0), idle[1 := Created(11, 0)], map[], own, 1));
    states, events := Extend(states, events, Write(1), State(0, STALE_FILE, idle[1 := Held(11)], map[1 := Beating(11)], own, 1));
  }

  /** It crashes, and 61 seconds pass. */
  lemma LeftBehind() returns (states: seq<State>, events: seq<Event>)
    ensures Run(states, events) && AllTimely(states)
    ensures states[|states| - 1] == State(61, STALE_FILE, map[1 := Dead, 2 := Idle, 3 := Idle], map[1 := NoBeat], map[11 := 1], 1)
  {
    hide Run, AllTimely;
    states, events := Acquired();
    var dead, own := map[1 := Dead, 2 := Idle, 3 := Idle], map[11 := 1];
    states, events := Extend(states, events, Crash(1), State(0, STALE_FILE, dead, map[1 := NoBeat], own, 1));
    states, events := Extend(states, events, Tick(61), State(61, STALE_FILE, dead, map[1 := NoBeat], own, 1));
  }

  /** Managers 2 and 3 both see the stale file, and 3 removes it. */
  lemma StolenOnce() returns (states: seq<State>, events: seq<Event>)
    ensures Run(states, events) && AllTimely(states)
    ensures states[|states| - 1] == State(61, Absent, map[1 := Dead, 2 := SawStale, 3 := Idle], map[1 := NoBeat], map[11 := 1], 1)
  {
    hide Run, AllTimely;
    states, events := LeftBehind();
    var pc, beat, own := map[1 := Dead, 2 := SawStale, 3 := Idle], map[1 := NoBeat], map[11 := 1];
    states, events := Extend(states, events, StatStale(2), State(61, STALE_FILE, pc, beat, own, 1));
    states, events := Extend(states, events, StatStale(3), State(61, STALE_FILE, pc[3 := SawStale], beat, own, 1));
    states, events := Extend(states, events, ReadNonce(3), State(61, STALE_FILE, pc[3 := ReadStale(Some(11))], beat, own, 1));
    states, events := Extend(states, events, Recheck(3), State(61, STALE_FILE, pc[3 := StealMatched(Some(11))], beat, own, 1));
    states, events := Extend(states, events, Steal(3), State(61, Absent, pc, beat, own, 1));
  }

  /** Manager 3 acquires. */
  lemma Reacquired() returns (states: seq<State>, events: seq<Event>)
    ensures Run(states, events) && AllTimely(states)
    ensures states[|states| - 1] == State(61, Present(1, Some(33), 61), map[1 := Dead, 2 := SawStale, 3 := Held(33)],
                                          map[1 := NoBeat, 3 := Beating(33)], map[11 := 1, 33 := 3], 2)
  {
    hide Run, AllTimely;
    states, events := StolenOnce();
    var pc, beat, own := map[1 := Dead, 2 := SawStale, 3 := Idle], map[1 := NoBeat], map[11 := 1];
    states, events := Extend(states, events, Create(3, 33), State(61, Present(1, None, 61), pc[3 := Created(33, 1)], beat, own[33 := 3], 2));
    states, events := Extend(states, events, Write(3), State(61, Present(1, Some(33), 61), pc[3 := Held(33)], beat[3 := Beating(33)], own[33 := 3], 2));
  }

  /** The steal reads its nonce only after the stat, so manager 2, which judged the old file, removes
      the fresh lock of manager 3 and acquires: two holders, although every heartbeat was in time. */
  lemma LateReadAdmitsTwoHolders() returns (states: seq<State>, events: seq<Event>)
    ensures Run(states, events) && AllTimely(states) && !AtMostOneHolder(states[|states| - 1])
  {
    hide Run, AllTimely;
    states, events := Reacquired();
    var fresh3, beat, own := Present(1, Some(33), 61), map[1 := NoBeat, 3 := Beating(33)], map[11 := 1, 33 := 3];
    var pc := map[1 := Dead, 2 := SawStale, 3 := Held(33)];
    states, events := Extend(states, events, ReadNonce(2), State(61, fresh3, pc[2 := ReadStale(Some(33))], beat, own, 2));
    states, events := Extend(states, events, Recheck(2), State(61, fresh3, pc[2 := StealMatched(Some(33))], beat, own, 2));
    states, events := Extend(states, events, Steal(2), State(61, Absent, pc[2 := Idle], beat, own, 2));
    states, events := Extend(states, events, Create(2, 22), State(61, Present(2, None, 61), pc[2 := Created(22, 2)], beat, own[22 := 2], 3));
    states, events := Extend(states, events, Write(2), State(61, Present(2, Some(22), 61), pc[2 := Held(22)], beat[2 := Beating(22)], own[22 := 2], 3));
    var last := states[|states| - 1];
    assert PcOf(last, 2).Held? && PcOf(last, 3).Held?;
  }
}
