/** What holds over whole runs of the storage server, in every interleaving of its steps. */
module StorageLaws {
  import opened WordBuffers
  import opened Commits
  import opened LockTables
  import opened UndoTables
  import opened StorageServer

  // ------------------------------------------------------------------------- sentence locks

  lemma EmptyAgrees()
    ensures LocksAgree(EMPTY)
  {
    assert forall key :: Find(EMPTY.locks, key) == 0;
    assert forall key :: !HeldBySome(EMPTY, key);
  }

  lemma {:induction false} RunKeepsLocks(s: State, es: seq<Event>)
    requires LocksAgree(s)
    ensures LocksAgree(Run(s, es)) && KeepsSlots(s.locks, Run(s, es).locks)
    decreases |es|
  {
    hide LocksAgree, Step;
    if es != [] {
      StepKeepsLocks(s, es[0]);
      RunKeepsLocks(Step(s, es[0]), es[1..]);
    }
  }

  /** In every interleaving: no two sessions are between acquire and release of one key, a key is locked exactly
      while a session holds it (so every exit gives back what it took), keys are unique, and the table never
      overflows. */
  lemma MutualExclusion(es: seq<Event>)
    ensures var s := Run(EMPTY, es);
            && Exclusive(s)
            && (forall key :: IsLocked(s.locks, key) <==> HeldBySome(s, key))
            && UniqueKeys(s.locks) && |s.locks| <= MAX_LOCKS
  {
    EmptyAgrees();
    RunKeepsLocks(EMPTY, es);
  }

  // -------------------------------------------------------------------------- commit locks

  /** Holding the commit lock of its file. */
  predicate Guarded(s: State, id: nat) {
    id in s.clients && s.clients[id].phase.Committing? && s.clients[id].phase.guarded
  }

  /** Committing without a commit lock, because the table of commit locks had no room. */
  predicate Unguarded(s: State, id: nat) {
    id in s.clients && s.clients[id].phase.Committing? && !s.clients[id].phase.guarded
  }

  ghost predicate GuardedBySome(s: State, file: string) {
    exists id :: Guarded(s, id) && s.clients[id].file == file
  }

  ghost predicate OnePerFile(s: State) {
    forall a, b :: Guarded(s, a) && Guarded(s, b) && a != b ==> s.clients[a].file != s.clients[b].file
  }

  /** The table is full and has no entry for the file. */
  predicate NoEntry(t: seq<Entry<string>>, file: string) {
    Find(t, file) == |t| == MAX_LOCKS
  }

  ghost predicate UnguardedHaveNoEntry(s: State, t: seq<Entry<string>>) {
    forall id :: Unguarded(s, id) ==> NoEntry(t, s.clients[id].file)
  }

  /** At most one session commits under the lock of a file, and nobody commits beside it. */
  ghost predicate CommitsAgree(s: State) {
    && UniqueKeys(s.commits) && |s.commits| <= MAX_LOCKS
    && OnePerFile(s)
    && (forall file :: IsLocked(s.commits, file) <==> GuardedBySome(s, file))
    && UnguardedHaveNoEntry(s, s.commits)
  }

  predicate TouchesCommits(e: Event) {
    e.ReadLatest? || e.WriteBack?
  }

  ghost predicate SameCommitters(s: State, t: State) {
    && t.commits == s.commits
    && (forall id :: Guarded(t, id) == Guarded(s, id) && Unguarded(t, id) == Unguarded(s, id))
    && (forall id :: Guarded(s, id) || Unguarded(s, id) ==> t.clients[id] == s.clients[id])
  }

  lemma OneOtherMoves(s: State, t: State, id: nat)
    requires t.commits == s.commits && id in t.clients && t.clients == s.clients[id := t.clients[id]]
    requires !t.clients[id].phase.Committing? && (id in s.clients ==> !s.clients[id].phase.Committing?)
    ensures SameCommitters(s, t)
  {
  }

  lemma NobodyMoves(s: State, t: State)
    requires t.commits == s.commits && t.clients == s.clients
    ensures SameCommitters(s, t)
  {
  }

  lemma OtherStepsKeepCommitters(s: State, e: Event)
    requires !TouchesCommits(e)
    ensures SameCommitters(s, Step(s, e))
  {
    hide Commit, Open, Accepted, Apply, IsLocked, Save, Take, ImageOf, Release, Acquire, CanAcquire, Content,
         SameCommitters, Find;
    var t := Step(s, e);
    match e
    case OpenFile(id, _, _) => if t != s { OneOtherMoves(s, t, id); } else { NobodyMoves(s, t); }
    case AcquireLock(id, _) => if InPhase(s, id, Reading) { OneOtherMoves(s, t, id); } else { NobodyMoves(s, t); }
    case SaveImage(id) => if InPhase(s, id, Locked) { OneOtherMoves(s, t, id); } else { NobodyMoves(s, t); }
    case Receive(id, _) => if InPhase(s, id, Editing) { OneOtherMoves(s, t, id); } else { NobodyMoves(s, t); }
    case Finish(id) => if InPhase(s, id, Editing) { OneOtherMoves(s, t, id); } else { NobodyMoves(s, t); }
    case Disconnect(id) => if InPhase(s, id, Editing) { OneOtherMoves(s, t, id); } else { NobodyMoves(s, t); }
    case ReleaseKey(id) => if InPhase(s, id, Leaving) { OneOtherMoves(s, t, id); } else { NobodyMoves(s, t); }
    case _ => NobodyMoves(s, t);
  }

  lemma SameCommittersAgree(s: State, t: State)
    requires CommitsAgree(s) && SameCommitters(s, t)
    ensures CommitsAgree(t)
  {
    hide IsLocked, UniqueKeys, Find;
    forall file
      ensures GuardedBySome(t, file) == GuardedBySome(s, file)
    {
      if GuardedBySome(s, file) {
        var id :| Guarded(s, id) && s.clients[id].file == file;
        assert Guarded(t, id) && t.clients[id].file == file;
      }
      if GuardedBySome(t, file) {
        var id :| Guarded(t, id) && t.clients[id].file == file;
        assert Guarded(s, id) && s.clients[id].file == file;
      }
    }
  }

  /** What acquiring does to the slots of other keys, and when it can fail. */
  lemma AcquireRoom(t: seq<Entry<string>>, key: string)
    requires UniqueKeys(t) && |t| <= MAX_LOCKS && !IsLocked(t, key)
    ensures !CanAcquire(t, key) ==> NoEntry(t, key) && Acquire(t, key, "") == t
    ensures forall other :: NoEntry(t, other) ==> NoEntry(Acquire(t, key, ""), other)
  {
    AcquireLaws(t, key, "");
    WithEntryLaws(t, key);
    forall other | NoEntry(t, other)
      ensures NoEntry(Acquire(t, key, ""), other)
    {
      SlotsKeepMissing(t, Acquire(t, key, ""), other);
    }
  }

  lemma SlotsKeepMissing(t: seq<Entry<string>>, u: seq<Entry<string>>, key: string)
    requires KeepsSlots(t, u) && |u| <= MAX_LOCKS && NoEntry(t, key)
    ensures NoEntry(u, key)
  {
  }

  lemma CommitterEnters(s: State, t: State, id: nat)
    requires id in s.clients && !s.clients[id].phase.Committing?
    requires id in t.clients && t.clients == s.clients[id := t.clients[id]] && t.clients[id].phase.Committing?
    ensures var file := t.clients[id].file;
            && (forall f :: GuardedBySome(t, f) <==> GuardedBySome(s, f) || (Guarded(t, id) && f == file))
            && (OnePerFile(s) && !GuardedBySome(s, file) ==> OnePerFile(t))
            && (forall u :: UnguardedHaveNoEntry(s, u) && (Unguarded(t, id) ==> NoEntry(u, file))
                            ==> UnguardedHaveNoEntry(t, u))
  {
    hide NoEntry;
    var file := t.clients[id].file;
    assert forall i :: i != id ==> Guarded(t, i) == Guarded(s, i) && Unguarded(t, i) == Unguarded(s, i);
    assert forall i :: Guarded(s, i) ==> i != id && t.clients[i] == s.clients[i];
    forall f
      ensures GuardedBySome(t, f) <==> GuardedBySome(s, f) || (Guarded(t, id) && f == file)
    {
      if GuardedBySome(s, f) {
        var i :| Guarded(s, i) && s.clients[i].file == f;
        assert Guarded(t, i) && t.clients[i].file == f;
      }
      if GuardedBySome(t, f) && !(Guarded(t, id) && f == file) {
        var i :| Guarded(t, i) && t.clients[i].file == f;
        assert Guarded(s, i) && s.clients[i].file == f;
      }
    }
  }

  lemma CommitterLeaves(s: State, t: State, id: nat)
    requires id in s.clients && s.clients[id].phase.Committing? && OnePerFile(s)
    requires id in t.clients && t.clients == s.clients[id := t.clients[id]] && !t.clients[id].phase.Committing?
    ensures forall f :: GuardedBySome(t, f) <==> GuardedBySome(s, f) && !(Guarded(s, id) && f == s.clients[id].file)
    ensures OnePerFile(t) && forall u :: UnguardedHaveNoEntry(s, u) ==> UnguardedHaveNoEntry(t, u)
  {
    hide NoEntry;
    var file := s.clients[id].file;
    assert forall i :: Guarded(t, i) ==> i != id && Guarded(s, i) && t.clients[i] == s.clients[i];
    forall f
      ensures GuardedBySome(t, f) <==> GuardedBySome(s, f) && !(Guarded(s, id) && f == file)
    {
      if GuardedBySome(s, f) && !(Guarded(s, id) && f == file) {
        var i :| Guarded(s, i) && s.clients[i].file == f;
        assert Guarded(t, i) && t.clients[i].file == f;
      }
      if GuardedBySome(t, f) {
        var i :| Guarded(t, i) && t.clients[i].file == f;
        assert Guarded(s, i) && s.clients[i].file == f;
      }
    }
  }

  lemma ReadLatestAgrees(s: State, id: nat)
    requires CommitsAgree(s)
    ensures CommitsAgree(DoReadLatest(s, id))
  {
    var t := DoReadLatest(s, id);
    if t != s {
      var file := s.clients[id].file;
      AcquireLaws(s.commits, file, "");
      AcquireRoom(s.commits, file);
      hide IsLocked, UniqueKeys, Acquire, CanAcquire, Content, NoEntry, OnePerFile, GuardedBySome;
      CommitterEnters(s, t, id);
      assert UnguardedHaveNoEntry(s, t.commits);
    }
  }

  lemma WriteBackAgrees(s: State, id: nat)
    requires CommitsAgree(s)
    ensures CommitsAgree(DoWriteBack(s, id))
  {
    hide Commit;
    var t := DoWriteBack(s, id);
    if id in s.clients && s.clients[id].phase.Committing? {
      var file := s.clients[id].file;
      assert t.commits == if Guarded(s, id) then Release(s.commits, file) else s.commits;
      ReleaseLaws(s.commits, file);
      forall other | NoEntry(s.commits, other)
        ensures NoEntry(t.commits, other)
      {
        SlotsKeepMissing(s.commits, Release(s.commits, file), other);
      }
      hide IsLocked, UniqueKeys, Release, NoEntry, OnePerFile, GuardedBySome;
      CommitterLeaves(s, t, id);
      assert UnguardedHaveNoEntry(s, t.commits);
    }
  }

  lemma StepKeepsCommits(s: State, e: Event)
    requires CommitsAgree(s)
    ensures CommitsAgree(Step(s, e))
  {
    hide CommitsAgree, SameCommitters, DoReadLatest, DoWriteBack;
    if e.ReadLatest? {
      ReadLatestAgrees(s, e.id);
    } else if e.WriteBack? {
      WriteBackAgrees(s, e.id);
    } else {
      OtherStepsKeepCommitters(s, e);
      SameCommittersAgree(s, Step(s, e));
    }
  }
}
