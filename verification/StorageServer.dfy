/** The storage server as a step machine: WRITE sessions move through reading, locking, editing, committing and
    releasing, interleaved with each other and with the other operations on files
    (storage_server/storage_server.c). A run is any sequence of events; an event that is not possible in a state
    leaves it unchanged. */
module StorageServer {
  import opened WordBuffers
  import opened WordLaws
  import opened Commits
  import opened LockTables
  import opened UndoTables

  // ------------------------------------------------------------------------------- the state

  /** Where a WRITE session is in handle_write_file. `latest` is the content read under the commit lock; `guarded`
      tells whether there was a commit lock to take (the table of commit locks can be full). */
  datatype Phase =
    | Reading
    | Locked
    | Editing
    | Finishing
    | Committing(latest: string, guarded: bool)
    | Leaving
    | Closed

  /** A session: the file and content it opened, what it edits, and the update messages received so far. */
  datatype Client = Client(file: string, base: string, session: Session, updates: seq<Update>, phase: Phase)

  datatype State = State(
    files: map<string, string>,
    backup: map<string, string>,
    checkpoints: map<(string, string), string>,
    undo: seq<Image>,
    locks: seq<Entry<SentenceKey>>,
    commits: seq<Entry<string>>,
    clients: map<nat, Client>)

  datatype Event =
    | OpenFile(id: nat, file: string, index: int)
    | AcquireLock(id: nat, user: string)
    | SaveImage(id: nat)
    | Receive(id: nat, update: Update)
    | Finish(id: nat)
    | Disconnect(id: nat)
    | ReadLatest(id: nat)
    | WriteBack(id: nat)
    | ReleaseKey(id: nat)
    | CreateFile(file: string)
    | DeleteFile(file: string)
    | Undo(file: string)
    | Checkpoint(file: string, tag: string)
    | Revert(file: string, tag: string)
    | Push(file: string, content: string)

  const EMPTY := State(map[], map[], map[], [], [], [], map[])

  /** A missing file reads as empty. */
  function Content(s: State, file: string): string {
    if file in s.files then s.files[file] else ""
  }

  /** Every write goes to the file and to its backup copy. */
  function Store(s: State, file: string, content: string): State {
    s.(files := s.files[file := content], backup := s.backup[file := content])
  }

  function Key(c: Client): SentenceKey {
    (c.file, c.session.index)
  }

  predicate InPhase(s: State, id: nat, phase: Phase) {
    id in s.clients && s.clients[id].phase == phase
  }

  function Move(s: State, id: nat, phase: Phase): State
    requires id in s.clients
  {
    s.(clients := s.clients[id := s.clients[id].(phase := phase)])
  }

  // ------------------------------------------------------------------------------- the steps

  /** Read the file, split it and check the index; nothing is locked yet. */
  function DoOpen(s: State, id: nat, file: string, index: int): State {
    if id in s.clients then s
    else match Open(Content(s, file), index)
      case Rejected => s
      case Opened(session) => s.(clients := s.clients[id := Client(file, Content(s, file), session, [], Reading)])
  }

  /** try_acquire_lock on (file, index); a refused session ends. */
  function DoAcquire(s: State, id: nat, user: string): State {
    if !InPhase(s, id, Reading) then s
    else
      var key := Key(s.clients[id]);
      Move(s, id, if CanAcquire(s.locks, key) then Locked else Closed).(locks := Acquire(s.locks, key, user))
  }

  /** The undo image is the content read when the session opened. */
  function DoSave(s: State, id: nat): State {
    if !InPhase(s, id, Locked) then s
    else
      var c := s.clients[id];
      Move(s, id, Editing).(undo := Save(s.undo, c.file, c.base))
  }

  function DoReceive(s: State, id: nat, u: Update): State {
    if !InPhase(s, id, Editing) then s
    else
      var c := s.clients[id];
      var words := c.session.words;
      var next := if Accepted(words, u) then Apply(words, u) else words;
      s.(clients := s.clients[id := c.(session := c.session.(words := next), updates := c.updates + [u])])
  }

  /** Take the commit lock of the file, when the table has an entry for it, and read the latest content. */
  function DoReadLatest(s: State, id: nat): State {
    if !InPhase(s, id, Finishing) then s
    else
      var file := s.clients[id].file;
      if IsLocked(s.commits, file) then s
      else
        Move(s, id, Committing(Content(s, file), CanAcquire(s.commits, file)))
        .(commits := Acquire(s.commits, file, ""))
  }

  /** Remap, splice and write; then drop the commit lock. */
  function DoWriteBack(s: State, id: nat): State {
    if !(id in s.clients && s.clients[id].phase.Committing?) then s
    else
      var c := s.clients[id];
      var out := Commit(c.phase.latest, c.session);
      var t := if out.Written? then Store(s, c.file, out.content) else s;
      Move(t, id, Leaving).(commits := if c.phase.guarded then Release(t.commits, c.file) else t.commits)
  }

  function DoRelease(s: State, id: nat): State {
    if !InPhase(s, id, Leaving) then s
    else Move(s, id, Closed).(locks := Release(s.locks, Key(s.clients[id])))
  }

  function DoUndo(s: State, file: string): State {
    match ImageOf(s.undo, file)
    case None => s.(undo := Take(s.undo, file))
    case Some(content) => Store(s, file, content).(undo := Take(s.undo, file))
  }

  function Step(s: State, e: Event): State {
    match e
    case OpenFile(id, file, index) => DoOpen(s, id, file, index)
    case AcquireLock(id, user) => DoAcquire(s, id, user)
    case SaveImage(id) => DoSave(s, id)
    case Receive(id, u) => DoReceive(s, id, u)
    case Finish(id) => if InPhase(s, id, Editing) then Move(s, id, Finishing) else s
    case Disconnect(id) => if InPhase(s, id, Editing) then Move(s, id, Leaving) else s
    case ReadLatest(id) => DoReadLatest(s, id)
    case WriteBack(id) => DoWriteBack(s, id)
    case ReleaseKey(id) => DoRelease(s, id)
    case CreateFile(file) => if file in s.files then s else Store(s, file, "")
    case DeleteFile(file) => s.(files := s.files - {file})
    case Undo(file) => DoUndo(s, file)
    case Checkpoint(file, tag) =>
      if file in s.files then s.(checkpoints := s.checkpoints[(file, tag) := s.files[file]]) else s
    case Revert(file, tag) =>
      if (file, tag) in s.checkpoints then Store(s, file, s.checkpoints[(file, tag)]) else s
    case Push(file, content) => Store(s, file, content)
  }

  function Run(s: State, es: seq<Event>): State
    decreases |es|
  {
    if es == [] then s else Run(Step(s, es[0]), es[1..])
  }

  /** A run in two parts. */
  lemma {:induction false} RunConcat(s: State, a: seq<Event>, b: seq<Event>)
    ensures Run(s, a + b) == Run(Run(s, a), b)
    decreases |a|
  {
    if a == [] {
      assert a + b == b;
    } else {
      assert (a + b)[1..] == a[1..] + b;
      RunConcat(Step(s, a[0]), a[1..], b);
    }
  }

  // ------------------------------------------------------------------- mutual exclusion of sessions

  /** Between a granted try_acquire_lock and release_lock. */
  predicate Holding(s: State, id: nat) {
    id in s.clients && !s.clients[id].phase.Reading? && !s.clients[id].phase.Closed?
  }

  /** Distinct sessions between acquire and release never share a (file, index) key. */
  ghost predicate Exclusive(s: State) {
    forall a, b :: Holding(s, a) && Holding(s, b) && a != b ==> Key(s.clients[a]) != Key(s.clients[b])
  }

  ghost predicate HeldBySome(s: State, key: SentenceKey) {
    exists id :: Holding(s, id) && Key(s.clients[id]) == key
  }

  /** The lock table agrees with the sessions: a key is locked exactly when some session holds it. */
  ghost predicate LocksAgree(s: State) {
    && UniqueKeys(s.locks) && |s.locks| <= MAX_LOCKS
    && Exclusive(s)
    && forall key :: IsLocked(s.locks, key) <==> HeldBySome(s, key)
  }

  /** A step that changes neither the lock table, nor who holds, nor any key. */
  lemma SameHolders(s: State, t: State)
    requires LocksAgree(s) && SameHolding(s, t)
    ensures LocksAgree(t)
  {
    hide IsLocked, UniqueKeys, Key;
    forall key
      ensures HeldBySome(t, key) == HeldBySome(s, key)
    {
      if HeldBySome(s, key) {
        var id :| Holding(s, id) && Key(s.clients[id]) == key;
        assert Holding(t, id) && Key(t.clients[id]) == key;
      }
      if HeldBySome(t, key) {
        var id :| Holding(t, id) && Key(t.clients[id]) == key;
        assert Holding(s, id) && Key(s.clients[id]) == key;
      }
    }
  }

  lemma NewHolder(s: State, t: State, id: nat, key: SentenceKey)
    requires !Holding(s, id) && id in t.clients && t.clients == s.clients[id := t.clients[id]]
    requires Holding(t, id) && Key(t.clients[id]) == key
    ensures forall k :: HeldBySome(t, k) <==> HeldBySome(s, k) || k == key
    ensures Exclusive(s) && !HeldBySome(s, key) ==> Exclusive(t)
  {
    forall k
      ensures HeldBySome(t, k) <==> HeldBySome(s, k) || k == key
    {
      if HeldBySome(s, k) {
        var i :| Holding(s, i) && Key(s.clients[i]) == k;
        assert Holding(t, i) && Key(t.clients[i]) == k;
      }
      if HeldBySome(t, k) && k != key {
        var i :| Holding(t, i) && Key(t.clients[i]) == k;
        assert Holding(s, i) && Key(s.clients[i]) == k;
      }
    }
    assert forall i :: Holding(t, i) && i != id ==> Holding(s, i) && Key(t.clients[i]) == Key(s.clients[i]);
  }

  lemma HolderLeaves(s: State, t: State, id: nat)
    requires Exclusive(s) && Holding(s, id) && id in t.clients && t.clients == s.clients[id := t.clients[id]]
    requires !Holding(t, id)
    ensures Exclusive(t)
    ensures forall k :: HeldBySome(t, k) <==> HeldBySome(s, k) && k != Key(s.clients[id])
  {
    assert forall i :: Holding(t, i) ==> i != id && Holding(s, i) && Key(t.clients[i]) == Key(s.clients[i]);
    forall k
      ensures HeldBySome(t, k) <==> HeldBySome(s, k) && k != Key(s.clients[id])
    {
      if HeldBySome(s, k) && k != Key(s.clients[id]) {
        var i :| Holding(s, i) && Key(s.clients[i]) == k;
        assert Holding(t, i) && Key(t.clients[i]) == k;
      }
      if HeldBySome(t, k) {
        var i :| Holding(t, i) && Key(t.clients[i]) == k;
        assert Holding(s, i) && Key(s.clients[i]) == k;
      }
    }
  }

  lemma AcquireAgrees(s: State, id: nat, user: string)
    requires LocksAgree(s)
    ensures LocksAgree(DoAcquire(s, id, user))
  {
    if InPhase(s, id, Reading) {
      var t, key := DoAcquire(s, id, user), Key(s.clients[id]);
      AcquireLaws(s.locks, key, user);
      hide IsLocked, UniqueKeys, Acquire, HeldBySome, Exclusive;
      if CanAcquire(s.locks, key) {
        NewHolder(s, t, id, key);
      } else {
        OneClientMoves(s, t.(locks := s.locks), id);
        SameHolders(s, t.(locks := s.locks));
        SameClients(t, t.(locks := s.locks));
      }
    }
  }

  lemma SameClients(s: State, t: State)
    requires s.clients == t.clients
    ensures Exclusive(s) == Exclusive(t) && forall k :: HeldBySome(s, k) == HeldBySome(t, k)
  {
    assert forall i :: Holding(s, i) == Holding(t, i);
  }

  lemma ReleaseAgrees(s: State, id: nat)
    requires LocksAgree(s)
    ensures LocksAgree(DoRelease(s, id))
  {
    if InPhase(s, id, Leaving) {
      ReleaseLaws(s.locks, Key(s.clients[id]));
      hide IsLocked, UniqueKeys, Release, HeldBySome, Exclusive;
      HolderLeaves(s, DoRelease(s, id), id);
    }
  }

  predicate TouchesLocks(e: Event) {
    e.AcquireLock? || e.ReleaseKey?
  }

  /** t has the same lock table, the same holders and the same keys as s. */
  ghost predicate SameHolding(s: State, t: State) {
    && t.locks == s.locks
    && (forall id :: Holding(t, id) ==> Holding(s, id))
    && (forall id :: Holding(s, id) ==> Holding(t, id) && Key(t.clients[id]) == Key(s.clients[id]))
  }

  lemma OneClientMoves(s: State, t: State, id: nat)
    requires t.locks == s.locks && id in t.clients && t.clients == s.clients[id := t.clients[id]]
    requires Holding(t, id) == Holding(s, id)
    requires Holding(s, id) ==> Key(t.clients[id]) == Key(s.clients[id])
    ensures SameHolding(s, t)
  {
    forall i
      ensures i != id ==> Holding(t, i) == Holding(s, i) && (Holding(s, i) ==> t.clients[i] == s.clients[i])
    {
    }
  }

  lemma OtherStepsKeepHolders(s: State, e: Event)
    requires !TouchesLocks(e)
    ensures SameHolding(s, Step(s, e))
  {
    hide Commit, Open, Accepted, Apply, IsLocked, Save, Take, ImageOf, Release, Acquire, CanAcquire, Content,
         SameHolding, Feed, Find;
    var t := Step(s, e);
    match e
    case OpenFile(id, _, _) => if t != s { OneClientMoves(s, t, id); } else { NothingMoves(s, t); }
    case SaveImage(id) => if InPhase(s, id, Locked) { OneClientMoves(s, t, id); } else { NothingMoves(s, t); }
    case Receive(id, _) => if InPhase(s, id, Editing) { OneClientMoves(s, t, id); } else { NothingMoves(s, t); }
    case Finish(id) => if InPhase(s, id, Editing) { OneClientMoves(s, t, id); } else { NothingMoves(s, t); }
    case Disconnect(id) => if InPhase(s, id, Editing) { OneClientMoves(s, t, id); } else { NothingMoves(s, t); }
    case ReadLatest(id) => if t != s { OneClientMoves(s, t, id); } else { NothingMoves(s, t); }
    case WriteBack(id) => if t != s { OneClientMoves(s, t, id); } else { NothingMoves(s, t); }
    case _ => NothingMoves(s, t);
  }

  lemma NothingMoves(s: State, t: State)
    requires t.locks == s.locks && t.clients == s.clients
    ensures SameHolding(s, t)
  {
  }

  /** Every step keeps the lock table and the sessions in agreement, and every entry in its slot. */
  lemma StepKeepsLocks(s: State, e: Event)
    requires LocksAgree(s)
    ensures LocksAgree(Step(s, e)) && KeepsSlots(s.locks, Step(s, e).locks)
  {
    hide UniqueKeys, IsLocked, Acquire, Release, CanAcquire, Save;
    match e
    case AcquireLock(id, user) =>
      AcquireAgrees(s, id, user);
      if InPhase(s, id, Reading) { AcquireLaws(s.locks, Key(s.clients[id]), user); }
    case ReleaseKey(id) =>
      ReleaseAgrees(s, id);
      if InPhase(s, id, Leaving) { ReleaseLaws(s.locks, Key(s.clients[id])); }
    case _ =>
      OtherStepsKeepHolders(s, e);
      hide Step;
      SameHolders(s, Step(s, e));
  }
}
