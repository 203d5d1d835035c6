/** What a step of the storage server can change, and by which step alone it changes: stored files, sessions, locks,
    undo images and checkpoints (storage_server/storage_server.c). */
module StepLaws {
  import opened Options
  import opened WordBuffers
  import opened Commits
  import opened LockTables
  import opened UndoTables
  import opened StorageServer
  import opened SessionRuns
  import opened RunLaws

  // ----------------------------------------------------------------------------- stored files

  function Stored(m: map<string, string>, file: string): Option<string> {
    if file in m then Some(m[file]) else None
  }

  /** The ways a file gets a content: a session writes back what its commit makes of the content it read, a missing
      file is created empty, UNDO and REVERT put back a saved content, another server pushes one. */
  predicate Supplies(s: State, e: Event, file: string, text: string) {
    match e
    case WriteBack(id) =>
      && id in s.clients && s.clients[id].phase.Committing? && s.clients[id].file == file
      && Commit(s.clients[id].phase.latest, s.clients[id].session) == Written(text)
    case CreateFile(f) => f == file && file !in s.files && text == ""
    case Undo(f) => f == file && ImageOf(s.undo, file) == Some(text)
    case Revert(f, tag) => f == file && (file, tag) in s.checkpoints && s.checkpoints[(file, tag)] == text
    case Push(f, content) => f == file && content == text
    case _ => false
  }

  /** What happens to a file and its backup copy, in terms of what is supplied. */
  ghost predicate FollowsSupply(s: State, e: Event, file: string, t: State) {
    && (forall text :: Supplies(s, e, file, text) ==>
          Stored(t.files, file) == Stored(t.backup, file) == Some(text))
    && ((forall text :: !Supplies(s, e, file, text)) ==>
          && Stored(t.files, file) == (if e == DeleteFile(file) then None else Stored(s.files, file))
          && Stored(t.backup, file) == Stored(s.backup, file))
  }

  lemma CommitSupplies(s: State, id: nat, file: string)
    ensures FollowsSupply(s, WriteBack(id), file, DoWriteBack(s, id))
  {
    hide Commit, Release;
    if id in s.clients && s.clients[id].phase.Committing? {
      var out := Commit(s.clients[id].phase.latest, s.clients[id].session);
      assert out.Written? && s.clients[id].file == file ==> Supplies(s, WriteBack(id), file, out.content);
    }
  }

  lemma UndoSupplies(s: State, f: string, file: string)
    ensures FollowsSupply(s, Undo(f), file, DoUndo(s, f))
  {
    hide Take, ImageOf;
    var image := ImageOf(s.undo, f);
    assert image.Some? && f == file ==> Supplies(s, Undo(f), file, image.value);
  }

  lemma SessionStepsKeepFiles(s: State, e: Event)
    requires IsWriter(e) && !e.WriteBack?
    ensures Step(s, e).files == s.files && Step(s, e).backup == s.backup
  {
    hide Open, Content, Save, Acquire, Release, CanAcquire, IsLocked, Accepted, Apply;
  }

  /** A file changes in these ways and by DELETE, and in no other; its backup copy in these ways only. */
  lemma FileChangesIff(s: State, e: Event, file: string)
    ensures FollowsSupply(s, e, file, Step(s, e))
  {
    hide Commit, ImageOf, DoWriteBack, DoUndo, Content, DoOpen, DoAcquire, DoSave, DoReceive, DoReadLatest, DoRelease;
    if IsWriter(e) && !e.WriteBack? {
      SessionStepsKeepFiles(s, e);
      hide Step;
    } else {
      match e
      case WriteBack(id) => CommitSupplies(s, id, file);
      case Undo(f) => UndoSupplies(s, f, file);
      case CreateFile(f) => assert f !in s.files && f == file ==> Supplies(s, e, file, "");
      case Revert(f, tag) =>
        assert f == file && (f, tag) in s.checkpoints ==> Supplies(s, e, file, s.checkpoints[(f, tag)]);
      case Push(f, content) => assert f == file ==> Supplies(s, e, file, content);
      case DeleteFile(_) =>
      case Checkpoint(_, _) =>
    }
  }

  // --------------------------------------------------------------------------------- sessions

  /** The one event that takes session `id` from one phase to the next. */
  predicate Passes(e: Event, id: nat, from: Phase, to: Phase) {
    match from
    case Reading => e.AcquireLock? && e.id == id && (to.Locked? || to.Closed?)
    case Locked => e == SaveImage(id) && to.Editing?
    case Editing => (e == Finish(id) && to.Finishing?) || (e == Disconnect(id) && to.Leaving?)
    case Finishing => e == ReadLatest(id) && to.Committing?
    case Committing(_, _) => e == WriteBack(id) && to.Leaving?
    case Leaving => e == ReleaseKey(id) && to.Closed?
    case Closed => false
  }

  /** The event is the next one for the session; a session that is about to commit waits for the commit lock. */
  predicate Due(s: State, e: Event, id: nat)
    requires id in s.clients
  {
    var c := s.clients[id];
    match c.phase
    case Reading => e.AcquireLock? && e.id == id
    case Locked => e == SaveImage(id)
    case Editing => e == Finish(id) || e == Disconnect(id)
    case Finishing => e == ReadLatest(id) && !IsLocked(s.commits, c.file)
    case Committing(_, _) => e == WriteBack(id)
    case Leaving => e == ReleaseKey(id)
    case Closed => false
  }

  /** What a session never changes: the file, the content it read, and what it opened. */
  predicate SameOpening(c: Client, d: Client) {
    d.file == c.file && d.base == c.base && d.session.(words := c.session.words) == c.session
  }

  /** A step of this session, or the opening of one by this name. */
  predicate Concerns(e: Event, id: nat) {
    IsWriter(e) && e.id == id
  }

  lemma OthersStay(s: State, e: Event, id: nat)
    requires id in s.clients && !Concerns(e, id)
    ensures id in Step(s, e).clients && Step(s, e).clients[id] == s.clients[id]
  {
    hide Commit, Open, Content, Save, Take, ImageOf, Acquire, Release, CanAcquire, IsLocked, Find, Accepted, Apply;
  }

  lemma DueMoves(s: State, e: Event, id: nat)
    requires id in s.clients && Due(s, e, id)
    ensures id in Step(s, e).clients && Passes(e, id, s.clients[id].phase, Step(s, e).clients[id].phase)
  {
    hide Commit, Content, Save, Acquire, Release, CanAcquire, IsLocked, DoOpen, DoReceive, DoUndo, Store;
    match s.clients[id].phase
    case Committing(_, _) => WriteBackLeaves(s, id); hide DoWriteBack;
    case _ =>
  }

  lemma WriteBackLeaves(s: State, id: nat)
    requires id in s.clients && s.clients[id].phase.Committing?
    ensures InPhase(DoWriteBack(s, id), id, Leaving)
  {
    hide Commit, Release;
  }

  lemma OthersWait(s: State, e: Event, id: nat)
    requires id in s.clients && !Due(s, e, id)
    ensures id in Step(s, e).clients && Step(s, e).clients[id].phase == s.clients[id].phase
  {
    hide Commit, Open, Content, Save, Take, ImageOf, Acquire, Release, CanAcquire, IsLocked, Find, Accepted, Apply;
    if !Concerns(e, id) {
      OthersStay(s, e, id);
      hide Step;
    }
  }

  /** A session passes through its phases by its own steps only, each in its turn, and never goes away. */
  lemma SessionMoves(s: State, e: Event, id: nat)
    requires id in s.clients
    ensures var t, c := Step(s, e), s.clients[id];
            && id in t.clients
            && if Due(s, e, id) then Passes(e, id, c.phase, t.clients[id].phase) else t.clients[id].phase == c.phase
  {
    hide Step, Due;
    if Due(s, e, id) {
      DueMoves(s, e, id);
    } else {
      OthersWait(s, e, id);
    }
  }

  /** What it opened it never changes; it takes in updates by Receive only, while it edits, and its words change by
      nothing else. */
  lemma SessionKeeps(s: State, e: Event, id: nat)
    requires id in s.clients
    ensures var c, d := s.clients[id], Step(s, e).clients[id];
            && SameOpening(c, d)
            && d.updates == c.updates + (if e.Receive? && e.id == id && c.phase.Editing? then [e.update] else [])
            && (d.updates == c.updates ==> d.session == c.session)
  {
    hide Commit, Open, Content, Save, Take, ImageOf, Acquire, Release, CanAcquire, IsLocked, Find, Accepted, Apply;
    var c := s.clients[id];
    assert c.updates + [] == c.updates;
    if !Concerns(e, id) {
      OthersStay(s, e, id);
      hide Step;
    } else if e.Receive? {
      assert Step(s, e) == DoReceive(s, id, e.update);
      hide Step;
    } else if Step(s, e) != s && !e.OpenFile? {
      SessionsKept(s, e);
      hide Step;
    }
  }

  /** A new session is one that its file's content at that moment lets open, and it starts from that content. */
  lemma SessionBegins(s: State, e: Event, id: nat)
    requires id !in s.clients
    ensures var t := Step(s, e);
            id in t.clients <==>
            e.OpenFile? && e.id == id && Open(Content(s, e.file), e.index).Opened?
    ensures var t := Step(s, e);
            id in t.clients ==>
              var base := Content(s, e.file);
              t.clients[id] == Client(e.file, base, Open(base, e.index).session, [], Reading)
  {
    hide Commit, Open, Content, Save, Take, ImageOf, Acquire, Release, CanAcquire, IsLocked, Find, Accepted, Apply;
  }

  /** What a session gets when it asks: the lock of its key if nobody holds it and the table has a slot for it, the end
      otherwise; the content of its file at the time, under the commit lock. */
  lemma SessionIsGiven(s: State, e: Event, id: nat)
    requires LocksAgree(s) && id in s.clients && Due(s, e, id)
    ensures var t, c := Step(s, e), s.clients[id];
            && (c.phase.Reading? ==>
                  (t.clients[id].phase.Locked? <==>
                   !HeldBySome(s, Key(c)) && (|s.locks| < MAX_LOCKS || HasEntry(s.locks, Key(c)))))
            && (c.phase.Finishing? ==> t.clients[id].phase.latest == Content(s, c.file))
  {
    CanAcquireIff(s.locks, Key(s.clients[id]));
    hide Commit, Open, Content, Save, Take, ImageOf, Acquire, Release, CanAcquire, IsLocked, Find, Accepted, Apply,
         HeldBySome, HasEntry;
  }

  // ------------------------------------------------------------------- locks, images, checkpoints

  /** A key is taken by the session that is granted it, and given back by the session that holds it. */
  lemma LockChanges(s: State, e: Event, key: SentenceKey)
    requires LocksAgree(s)
    ensures var t := Step(s, e);
            && (!IsLocked(s.locks, key) && IsLocked(t.locks, key) ==>
                  e.AcquireLock? && InPhase(s, e.id, Reading) && Key(s.clients[e.id]) == key && Holding(t, e.id))
            && (IsLocked(s.locks, key) && !IsLocked(t.locks, key) ==>
                  e.ReleaseKey? && InPhase(s, e.id, Leaving) && Key(s.clients[e.id]) == key && !Holding(t, e.id))
  {
    var t := Step(s, e);
    if e.AcquireLock? {
      if InPhase(s, e.id, Reading) { AcquireLaws(s.locks, Key(s.clients[e.id]), e.user); }
      hide IsLocked, Acquire, CanAcquire, UniqueKeys, Exclusive, HeldBySome, Find;
    } else if e.ReleaseKey? {
      if InPhase(s, e.id, Leaving) { ReleaseLaws(s.locks, Key(s.clients[e.id])); }
      hide IsLocked, Release, UniqueKeys, Exclusive, HeldBySome, Find;
    } else {
      OtherStepsKeepHolders(s, e);
      hide Step, IsLocked;
    }
  }

  /** The undo image of a file is the content that the last session to lock a sentence of it had opened; UNDO uses it
      up. */
  lemma ImageChanges(s: State, e: Event, file: string)
    ensures var was, now := ImageOf(s.undo, file), ImageOf(Step(s, e).undo, file);
            now == if e.SaveImage? && InPhase(s, e.id, Locked) && s.clients[e.id].file == file && HasRoom(s.undo, file)
                   then Some(s.clients[e.id].base)
                   else if e == Undo(file) then None
                   else was
  {
    hide Commit, Open, Content, Save, Take, ImageOf, Acquire, Release, CanAcquire, IsLocked, Find, Accepted, Apply,
         HasRoom;
    if e.SaveImage? && InPhase(s, e.id, Locked) {
      SaveLaws(s.undo, s.clients[e.id].file, s.clients[e.id].base, file);
    } else if e.Undo? {
      TakeLaws(s.undo, e.file, file);
    }
  }

  /** A checkpoint is taken of an existing file, and then holds its content. */
  lemma CheckpointChanges(s: State, e: Event, file: string, tag: string)
    ensures var t := Step(s, e);
            if e == Checkpoint(file, tag) && file in s.files
            then (file, tag) in t.checkpoints && t.checkpoints[(file, tag)] == s.files[file]
            else && ((file, tag) in t.checkpoints <==> (file, tag) in s.checkpoints)
                 && ((file, tag) in s.checkpoints ==> t.checkpoints[(file, tag)] == s.checkpoints[(file, tag)])
  {
    hide Commit, Open, Content, Save, Take, ImageOf, Acquire, Release, CanAcquire, IsLocked, Find, Accepted, Apply;
  }
}
