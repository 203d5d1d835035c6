/** The life of a WRITE session over whole runs: what has gone before when it writes, that it never writes once it has
    left, and that it can always leave and then holds nothing (storage_server/storage_server.c, handle_write_file). */
module SessionLife {
  import opened Text
  import opened WordBuffers
  import opened Commits
  import opened CommitLaws
  import opened LockTables
  import opened StorageServer
  import opened StorageLaws
  import opened RunLaws
  import opened StepLaws

  function Rank(p: Phase): nat {
    match p
    case Reading => 0
    case Locked => 1
    case Editing => 2
    case Finishing => 3
    case Committing(_, _) => 4
    case Leaving => 5
    case Closed => 6
  }

  lemma PassesUpwards(e: Event, id: nat, from: Phase, to: Phase)
    requires Passes(e, id, from, to)
    ensures Rank(from) < Rank(to)
  {
  }

  lemma StepAdvances(s: State, e: Event, id: nat)
    requires id in s.clients
    ensures var t := Step(s, e);
            && id in t.clients && SameOpening(s.clients[id], t.clients[id])
            && (t.clients[id].phase == s.clients[id].phase || Rank(s.clients[id].phase) < Rank(t.clients[id].phase))
  {
    hide Step, Rank, Passes, Due;
    SessionMoves(s, e, id);
    SessionKeeps(s, e, id);
    var c, d := s.clients[id], Step(s, e).clients[id];
    if d.phase != c.phase {
      PassesUpwards(e, id, c.phase, d.phase);
    }
  }

  /** No session ever goes back. */
  lemma {:induction false} PhasesAdvance(s: State, es: seq<Event>, id: nat)
    requires id in s.clients
    ensures var t := Run(s, es);
            && id in t.clients && SameOpening(s.clients[id], t.clients[id])
            && (t.clients[id].phase == s.clients[id].phase || Rank(s.clients[id].phase) < Rank(t.clients[id].phase))
    decreases |es|
  {
    hide Step, Rank;
    if es != [] {
      StepAdvances(s, es[0], id);
      PhasesAdvance(Step(s, es[0]), es[1..], id);
    }
  }

  lemma RunCons(s: State, e: Event, es: seq<Event>)
    ensures Run(s, [e] + es) == Run(Step(s, e), es)
  {
    hide Step;
    assert ([e] + es)[1..] == es;
  }

  lemma RunSnoc(s: State, es: seq<Event>, i: nat)
    requires i < |es|
    ensures Run(s, es[..i + 1]) == Step(Run(s, es[..i]), es[i])
    ensures es[..|es|] == es
  {
    hide Step;
    assert es[..i + 1] == es[..i] + [es[i]];
    RunConcat(s, es[..i], [es[i]]);
    assert [es[i]][1..] == [];
  }

  // -------------------------------------------------------------------------------- leaving

  /** Once a session has left, no step of any run writes on its behalf. */
  lemma NoWriteAfterLeaving(s: State, es: seq<Event>, id: nat)
    requires InPhase(s, id, Leaving) || InPhase(s, id, Closed)
    ensures !Writes(Run(s, es), WriteBack(id))
  {
    hide Run, Commit;
    PhasesAdvance(s, es, id);
  }

  /** Losing the connection ends the editing: the session leaves as it is, and nothing else has changed. */
  lemma DisconnectLeaves(s: State, id: nat)
    requires InPhase(s, id, Editing)
    ensures var t := Step(s, Disconnect(id));
            InPhase(t, id, Leaving) && t == s.(clients := t.clients)
            && t.clients == s.clients[id := s.clients[id].(phase := Leaving)]
  {
  }

  /** A session that loses its connection while it edits never writes, whatever runs afterwards. */
  lemma DisconnectedNeverWrites(s: State, id: nat, es: seq<Event>)
    requires InPhase(s, id, Editing)
    ensures !Writes(Run(s, [Disconnect(id)] + es), WriteBack(id))
  {
    hide Run, Step, Writes;
    DisconnectLeaves(s, id);
    NoWriteAfterLeaving(Step(s, Disconnect(id)), es, id);
    RunCons(s, Disconnect(id), es);
  }

  lemma {:induction false} StaysLeaving(s: State, es: seq<Event>, id: nat)
    requires InPhase(s, id, Leaving) && forall i :: 0 <= i < |es| ==> es[i] != ReleaseKey(id)
    ensures var t := Run(s, es); InPhase(t, id, Leaving) && Key(t.clients[id]) == Key(s.clients[id])
    decreases |es|
  {
    hide Step;
    if es != [] {
      SessionMoves(s, es[0], id);
      SessionKeeps(s, es[0], id);
      StaysLeaving(Step(s, es[0]), es[1..], id);
    }
  }

  lemma HolderIsLocked(s: State, id: nat)
    requires LocksAgree(s) && InPhase(s, id, Leaving)
    ensures IsLocked(s.locks, Key(s.clients[id])) && UniqueKeys(s.locks) && |s.locks| <= MAX_LOCKS
  {
    hide IsLocked, UniqueKeys, Exclusive;
    assert Holding(s, id);
  }

  /** Releasing the key frees it and no other, changes no file, and ends the session. */
  lemma ReleaseFrees(s: State, id: nat)
    requires LocksAgree(s) && InPhase(s, id, Leaving)
    ensures var t, key := Step(s, ReleaseKey(id)), Key(s.clients[id]);
            && IsLocked(s.locks, key) && !IsLocked(t.locks, key)
            && (forall k :: k != key ==> IsLocked(t.locks, k) == IsLocked(s.locks, k))
            && InPhase(t, id, Closed) && t.files == s.files && t.backup == s.backup
  {
    HolderIsLocked(s, id);
    ReleaseLaws(s.locks, Key(s.clients[id]));
    hide IsLocked, Release, UniqueKeys, LocksAgree;
  }

  /** Whatever runs in between, a session that lost its connection holds its key until it releases it; then the key is
      free, and neither step has changed a file. */
  lemma DisconnectedGivesKeyBack(s: State, id: nat, es: seq<Event>)
    requires LocksAgree(s) && InPhase(s, id, Editing)
    requires forall i :: 0 <= i < |es| ==> es[i] != ReleaseKey(id)
    ensures var key, gone := Key(s.clients[id]), Step(s, Disconnect(id));
            var left := Run(gone, es);
            var t := Step(left, ReleaseKey(id));
            && gone.files == s.files && t.files == left.files
            && IsLocked(left.locks, key) && !IsLocked(t.locks, key) && InPhase(t, id, Closed)
            && forall k :: k != key ==> IsLocked(t.locks, k) == IsLocked(left.locks, k)
  {
    hide Run, Step, LocksAgree, IsLocked;
    var gone := Step(s, Disconnect(id));
    DisconnectLeaves(s, id);
    StepKeepsLocks(s, Disconnect(id));
    StaysLeaving(gone, es, id);
    RunKeepsLocks(gone, es);
    ReleaseFrees(Run(gone, es), id);
  }

  /** In particular with nothing in between. */
  lemma AbandonedRun(s: State, id: nat)
    requires LocksAgree(s) && InPhase(s, id, Editing)
    ensures var t := Run(s, [Disconnect(id), ReleaseKey(id)]);
            t.files == s.files && !IsLocked(t.locks, Key(s.clients[id])) && InPhase(t, id, Closed)
  {
    hide Step, LocksAgree, IsLocked;
    DisconnectedGivesKeyBack(s, id, []);
    RunCons(s, Disconnect(id), [ReleaseKey(id)]);
    RunCons(Step(s, Disconnect(id)), ReleaseKey(id), []);
    assert [Disconnect(id)] + [ReleaseKey(id)] == [Disconnect(id), ReleaseKey(id)];
    assert [ReleaseKey(id)] + [] == [ReleaseKey(id)];
  }

  // ----------------------------------------------------------------------- what went before

  /** Step i of the run brought session `id` where c is: it opened it, or took it there from the phase before. */
  ghost predicate EntersAt(s: State, es: seq<Event>, i: nat, id: nat, c: Client) {
    i < |es| &&
    var p := Run(s, es[..i]);
    var q := Step(p, es[i]);
    && id in q.clients && q.clients[id].phase == c.phase && SameOpening(q.clients[id], c)
    && if id in p.clients then Due(p, es[i], id) && Passes(es[i], id, p.clients[id].phase, c.phase)
       else && c.phase.Reading? && es[i].OpenFile? && es[i].id == id && es[i].file == c.file
            && es[i].index == c.session.index && c.base == Content(p, c.file) && q.clients[id].updates == []
  }

  lemma EntersNow(s: State, es: seq<Event>, id: nat)
    requires es != [] && id in Run(s, es).clients
    requires var p := Run(s, es[..|es| - 1]);
             id in p.clients ==> p.clients[id].phase != Run(s, es).clients[id].phase
    ensures EntersAt(s, es, |es| - 1, id, Run(s, es).clients[id])
  {
    var n := |es| - 1;
    var p := Run(s, es[..n]);
    RunSnoc(s, es, n);
    hide Step, Run, Due, Passes, Open, Content;
    if id in p.clients {
      SessionMoves(p, es[n], id);
    } else {
      SessionBegins(p, es[n], id);
      OpenedIndex(Content(p, es[n].file), es[n].index);
    }
  }

  lemma EntersBefore(s: State, es: seq<Event>, i: nat, id: nat, c: Client, d: Client)
    requires es != [] && EntersAt(s, es[..|es| - 1], i, id, c) && d.phase == c.phase && SameOpening(c, d)
    ensures EntersAt(s, es, i, id, d)
  {
    assert es[..|es| - 1][..i] == es[..i];
    hide Step, Run, Due, Passes, Content;
  }

  /** In a run that starts without it, some step brought the session into the phase it is in. */
  lemma {:induction false} Entered(s: State, es: seq<Event>, id: nat) returns (i: nat)
    requires id !in s.clients && id in Run(s, es).clients
    ensures EntersAt(s, es, i, id, Run(s, es).clients[id])
    decreases |es|
  {
    assert es != [];
    var n := |es| - 1;
    var p := Run(s, es[..n]);
    RunSnoc(s, es, n);
    hide Run, EntersAt, Step;
    if id in p.clients && p.clients[id].phase == Run(s, es).clients[id].phase {
      i := Entered(s, es[..n], id);
      SessionKeeps(p, es[n], id);
      EntersBefore(s, es, i, id, p.clients[id], Run(s, es).clients[id]);
    } else {
      EntersNow(s, es, id);
      i := n;
    }
  }

  // ------------------------------------------------------------------- what a session has taken in

  /** The updates that these events send to the session. */
  function SentTo(es: seq<Event>, id: nat): seq<Update> {
    if es == [] then []
    else (if es[0].Receive? && es[0].id == id then [es[0].update] else []) + SentTo(es[1..], id)
  }

  /** A session that edits throughout takes in every update that is sent to it, in order. */
  lemma {:induction false} TakesWhileEditing(s: State, es: seq<Event>, id: nat)
    requires InPhase(s, id, Editing) && InPhase(Run(s, es), id, Editing)
    ensures Run(s, es).clients[id].updates == s.clients[id].updates + SentTo(es, id)
    decreases |es|
  {
    var us := s.clients[id].updates;
    if es == [] {
      assert us + [] == us;
    } else {
      hide Step, Rank;
      var t := Step(s, es[0]);
      SessionKeeps(s, es[0], id);
      StepAdvances(s, es[0], id);
      PhasesAdvance(t, es[1..], id);
      TakesWhileEditing(t, es[1..], id);
      var now := if es[0].Receive? && es[0].id == id then [es[0].update] else [];
      Regroup(us, now, SentTo(es[1..], id));
    }
  }

  /** Before and after it takes in nothing. */
  lemma {:induction false} TakesNothingElse(s: State, es: seq<Event>, id: nat)
    requires id in s.clients
    requires Rank(s.clients[id].phase) > 2 || (id in Run(s, es).clients && Rank(Run(s, es).clients[id].phase) < 2)
    ensures id in Run(s, es).clients && Run(s, es).clients[id].updates == s.clients[id].updates
    decreases |es|
  {
    if es != [] {
      hide Step;
      var t := Step(s, es[0]);
      SessionKeeps(s, es[0], id);
      StepAdvances(s, es[0], id);
      PhasesAdvance(t, es[1..], id);
      assert s.clients[id].updates + [] == s.clients[id].updates;
      TakesNothingElse(t, es[1..], id);
    }
  }

  // -------------------------------------------------------------------------- the whole story

  /** What has happened to a session that is about to commit: it was opened at step a on the content of its file, was
      granted the lock of its key at b, when nobody held it, saved the content as undo image at c, was told to finish at
      d, and read the content it commits against at f. Between c and d it took in the updates that were sent to it. */
  ghost predicate Prepared(s: State, es: seq<Event>, id: nat, c: Client, a: nat, b: nat, u: nat, d: nat, f: nat) {
    && a < b < u < d < f < |es|
    && es[a].OpenFile? && es[a].id == id && es[a].file == c.file && es[a].index == c.session.index
    && c.base == Content(Run(s, es[..a]), c.file)
    && es[b].AcquireLock? && es[b].id == id && !IsLocked(Run(s, es[..b]).locks, Key(c))
    && es[u] == SaveImage(id)
    && es[d] == Finish(id)
    && es[f] == ReadLatest(id) && c.phase.Committing? && c.phase.latest == Content(Run(s, es[..f]), c.file)
    && c.updates == SentTo(es[u + 1..d], id)
  }

  lemma RunBetween(s: State, es: seq<Event>, i: nat, j: nat)
    requires i < j <= |es|
    ensures Run(Step(Run(s, es[..i]), es[i]), es[i + 1..j]) == Run(s, es[..j])
    ensures es[..j][..i] == es[..i] && es[..j][i] == es[i]
  {
    hide Step;
    RunSnoc(s, es, i);
    assert es[..j] == es[..i + 1] + es[i + 1..j];
    RunConcat(s, es[..i + 1], es[i + 1..j]);
  }

  lemma CameFrom(s: State, es: seq<Event>, i: nat, id: nat, c: Client)
    requires EntersAt(s, es, i, id, c) && !c.phase.Reading?
    ensures i < |es|
    ensures var p := Run(s, es[..i]);
            && id in p.clients && Passes(es[i], id, p.clients[id].phase, c.phase)
            && SameOpening(p.clients[id], c)
  {
    hide Step, Run, Passes, Due;
    var p := Run(s, es[..i]);
    if id in p.clients {
      SessionKeeps(p, es[i], id);
    }
  }

  lemma ReadsContent(s: State, es: seq<Event>, i: nat, id: nat, c: Client)
    requires EntersAt(s, es, i, id, c) && c.phase.Committing?
    ensures es[i] == ReadLatest(id) && c.phase.latest == Content(Run(s, es[..i]), c.file)
  {
    hide Run, Acquire, CanAcquire, IsLocked, Content;
    CameFrom(s, es, i, id, c);
  }

  lemma LocksFreeKey(s: State, es: seq<Event>, i: nat, id: nat, c: Client)
    requires EntersAt(s, es, i, id, c) && c.phase.Locked?
    ensures es[i].AcquireLock? && es[i].id == id && !IsLocked(Run(s, es[..i]).locks, Key(c))
  {
    hide Run, Acquire, IsLocked;
    CameFrom(s, es, i, id, c);
  }

  /** Between two of its steps a session that edits takes in what is sent to it, and otherwise nothing. */
  lemma TakenBetween(s: State, es: seq<Event>, i: nat, j: nat, id: nat)
    requires i < j <= |es| && id in Step(Run(s, es[..i]), es[i]).clients && id in Run(s, es[..j]).clients
    ensures var p, q := Step(Run(s, es[..i]), es[i]).clients[id], Run(s, es[..j]).clients[id];
            && (Rank(p.phase) > 2 || Rank(q.phase) < 2 ==> q.updates == p.updates)
            && (p.phase.Editing? && q.phase.Editing? ==> q.updates == p.updates + SentTo(es[i + 1..j], id))
  {
    RunBetween(s, es, i, j);
    hide Run, Step;
    var p := Step(Run(s, es[..i]), es[i]);
    if Rank(p.clients[id].phase) > 2 || Rank(Run(s, es[..j]).clients[id].phase) < 2 {
      TakesNothingElse(p, es[i + 1..j], id);
    } else if p.clients[id].phase.Editing? && Run(s, es[..j]).clients[id].phase.Editing? {
      TakesWhileEditing(p, es[i + 1..j], id);
    }
  }

  /** A step of its own adds nothing to what a session has taken in. */
  lemma OwnStepTakesNothing(s: State, e: Event, id: nat)
    requires id in s.clients && !e.Receive?
    ensures id in Step(s, e).clients && Step(s, e).clients[id].updates == s.clients[id].updates
  {
    hide Step;
    SessionMoves(s, e, id);
    SessionKeeps(s, e, id);
    assert s.clients[id].updates + [] == s.clients[id].updates;
  }

  /** The step that brought the session where it is after j steps. */
  lemma Stage(s: State, es: seq<Event>, j: nat, id: nat) returns (i: nat)
    requires id !in s.clients && j <= |es| && id in Run(s, es[..j]).clients
    ensures i < j && EntersAt(s, es, i, id, Run(s, es[..j]).clients[id])
    ensures var p, c := Run(s, es[..i]), Run(s, es[..j]).clients[id];
            if c.phase.Reading? then true
            else id in p.clients && Passes(es[i], id, p.clients[id].phase, c.phase) && SameOpening(p.clients[id], c)
  {
    hide Run, Step, Passes, Due, Content;
    var c := Run(s, es[..j]).clients[id];
    i := Entered(s, es[..j], id);
    assert es[..j][..i] == es[..i];
    if !c.phase.Reading? {
      CameFrom(s, es, i, id, c);
    }
  }

  lemma EntersPhase(s: State, es: seq<Event>, i: nat, id: nat, c: Client)
    requires EntersAt(s, es, i, id, c)
    ensures i < |es|
    ensures var q := Step(Run(s, es[..i]), es[i]);
            InPhase(q, id, c.phase)
  {
    hide Run, Step, Passes, Due, Content;
  }

  lemma OpensAt(s: State, es: seq<Event>, i: nat, id: nat, c: Client)
    requires EntersAt(s, es, i, id, c) && c.phase.Reading?
    ensures i < |es| && es[i].OpenFile? && es[i].id == id && es[i].file == c.file && es[i].index == c.session.index
    ensures c.base == Content(Run(s, es[..i]), c.file)
    ensures var q := Step(Run(s, es[..i]), es[i]); InPhase(q, id, Reading) && q.clients[id].updates == []
  {
    hide Run, Step, Due, Content;
  }

  /** From its opening up to the point where it saves the image a session takes in nothing, then all that is sent to it
      until it is told to finish, then nothing again. */
  lemma TakenInAll(s: State, es: seq<Event>, id: nat, a: nat, u: nat, d: nat)
    requires a < u < d < |es| && es[u] == SaveImage(id) && es[d] == Finish(id)
    requires var q := Step(Run(s, es[..a]), es[a]); InPhase(q, id, Reading) && q.clients[id].updates == []
    requires InPhase(Run(s, es[..u]), id, Locked)
    requires InPhase(Step(Run(s, es[..u]), es[u]), id, Editing) && InPhase(Run(s, es[..d]), id, Editing)
    requires InPhase(Step(Run(s, es[..d]), es[d]), id, Phase.Finishing) && id in Run(s, es).clients
    ensures Run(s, es).clients[id].updates == SentTo(es[u + 1..d], id)
  {
    assert es[..|es|] == es;
    hide Run, Step, SentTo;
    TakenBetween(s, es, a, u, id);
    TakenBetween(s, es, u, d, id);
    TakenBetween(s, es, d, |es|, id);
    OwnStepTakesNothing(Run(s, es[..u]), es[u], id);
    OwnStepTakesNothing(Run(s, es[..d]), es[d], id);
    assert [] + SentTo(es[u + 1..d], id) == SentTo(es[u + 1..d], id);
  }

  /** How a session came to edit. */
  lemma EditingIsPrepared(s: State, es: seq<Event>, j: nat, id: nat) returns (a: nat, b: nat, u: nat)
    requires id !in s.clients && j <= |es| && InPhase(Run(s, es[..j]), id, Editing)
    ensures a < b < u < j && es[a].OpenFile? && es[b].AcquireLock? && es[b].id == id && es[u] == SaveImage(id)
    ensures var c := Run(s, es[..j]).clients[id];
            && es[a].id == id && es[a].file == c.file && es[a].index == c.session.index
            && c.base == Content(Run(s, es[..a]), c.file) && !IsLocked(Run(s, es[..b]).locks, Key(c))
    ensures var q := Step(Run(s, es[..a]), es[a]); InPhase(q, id, Reading) && q.clients[id].updates == []
    ensures InPhase(Run(s, es[..u]), id, Locked) && InPhase(Step(Run(s, es[..u]), es[u]), id, Editing)
  {
    hide Run, Step, Content, Key, IsLocked, Due, EntersAt;
    u := Stage(s, es, j, id);
    b := Stage(s, es, u, id);
    a := Stage(s, es, b, id);
    var c, locked := Run(s, es[..j]).clients[id], Run(s, es[..u]).clients[id];
    OpensAt(s, es, a, id, Run(s, es[..b]).clients[id]);
    SameKey(locked, c);
    LocksFreeKey(s, es, b, id, locked);
    EntersPhase(s, es, u, id, c);
  }

  /** In any run that starts without it, a session that is about to commit has come all this way. */
  lemma CommitIsPrepared(s: State, es: seq<Event>, id: nat)
    returns (a: nat, b: nat, u: nat, d: nat, f: nat)
    requires id !in s.clients && id in Run(s, es).clients && Run(s, es).clients[id].phase.Committing?
    ensures Prepared(s, es, id, Run(s, es).clients[id], a, b, u, d, f)
  {
    assert es[..|es|] == es;
    var c := Run(s, es).clients[id];
    hide Run, Step, Content, Key, IsLocked, Due, EntersAt, SentTo;
    f := Stage(s, es, |es|, id);
    d := Stage(s, es, f, id);
    var editing := Run(s, es[..d]).clients[id];
    a, b, u := EditingIsPrepared(s, es, d, id);
    SameKey(editing, c);
    ReadsContent(s, es, f, id, c);
    EntersPhase(s, es, d, id, Run(s, es[..f]).clients[id]);
    TakenInAll(s, es, id, a, u, d);
  }

  lemma SameKey(c: Client, d: Client)
    requires SameOpening(c, d)
    ensures Key(c) == Key(d)
  {
  }

  /** The whole story of a write. When some step of a run from the empty server writes for a session, the session is one
      that opened the content its file had when it was opened and took in the updates that were sent to it; and the file
      becomes what a commit of that makes of the content the file had when the session read it again. */
  lemma EveryWriteIsExplained(es: seq<Event>, id: nat)
    requires Writes(Run(EMPTY, es), WriteBack(id))
    ensures exists a: nat, b: nat, u: nat, d: nat, f: nat ::
              var s, c := Run(EMPTY, es), Run(EMPTY, es).clients[id];
              && Prepared(EMPTY, es, id, c, a, b, u, d, f)
              && var opening := Open(Content(Run(EMPTY, es[..a]), c.file), es[a].index);
              && opening.Opened?
              && var out := Commit(Content(Run(EMPTY, es[..f]), c.file),
                                   Edited(opening.session, SentTo(es[u + 1..d], id)));
              && out.Written? && Content(Step(s, WriteBack(id)), c.file) == out.content
  {
    var s, c := Run(EMPTY, es), Run(EMPTY, es).clients[id];
    RunKeepsGenuine(EMPTY, es);
    assert Genuine(c);
    hide Run, Commit, Open, Edited, Key, IsLocked, SentTo;
    var a, b, u, d, f := CommitIsPrepared(EMPTY, es, id);
    WriteReaches(s, id);
  }

  lemma WriteReaches(s: State, id: nat)
    requires Writes(s, WriteBack(id))
    ensures var c := s.clients[id];
            Content(Step(s, WriteBack(id)), c.file) == Commit(c.phase.latest, c.session).content
  {
    hide Commit, Release;
  }

  // ---------------------------------------------------------------------------- every session can end

  /** A session that is committing under the lock of the file can always write back, and then the lock is free. */
  lemma CommitLockComesFree(s: State, file: string) returns (other: nat)
    requires CommitsAgree(s) && IsLocked(s.commits, file)
    ensures Guarded(s, other) && !IsLocked(Step(s, WriteBack(other)).commits, file)
  {
    assert GuardedBySome(s, file);
    other :| Guarded(s, other) && s.clients[other].file == file;
    ReleaseLaws(s.commits, file);
    hide Commit, Release, IsLocked, UniqueKeys;
  }

  /** The next step of a session that can take one at once. */
  function NextOf(c: Client, id: nat, user: string): Event {
    match c.phase
    case Reading => AcquireLock(id, user)
    case Locked => SaveImage(id)
    case Editing => Disconnect(id)
    case Finishing => ReadLatest(id)
    case Committing(_, _) => WriteBack(id)
    case _ => ReleaseKey(id)
  }

  /** How many steps a session needs to end. */
  function Left(p: Phase): nat {
    match p
    case Reading => 4
    case Locked => 3
    case Editing => 2
    case Finishing => 3
    case Committing(_, _) => 2
    case Leaving => 1
    case Closed => 0
  }

  lemma NextComesCloser(s: State, id: nat, user: string)
    requires id in s.clients && !s.clients[id].phase.Closed?
    requires s.clients[id].phase.Finishing? ==> !IsLocked(s.commits, s.clients[id].file)
    ensures var t := Step(s, NextOf(s.clients[id], id, user));
            && id in t.clients && !t.clients[id].phase.Finishing?
            && Left(t.clients[id].phase) < Left(s.clients[id].phase)
  {
    hide Step, IsLocked;
    SessionMoves(s, NextOf(s.clients[id], id, user), id);
  }

  lemma {:induction false} EndsByItself(s: State, id: nat, user: string) returns (es: seq<Event>)
    requires LocksAgree(s) && id in s.clients
    requires s.clients[id].phase.Finishing? ==> !IsLocked(s.commits, s.clients[id].file)
    ensures |es| <= Left(s.clients[id].phase) && InPhase(Run(s, es), id, Closed) && LocksAgree(Run(s, es))
    decreases Left(s.clients[id].phase)
  {
    hide Step, LocksAgree, IsLocked, NextOf, Left;
    es := [];
    if !s.clients[id].phase.Closed? {
      var e := NextOf(s.clients[id], id, user);
      NextComesCloser(s, id, user);
      StepKeepsLocks(s, e);
      es := EndsByItself(Step(s, e), id, user);
      RunCons(s, e, es);
      es := [e] + es;
    }
  }

  /** No session is ever stuck: in every reachable state at most four steps end it, its own and at most one of a session
      that has the commit lock it waits for. It then holds no key. */
  lemma EverySessionCanEnd(s: State, id: nat, user: string) returns (es: seq<Event>)
    requires LocksAgree(s) && CommitsAgree(s) && id in s.clients
    ensures |es| <= 4 && InPhase(Run(s, es), id, Closed) && !Holding(Run(s, es), id) && LocksAgree(Run(s, es))
  {
    hide Step, LocksAgree, CommitsAgree, IsLocked, Run;
    var c := s.clients[id];
    if c.phase.Finishing? && IsLocked(s.commits, c.file) {
      var other := CommitLockComesFree(s, c.file);
      StepKeepsLocks(s, WriteBack(other));
      OthersStay(s, WriteBack(other), id);
      es := EndsByItself(Step(s, WriteBack(other)), id, user);
      RunCons(s, WriteBack(other), es);
      es := [WriteBack(other)] + es;
    } else {
      es := EndsByItself(s, id, user);
    }
  }
}
