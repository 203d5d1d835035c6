/** The stretches of a WRITE session as runs of the step machine: opening, one update, committing
    (storage_server/storage_server.c, handle_write_file). */
module SessionRuns {
  import opened WordBuffers
  import opened Commits
  import opened LockTables
  import opened UndoTables
  import opened StorageServer

  function Begin(id: nat, file: string, index: int, user: string): seq<Event> {
    [OpenFile(id, file, index), AcquireLock(id, user), SaveImage(id)]
  }

  function Conclude(id: nat): seq<Event> {
    [Finish(id), ReadLatest(id), WriteBack(id)]
  }

  /** A step of a WRITE session. */
  predicate IsWriter(e: Event) {
    e.OpenFile? || e.AcquireLock? || e.SaveImage? || e.Receive? || e.Finish? || e.Disconnect? || e.ReadLatest?
    || e.WriteBack? || e.ReleaseKey?
  }

  ghost predicate AllWriters(es: seq<Event>) {
    forall i :: 0 <= i < |es| ==> IsWriter(es[i])
  }

  lemma RunThree(s: State, a: Event, b: Event, c: Event)
    ensures Run(s, [a, b, c]) == Step(Step(Step(s, a), b), c)
  {
    hide Step;
    assert [a, b, c][1..] == [b, c] && [b, c][1..] == [c] && [c][1..] == [];
    assert Run(Step(s, a), [b, c]) == Run(Step(Step(s, a), b), [c]);
    assert Run(Step(Step(s, a), b), [c]) == Run(Step(Step(Step(s, a), b), c), []);
  }

  /** With an index in range and a free key, a session gets as far as editing what it read. */
  lemma BeginRuns(s: State, id: nat, file: string, index: int, user: string)
    requires id !in s.clients && Open(Content(s, file), index).Opened?
    requires CanAcquire(s.locks, (file, Open(Content(s, file), index).session.index))
    ensures var t := Run(s, Begin(id, file, index, user));
            var session := Open(Content(s, file), index).session;
            && t.clients == s.clients[id := Client(file, Content(s, file), session, [], Editing)]
            && t.files == s.files && t.commits == s.commits
            && t.locks == Acquire(s.locks, (file, session.index), user)
  {
    RunThree(s, OpenFile(id, file, index), AcquireLock(id, user), SaveImage(id));
    hide Open, Acquire, CanAcquire, Save, Run;
    var a := Step(s, OpenFile(id, file, index));
    assert InPhase(a, id, Reading) && a.locks == s.locks;
    var b := Step(a, AcquireLock(id, user));
    assert InPhase(b, id, Locked);
    var c, session := Step(b, SaveImage(id)), Open(Content(s, file), index).session;
    assert c.clients[id] == Client(file, Content(s, file), session, [], Editing);
    assert c.clients == s.clients[id := c.clients[id]];
  }

  /** With a commit lock to take, a session that finishes writes what Commit makes of the content at that time. */
  lemma ConcludeRuns(s: State, id: nat)
    requires InPhase(s, id, Editing) && CanAcquire(s.commits, s.clients[id].file)
    ensures var t, c := Run(s, Conclude(id)), s.clients[id];
            var out := Commit(Content(s, c.file), c.session);
            && t.clients == s.clients[id := c.(phase := Leaving)]
            && t.files == (if out.Written? then s.files[c.file := out.content] else s.files)
            && t.locks == s.locks
            && t.commits == Release(Acquire(s.commits, c.file, ""), c.file)
  {
    RunThree(s, Finish(id), ReadLatest(id), WriteBack(id));
    hide Commit, Acquire, Release, Run, Find;
    var c := s.clients[id];
    var a := Step(s, Finish(id));
    assert InPhase(a, id, Phase.Finishing) && a.commits == s.commits && a.files == s.files;
    var b := Step(a, ReadLatest(id));
    assert b.clients[id] == c.(phase := Committing(Content(s, c.file), true));
    var t := Step(b, WriteBack(id));
    assert t.clients[id] == c.(phase := Leaving);
    assert t.clients == s.clients[id := t.clients[id]];
  }

  lemma PushRuns(s: State, file: string, content: string)
    ensures Run(s, [Push(file, content)]) == Store(s, file, content)
  {
    assert [Push(file, content)][1..] == [];
  }

  lemma ReceiveRuns(s: State, id: nat, u: Update)
    requires InPhase(s, id, Editing) && Accepted(s.clients[id].session.words, u)
    ensures var t, c := Run(s, [Receive(id, u)]), s.clients[id];
            && t.clients == s.clients[id := c.(session := c.session.(words := Apply(c.session.words, u)),
                                               updates := c.updates + [u])]
            && t.files == s.files && t.locks == s.locks && t.commits == s.commits
  {
    hide Accepted, Apply;
    assert [Receive(id, u)][1..] == [];
  }

  // ------------------------------------------------------------------------- room in the tables

  lemma FreeKeyCanBeAcquired<K>(t: seq<Entry<K>>, key: K)
    requires |t| < MAX_LOCKS && !IsLocked(t, key)
    ensures CanAcquire(t, key)
  {
  }

  lemma AcquireGrowsByOne<K>(t: seq<Entry<K>>, key: K, user: string)
    ensures |Acquire(t, key, user)| <= |t| + 1
  {
  }

  /** The only file that was ever committed can be committed again. */
  lemma OneCommitSlot(t: seq<Entry<string>>, file: string)
    requires t == [] || t == [Entry(file, false, "")]
    ensures CanAcquire(t, file) && Release(Acquire(t, file, ""), file) == [Entry(file, false, "")]
  {
    assert [] + [Entry(file, false, "")] == [Entry(file, false, "")];
  }
}
