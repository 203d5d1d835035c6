/** UNDO, checkpoints and backup copies over runs of the storage server. */
module Recovery {
  import opened Options
  import opened Commits
  import opened UndoTables
  import opened StorageServer
  import opened RunLaws

  // -------------------------------------------------------------------------------- backups

  /** Every existing file has a backup copy with the same content. */
  ghost predicate Mirrored(s: State) {
    forall f :: f in s.files ==> f in s.backup && s.backup[f] == s.files[f]
  }

  /** The file was written, and its copy with it. */
  ghost predicate WritesBoth(s: State, t: State, file: string, content: string) {
    t.files == s.files[file := content] && t.backup == s.backup[file := content]
  }

  /** What a step does to stored content: nothing, a write to one file and its copy, or a removal of one file. */
  lemma StepEffect(s: State, e: Event)
    ensures var t := Step(s, e);
            || (t.files == s.files && t.backup == s.backup)
            || (exists f, c :: WritesBoth(s, t, f, c))
            || (e.DeleteFile? && t.files == s.files - {e.file} && t.backup == s.backup)
  {
    hide Commit, Open, Save, Take, ImageOf, LockTables.Acquire, LockTables.Release, LockTables.CanAcquire,
         LockTables.IsLocked, LockTables.Find;
    var t := Step(s, e);
    match e
    case WriteBack(id) =>
      if t != s {
        var c := s.clients[id];
        var out := Commit(c.phase.latest, c.session);
        assert out.Written? ==> WritesBoth(s, t, c.file, out.content);
      }
    case Undo(file) =>
      var image := ImageOf(s.undo, file);
      assert image.Some? ==> WritesBoth(s, t, file, image.value);
    case CreateFile(file) => assert file !in s.files ==> WritesBoth(s, t, file, "");
    case Revert(file, tag) =>
      assert (file, tag) in s.checkpoints ==> WritesBoth(s, t, file, s.checkpoints[(file, tag)]);
    case Push(file, content) => assert WritesBoth(s, t, file, content);
    case _ =>
  }

  lemma StepKeepsBackup(s: State, e: Event)
    requires Mirrored(s)
    ensures Mirrored(Step(s, e))
    ensures s.backup.Keys <= Step(s, e).backup.Keys
  {
    StepEffect(s, e);
    var t := Step(s, e);
    hide Step;
    if exists f, c :: WritesBoth(s, t, f, c) {
      var f, c :| WritesBoth(s, t, f, c);
      assert f in t.backup;
    }
  }

  /** In every run from an empty store the backup copy of every existing file equals the file, and a backup copy,
      once made, never goes away. */
  lemma {:induction false} BackupMirrors(s: State, es: seq<Event>)
    requires Mirrored(s)
    ensures Mirrored(Run(s, es)) && s.backup.Keys <= Run(s, es).backup.Keys
    decreases |es|
  {
    if es != [] {
      hide Step, Mirrored;
      StepKeepsBackup(s, es[0]);
      BackupMirrors(Step(s, es[0]), es[1..]);
    }
  }

  /** No step of the run creates the file again or writes it. */
  predicate StaysDeleted(s: State, es: seq<Event>, file: string)
    decreases |es|
  {
    es == [] ||
    (Spares(es[0], file) && !(Writes(s, es[0]) && s.clients[es[0].id].file == file)
     && StaysDeleted(Step(s, es[0]), es[1..], file))
  }

  lemma StepKeepsDeleted(s: State, e: Event, file: string)
    requires Spares(e, file) && !(Writes(s, e) && s.clients[e.id].file == file)
    ensures var t := Step(s, e);
            (file in t.files <==> file in s.files)
            && (file in s.backup ==> file in t.backup && t.backup[file] == s.backup[file])
  {
    hide Commit, Open, Content, Save, Take, ImageOf, LockTables.Acquire, LockTables.Release, LockTables.CanAcquire,
         LockTables.IsLocked, LockTables.Find;
  }

  lemma {:induction false} RunKeepsDeleted(s: State, es: seq<Event>, file: string)
    requires StaysDeleted(s, es, file)
    ensures var t := Run(s, es);
            (file in t.files <==> file in s.files)
            && (file in s.backup ==> file in t.backup && t.backup[file] == s.backup[file])
    decreases |es|
  {
    hide Step, Spares, Writes;
    if es != [] {
      StepKeepsDeleted(s, es[0], file);
      RunKeepsDeleted(Step(s, es[0]), es[1..], file);
    }
  }

  /** In every run the backup of a deleted file holds its last content, for as long as nobody writes the file. */
  lemma BackupSurvivesDelete(s: State, file: string, es: seq<Event>)
    requires Mirrored(s) && file in s.files && StaysDeleted(Step(s, DeleteFile(file)), es, file)
    ensures var t := Run(Step(s, DeleteFile(file)), es);
            file !in t.files && file in t.backup && t.backup[file] == s.files[file]
  {
    hide Run, StaysDeleted;
    RunKeepsDeleted(Step(s, DeleteFile(file)), es, file);
  }

  // ----------------------------------------------------------------------------------- UNDO

  /** The step stores an undo image for the file, or takes it away. */
  predicate TouchesImage(s: State, e: Event, file: string) {
    || (e.SaveImage? && InPhase(s, e.id, Locked) && s.clients[e.id].file == file)
    || (e.Undo? && e.file == file)
  }

  ghost predicate ImageUntouched(s: State, es: seq<Event>, file: string)
    decreases |es|
  {
    es == [] || (!TouchesImage(s, es[0], file) && ImageUntouched(Step(s, es[0]), es[1..], file))
  }

  lemma StepKeepsImage(s: State, e: Event, file: string)
    requires !TouchesImage(s, e, file)
    ensures ImageOf(Step(s, e).undo, file) == ImageOf(s.undo, file)
  {
    hide Commit, Open, Content, ImageOf, Save, Take, LockTables.Acquire, LockTables.Release, LockTables.CanAcquire,
         LockTables.IsLocked, LockTables.Find;
    if e.SaveImage? && InPhase(s, e.id, Locked) {
      SaveLaws(s.undo, s.clients[e.id].file, s.clients[e.id].base, file);
    } else if e.Undo? {
      TakeLaws(s.undo, e.file, file);
    }
  }

  lemma {:induction false} RunKeepsImage(s: State, es: seq<Event>, file: string)
    requires ImageUntouched(s, es, file)
    ensures ImageOf(Run(s, es).undo, file) == ImageOf(s.undo, file)
    decreases |es|
  {
    hide Step, ImageOf, TouchesImage;
    if es != [] {
      StepKeepsImage(s, es[0], file);
      RunKeepsImage(Step(s, es[0]), es[1..], file);
    }
  }

  /** UNDO restores exactly the content the last session on the file had opened, whatever was written since, as long
      as no other session saved its own image in between; and a second UNDO has nothing to restore. */
  lemma UndoRestores(s: State, id: nat, es: seq<Event>)
    requires InPhase(s, id, Locked) && HasRoom(s.undo, s.clients[id].file)
    requires ImageUntouched(Step(s, SaveImage(id)), es, s.clients[id].file)
    ensures var file := s.clients[id].file;
            var undone := Step(Run(Step(s, SaveImage(id)), es), Undo(file));
            && file in undone.files && undone.files[file] == s.clients[id].base
            && ImageOf(undone.undo, file) == None
            && Step(undone, Undo(file)).files == undone.files
  {
    hide Run, ImageOf, Save, Take, ImageUntouched;
    var file := s.clients[id].file;
    var saved := Step(s, SaveImage(id));
    SaveLaws(s.undo, file, s.clients[id].base, file);
    RunKeepsImage(saved, es, file);
    TakeLaws(Run(saved, es).undo, file, file);
  }

  /** A session that is abandoned without a commit still replaces the undo image: the UNDO that follows gives the
      content that session had opened, so the change of the session before it can no longer be undone. */
  lemma AbandonedSessionReplacesImage(s: State, id: nat)
    requires InPhase(s, id, Locked) && HasRoom(s.undo, s.clients[id].file)
    requires s.clients[id].base == Content(s, s.clients[id].file) && s.clients[id].file in s.files
    ensures var file := s.clients[id].file;
            var t := Run(s, [SaveImage(id), Disconnect(id), ReleaseKey(id), Undo(file)]);
            t.files == s.files && ImageOf(t.undo, file) == None
  {
    hide ImageOf, Save, Take, Run, Step;
    var file := s.clients[id].file;
    AbandonKeepsFiles(s, id);
    SaveLaws(s.undo, file, s.clients[id].base, file);
    var left := Step(Step(Step(s, SaveImage(id)), Disconnect(id)), ReleaseKey(id));
    UndoWrites(left, file, s.clients[id].base);
    TakeLaws(left.undo, file, file);
    RunFour(s, SaveImage(id), Disconnect(id), ReleaseKey(id), Undo(file));
    assert s.files[file := s.files[file]] == s.files;
  }

  lemma AbandonKeepsFiles(s: State, id: nat)
    requires InPhase(s, id, Locked)
    ensures var c, t := s.clients[id], Step(Step(Step(s, SaveImage(id)), Disconnect(id)), ReleaseKey(id));
            t.files == s.files && t.undo == Save(s.undo, c.file, c.base)
  {
    hide Save, LockTables.Release;
    var a := Step(s, SaveImage(id));
    var b := Step(a, Disconnect(id));
    assert InPhase(a, id, Editing) && InPhase(b, id, Leaving);
  }

  lemma UndoWrites(s: State, file: string, content: string)
    requires ImageOf(s.undo, file) == Some(content)
    ensures var t := Step(s, Undo(file));
            t.files == s.files[file := content] && t.undo == Take(s.undo, file)
  {
    hide ImageOf, Take;
  }

  lemma RunFour(s: State, a: Event, b: Event, c: Event, d: Event)
    ensures Run(s, [a, b, c, d]) == Step(Step(Step(Step(s, a), b), c), d)
  {
    hide Step;
    assert [a, b, c, d][1..] == [b, c, d] && [b, c, d][1..] == [c, d] && [c, d][1..] == [d] && [d][1..] == [];
    assert Run(Step(s, a), [b, c, d]) == Run(Step(Step(s, a), b), [c, d]);
    assert Run(Step(Step(s, a), b), [c, d]) == Run(Step(Step(Step(s, a), b), c), [d]);
    assert Run(Step(Step(Step(s, a), b), c), [d]) == Run(Step(Step(Step(Step(s, a), b), c), d), []);
  }

  // ----------------------------------------------------------------------------- checkpoints

  lemma StepKeepsCheckpoint(s: State, e: Event, file: string, tag: string)
    requires (file, tag) in s.checkpoints && e != Checkpoint(file, tag)
    ensures var t := Step(s, e);
            (file, tag) in t.checkpoints && t.checkpoints[(file, tag)] == s.checkpoints[(file, tag)]
  {
    hide Commit, Open, Content, Save, Take, ImageOf, LockTables.Acquire, LockTables.Release, LockTables.CanAcquire,
         LockTables.IsLocked, LockTables.Find;
  }

  lemma {:induction false} RunKeepsCheckpoint(s: State, es: seq<Event>, file: string, tag: string)
    requires (file, tag) in s.checkpoints && forall i :: 0 <= i < |es| ==> es[i] != Checkpoint(file, tag)
    ensures var t := Run(s, es);
            (file, tag) in t.checkpoints && t.checkpoints[(file, tag)] == s.checkpoints[(file, tag)]
    decreases |es|
  {
    hide Step;
    if es != [] {
      StepKeepsCheckpoint(s, es[0], file, tag);
      RunKeepsCheckpoint(Step(s, es[0]), es[1..], file, tag);
    }
  }

  /** REVERT gives the file, and its backup copy, the content it had at the latest checkpoint with that tag, whatever
      happened in between: edits, other checkpoints, undo, even the deletion of the file. */
  lemma RevertRestores(s: State, file: string, tag: string, es: seq<Event>)
    requires file in s.files && forall i :: 0 <= i < |es| ==> es[i] != Checkpoint(file, tag)
    ensures var t := Step(Run(Step(s, Checkpoint(file, tag)), es), Revert(file, tag));
            && file in t.files && t.files[file] == s.files[file]
            && file in t.backup && t.backup[file] == s.files[file]
  {
    hide Run, Step;
    CheckpointSaves(s, file, tag);
    var marked := Step(s, Checkpoint(file, tag));
    RunKeepsCheckpoint(marked, es, file, tag);
    RevertWrites(Run(marked, es), file, tag);
  }

  lemma CheckpointSaves(s: State, file: string, tag: string)
    requires file in s.files
    ensures Step(s, Checkpoint(file, tag)).checkpoints == s.checkpoints[(file, tag) := s.files[file]]
  {
  }

  lemma RevertWrites(s: State, file: string, tag: string)
    requires (file, tag) in s.checkpoints
    ensures WritesBoth(s, Step(s, Revert(file, tag)), file, s.checkpoints[(file, tag)])
  {
  }
}
