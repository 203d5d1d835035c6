/** What a sentence lock is good for. Its key is an index, so it protects a sentence only as long as sentences keep
    their indices; while they do, every commit lands on the sentence its session has locked
    (storage_server/storage_server.c: try_acquire_lock, handle_write_file). */
module LockPromise {
  import opened Text
  import opened Sentences
  import opened WordBuffers
  import opened WordLaws
  import opened Commits
  import opened CommitLaws
  import opened LockTables
  import opened UndoTables
  import opened StorageServer
  import opened StorageLaws
  import opened RunLaws

  // ---------------------------------------------------------------------------- the conditions

  /** A session that has locked a sentence of the file and has not committed yet. */
  predicate Editor(s: State, id: nat, file: string) {
    Holding(s, id) && !s.clients[id].phase.Leaving? && s.clients[id].file == file && !s.clients[id].session.append
  }

  /** The sentence at the session's index is still the one it read. */
  predicate InPlace(s: State, id: nat)
    requires id in s.clients
  {
    var ss, c := Split(Content(s, s.clients[id].file)), s.clients[id].session;
    c.index < |ss| && SameSentence(ss[c.index], c.snapshot)
  }

  ghost predicate AllInPlace(s: State, file: string) {
    forall id :: Editor(s, id, file) ==> InPlace(s, id)
  }

  /** A lock that is granted is granted on the sentence the session read, not on a later one at its index. */
  predicate Fresh(s: State, e: Event, file: string) {
    (&& e.AcquireLock? && InPhase(s, e.id, Reading) && CanAcquire(s.locks, Key(s.clients[e.id]))
     && s.clients[e.id].file == file && !s.clients[e.id].session.append)
    ==> InPlace(s, e.id)
  }

  /** The edited text takes the place of one sentence as one sentence, or closes the list it is appended to. Keeping
      the number of sentences would not be enough: "X. y" in the place of "A." counts two, and its second one runs into
      the sentence behind it. */
  ghost predicate KeepsIndices(latest: seq<string>, c: Session) {
    var text := Rebuild(c.words);
    && Neat(text)
    && if c.append then FitsAt(latest, |latest|, text) else FitsAt(latest, c.index, text) && |Split(text)| == 1
  }

  /** If the step writes the file, it does so under the commit lock, fits the word array, and keeps the indices. */
  ghost predicate Tidy(s: State, e: Event, file: string) {
    Writes(s, e) && s.clients[e.id].file == file ==>
      var c := s.clients[e.id];
      c.phase.guarded && FitsWords(c) && KeepsIndices(Split(c.phase.latest), c.session)
  }

  ghost predicate SteadyRun(s: State, es: seq<Event>, file: string)
    decreases |es|
  {
    es == [] || (Fresh(s, es[0], file) && Tidy(s, es[0], file) && SteadyRun(Step(s, es[0]), es[1..], file))
  }

  /** If the step writes the file, it replaces the sentence whose key the session holds, or appends. */
  predicate HitsOwnKey(s: State, e: Event, file: string) {
    Writes(s, e) && s.clients[e.id].file == file && !s.clients[e.id].session.append ==>
      var c := s.clients[e.id];
      && Holding(s, e.id) && Key(c) == (file, c.session.index)
      && Remap(c.phase.latest, Split(c.phase.latest), c.session) == At(c.session.index)
  }

  predicate RunHitsOwnKeys(s: State, es: seq<Event>, file: string)
    decreases |es|
  {
    es == [] || (HitsOwnKey(s, es[0], file) && RunHitsOwnKeys(Step(s, es[0]), es[1..], file))
  }

  // --------------------------------------------------------------------------------- one commit

  lemma RemapInPlace(content: string, s: Session)
    requires !s.append && s.snapshot != "" && s.index < |Split(content)|
    requires SameSentence(Split(content)[s.index], s.snapshot)
    ensures Remap(content, Split(content), s) == At(s.index) && FoundByText(content, s)
  {
    hide Split, Trim;
  }

  lemma GenuineHasSnapshot(c: Client)
    requires Genuine(c) && !c.session.append
    ensures c.session.snapshot != ""
  {
    OpenedSnapshots(c.base, c.session.index);
  }

  /** A commit that keeps the indices changes the sentence at its own index, or adds sentences at the end. */
  lemma KeptIndices(content: string, c: Session)
    requires Commit(content, c).Written? && KeepsIndices(Split(content), c)
    requires c.append || (c.snapshot != "" && c.index < |Split(content)|
                          && SameSentence(Split(content)[c.index], c.snapshot))
    ensures var was, now := Split(content), Split(Commit(content, c).content);
            && |was| <= |now|
            && forall i :: 0 <= i < |was| && (c.append || i != c.index) ==> now[i] == was[i]
  {
    hide Split, Join, Rebuild, Neat, FitsAt, SameSentence, FoundByText, Pieces;
    var latest, text := Split(content), Rebuild(c.words);
    if c.append {
      CommitParsesBack(content, |latest|, text);
    } else {
      RemapInPlace(content, c);
      OnePiece(text);
      hide Remap;
      CommitParsesBack(content, c.index, text);
    }
  }

  lemma OnePiece(text: string)
    requires |Split(text)| == 1
    ensures Pieces(text) == [text]
  {
    hide Split;
  }

  // ----------------------------------------------------------------------------------- one step

  /** Who edits after a step did so before, on the same sentence, or has just been granted the lock. */
  lemma EditorCameFrom(s: State, e: Event, id: nat, file: string)
    requires Editor(Step(s, e), id, file)
    ensures id in s.clients
    ensures var a, b := s.clients[id], Step(s, e).clients[id];
            && a.file == b.file && a.session == b.session.(words := a.session.words)
            && (Editor(s, id, file)
                || (e.AcquireLock? && e.id == id && InPhase(s, id, Reading) && CanAcquire(s.locks, Key(a))))
    ensures e.WriteBack? && e.id in s.clients && s.clients[e.id].phase.Committing? ==> e.id != id
  {
    hide Commit, Open, Save, Take, ImageOf, Release, Acquire, CanAcquire, Content, Find, IsLocked, Accepted, Apply,
         Split;
  }

  lemma InPlaceMoves(s: State, t: State, id: nat)
    requires id in s.clients && id in t.clients && InPlace(s, id)
    requires s.clients[id].file == t.clients[id].file
    requires s.clients[id].session == t.clients[id].session.(words := s.clients[id].session.words)
    requires var a, b := Split(Content(s, s.clients[id].file)), Split(Content(t, s.clients[id].file));
             |a| <= |b| && a[s.clients[id].session.index] == b[s.clients[id].session.index]
    ensures InPlace(t, id)
  {
    hide Split, Content, Trim;
  }

  lemma OwnKey(s: State, e: Event, file: string)
    requires Sound(s, file) && AllInPlace(s, file) && Tidy(s, e, file)
    requires Writes(s, e) && s.clients[e.id].file == file
    ensures var c := s.clients[e.id];
            && c.phase.latest == Content(s, file)
            && (!c.session.append ==> Editor(s, e.id, file) && c.session.snapshot != "" && InPlace(s, e.id))
    ensures Clean(s, e, file) && HitsOwnKey(s, e, file)
  {
    hide Split, Content, Commit, Rebuild, Trim, Open, CommitsAgree, FitsWords;
    var c := s.clients[e.id];
    assert Guarded(s, e.id);
    if !c.session.append {
      assert Editor(s, e.id, file);
      assert Genuine(c);
      GenuineHasSnapshot(c);
      RemapInPlace(c.phase.latest, c.session);
    } else {
      WrittenAppend(c.phase.latest, c.session);
    }
  }

  lemma WrittenAppend(content: string, c: Session)
    requires Commit(content, c).Written? && c.append
    ensures FoundByText(content, c)
  {
  }

  /** The step writes nothing to the file. */
  lemma PlacesStay(s: State, e: Event, file: string)
    requires AllInPlace(s, file) && Fresh(s, e, file) && Spares(e, file)
    requires !(Writes(s, e) && s.clients[e.id].file == file)
    ensures AllInPlace(Step(s, e), file)
  {
    hide Split, Content, Step, InPlace, Spares, CanAcquire;
    RefusedKeepsContent(s, e, file);
    var t := Step(s, e);
    forall id | Editor(t, id, file)
      ensures InPlace(t, id)
    {
      EditorCameFrom(s, e, id, file);
      assert InPlace(s, id);
      StillInPlace(s, t, id);
    }
  }

  lemma StillInPlace(s: State, t: State, id: nat)
    requires id in s.clients && id in t.clients && InPlace(s, id)
    requires s.clients[id].file == t.clients[id].file
    requires s.clients[id].session == t.clients[id].session.(words := s.clients[id].session.words)
    requires Content(s, s.clients[id].file) == Content(t, s.clients[id].file)
    ensures InPlace(t, id)
  {
    hide Split, Content, Trim;
  }

  /** The step writes the file: every other editor holds another key, hence another index. */
  lemma PlacesSurviveCommit(s: State, e: Event, file: string)
    requires Sound(s, file) && LocksAgree(s) && AllInPlace(s, file) && Tidy(s, e, file)
    requires Writes(s, e) && s.clients[e.id].file == file
    ensures AllInPlace(Step(s, e), file)
  {
    hide Split, Content, Step, InPlace, Commit, Sound, KeepsIndices, FitsWords, HitsOwnKey, Clean;
    OwnKey(s, e, file);
    var t, c := Step(s, e), s.clients[e.id];
    assert KeepsIndices(Split(c.phase.latest), c.session);
    InPlaceMeans(s, e.id);
    KeptIndices(Content(s, file), c.session);
    WrittenContent(s, e, file);
    forall id | Editor(t, id, file)
      ensures InPlace(t, id)
    {
      EditorCameFrom(s, e, id, file);
      assert id != e.id && Editor(s, id, file) && InPlace(s, id);
      InPlaceMeans(s, id);
      if !c.session.append {
        assert Key(s.clients[id]) != Key(c);
      }
      InPlaceMoves(s, t, id);
    }
  }

  lemma InPlaceMeans(s: State, id: nat)
    requires id in s.clients
    ensures var ss, c := Split(Content(s, s.clients[id].file)), s.clients[id].session;
            InPlace(s, id) <==> c.index < |ss| && SameSentence(ss[c.index], c.snapshot)
  {
  }

  lemma WrittenContent(s: State, e: Event, file: string)
    requires Writes(s, e) && s.clients[e.id].file == file
    ensures Content(Step(s, e), file) == Commit(s.clients[e.id].phase.latest, s.clients[e.id].session).content
  {
    hide Commit, Release;
  }

  // --------------------------------------------------------------------------------- whole runs

  /** While locks are granted on sentences that are still in place and every commit keeps the indices, every commit
      to the file, in any interleaving, replaces the very sentence its session has locked; so every such run is one
      that loses nothing. */
  lemma {:induction false} SteadyRunHitsOwnKeys(s: State, es: seq<Event>, file: string)
    requires Sound(s, file) && LocksAgree(s) && AllInPlace(s, file)
    requires AllSpare(es, file) && SteadyRun(s, es, file)
    ensures RunHitsOwnKeys(s, es, file) && CleanRun(s, es, file)
    ensures AllInPlace(Run(s, es), file)
    decreases |es|
  {
    hide Sound, LocksAgree, AllInPlace, Step, Fresh, Tidy, Clean, HitsOwnKey, Spares, Writes;
    if es != [] {
      var e := es[0];
      SparedIsUndisturbed(s, e, file);
      StepKeepsSound(s, e, file);
      StepKeepsLocks(s, e);
      StepHitsOwnKey(s, e, file);
      SteadyRunHitsOwnKeys(Step(s, e), es[1..], file);
    }
  }

  lemma StepHitsOwnKey(s: State, e: Event, file: string)
    requires Sound(s, file) && LocksAgree(s) && AllInPlace(s, file)
    requires Spares(e, file) && Fresh(s, e, file) && Tidy(s, e, file)
    ensures HitsOwnKey(s, e, file) && Clean(s, e, file) && AllInPlace(Step(s, e), file)
  {
    if Writes(s, e) && s.clients[e.id].file == file {
      hide Sound, LocksAgree, AllInPlace, Step, Fresh, Tidy, Clean, HitsOwnKey, Spares, Writes;
      OwnKey(s, e, file);
      PlacesSurviveCommit(s, e, file);
    } else {
      hide Sound, LocksAgree, AllInPlace, Step, Fresh, Tidy, Spares, Writes;
      PlacesStay(s, e, file);
    }
  }

  /** Such a run loses nothing, with no condition on where commits land. */
  lemma SteadyRunLosesNothing(s: State, es: seq<Event>, file: string)
    requires s.clients == map[] && s.commits == [] && s.locks == []
    requires AllSpare(es, file) && SteadyRun(s, es, file)
    ensures var t := Run(s, es);
            && Subseq(Ink(Content(s, file)), Ink(Content(t, file)))
            && multiset(Ink(Content(t, file))) == multiset(Ink(Content(s, file))) + multiset(Ink(Gains(s, es, file)))
  {
    hide Run, Content, Ink, Subseq, Gains, SteadyRun, CleanRun, Sound, LocksAgree;
    StartIsSound(s, file);
    StartHoldsNothing(s);
    SteadyRunHitsOwnKeys(s, es, file);
    RunLosesNothing(s, es, file);
  }

  lemma StartHoldsNothing(s: State)
    requires s.clients == map[] && s.locks == []
    ensures LocksAgree(s) && forall file :: AllInPlace(s, file)
  {
    assert forall key :: Find(s.locks, key) == 0;
    assert forall key :: !HeldBySome(s, key);
  }
}
