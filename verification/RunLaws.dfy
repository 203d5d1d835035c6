/** Text conservation over whole runs of concurrent WRITE sessions. */
module RunLaws {
  import opened Text
  import opened CString
  import opened WordBuffers
  import opened WordLaws
  import opened Commits
  import opened CommitLaws
  import opened LockTables
  import opened UndoTables
  import opened StorageServer
  import opened StorageLaws

  // --------------------------------------------------------------- what a session really holds

  /** The session is one that opening its base content gives, after the updates it received. */
  predicate Genuine(c: Client) {
    var o := Open(c.base, c.session.index);
    o.Opened? && c.session == Edited(o.session, c.updates)
  }

  ghost predicate AllGenuine(s: State) {
    forall id :: id in s.clients ==> Genuine(s.clients[id])
  }

  lemma StepKeepsGenuine(s: State, e: Event)
    requires AllGenuine(s)
    ensures AllGenuine(Step(s, e))
  {
    hide Commit, Open, Save, Take, ImageOf, Release, Acquire, CanAcquire, Content, Find, IsLocked;
    var t := Step(s, e);
    if e.OpenFile? && t != s {
      OpenedIndex(Content(s, e.file), e.index);
      assert Genuine(t.clients[e.id]);
    } else if e.Receive? && t != s {
      var c := s.clients[e.id];
      FeedSnoc(Open(c.base, c.session.index).session.words, c.updates, e.update);
      assert Genuine(t.clients[e.id]);
    } else if t != s {
      SessionsKept(s, e);
    }
  }

  /** In every reachable state each session is what opening its base content gives, after the updates it received. */
  lemma {:induction false} RunKeepsGenuine(s: State, es: seq<Event>)
    requires AllGenuine(s)
    ensures AllGenuine(Run(s, es))
    decreases |es|
  {
    hide AllGenuine, Step;
    if es != [] {
      StepKeepsGenuine(s, es[0]);
      RunKeepsGenuine(Step(s, es[0]), es[1..]);
    }
  }

  lemma OpenedIndex(content: string, index: int)
    requires Open(content, index).Opened?
    ensures Open(content, index).session.index == index
    ensures Edited(Open(content, index).session, []) == Open(content, index).session
  {
  }

  /** The same sessions, up to the phase they are in. */
  ghost predicate SameSessions(s: State, t: State) {
    && t.clients.Keys == s.clients.Keys
    && forall id :: id in s.clients ==> t.clients[id] == s.clients[id].(phase := t.clients[id].phase)
  }

  lemma PhaseMoves(s: State, t: State, id: nat)
    requires id in s.clients && id in t.clients
    requires t.clients == s.clients[id := s.clients[id].(phase := t.clients[id].phase)]
    ensures SameSessions(s, t)
  {
  }

  lemma NoPhaseMoves(s: State, t: State)
    requires s.clients == t.clients
    ensures SameSessions(s, t)
  {
  }

  lemma SessionsKept(s: State, e: Event)
    requires Step(s, e) != s && !e.OpenFile? && !e.Receive?
    ensures SameSessions(s, Step(s, e))
  {
    hide Commit, Open, Save, Take, ImageOf, Release, Acquire, CanAcquire, Content, Find, IsLocked, SameSessions, Store;
    var t := Step(s, e);
    match e
    case AcquireLock(id, _) => PhaseMoves(s, t, id);
    case SaveImage(id) => PhaseMoves(s, t, id);
    case Finish(id) => PhaseMoves(s, t, id);
    case Disconnect(id) => PhaseMoves(s, t, id);
    case ReadLatest(id) => PhaseMoves(s, t, id);
    case WriteBack(id) =>
      StoreKeepsClients(s, s.clients[id].file, Commit(s.clients[id].phase.latest, s.clients[id].session));
      PhaseMoves(s, t, id);
    case ReleaseKey(id) => PhaseMoves(s, t, id);
    case Undo(file) =>
      var image := ImageOf(s.undo, file);
      StoreKeepsClients(s, file, if image.Some? then Written(image.value) else Unchanged);
      NoPhaseMoves(s, t);
    case CreateFile(file) => StoreKeepsClients(s, file, Written("")); NoPhaseMoves(s, t);
    case Revert(file, tag) => StoreKeepsClients(s, file, Written(s.checkpoints[(file, tag)])); NoPhaseMoves(s, t);
    case Push(file, content) => StoreKeepsClients(s, file, Written(content)); NoPhaseMoves(s, t);
    case DeleteFile(_) => NoPhaseMoves(s, t);
    case Checkpoint(_, _) => NoPhaseMoves(s, t);
    case _ =>
  }

  lemma StoreKeepsClients(s: State, file: string, out: Outcome)
    ensures out.Written? ==> Store(s, file, out.content).clients == s.clients
  {
  }

  // --------------------------------------------------------------- a commit sees the latest content

  /** The step leaves the file to WRITE sessions: CREATE, DELETE, UNDO, REVERT and pushed content take no commit
      lock. */
  predicate Spares(e: Event, file: string) {
    match e
    case CreateFile(f) => f != file
    case DeleteFile(f) => f != file
    case Undo(f) => f != file
    case Revert(f, _) => f != file
    case Push(f, _) => f != file
    case _ => true
  }

  ghost predicate AllSpare(es: seq<Event>, file: string) {
    forall i :: 0 <= i < |es| ==> Spares(es[i], file)
  }

  /** What a session read under the commit lock of this file is still its content. */
  ghost predicate LatestIsCurrent(s: State, file: string) {
    forall id :: Guarded(s, id) && s.clients[id].file == file ==> s.clients[id].phase.latest == Content(s, file)
  }

  lemma GuardExcludes(s: State, id: nat, other: nat)
    requires CommitsAgree(s) && Guarded(s, other) && other != id
    requires id in s.clients && s.clients[id].phase.Committing?
    ensures s.clients[other].file != s.clients[id].file
  {
    assert GuardedBySome(s, s.clients[other].file);
  }

  /** A step that spares the file and is no commit to it leaves its content alone. */
  lemma SparedContent(s: State, e: Event, file: string)
    requires Spares(e, file)
    requires e.WriteBack? ==> e.id !in s.clients || s.clients[e.id].file != file
    ensures Content(Step(s, e), file) == Content(s, file)
  {
    hide Commit, Open, Save, Take, ImageOf, Release, Acquire, CanAcquire, Find, IsLocked, Accepted, Apply;
  }

  /** The step takes or gives back a commit lock, or no session holds that of the file, or the content stays. */
  ghost predicate Undisturbed(s: State, e: Event, file: string) {
    TouchesCommits(e) || !GuardedBySome(s, file) || Content(Step(s, e), file) == Content(s, file)
  }

  lemma CommitStepsKeepLatest(s: State, e: Event, file: string)
    requires CommitsAgree(s) && LatestIsCurrent(s, file) && TouchesCommits(e)
    ensures LatestIsCurrent(Step(s, e), file)
  {
    var t := Step(s, e);
    hide Commit, Open, Save, Take, ImageOf, Release, Acquire, CanAcquire, Find, IsLocked, Accepted, Apply, CommitsAgree;
    if t != s {
      if e.ReadLatest? || s.clients[e.id].file != file {
        SparedContent(s, e, file);
      }
      forall other | Guarded(t, other) && t.clients[other].file == file
        ensures t.clients[other].phase.latest == Content(t, file)
      {
        if e.WriteBack? {
          assert other != e.id && t.clients[other] == s.clients[other];
          GuardExcludes(s, e.id, other);
        } else if other != e.id {
          assert t.clients[other] == s.clients[other];
        }
      }
    }
  }

  /** Exactly when the commit lock makes reading the latest content and writing back one step: as long as nothing else
      changes the content while a session holds the lock. */
  lemma LatestStaysCurrentIff(s: State, e: Event, file: string)
    requires CommitsAgree(s) && LatestIsCurrent(s, file)
    ensures LatestIsCurrent(Step(s, e), file) <==> Undisturbed(s, e, file)
  {
    if TouchesCommits(e) {
      CommitStepsKeepLatest(s, e, file);
    } else {
      hide Step, Content, TouchesCommits, CommitsAgree;
      OtherStepsKeepCommitters(s, e);
      if GuardedBySome(s, file) {
        var id :| Guarded(s, id) && s.clients[id].file == file;
        assert Guarded(Step(s, e), id);
      }
    }
  }

  lemma SparedIsUndisturbed(s: State, e: Event, file: string)
    requires Spares(e, file)
    ensures Undisturbed(s, e, file)
  {
    if !TouchesCommits(e) {
      SparedContent(s, e, file);
    }
  }

  /** In particular by the steps of WRITE sessions, and by any write while no session is committing to the file. */
  lemma StepKeepsLatest(s: State, e: Event, file: string)
    requires CommitsAgree(s) && LatestIsCurrent(s, file)
    requires Spares(e, file) || !GuardedBySome(s, file)
    ensures LatestIsCurrent(Step(s, e), file)
  {
    hide Step, Content, CommitsAgree, LatestIsCurrent, Spares;
    if Spares(e, file) {
      SparedIsUndisturbed(s, e, file);
    }
    LatestStaysCurrentIff(s, e, file);
  }

  // ------------------------------------------------------------------------------- whole runs

  /** The session is about to write, and its edit will be accepted. */
  predicate Writes(s: State, e: Event) {
    && e.WriteBack? && e.id in s.clients && s.clients[e.id].phase.Committing?
    && Commit(s.clients[e.id].phase.latest, s.clients[e.id].session).Written?
  }

  /** The sentence the session opened fits the word array. */
  predicate FitsWords(c: Client) {
    Open(c.base, c.session.index).Opened?
    && |Fields(Open(c.base, c.session.index).session.snapshot, ' ')| <= MAX_WORDS_PER_SENTENCE
  }

  /** If this step writes the file, it does so under the commit lock and on a target found by text, or at the end. */
  ghost predicate Clean(s: State, e: Event, file: string) {
    Writes(s, e) && s.clients[e.id].file == file ==>
      var c := s.clients[e.id];
      c.phase.guarded && FitsWords(c) && FoundByText(c.phase.latest, c.session)
  }

  ghost predicate CleanRun(s: State, es: seq<Event>, file: string)
    decreases |es|
  {
    es == [] || (Clean(s, es[0], file) && CleanRun(Step(s, es[0]), es[1..], file))
  }

  /** The text this step adds to the file: the accepted insertions of the session that writes. */
  function Gain(s: State, e: Event, file: string): string {
    if Writes(s, e) && s.clients[e.id].file == file && FitsWords(s.clients[e.id])
    then
      var c := s.clients[e.id];
      AcceptedText(Open(c.base, c.session.index).session.words, c.updates)
    else ""
  }

  function Gains(s: State, es: seq<Event>, file: string): string
    decreases |es|
  {
    if es == [] then "" else Gain(s, es[0], file) + Gains(Step(s, es[0]), es[1..], file)
  }

  ghost predicate Sound(s: State, file: string) {
    CommitsAgree(s) && LatestIsCurrent(s, file) && AllGenuine(s)
  }

  lemma StepKeepsSound(s: State, e: Event, file: string)
    requires Sound(s, file) && Undisturbed(s, e, file)
    ensures Sound(Step(s, e), file)
  {
    hide CommitsAgree, LatestIsCurrent, AllGenuine, Step, Undisturbed;
    StepKeepsCommits(s, e);
    LatestStaysCurrentIff(s, e, file);
    StepKeepsGenuine(s, e);
  }

  lemma RefusedKeepsContent(s: State, e: Event, file: string)
    requires Spares(e, file) && !(Writes(s, e) && s.clients[e.id].file == file)
    ensures Content(Step(s, e), file) == Content(s, file)
  {
    if e.WriteBack? && e.id in s.clients && s.clients[e.id].file == file {
      hide Commit, Open, Release;
    } else {
      SparedContent(s, e, file);
    }
  }

  /** The file keeps its visible characters, in order, and gains what the step adds. */
  ghost predicate Conserves(s: State, e: Event, file: string) {
    var t := Step(s, e);
    && Subseq(Ink(Content(s, file)), Ink(Content(t, file)))
    && multiset(Ink(Content(t, file))) == multiset(Ink(Content(s, file))) + multiset(Ink(Gain(s, e, file)))
  }

  lemma WriteConserves(s: State, e: Event, file: string)
    requires Sound(s, file) && Writes(s, e) && s.clients[e.id].file == file && Clean(s, e, file)
    ensures Conserves(s, e, file)
  {
    hide Ink, Subseq, CommitsAgree, Open, AcceptedText;
    var c := s.clients[e.id];
    assert Guarded(s, e.id) && Genuine(c);
    CommitLosesNothing(c.base, c.session.index, c.updates, c.phase.latest);
    assert Content(Step(s, e), file) == Commit(c.phase.latest, c.session).content;
  }

  lemma StepConserves(s: State, e: Event, file: string)
    requires Sound(s, file) && Spares(e, file) && Clean(s, e, file)
    ensures Conserves(s, e, file)
  {
    if Writes(s, e) && s.clients[e.id].file == file {
      hide Conserves, Sound, Clean;
      WriteConserves(s, e, file);
    } else {
      RefusedKeepsContent(s, e, file);
      hide Step, Ink, Subseq, Sound;
      SubseqRefl(Ink(Content(s, file)));
      InkOfNone();
    }
  }

  lemma InkGain(a: string, b: string)
    ensures multiset(Ink(a + b)) == multiset(Ink(a)) + multiset(Ink(b))
  {
    InkConcat(a, b);
  }

  /** Any number of WRITE sessions, interleaved in any way with each other and with anything that leaves this file to
      them, each commit on a target found by text or an append: at the end every visible character the file had is
      still there, in order, and what it gained is exactly the accepted insertions of the sessions that committed. */
  lemma {:induction false} RunLosesNothing(s: State, es: seq<Event>, file: string)
    requires Sound(s, file) && AllSpare(es, file) && CleanRun(s, es, file)
    ensures var t := Run(s, es);
            && Subseq(Ink(Content(s, file)), Ink(Content(t, file)))
            && multiset(Ink(Content(t, file))) == multiset(Ink(Content(s, file))) + multiset(Ink(Gains(s, es, file)))
    decreases |es|
  {
    hide Ink, Subseq, Sound, Step, Clean, Gain, Content, Spares, Undisturbed;
    if es == [] {
      SubseqRefl(Ink(Content(s, file)));
      InkOfNone();
    } else {
      var next := Step(s, es[0]);
      StepConserves(s, es[0], file);
      SparedIsUndisturbed(s, es[0], file);
      StepKeepsSound(s, es[0], file);
      RunLosesNothing(next, es[1..], file);
      SubseqTrans(Ink(Content(s, file)), Ink(Content(next, file)), Ink(Content(Run(s, es), file)));
      InkGain(Gain(s, es[0], file), Gains(next, es[1..], file));
    }
  }

  // ------------------------------------------------------------- runs with other writes to the file

  /** No step changes the file behind the back of a session that holds its commit lock. */
  ghost predicate QuietRun(s: State, es: seq<Event>, file: string)
    decreases |es|
  {
    es == [] || (Undisturbed(s, es[0], file) && QuietRun(Step(s, es[0]), es[1..], file))
  }

  /** Throughout the run, what is read under the commit lock is current. */
  ghost predicate CurrentRun(s: State, es: seq<Event>, file: string)
    decreases |es|
  {
    LatestIsCurrent(s, file) && (es == [] || CurrentRun(Step(s, es[0]), es[1..], file))
  }

  /** The runs in which no session ever commits on a content that is no longer there. */
  lemma {:induction false} CurrentRunIff(s: State, es: seq<Event>, file: string)
    requires CommitsAgree(s) && LatestIsCurrent(s, file)
    ensures CurrentRun(s, es, file) <==> QuietRun(s, es, file)
    decreases |es|
  {
    hide CommitsAgree, LatestIsCurrent, Undisturbed, Step;
    if es != [] {
      LatestStaysCurrentIff(s, es[0], file);
      StepKeepsCommits(s, es[0]);
      if Undisturbed(s, es[0], file) {
        CurrentRunIff(Step(s, es[0]), es[1..], file);
      }
    }
  }

  /** Every commit to the file on a target found by text, or at the end, conserves the content it replaces. */
  ghost predicate CommitsConserve(s: State, es: seq<Event>, file: string)
    decreases |es|
  {
    es == [] ||
    ((Writes(s, es[0]) && s.clients[es[0].id].file == file && Clean(s, es[0], file) ==> Conserves(s, es[0], file))
     && CommitsConserve(Step(s, es[0]), es[1..], file))
  }

  /** Any run of any steps, UNDO, REVERT, DELETE and pushes on the very file among them, as long as none of them meets a
      session that holds its commit lock. */
  lemma {:induction false} QuietCommitsConserve(s: State, es: seq<Event>, file: string)
    requires Sound(s, file) && QuietRun(s, es, file)
    ensures CommitsConserve(s, es, file) && Sound(Run(s, es), file)
    decreases |es|
  {
    hide Sound, Step, Clean, Commit, Conserves, Undisturbed;
    if es != [] {
      if Writes(s, es[0]) && s.clients[es[0].id].file == file && Clean(s, es[0], file) {
        WriteConserves(s, es[0], file);
      }
      StepKeepsSound(s, es[0], file);
      QuietCommitsConserve(Step(s, es[0]), es[1..], file);
    }
  }

  /** A state with no sessions and no commit locks is sound: any set of files to start from. */
  lemma StartIsSound(s: State, file: string)
    requires s.clients == map[] && s.commits == []
    ensures Sound(s, file)
  {
    assert forall f :: Find(s.commits, f) == 0;
    assert forall f :: !GuardedBySome(s, f);
  }
}
