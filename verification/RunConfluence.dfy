/** Confluence over whole runs: however the steps of independent WRITE sessions interleave, the file becomes the
    merge of their edits (storage_server/storage_server.c, handle_write_file). */
module RunConfluence {
  import opened Sentences
  import opened Commits
  import opened CommitLaws
  import opened LockTables
  import opened Confluence
  import opened StorageServer
  import opened StorageLaws
  import opened RunLaws

  /** The step is the write-back of a session on this file. */
  predicate CommitsTo(s: State, e: Event, file: string) {
    e.WriteBack? && e.id in s.clients && s.clients[e.id].phase.Committing? && s.clients[e.id].file == file
  }

  /** The sentences committed so far, by index, after one more step. */
  function After(s: State, e: Event, file: string, done: set<nat>): set<nat> {
    if CommitsTo(s, e, file) then done + {s.clients[e.id].session.index} else done
  }

  function Committed(s: State, es: seq<Event>, file: string, done: set<nat>): set<nat>
    decreases |es|
  {
    if es == [] then done else Committed(Step(s, es[0]), es[1..], file, After(s, es[0], file, done))
  }

  /** If the step commits to the file, the session holds the commit lock, opened the common content, received the
      updates listed for its sentence, and is the first to commit that sentence. */
  predicate Plays(s: State, e: Event, file: string, base: string, edits: Edits, done: set<nat>) {
    CommitsTo(s, e, file) ==>
      var c := s.clients[e.id];
      var k := c.session.index;
      c.phase.guarded && c.base == base && k in edits && k !in done && c.updates == edits[k]
  }

  predicate PlaysRun(s: State, es: seq<Event>, file: string, base: string, edits: Edits, done: set<nat>)
    decreases |es|
  {
    es == [] ||
    (Plays(s, es[0], file, base, edits, done)
     && PlaysRun(Step(s, es[0]), es[1..], file, base, edits, After(s, es[0], file, done)))
  }

  /** The content of the file is the merge of what was committed, or still the common content. */
  ghost predicate IsMerge(content: string, base: string, edits: Edits, done: set<nat>) {
    && Split(content) == Merged(base, edits, done)
    && content == if done == {} then base else Join(Merged(base, edits, done))
  }

  lemma CommitStep(s: State, e: Event, file: string, base: string, edits: Edits, done: set<nat>)
    requires Sound(s, file) && CommitsTo(s, e, file) && Plays(s, e, file, base, edits, done)
    requires Independent(base, edits) && done <= edits.Keys && Split(Content(s, file)) == Merged(base, edits, done)
    ensures IsMerge(Content(Step(s, e), file), base, edits, After(s, e, file, done))
  {
    var c := s.clients[e.id];
    var k := c.session.index;
    hide Split, Commit, Merged, Join, CommitsAgree, Edited, Open, Release;
    assert Guarded(s, e.id) && Genuine(c);
    assert c.phase.latest == Content(s, file);
    assert c.session == SessionOn(base, k, edits[k]);
    hide Independent, SessionOn;
    CommitMerges(base, edits, done, k, Content(s, file));
  }

  lemma OtherStep(s: State, e: Event, file: string)
    requires Spares(e, file) && !CommitsTo(s, e, file)
    ensures Content(Step(s, e), file) == Content(s, file)
  {
    if e.WriteBack? && e.id in s.clients && s.clients[e.id].file == file {
      assert !s.clients[e.id].phase.Committing?;
    } else {
      SparedContent(s, e, file);
    }
  }

  /** From any sound state whose file is the merge of the sessions in `done`. */
  lemma {:induction false} RunMerges(s: State, es: seq<Event>, file: string, base: string, edits: Edits, done: set<nat>)
    requires Sound(s, file) && AllSpare(es, file) && Independent(base, edits) && done <= edits.Keys
    requires PlaysRun(s, es, file, base, edits, done) && IsMerge(Content(s, file), base, edits, done)
    ensures Committed(s, es, file, done) <= edits.Keys
    ensures IsMerge(Content(Run(s, es), file), base, edits, Committed(s, es, file, done))
    decreases |es|
  {
    hide Sound, Step, Content, Independent, Merged, Split, Join, Spares;
    if es != [] {
      var e, next := es[0], After(s, es[0], file, done);
      SparedIsUndisturbed(s, e, file);
      StepKeepsSound(s, e, file);
      if CommitsTo(s, e, file) {
        CommitStep(s, e, file, base, edits, done);
      } else {
        OtherStep(s, e, file);
      }
      RunMerges(Step(s, e), es[1..], file, base, edits, next);
    }
  }

  lemma NothingMergedYet(base: string, edits: Edits)
    ensures IsMerge(base, base, edits, {})
  {
    hide Split;
    BlocksOfNone(base, edits, 0);
    assert Split(base)[0..] == Split(base);
  }

  /** Every interleaving of WRITE sessions, and of anything that leaves the file to them, in which the sessions that
      commit to the file are independent ones on the content it has now: all their commits are accepted, and the file
      is that content with each committed sentence replaced by its edit. */
  lemma EveryInterleavingMerges(s: State, es: seq<Event>, file: string, edits: Edits)
    requires Sound(s, file) && AllSpare(es, file) && Independent(Content(s, file), edits)
    requires PlaysRun(s, es, file, Content(s, file), edits, {})
    ensures var base, done := Content(s, file), Committed(s, es, file, {});
            Content(Run(s, es), file) == if done == {} then base else Join(Merged(base, edits, done))
  {
    hide Content, Sound, Independent;
    NothingMergedYet(Content(s, file), edits);
    RunMerges(s, es, file, Content(s, file), edits, {});
  }

  /** Two interleavings that commit the same sessions leave the same file. */
  lemma InterleavingDoesNotMatter(s: State, first: seq<Event>, second: seq<Event>, file: string, edits: Edits)
    requires Sound(s, file) && AllSpare(first, file) && AllSpare(second, file) && Independent(Content(s, file), edits)
    requires PlaysRun(s, first, file, Content(s, file), edits, {})
    requires PlaysRun(s, second, file, Content(s, file), edits, {})
    requires Committed(s, first, file, {}) == Committed(s, second, file, {})
    ensures Content(Run(s, first), file) == Content(Run(s, second), file)
  {
    EveryInterleavingMerges(s, first, file, edits);
    EveryInterleavingMerges(s, second, file, edits);
  }
}
