/** Concrete inputs and runs on which the editor does not do what its comments and replies promise
    (storage_server/storage_server.c, handle_write_file). Each shows that a condition proved elsewhere can fail. */
module Witnesses {
  import opened Text
  import opened CString
  import opened Sentences
  import opened WordBuffers
  import opened WordLaws
  import opened Commits
  import opened CommitLaws
  import opened LockTables
  import opened StorageServer
  import opened StorageLaws
  import opened RunLaws
  import opened SessionRuns

  // -------------------------------------------------------------------------- small sentences

  /** A word with its closing delimiter: a sentence, a token and a trimmed text all at once. */
  predicate IsSimple(t: string) {
    |t| >= 2 && Tight(t) && ' ' !in t && FirstDelimiter(t) == |t| - 1
  }

  ghost predicate AllSimple(ss: seq<string>) {
    forall i :: 0 <= i < |ss| ==> IsSimple(ss[i])
  }

  lemma SimpleList(ss: seq<string>)
    requires AllSimple(ss)
    ensures Split(Join(ss)) == ss
  {
    forall i | 0 <= i < |ss|
      ensures ss[i] != "" && ss[i][0] != ' ' && Terminated(ss[i])
    {
      assert IsSimple(ss[i]) && ss[i][0] in ss[i];
    }
    SplitOfJoin(ss);
  }

  lemma SplitOfOne(t: string)
    requires Terminated(t)
    ensures Split(t) == [t] && Join([t]) == t
  {
    SplitTerminated(t, "");
    JoinCons(t, []);
    assert [t] + [] == [t] && t + Tails([]) == t;
  }

  lemma TokensOfOne(t: string)
    requires IsField(t, ' ')
    ensures Tokens(t) == [t] && Rebuild([t]) == t
  {
    FieldsOne(t, ' ');
    assert t + Rest([t][1..]) == t;
  }

  lemma SimpleText(t: string)
    requires IsSimple(t)
    ensures Split(t) == [t] && Pieces(t) == [t] && Join([t]) == t && Trim(t) == t
    ensures Tokens(t) == [t] && Rebuild([t]) == t
  {
    SplitOfOne(t);
    TokensOfOne(t);
  }

  lemma TwoLetters(c: char)
    requires !IsSpace(c) && !IsDelimiter(c)
    ensures IsSimple([c, '.'])
  {
    var t := [c, '.'];
    FirstDelimiterIs(t, 1);
  }

  lemma ThreeLetters(c: char, d: char)
    requires !IsSpace(c) && !IsDelimiter(c) && !IsSpace(d) && !IsDelimiter(d)
    ensures IsSimple([c, d, '.']) && Ink([c, d, '.']) == [c, d, '.']
  {
    var t := [c, d, '.'];
    FirstDelimiterIs(t, 2);
    InkOfVisible(t);
  }

  /** The first of the sentences that is this one. */
  lemma FirstSimple(ss: seq<string>, t: string, i: nat)
    requires AllSimple(ss) && IsSimple(t) && i <= |ss|
    requires (forall j :: 0 <= j < i ==> ss[j] != t) && (i < |ss| ==> ss[i] == t)
    ensures FirstSame(ss, t) == i
  {
    SimpleText(t);
    hide Trim, IsSimple;
    FirstSameIsFirst(ss, t);
    var k := FirstSame(ss, t);
    if k < i {
      SimpleText(ss[k]);
    }
    assert !(i < k);
  }

  // -------------------------------------------------------------------- input for one commit

  /** A session on the only sentence of a file that meanwhile became another: it falls back to index 0 and writes its
      own sentence over the other one. */
  lemma FallbackReplaces(a: string, b: string)
    requires IsSimple(a) && IsSimple(b) && a != b
    ensures Open(a, 0) == Opened(Session(0, false, a, "", [a]))
    ensures Split(b) == [b] && Remap(b, [b], Open(a, 0).session) == At(0)
    ensures Commit(b, Open(a, 0).session) == Written(a)
  {
    SimpleText(a);
    SimpleText(b);
    FirstSimple([b], a, 1);
    hide Split, Rebuild, Tokens, Trim, IsSimple;
    assert Splice([b], 0, a) == [a];
  }

  /** Counting characters is not enough: the sentence that goes out has the characters of the one read, in another
      order. The condition of ReplaceConservesIff holds and the file does not keep its text. */
  lemma SameCharactersReordered()
    ensures Open("ab.", 0).Opened? && Split("ba.") == ["ba."]
    ensures Remap("ba.", Split("ba."), Open("ab.", 0).session) == At(0)
    ensures multiset(Ink("ba.")) == multiset(Ink(Open("ab.", 0).session.snapshot))
    ensures Commit("ba.", Open("ab.", 0).session) == Written("ab.") && !Subseq(Ink("ba."), Ink("ab."))
  {
    hide Ink, Subseq, Split, Remap, Open, Commit, IsSimple;
    var a, b := "ab.", "ba.";
    ThreeLetters('a', 'b');
    ThreeLetters('b', 'a');
    FallbackReplaces(a, b);
    assert multiset(a) == multiset{'a', 'b', '.'} == multiset(b);
    Reordered();
  }

  lemma {:induction false} InkOfVisible(s: string)
    requires forall i :: 0 <= i < |s| ==> !IsSpace(s[i])
    ensures Ink(s) == s
  {
    if s != "" {
      InkOfVisible(s[1..]);
      assert s == [s[0]] + s[1..];
    }
  }

  lemma Reordered()
    ensures !Subseq("ba.", "ab.")
  {
    if Subseq("ba.", "ab.") {
      SubseqLength("ba.", "ab.");
    }
  }

  /** "Hi ." and a word appended to it: the update is accepted, the sentence was terminated and no longer is. */
  lemma AppendBuriesDelimiter()
    ensures var words, u := Tokens("Hi ."), Update(3, "x");
            && Accepted(words, u) && BuriesDelimiter(words, u)
            && EndsInDelimiter(Rebuild(words)) && !EndsInDelimiter(Rebuild(Apply(words, u)))
  {
    var words, u := ["Hi", "."], Update(3, "x");
    FieldsConcat("Hi", ' ', ".");
    FieldsOne("Hi", ' ');
    FieldsOne(".", ' ');
    assert "Hi" + " " + "." == "Hi ." && ["Hi"] + ["."] == words;
    assert Tokens("Hi .") == words;
    EndOfRebuild(words);
    DelimiterStaysLast(words, u);
  }

  /** The third sentence of "A. B. C." is the only one left of the file: the commit finds its index out of range and
      does not look for it. */
  lemma RefusedThoughPresent()
    ensures var base, s := Join(["A.", "B.", "C."]), Open(Join(["A.", "B.", "C."]), 2);
            && s.Opened? && s.session.snapshot == "C."
            && HasSame(Split("C."), s.session.snapshot)
            && Remap("C.", Split("C."), s.session) == Abort && Commit("C.", s.session) == Unchanged
  {
    var ss := ["A.", "B.", "C."];
    TwoLetters('A');
    TwoLetters('B');
    TwoLetters('C');
    SimpleList(ss);
    SimpleText("C.");
    assert SameSentence(["C."][0], "C.");
  }

  // ----------------------------------------------------------------------- runs of the server

  /** The fallback in a run: content pushed to the server while a session edits is overwritten by its commit. */
  lemma FallbackOverwrites(s: State, file: string, a: string, b: string, user: string)
    requires s.clients == map[] && s.locks == [] && s.commits == []
    requires Content(s, file) == a && IsSimple(a) && IsSimple(b) && a != b
    ensures var t := Run(Run(Run(s, Begin(0, file, 0, user)), [Push(file, b)]), Conclude(0));
            t.files == s.files[file := b][file := a]
  {
    hide Open, Commit, Run, CanAcquire, Acquire, Release, IsSimple, Split;
    FallbackReplaces(a, b);
    FreeKeyCanBeAcquired(s.locks, (file, 0));
    OneCommitSlot([], file);
    BeginRuns(s, 0, file, 0, user);
    PushRuns(Run(s, Begin(0, file, 0, user)), file, b);
    ConcludeRuns(Run(Run(s, Begin(0, file, 0, user)), [Push(file, b)]), 0);
  }

  // ------------------------------------------- two sessions with different keys on one sentence

  const A := "A."
  const B := "B."
  const X := "X."
  const BY := "By."
  const BZ := "Bz."

  lemma LettersAreSimple()
    ensures IsSimple(A) && IsSimple(B) && IsSimple(X) && IsSimple(BY) && IsSimple(BZ)
  {
    TwoLetters('A');
    TwoLetters('B');
    TwoLetters('X');
    ThreeLetters('B', 'y');
    ThreeLetters('B', 'z');
  }

  lemma OpenSimple(ss: seq<string>, k: nat)
    requires AllSimple(ss) && k < |ss|
    ensures Open(Join(ss), k) == Opened(Session(k, false, ss[k], if k > 0 then ss[k - 1] else "", [ss[k]]))
  {
    SimpleList(ss);
    SimpleText(ss[k]);
  }

  /** The commit of a session whose sentence became the simple sentence t, on a list where it is remapped to j. */
  lemma CommitSimple(ss: seq<string>, s: Session, j: nat, t: string)
    requires AllSimple(ss) && j < |ss| && IsSimple(t) && s.words == [t]
    requires Remap(Join(ss), ss, s) == At(j)
    ensures Commit(Join(ss), s) == Written(Join(ss[j := t]))
  {
    SimpleList(ss);
    SimpleText(t);
    hide Remap, Split, Rebuild, Join, IsSimple;
    assert Splice(ss, j, t) == ss[j := t];
  }

  /** "X." in front of "A." splits into two sentences, and everything behind moves up. */
  lemma InsertedSentence()
    ensures Accepted([A], Update(1, X)) && Apply([A], Update(1, X)) == [X, A]
    ensures Commit(Join([A, B]), Session(0, false, A, "", [X, A])) == Written(Join([X, A, B]))
  {
    LettersAreSimple();
    assert [X] + [A] == [X, A] && [X, A] + [B] == [X, A, B];
    SimpleList([A, B]);
    SimpleList([X, A]);
    RebuildIsJoin();
    hide IsSimple, Split, Rebuild, Join;
    assert Splice([A, B], 0, Rebuild([X, A])) == [X, A, B];
  }

  lemma RebuildIsJoin()
    ensures Rebuild([X, A]) == Join([X, A])
  {
    JoinTwo(X, [A]);
    JoinCons(A, []);
    assert [X] + [A] == [X, A] && [A] + [] == [A] && [X, A][1..] == [A] && [A][1..] == [];
    assert Rest([A]) == " " + A;
    assert A + Tails([]) == A;
    assert X + (" " + A) == X + " " + A;
  }

  /** A letter behind "B" goes in front of its full stop. */
  lemma GrownSentence(c: char)
    requires c == 'y' || c == 'z'
    ensures Accepted([B], Update(2, [c])) && Apply([B], Update(2, [c])) == [['B', c, '.']]
  {
    assert B[..1] == ['B'];
    assert Merge(B, [c]) == ['B', c, '.'];
  }

  /** The session that opened "B." as sentence 1 finds it at 2, where the other session opened it. */
  lemma FoundBehind(words: seq<string>)
    ensures Remap(Join([X, A, B]), [X, A, B], Session(1, false, B, A, words)) == At(2)
  {
    hide IsSimple, Trim, FirstSame, Split, Rebuild, Tokens;
    LettersAreSimple();
    FirstSimple([X, A, B], B, 2);
    SimpleText(A);
    SimpleText(B);
  }

  /** The session that opened it as sentence 2 no longer finds it, and follows its predecessor. */
  lemma FoundByAnchor(words: seq<string>)
    ensures Remap(Join([X, A, BY]), [X, A, BY], Session(2, false, B, A, words)) == At(2)
  {
    hide IsSimple, Trim, FirstSame, Split, Rebuild, Tokens;
    LettersAreSimple();
    FirstSimple([X, A, BY], B, 3);
    FirstSimple([X, A, BY], A, 1);
    SimpleText(BY);
    SimpleText(B);
    assert AfterAnchor([X, A, BY], A) == At(2);
  }

  /** Session 0 puts a sentence in front of the file while session 1 has "B." open as sentence 1; session 2 then opens
      it as sentence 2. */
  function Meeting(file: string, user: string): seq<Event> {
    Begin(0, file, 0, user) + Begin(1, file, 1, user) + [Receive(0, Update(1, X))] + Conclude(0)
    + Begin(2, file, 2, user) + [Receive(1, Update(2, "y"))] + [Receive(2, Update(2, "z"))]
  }

  lemma RunSeven(s: State, a: seq<Event>, b: seq<Event>, c: seq<Event>, d: seq<Event>, e: seq<Event>, f: seq<Event>,
                 g: seq<Event>)
    ensures Run(s, a + b + c + d + e + f + g) == Run(Run(Run(Run(Run(Run(Run(s, a), b), c), d), e), f), g)
  {
    hide Run;
    RunConcat(s, a + b + c + d + e + f, g);
    RunConcat(s, a + b + c + d + e, f);
    RunConcat(s, a + b + c + d, e);
    RunConcat(s, a + b + c, d);
    RunConcat(s, a + b, c);
    RunConcat(s, a, b);
  }

  /** An empty server with "A. B." in the file. */
  ghost predicate FreshFile(s: State, file: string) {
    s.clients == map[] && s.locks == [] && s.commits == [] && file in s.files && s.files[file] == Join([A, B])
  }

  lemma ThreeKeys(file: string, user: string)
    ensures var none: seq<Entry<SentenceKey>> := [];
            var one := Acquire(none, (file, 0), user);
            var two := Acquire(one, (file, 1), user);
            CanAcquire(none, (file, 0)) && CanAcquire(one, (file, 1)) && CanAcquire(two, (file, 2))
  {
    hide Acquire, CanAcquire, Release;
    var none: seq<Entry<SentenceKey>> := [];
    var one := Acquire(none, (file, 0), user);
    var two := Acquire(one, (file, 1), user);
    assert Find(none, (file, 1)) == 0 && Find(none, (file, 2)) == 0;
    AcquireLaws(none, (file, 0), user);
    AcquireLaws(one, (file, 1), user);
    AcquireGrowsByOne(none, (file, 0), user);
    AcquireGrowsByOne(one, (file, 1), user);
    FreeKeyCanBeAcquired(none, (file, 0));
    FreeKeyCanBeAcquired(one, (file, 1));
    FreeKeyCanBeAcquired(two, (file, 2));
  }

  /** Both sessions now edit the sentence "B.", under the keys 1 and 2 of the same file; the commit of the first will
      land on the index the second has locked. */
  lemma TwoSessionsOneSentence(s: State, file: string, user: string)
    requires FreshFile(s, file)
    ensures AllWriters(Meeting(file, user))
    ensures var t := Run(s, Meeting(file, user));
            && Content(t, file) == Join([X, A, B]) && t.commits == [Entry(file, false, "")]
            && InPhase(t, 1, Editing) && InPhase(t, 2, Editing)
            && t.clients[1].file == t.clients[2].file == file
            && t.clients[1].session == Session(1, false, B, A, [BY])
            && t.clients[2].session == Session(2, false, B, A, [BZ])
            && Key(t.clients[1]) == (file, 1) && Key(t.clients[2]) == (file, 2)
            && Remap(Content(t, file), Split(Content(t, file)), t.clients[1].session) == At(2)
  {
    LettersAreSimple();
    hide Open, Commit, Run, CanAcquire, Acquire, Release, IsSimple, Split, Remap, Join, Accepted, Apply, Content;
    ThreeKeys(file, user);
    OneCommitSlot([], file);
    OpenSimple([A, B], 0);
    OpenSimple([A, B], 1);
    OpenSimple([X, A, B], 2);
    InsertedSentence();
    GrownSentence('y');
    GrownSentence('z');
    SimpleList([X, A, B]);
    FoundBehind([BY]);
    MeetingRuns(s, file, user);
  }

  lemma MeetingRuns(s: State, file: string, user: string)
    requires FreshFile(s, file)
    requires Open(Join([A, B]), 0) == Opened(Session(0, false, A, "", [A]))
    requires Open(Join([A, B]), 1) == Opened(Session(1, false, B, A, [B]))
    requires Open(Join([X, A, B]), 2) == Opened(Session(2, false, B, A, [B]))
    ensures var t := Run(s, Meeting(file, user));
            && Content(t, file) == Join([X, A, B]) && t.commits == [Entry(file, false, "")]
            && InPhase(t, 1, Editing) && InPhase(t, 2, Editing)
            && t.clients[1].file == t.clients[2].file == file
            && t.clients[1].session == Session(1, false, B, A, [BY])
            && t.clients[2].session == Session(2, false, B, A, [BZ])
  {
    hide Open, Commit, Run, CanAcquire, Acquire, Release, Join, Accepted, Apply;
    ThreeKeys(file, user);
    OneCommitSlot([], file);
    InsertedSentence();
    GrownSentence('y');
    GrownSentence('z');
    RunSeven(s, Begin(0, file, 0, user), Begin(1, file, 1, user), [Receive(0, Update(1, X))], Conclude(0),
             Begin(2, file, 2, user), [Receive(1, Update(2, "y"))], [Receive(2, Update(2, "z"))]);
    hide Begin, Conclude;
    var s1 := Run(s, Begin(0, file, 0, user));
    BeginRuns(s, 0, file, 0, user);
    var s2 := Run(s1, Begin(1, file, 1, user));
    BeginRuns(s1, 1, file, 1, user);
    var s3 := Run(s2, [Receive(0, Update(1, X))]);
    ReceiveRuns(s2, 0, Update(1, X));
    var s4 := Run(s3, Conclude(0));
    ConcludeRuns(s3, 0);
    var s5 := Run(s4, Begin(2, file, 2, user));
    BeginRuns(s4, 2, file, 2, user);
    var s6 := Run(s5, [Receive(1, Update(2, "y"))]);
    ReceiveRuns(s5, 1, Update(2, "y"));
    ReceiveRuns(s6, 2, Update(2, "z"));
  }

  /** WRITE sessions alone lose an update, with every lock taken and every commit accepted: the second session finds
      its sentence gone, follows its predecessor, and replaces what the first has just written. */
  lemma WritersLoseAnUpdate(s: State, file: string, user: string)
    requires FreshFile(s, file)
    ensures Sound(s, file) && AllWriters(Meeting(file, user) + Conclude(1) + Conclude(2))
    ensures Content(Run(s, Meeting(file, user) + Conclude(1)), file) == Join([X, A, BY])
    ensures Content(Run(s, Meeting(file, user) + Conclude(1) + Conclude(2)), file) == Join([X, A, BZ])
    ensures 'y' in Join([X, A, BY]) && 'y' !in Join([X, A, BZ])
  {
    hide Run, Join, Sound, Remap, Split, Content, InPhase, FreshFile;
    FreshIsSound(s, file);
    TwoSessionsOneSentence(s, file, user);
    BothConclude(Run(s, Meeting(file, user)), file);
    LettersOfJoin(BY);
    LettersOfJoin(BZ);
    RunConcat(s, Meeting(file, user), Conclude(1));
    RunConcat(s, Meeting(file, user) + Conclude(1), Conclude(2));
  }

  lemma FreshIsSound(s: State, file: string)
    requires FreshFile(s, file)
    ensures Sound(s, file)
  {
    StartIsSound(s, file);
  }

  lemma BothConclude(m: State, file: string)
    requires Content(m, file) == Join([X, A, B]) && m.commits == [Entry(file, false, "")]
    requires InPhase(m, 1, Editing) && InPhase(m, 2, Editing) && m.clients[1].file == m.clients[2].file == file
    requires m.clients[1].session == Session(1, false, B, A, [BY])
    requires m.clients[2].session == Session(2, false, B, A, [BZ])
    ensures var t := Run(m, Conclude(1));
            Content(t, file) == Join([X, A, BY]) && Content(Run(t, Conclude(2)), file) == Join([X, A, BZ])
  {
    hide Commit, Run, Acquire, Release, CanAcquire, IsSimple, Remap, Join;
    OneCommitSlot(m.commits, file);
    BothCommit();
    ConcludeRuns(m, 1);
    ConcludeRuns(Run(m, Conclude(1)), 2);
  }

  lemma BothCommit()
    ensures Commit(Join([X, A, B]), Session(1, false, B, A, [BY])) == Written(Join([X, A, BY]))
    ensures Commit(Join([X, A, BY]), Session(2, false, B, A, [BZ])) == Written(Join([X, A, BZ]))
  {
    hide Commit, IsSimple, Remap, Join;
    LettersAreSimple();
    FoundBehind([BY]);
    FoundByAnchor([BZ]);
    assert [X, A, B][2 := BY] == [X, A, BY] && [X, A, BY][2 := BZ] == [X, A, BZ];
    CommitSimple([X, A, B], Session(1, false, B, A, [BY]), 2, BY);
    CommitSimple([X, A, BY], Session(2, false, B, A, [BZ]), 2, BZ);
  }

  lemma LettersOfJoin(t: string)
    requires t != ""
    ensures 'y' in Join([X, A, t]) <==> 'y' in t
  {
    JoinTwo(X, [A, t]);
    JoinTwo(A, [t]);
    JoinCons(t, []);
    assert [X] + [A, t] == [X, A, t] && [A] + [t] == [A, t] && [t] + [] == [t] && t + Tails([]) == t;
  }

  /** A WRITE on a file that does not exist opens as an append to nothing, and its commit creates the file. */
  lemma MissingFileIsCreated(s: State, id: nat, file: string, user: string)
    requires file !in s.files && id !in s.clients
    requires CanAcquire(s.locks, (file, 0)) && CanAcquire(s.commits, file)
    ensures file in Run(Run(s, Begin(id, file, 0, user)), Conclude(id)).files
  {
    SplitOfEmpty();
    hide Split, Run, CanAcquire, Acquire, Release, Tokens, Rebuild;
    assert Open("", 0).Opened? && Open("", 0).session.append;
    BeginRuns(s, id, file, 0, user);
    assert Commit("", Open("", 0).session).Written?;
    hide Open, Commit;
    ConcludeRuns(Run(s, Begin(id, file, 0, user)), id);
  }

  // ---------------------------------------------------------- writes that take no commit lock

  /** What comes between a session's reading under the commit lock and its writing back is lost, whatever it is: the
      file becomes the commit of the content before it. */
  lemma PushDuringCommitIsLost(s: State, id: nat, content: string)
    requires InPhase(s, id, Phase.Finishing) && CanAcquire(s.commits, s.clients[id].file)
    requires Commit(Content(s, s.clients[id].file), s.clients[id].session).Written?
    ensures var file := s.clients[id].file;
            var t := Run(s, [ReadLatest(id), Push(file, content), WriteBack(id)]);
            file in t.files && t.files[file] == Commit(Content(s, file), s.clients[id].session).content
  {
    hide Commit, Acquire, Release, Run, Find;
    var file := s.clients[id].file;
    RunThree(s, ReadLatest(id), Push(file, content), WriteBack(id));
    var a := Step(s, ReadLatest(id));
    assert a.clients[id] == s.clients[id].(phase := Committing(Content(s, file), true));
    var b := Step(a, Push(file, content));
    assert b.clients == a.clients;
  }

  /** A file that is deleted in between is back afterwards. */
  lemma DeleteDuringCommitIsUndone(s: State, id: nat)
    requires InPhase(s, id, Phase.Finishing) && CanAcquire(s.commits, s.clients[id].file)
    requires Commit(Content(s, s.clients[id].file), s.clients[id].session).Written?
    ensures var file := s.clients[id].file;
            var t := Run(s, [ReadLatest(id), DeleteFile(file), WriteBack(id)]);
            file in t.files && t.files[file] == Commit(Content(s, file), s.clients[id].session).content
  {
    hide Commit, Acquire, Release, Run, Find;
    var file := s.clients[id].file;
    RunThree(s, ReadLatest(id), DeleteFile(file), WriteBack(id));
    var a := Step(s, ReadLatest(id));
    assert a.clients[id] == s.clients[id].(phase := Committing(Content(s, file), true));
    var b := Step(a, DeleteFile(file));
    assert b.clients == a.clients;
  }

  /** A session gets as far as committing from any start: the two lemmas above are about reachable states. */
  lemma CommittingIsReachable(s: State, id: nat, file: string, index: int, user: string)
    requires id !in s.clients && Open(Content(s, file), index).Opened?
    requires CanAcquire(s.locks, (file, Open(Content(s, file), index).session.index))
    ensures var t := Run(s, Begin(id, file, index, user) + [Finish(id)]);
            && InPhase(t, id, Phase.Finishing) && t.clients[id].file == file && Content(t, file) == Content(s, file)
            && t.commits == s.commits
            && Commit(Content(t, file), t.clients[id].session).Written?
  {
    hide Open, Commit, Run, CanAcquire, Acquire;
    BeginRuns(s, id, file, index, user);
    RunConcat(s, Begin(id, file, index, user), [Finish(id)]);
    FinishRuns(Run(s, Begin(id, file, index, user)), id);
    AloneIsWritten(Content(s, file), index);
  }

  lemma FinishRuns(s: State, id: nat)
    requires InPhase(s, id, Editing)
    ensures Run(s, [Finish(id)]) == Move(s, id, Phase.Finishing)
  {
    assert [Finish(id)][1..] == [];
  }

  lemma AloneIsWritten(base: string, index: int)
    requires Open(base, index).Opened?
    ensures Commit(base, Open(base, index).session).Written?
  {
    hide Open, Remap, Split;
    AloneRemapsToItself(base, index, []);
    var s := Open(base, index).session;
    assert Edited(s, []) == s;
  }

  /** When the table of commit locks is full and has none for the file, sessions commit without one: of two that read
      before either has written, the one that writes last takes back what the other wrote. */
  lemma NoCommitLockNoUpdate(s: State, a: nat, b: nat)
    requires a != b && InPhase(s, a, Phase.Finishing) && InPhase(s, b, Phase.Finishing)
    requires s.clients[a].file == s.clients[b].file && NoEntry(s.commits, s.clients[a].file)
    requires Commit(Content(s, s.clients[b].file), s.clients[b].session).Written?
    ensures var file := s.clients[b].file;
            var t := Run(Run(s, [ReadLatest(a), ReadLatest(b), WriteBack(a)]), [WriteBack(b)]);
            file in t.files && t.files[file] == Commit(Content(s, file), s.clients[b].session).content
  {
    hide Commit, Run, Release;
    var file := s.clients[b].file;
    RunThree(s, ReadLatest(a), ReadLatest(b), WriteBack(a));
    NoEntryNoLock(s.commits, file);
    hide Acquire, CanAcquire, IsLocked, NoEntry;
    var r := Step(s, ReadLatest(a));
    assert r.clients[a] == s.clients[a].(phase := Committing(Content(s, file), false)) && r.commits == s.commits;
    var q := Step(r, ReadLatest(b));
    assert q.clients[b] == s.clients[b].(phase := Committing(Content(s, file), false)) && q.commits == s.commits;
    var w := Step(q, WriteBack(a));
    assert w.clients[b] == q.clients[b];
    LastWrite(w, b, file);
  }

  lemma NoEntryNoLock(t: seq<Entry<string>>, file: string)
    requires NoEntry(t, file)
    ensures !IsLocked(t, file) && !CanAcquire(t, file) && Acquire(t, file, "") == t
  {
  }

  lemma LastWrite(s: State, id: nat, file: string)
    requires id in s.clients && s.clients[id].phase.Committing? && s.clients[id].file == file
    requires Commit(s.clients[id].phase.latest, s.clients[id].session).Written?
    ensures var t := Run(s, [WriteBack(id)]);
            file in t.files && t.files[file] == Commit(s.clients[id].phase.latest, s.clients[id].session).content
  {
    hide Commit, Release;
    assert [WriteBack(id)][1..] == [];
  }
}
