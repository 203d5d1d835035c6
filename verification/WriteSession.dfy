/** One WRITE session from keyboard to word array: the client's input loop (client/client.c, execute_write) and the
    server's receive loop (storage_server/storage_server.c, handle_write_file) over one connection. */
module WriteSessions {
  import opened Text
  import opened CString
  import opened Sentences
  import opened WordBuffers
  import opened WordLaws
  import opened Commits
  import opened CommitLaws
  import opened WriteLine

  // ------------------------------------------------------------------------- the client's side

  /** What the client sends for the lines it reads: it stops at the first line with ETIRW, and the end of the input
      finishes the session too. */
  function Sent(lines: seq<string>): seq<Message> {
    if lines == [] then [FINISH_MESSAGE]
    else if Finishes(lines[0]) then Messages(lines[0])
    else Messages(lines[0]) + Sent(lines[1..])
  }

  lemma SentStep(lines: seq<string>, i: nat, sofar: seq<Message>)
    requires i <= |lines|
    ensures i == |lines| ==> Sent(lines[i..]) == [FINISH_MESSAGE]
    ensures i < |lines| && Finishes(lines[i]) ==> Sent(lines[i..]) == Messages(lines[i])
    ensures i < |lines| && !Finishes(lines[i]) ==>
              sofar + Sent(lines[i..]) == (sofar + Messages(lines[i])) + Sent(lines[i + 1..])
  {
    hide Messages, Finishes;
    if i < |lines| {
      assert lines[i..][0] == lines[i] && lines[i..][1..] == lines[i + 1..];
      Regroup(sofar, Messages(lines[i]), Sent(lines[i + 1..]));
    }
  }

  lemma NothingForEmptyLine()
    ensures Messages("") == [] && !Finishes("")
  {
    assert FindFrom("", FINISH, 0) == 1;
    assert Fields("", ' ') == [];
  }

  method SendLines(lines: seq<string>) returns (sent: seq<Message>)
    ensures sent == Sent(lines)
  {
    hide Messages, Sent;
    sent := [];
    assert lines[0..] == lines && [] + Sent(lines) == Sent(lines);
    var i := 0;
    while i < |lines|
      invariant i <= |lines| && sent + Sent(lines[i..]) == Sent(lines)
    {
      SentStep(lines, i, sent);
      NothingForEmptyLine();
      if lines[i] == "" {
        assert sent + [] == sent;
        i := i + 1;
        continue;
      }
      var some := ParseInput(lines[i]);
      var at := FindFinish(lines[i]);
      sent := sent + some;
      if at <= |lines[i]| {
        return;
      }
      i := i + 1;
    }
    SentStep(lines, i, sent);
    sent := sent + [FINISH_MESSAGE];
  }

  // ------------------------------------------------------------------------- the server's side

  /** What a session receives, and whether it ended with ETIRW rather than with a lost connection. */
  datatype Received = Received(updates: seq<Update>, committed: bool)

  function Receive(ms: seq<Message>): Received {
    if ms == [] then Received([], false)
    else if ms[0].data == FINISH then Received([], true)
    else var r := Receive(ms[1..]); Received([Update(ms[0].arg1, ms[0].data)] + r.updates, r.committed)
  }

  lemma ReceiveStep(ms: seq<Message>, i: nat, words: seq<string>)
    requires i < |ms|
    ensures ms[i].data == FINISH ==> Receive(ms[i..]) == Received([], true)
    ensures ms[i].data != FINISH ==>
              var u := Update(ms[i].arg1, ms[i].data);
              && Receive(ms[i..]).committed == Receive(ms[i + 1..]).committed
              && Feed(words, Receive(ms[i..]).updates)
                 == Feed(if Accepted(words, u) then Apply(words, u) else words, Receive(ms[i + 1..]).updates)
  {
    hide Accepted, Apply;
    assert ms[i..][0] == ms[i] && ms[i..][1..] == ms[i + 1..];
    var u, rest := Update(ms[i].arg1, ms[i].data), Receive(ms[i + 1..]).updates;
    assert ([u] + rest)[0] == u && ([u] + rest)[1..] == rest;
  }

  /** The receive loop: every message before ETIRW is tried as an update; a lost connection ends it uncommitted. */
  method ReceiveUpdates(buffer: WordBuffer, ms: seq<Message>) returns (committed: bool)
    requires buffer.Valid()
    modifies buffer`count, buffer.words
    ensures buffer.Valid() && committed == Receive(ms).committed
    ensures buffer.Contents() == Feed(old(buffer.Contents()), Receive(ms).updates)
  {
    hide Receive, Feed, Apply;
    var i := 0;
    assert ms[0..] == ms;
    while i < |ms|
      invariant i <= |ms| && buffer.Valid()
      invariant Receive(ms[i..]).committed == Receive(ms).committed
      invariant Feed(buffer.Contents(), Receive(ms[i..]).updates) == Feed(old(buffer.Contents()), Receive(ms).updates)
    {
      ReceiveStep(ms, i, buffer.Contents());
      if ms[i].data == FINISH {
        FeedNothing(buffer.Contents());
        return true;
      }
      var accepted := buffer.Insert(Update(ms[i].arg1, ms[i].data));
      i := i + 1;
    }
    ReceiveNothing(ms);
    FeedNothing(buffer.Contents());
    return false;
  }

  lemma FeedNothing(words: seq<string>)
    ensures Feed(words, []) == words
  {
  }

  lemma ReceiveNothing(ms: seq<Message>)
    ensures Receive(ms[|ms|..]) == Received([], false)
  {
  }

  // ---------------------------------------------------------------- what any line can send

  /** A non-negative index with neat text that nowhere spells ETIRW. */
  predicate Proper(m: Message) {
    m.arg1 >= 0 && Neat(m.data) && !Contains(m.data, FINISH)
  }

  ghost predicate AllProper(ms: seq<Message>) {
    forall i :: 0 <= i < |ms| ==> Proper(ms[i])
  }

  ghost predicate ProperPending(p: Pending) {
    && AllProper(p.sent)
    && (p.haveIdx ==> p.idx >= 0)
    && (p.content != "" ==> p.haveIdx && Neat(p.content) && !Contains(p.content, FINISH))
  }

  lemma AtoiOfDigits(s: string)
    requires IsIntStr(s)
    ensures Atoi(s) >= 0
  {
    assert IsDigit(s[0]);
  }

  lemma FlushIsProper(p: Pending)
    requires ProperPending(p)
    ensures AllProper(Flush(p))
  {
    hide Neat, Contains;
  }

  lemma TokenKeepsProper(p: Pending, tok: string)
    requires ProperPending(p) && IsField(tok, ' ') && !Contains(tok, FINISH)
    ensures ProperPending(TakeToken(p, tok))
  {
    hide Contains, Flush, Atoi, IsIntStr, AllProper;
    FlushIsProper(p);
    if IsIntStr(tok) {
      AtoiOfDigits(tok);
    } else if p.haveIdx && p.content != "" {
      NoOccurrenceAcross(p.content, tok);
    }
  }

  lemma {:induction false} TokensKeepProper(p: Pending, toks: seq<string>)
    requires ProperPending(p) && AllFields(toks, ' ')
    requires forall i :: 0 <= i < |toks| ==> !Contains(toks[i], FINISH)
    ensures ProperPending(TakeTokens(p, toks))
    decreases |toks|
  {
    hide ProperPending, TakeToken, Contains, IsField;
    if toks != [] {
      TokenKeepsProper(p, toks[0]);
      TokensKeepProper(TakeToken(p, toks[0]), toks[1..]);
    }
  }

  /** The updates of a line: all its messages but the finish message. */
  function LineUpdates(line: string): seq<Message> {
    Flush(TakeTokens(NOTHING, Fields(Body(line), ' ')))
  }

  /** Whatever is typed, every update the line sends is proper; only the finish message can end the session. */
  lemma LineUpdatesAreProper(line: string)
    ensures AllProper(LineUpdates(line))
    ensures Messages(line) == LineUpdates(line) + if Finishes(line) then [FINISH_MESSAGE] else []
  {
    hide Flush, TakeTokens, Fields, Body, Proper;
    var toks := Fields(Body(line), ' ');
    BodyHasNoFinish(line);
    FieldsHaveNoOccurrence(Body(line), FINISH);
    FieldsAreFields(Body(line), ' ');
    TokensKeepProper(NOTHING, toks);
    FlushIsProper(TakeTokens(NOTHING, toks));
  }

  // ------------------------------------------------------------------ both sides together

  function AsUpdates(ms: seq<Message>): (us: seq<Update>)
    ensures |us| == |ms|
    ensures forall i :: 0 <= i < |ms| ==> us[i] == Update(ms[i].arg1, ms[i].data)
  {
    if ms == [] then [] else [Update(ms[0].arg1, ms[0].data)] + AsUpdates(ms[1..])
  }

  /** A message stream is proper updates and then one finish message. */
  lemma {:induction false} SentShape(lines: seq<string>) returns (body: seq<Message>)
    ensures AllProper(body) && Sent(lines) == body + [FINISH_MESSAGE]
  {
    hide Messages, Finishes, Proper, LineUpdates;
    if lines == [] {
      body := [];
    } else {
      LineUpdatesAreProper(lines[0]);
      body := LineUpdates(lines[0]);
      if !Finishes(lines[0]) {
        var rest := SentShape(lines[1..]);
        assert Messages(lines[0]) == body;
        Regroup(body, rest, [FINISH_MESSAGE]);
        body := body + rest;
      }
    }
  }

  lemma {:induction false} ReceiveProper(ms: seq<Message>, rest: seq<Message>)
    requires AllProper(ms)
    ensures Receive(ms + rest) == Received(AsUpdates(ms) + Receive(rest).updates, Receive(rest).committed)
    decreases |ms|
  {
    if ms == [] {
      assert ms + rest == rest && AsUpdates(ms) + Receive(rest).updates == Receive(rest).updates;
    } else {
      assert (ms + rest)[0] == ms[0] && (ms + rest)[1..] == ms[1..] + rest;
      assert Proper(ms[0]);
      WholeIsOccurrence(ms[0].data);
      ReceiveProper(ms[1..], rest);
      Regroup([Update(ms[0].arg1, ms[0].data)], AsUpdates(ms[1..]), Receive(rest).updates);
    }
  }

  /** Cut anywhere, the stream of a client commits only if it arrived whole; the server has then taken in every update
      the client sent, and before that a prefix of them. All of them are neat, with an index the server can check. */
  lemma CommittedIffWhole(lines: seq<string>, k: nat)
    requires k <= |Sent(lines)|
    ensures var r := Receive(Sent(lines)[..k]);
            && (r.committed <==> k == |Sent(lines)|)
            && |r.updates| == (if r.committed then k - 1 else k)
            && r.updates == AsUpdates(Sent(lines)[..|r.updates|])
            && NeatUpdates(r.updates)
            && forall i :: 0 <= i < |r.updates| ==> r.updates[i].index >= 0
  {
    hide Sent;
    var body := SentShape(lines);
    var n := if k <= |body| then k else |body|;
    var tail := if k <= |body| then [] else [FINISH_MESSAGE];
    var got := body[..n];
    assert Sent(lines)[..k] == got + tail && Sent(lines)[..n] == got;
    ReceiveProper(got, tail);
    assert AsUpdates(got) + [] == AsUpdates(got);
    assert forall i :: 0 <= i < |got| ==> Proper(got[i]);
  }

  // ----------------------------------------------------------- what a user means to type

  function TypedLines(pages: seq<seq<Pair>>): seq<string> {
    if pages == [] then [] else [TypedLine(pages[0])] + TypedLines(pages[1..])
  }

  function AllUpdates(pages: seq<seq<Pair>>): seq<Message> {
    if pages == [] then [] else Updates(pages[0]) + AllUpdates(pages[1..])
  }

  lemma FinishAlone()
    ensures Finishes(FINISH) && Messages(FINISH) == [FINISH_MESSAGE]
  {
    assert FINISH[0..0 + |FINISH|] == FINISH;
    assert OccursAt(FINISH, FINISH, 0);
    assert FindFrom(FINISH, FINISH, 0) == 0;
    assert Body(FINISH) == "";
    assert Fields("", ' ') == [];
  }

  lemma TypedLineGoesOn(ps: seq<Pair>)
    requires WellTyped(ps)
    ensures !Finishes(TypedLine(ps))
  {
    PairFieldsArePlain(ps);
    PlainJoin(PairFields(ps));
    NoFindWithout(TypedLine(ps));
  }

  lemma {:induction false} SentForPages(pages: seq<seq<Pair>>)
    requires forall i :: 0 <= i < |pages| ==> WellTyped(pages[i])
    ensures Sent(TypedLines(pages) + [FINISH]) == AllUpdates(pages) + [FINISH_MESSAGE]
  {
    hide Messages, Finishes, WellTyped, TypedLine, Updates;
    if pages == [] {
      FinishAlone();
      assert TypedLines(pages) + [FINISH] == [FINISH];
    } else {
      var lines := TypedLines(pages) + [FINISH];
      assert lines[0] == TypedLine(pages[0]) && lines[1..] == TypedLines(pages[1..]) + [FINISH];
      TypedLineSends(pages[0]);
      TypedLineGoesOn(pages[0]);
      SentForPages(pages[1..]);
      Regroup(Updates(pages[0]), AllUpdates(pages[1..]), [FINISH_MESSAGE]);
    }
  }

  /** What a user types as (index, words) pairs over any number of lines, closed by ETIRW on a line of its own, is what
      the server applies: exactly those updates, in that order, to the words of the sentence; then it commits. */
  lemma WhatIsTypedIsApplied(pages: seq<seq<Pair>>)
    requires forall i :: 0 <= i < |pages| ==> WellTyped(pages[i])
    ensures Receive(Sent(TypedLines(pages) + [FINISH])) == Received(AsUpdates(AllUpdates(pages)), true)
  {
    hide Sent, AllUpdates;
    var lines := TypedLines(pages) + [FINISH];
    SentForPages(pages);
    var body := SentShape(lines);
    assert body == Sent(lines)[..|Sent(lines)| - 1] == AllUpdates(pages);
    ReceiveProper(body, [FINISH_MESSAGE]);
    assert AsUpdates(body) + [] == AsUpdates(body);
  }

  /** From the keyboard to the file: a session on sentence `index`, typed this way while nobody else writes, is
      accepted. The file keeps every visible character it had, in order, and gains exactly the visible text of the
      updates that were in range. It parses back as the old sentences with the edited one in place exactly when
      the edited sentence kept a word and still closes the gap it stands in. */
  lemma TypedSessionEditsFile(base: string, index: int, pages: seq<seq<Pair>>)
    requires forall i :: 0 <= i < |pages| ==> WellTyped(pages[i])
    requires Open(base, index).Opened?
    requires |Fields(Open(base, index).session.snapshot, ' ')| <= MAX_WORDS_PER_SENTENCE
    ensures var us := Receive(Sent(TypedLines(pages) + [FINISH])).updates;
            var s := Open(base, index).session;
            var text := Rebuild(Feed(s.words, us));
            var out := Commit(base, Edited(s, us));
            && us == AsUpdates(AllUpdates(pages))
            && out == Written(Join(Splice(Split(base), index, text)))
            && Subseq(Ink(base), Ink(out.content))
            && multiset(Ink(out.content)) == multiset(Ink(base)) + multiset(Ink(AcceptedText(s.words, us)))
            && (text != "" ==> (Split(out.content) == Splice(Split(base), index, text)
                                <==> FitsAt(Split(base), index, text)))
  {
    hide Split, Join, Splice, Rebuild, Feed, Remap, Open, Ink, Subseq, Sent, AllUpdates, FitsAt, FoundByText;
    var lines := TypedLines(pages) + [FINISH];
    WhatIsTypedIsApplied(pages);
    CommittedIffWhole(lines, |Sent(lines)|);
    assert Sent(lines)[..|Sent(lines)|] == Sent(lines);
    var us := Receive(Sent(lines)).updates;
    AloneRemapsToItself(base, index, us);
    CommitLosesNothing(base, index, us, base);
    EditIsNeat(base, index, us);
    var text := Rebuild(Feed(Open(base, index).session.words, us));
    if text != "" {
      CommitParsesBack(base, index, text);
    }
  }

  lemma EditIsNeat(base: string, index: int, us: seq<Update>)
    requires Open(base, index).Opened? && NeatUpdates(us)
    ensures var text := Rebuild(Feed(Open(base, index).session.words, us)); text != "" ==> Neat(text)
  {
    hide Fields, Feed, Rest, Split;
    var s := Open(base, index).session;
    TokensAreNeat(s.snapshot);
    FeedKeepsNeat(s.words, us);
    if Feed(s.words, us) != [] {
      RebuildIsNeat(Feed(s.words, us));
    }
  }
}
