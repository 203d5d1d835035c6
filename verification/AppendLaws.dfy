/** Which contents a session may append to, and when what it appends becomes sentences of its own
    (storage_server/storage_server.c, handle_write_file). */
module AppendLaws {
  import opened Text
  import opened Sentences
  import opened WordBuffers
  import opened WordLaws
  import opened Commits
  import opened CommitLaws

  ghost predicate AllTrailing(s: string) {
    forall i :: 0 <= i < |s| ==> s[i] == ' ' || s[i] == '\n' || s[i] == '\r' || s[i] == '\t'
  }

  lemma {:induction false} StripEndConcat(a: string, b: string)
    ensures AllTrailing(b) ==> StripEnd(a + b) == StripEnd(a)
    ensures !AllTrailing(b) ==> StripEnd(b) != "" && StripEnd(a + b) == a + StripEnd(b)
    decreases |b|
  {
    if b == "" {
      assert a + b == a;
    } else {
      var front, c := b[..|b| - 1], b[|b| - 1];
      assert b == front + [c];
      assert (a + b)[|a + b| - 1] == c && (a + b)[..|a + b| - 1] == a + front;
      StripEndConcat(a, front);
    }
  }

  /** A text that ends in a delimiter has nothing to strip. */
  lemma StripTerminated(t: string)
    requires Terminated(t)
    ensures StripEnd(t) == t && EndsInDelimiter(t)
  {
    FirstDelimiterIs(t, |t| - 1);
  }

  lemma {:induction false} StripIsPrefix(s: string)
    ensures StripEnd(s) <= s
  {
    if s != "" {
      StripIsPrefix(s[..|s| - 1]);
    }
  }

  /** The last sentence is complete, or there is nothing but trailing white space behind a complete one. */
  ghost predicate EndsComplete(ss: seq<string>) {
    ss != [] && (Terminated(ss[|ss| - 1]) || (|ss| > 1 && AllTrailing(ss[|ss| - 1])))
  }

  lemma NoDelimiterAtEnd(s: string)
    requires FirstDelimiter(s) == |s|
    ensures !LastHasDelimiter(s)
  {
    FirstDelimiterIs(s, |s|);
    StripIsPrefix(s);
    var t := StripEnd(s);
    assert t != "" ==> t[|t| - 1] == s[|t| - 1];
  }

  lemma TrailingIsOneSentence(r: string)
    requires r != "" && AllTrailing(r)
    ensures Split(r) == [r]
  {
    FirstDelimiterIs(r, |r|);
  }

  /** The first sentence of a text that is not all trailing white space is not either. */
  lemma OneSentenceOnly(r: string)
    requires r != "" && !AllTrailing(r) && |Split(r)| == 1
    ensures !AllTrailing(Split(r)[0])
  {
    var d := FirstDelimiter(r);
    if d < |r| {
      assert Split(r)[0] == r[..d + 1] && IsDelimiter(r[..d + 1][d]) by {
        FirstDelimiterIs(r, d);
      }
    }
  }

  /** What the scan sees behind a complete sentence. */
  lemma ScanBehind(t: string, tail: string)
    requires Terminated(t)
    ensures var r := SkipSpaces(tail);
            if AllTrailing(tail) then LastHasDelimiter(t + tail) && AllTrailing(r)
            else r != "" && !AllTrailing(r) && LastHasDelimiter(t + tail) == LastHasDelimiter(r)
  {
    StripTerminated(t);
    StripEndConcat(t, tail);
    var k := SkippedBlanks(tail);
    var r := tail[k..];
    hide StripEnd, Terminated;
    assert tail == tail[..k] + r;
    if !AllTrailing(tail) {
      assert forall i :: k <= i < |tail| ==> tail[i] == r[i - k];
      StripEndConcat(tail[..k], r);
      EndOfConcat(t, StripEnd(tail));
      EndOfConcat(tail[..k], StripEnd(r));
    }
  }

  lemma EndsCompleteCons(t: string, ss: seq<string>)
    ensures EndsComplete([t] + ss) <==>
            if ss == [] then Terminated(t) else Terminated(ss[|ss| - 1]) || AllTrailing(ss[|ss| - 1])
  {
    hide Terminated, AllTrailing;
    assert ss != [] ==> ([t] + ss)[|ss|] == ss[|ss| - 1];
  }

  /** The character scan of the append rule, in terms of sentences. */
  lemma {:induction false} LastDelimiterIff(s: string)
    ensures LastHasDelimiter(s) <==> EndsComplete(Split(s))
    decreases |s|
  {
    hide SkipSpaces, FirstDelimiter, Split, StripEnd, Terminated, AllTrailing, LastHasDelimiter;
    var d := FirstDelimiter(s);
    SplitOfEmpty();
    if s == "" {
      NothingAtEnd();
    } else if d == |s| {
      SplitStep(s);
      NoDelimiterAtEnd(s);
      NotTerminated(s);
    } else {
      var t, tail := s[..d + 1], s[d + 1..];
      var r := SkipSpaces(tail);
      SplitStep(s);
      TakeThroughDelimiter(s);
      assert s == t + tail;
      ScanBehind(t, tail);
      EndsCompleteCons(t, Split(r));
      if AllTrailing(tail) {
        if r != "" {
          TrailingIsOneSentence(r);
        }
      } else {
        LastDelimiterIff(r);
        SplitStep(r);
        if |Split(r)| == 1 {
          OneSentenceOnly(r);
        }
      }
    }
  }

  lemma NothingAtEnd()
    ensures !LastHasDelimiter("")
  {
  }

  lemma NotTerminated(s: string)
    requires FirstDelimiter(s) == |s|
    ensures !Terminated(s)
  {
  }

  /** A session may append to an empty file, behind a complete sentence, and behind one that has only white space
      after it. */
  lemma AppendAllowedIff(content: string)
    ensures AllowsAppend(content) <==> Split(content) == [] || EndsComplete(Split(content))
  {
    LastDelimiterIff(content);
  }

  /** An appending commit is accepted exactly when the latest content allows it; and what it appends stands as
      sentences of its own exactly when the last sentence is complete: white space left behind it, a newline say,
      becomes the start of the appended sentence. */
  lemma AppendCommits(base: string, index: int, us: seq<Update>, content: string)
    requires Open(base, index).Opened? && index == |Split(base)|
    ensures var latest, s := Split(content), Edited(Open(base, index).session, us);
            var out, text := Commit(content, s), Rebuild(s.words);
            && (out.Written? <==> latest == [] || EndsComplete(latest))
            && (out.Written? && Neat(text) ==>
                  (Split(out.content) == latest + Pieces(text)
                   <==> latest == [] || Terminated(latest[|latest| - 1])))
  {
    hide Split, Rebuild, Pieces, LastHasDelimiter, EndsComplete, Feed;
    var latest, s := Split(content), Edited(Open(base, index).session, us);
    AppendAllowedIff(content);
    RemapAppends(base, index, content);
    if Neat(Rebuild(s.words)) {
      CommitParsesBack(content, |latest|, Rebuild(s.words));
    }
  }

  /** A file that ends in a newline allows an append that will not stand alone. */
  lemma NewlineBehindSentence()
    ensures AllowsAppend("A.\n")
    ensures var ss := Split("A.\n"); ss != [] && !Terminated(ss[|ss| - 1])
  {
    var t, r := "A.", "\n";
    assert t + r == "A.\n" && (t + r)[..2] == t && (t + r)[2..] == r;
    FirstDelimiterIs(t + r, 1);
    FirstDelimiterIs(t, 1);
    ScanBehind(t, r);
    TrailingIsOneSentence(r);
    NotTerminated(r);
  }
}
