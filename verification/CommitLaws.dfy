/** What a commit guarantees: where the edit lands, that the text of the file is conserved, and when the new file
    parses back into the spliced sentences. */
module CommitLaws {
  import opened Text
  import opened CString
  import opened Sentences
  import opened WordBuffers
  import opened WordLaws
  import opened Commits

  // ------------------------------------------------------------------ counting visible characters

  lemma {:induction false} InkCount(s: string, c: char)
    ensures multiset(Ink(s))[c] == if IsSpace(c) then 0 else multiset(s)[c]
  {
    if s != "" {
      InkCount(s[1..], c);
      assert s == [s[0]] + s[1..];
    }
  }

  lemma InkSum(f: string, g: string, x: string)
    requires multiset(f) == multiset(g) + multiset(x)
    ensures multiset(Ink(f)) == multiset(Ink(g)) + multiset(Ink(x))
  {
    forall c
      ensures multiset(Ink(f))[c] == multiset(Ink(g))[c] + multiset(Ink(x))[c]
    {
      InkCount(f, c);
      InkCount(g, c);
      InkCount(x, c);
    }
  }

  lemma InkFromSolid(a: string, b: string)
    requires Solid(a) == Solid(b)
    ensures Ink(a) == Ink(b)
  {
    InkOfSolid(a);
    InkOfSolid(b);
  }

  // -------------------------------------------------------------------------------- remapping

  ghost predicate HasSame(ss: seq<string>, text: string) {
    exists i :: 0 <= i < |ss| && SameSentence(ss[i], text)
  }

  /** Sentence k directly follows the first sentence equal to text. */
  ghost predicate FollowsFirst(ss: seq<string>, k: nat, text: string) {
    && 0 < k < |ss| && SameSentence(ss[k - 1], text)
    && forall i :: 0 <= i < k - 1 ==> !SameSentence(ss[i], text)
  }

  /** A session on an existing sentence always holds a snapshot of it, and of its predecessor if there is one,
      so the branches of the remapping for missing snapshots are never taken. */
  lemma OpenedSnapshots(content: string, index: int)
    requires Open(content, index).Opened?
    ensures var s := Open(content, index).session;
            !s.append ==> s.snapshot != "" && (s.previous == "" <==> s.index == 0)
  {
    SplitIsWellFormed(content);
  }

  lemma SearchFindsFirst(ss: seq<string>, text: string)
    ensures var j := FirstSame(ss, text);
            (j < |ss| ==> SameSentence(ss[j], text)) && (j < |ss| <==> HasSame(ss, text))
  {
    hide Trim;
    FirstSameIsFirst(ss, text);
    var j := FirstSame(ss, text);
    if HasSame(ss, text) {
      var i :| 0 <= i < |ss| && SameSentence(ss[i], text);
      assert i >= j;
    }
  }

  lemma AnchorIsFirst(ss: seq<string>, text: string)
    ensures var t := AfterAnchor(ss, text);
            (t.At? ==> FollowsFirst(ss, t.index, text)) && (t.Abort? <==> !exists k: nat :: FollowsFirst(ss, k, text))
  {
    hide Trim;
    FirstSameIsFirst(ss, text);
    var anchor := FirstSame(ss, text);
    if anchor + 1 < |ss| {
      assert FollowsFirst(ss, anchor + 1, text);
    }
    forall k: nat | FollowsFirst(ss, k, text)
      ensures k == anchor + 1
    {
      assert !(anchor < k - 1);
    }
  }

  /** Where a replacing session may land. The target is a sentence with the session's text exactly when there is one
      and the index is still within the file; failing that it is the successor of the previous sentence, or sentence 0
      for a session that started there; and the commit is refused exactly when none of these is available. */
  ghost predicate LandsByText(latest: seq<string>, s: Session, t: Target) {
    && (t.At? ==> t.index < |latest|)
    && ((t.At? && SameSentence(latest[t.index], s.snapshot))
        <==> (s.index <= |latest| && HasSame(latest, s.snapshot)))
    && (t.At? && !HasSame(latest, s.snapshot)
        ==> if s.index == 0 then t.index == 0 else FollowsFirst(latest, t.index, s.previous))
    && (t.Abort? <==>
        || s.index > |latest|
        || (!HasSame(latest, s.snapshot)
            && if s.index == 0 then latest == [] else !exists k: nat :: FollowsFirst(latest, k, s.previous)))
  }

  lemma RemapOfReplace(content: string, latest: seq<string>, s: Session)
    requires !s.append && s.snapshot != "" && (s.previous == "" <==> s.index == 0)
    ensures LandsByText(latest, s, Remap(content, latest, s))
  {
    hide Trim, FirstSame;
    SearchFindsFirst(latest, s.snapshot);
    AnchorIsFirst(latest, s.previous);
  }

  /** Remapping a replacing session, against any later content. */
  lemma RemapFindsSentence(base: string, index: int, content: string)
    requires Open(base, index).Opened? && index < |Split(base)|
    ensures var s, latest := Open(base, index).session, Split(content);
            LandsByText(latest, s, Remap(content, latest, s))
  {
    OpenedSnapshots(base, index);
    hide LandsByText;
    RemapOfReplace(content, Split(content), Open(base, index).session);
  }

  /** A commit lands on the very index the session opened exactly when the sentence there still has its text, or no
      sentence has and the fallback leads there. */
  lemma RemapsToOwnIndexIff(base: string, index: int, content: string)
    requires Open(base, index).Opened? && index < |Split(base)|
    ensures var s, latest := Open(base, index).session, Split(content);
            Remap(content, latest, s) == At(s.index) <==>
            && s.index < |latest|
            && (|| SameSentence(latest[s.index], s.snapshot)
                || (!HasSame(latest, s.snapshot)
                    && (s.index == 0 || FollowsFirst(latest, s.index, s.previous))))
  {
    OpenedSnapshots(base, index);
    hide Trim, FirstSame, Split, HasSame, FollowsFirst;
    var s, latest := Open(base, index).session, Split(content);
    SearchFindsFirst(latest, s.snapshot);
    AnchorIsFirst(latest, s.previous);
    RemapOfReplace(content, latest, s);
    if s.index < |latest| && FollowsFirst(latest, s.index, s.previous) {
      FollowsFirstIsUnique(latest, s.previous);
    }
  }

  lemma FollowsFirstIsUnique(ss: seq<string>, text: string)
    ensures forall j: nat, k: nat :: FollowsFirst(ss, j, text) && FollowsFirst(ss, k, text) ==> j == k
  {
    hide Trim;
    forall j: nat, k: nat | FollowsFirst(ss, j, text) && FollowsFirst(ss, k, text)
      ensures j == k
    {
      assert !(j - 1 < k - 1) && !(k - 1 < j - 1);
    }
  }

  /** Among several sentences with the session's text the target is the one at the session's own index, or else the
      first of them. */
  lemma RemapPrefersIndex(base: string, index: int, content: string)
    requires Open(base, index).Opened? && index < |Split(base)| && index <= |Split(content)|
    ensures var s, latest := Open(base, index).session, Split(content);
            var t := Remap(content, latest, s);
            HasSame(latest, s.snapshot) ==>
              && t.At? && t.index < |latest|
              && if s.index < |latest| && SameSentence(latest[s.index], s.snapshot) then t.index == s.index
                 else forall i :: 0 <= i < t.index ==> !SameSentence(latest[i], s.snapshot)
  {
    OpenedSnapshots(base, index);
    hide Trim, FirstSame, Split, HasSame;
    SearchFindsFirst(Split(content), Open(base, index).session.snapshot);
    FirstSameIsFirst(Split(content), Open(base, index).session.snapshot);
  }

  /** An appending session goes behind the last sentence, if the latest content still allows it. */
  lemma RemapAppends(base: string, index: int, content: string)
    requires Open(base, index).Opened? && index == |Split(base)|
    ensures Remap(content, Split(content), Open(base, index).session)
            == if AllowsAppend(content) then At(|Split(content)|) else Abort
  {
  }

  /** What a commit writes: the latest sentences with the edited text in the place of the target, or behind the last;
      as its sentences if it holds two or more, else as it is. */
  lemma CommitWrites(content: string, s: Session)
    ensures var latest, text, out := Split(content), Rebuild(s.words), Commit(content, s);
            var edited := if |Split(text)| >= 2 then Split(text) else [text];
            match Remap(content, latest, s)
            case Abort => out == Unchanged
            case At(t) =>
              && t <= |latest| && (t == |latest| <==> s.append)
              && out == Written(Join(latest[..t] + edited + latest[if s.append then t else t + 1..]))
  {
    RemapInRange(content, Split(content), s);
    hide Split, Rebuild, Join, Remap;
    var latest := Split(content);
    assert latest[..|latest|] == latest && latest[|latest|..] == [];
    assert latest + Pieces(Rebuild(s.words)) == latest + Pieces(Rebuild(s.words)) + [];
  }

  // ------------------------------------------------------------------------- text conservation

  lemma InkOfPieces(text: string)
    ensures Ink(Flatten(Pieces(text))) == Ink(text)
  {
    InkOfSplitAndJoin(text, []);
    FlattenOne(text);
  }

  lemma InkOfThree(a: seq<string>, b: seq<string>, c: seq<string>)
    ensures Ink(Flatten(a + b + c)) == Ink(Flatten(a)) + Ink(Flatten(b)) + Ink(Flatten(c))
  {
    hide Ink, Flatten;
    FlattenConcat(a + b, c);
    FlattenConcat(a, b);
    InkConcat(Flatten(a) + Flatten(b), Flatten(c));
    InkConcat(Flatten(a), Flatten(b));
  }

  /** Replacing sentence t changes the visible text of the file at that sentence and nowhere else. */
  lemma InkOfReplace(content: string, t: nat, text: string)
    requires t < |Split(content)|
    ensures var latest := Split(content);
            var before, after := Ink(Flatten(latest[..t])), Ink(Flatten(latest[t + 1..]));
            && Ink(content) == before + Ink(latest[t]) + after
            && Ink(Join(Splice(latest, t, text))) == before + Ink(text) + after
  {
    hide Ink, Flatten, Split, Join, Pieces;
    var latest := Split(content);
    InkOfSplitAndJoin(content, Splice(latest, t, text));
    var a, b := latest[..t], latest[t + 1..];
    assert latest == a + [latest[t]] + b;
    InkOfThree(a, [latest[t]], b);
    InkOfThree(a, Pieces(text), b);
    InkOfPieces(text);
    FlattenOne(latest[t]);
  }

  lemma InkOfAppend(content: string, text: string)
    ensures Ink(Join(Splice(Split(content), |Split(content)|, text))) == Ink(content) + Ink(text)
  {
    hide Ink, Flatten, Split, Join, Pieces;
    var latest := Split(content);
    InkOfSplitAndJoin(content, latest + Pieces(text));
    FlattenConcat(latest, Pieces(text));
    InkConcat(Flatten(latest), Flatten(Pieces(text)));
    InkOfPieces(text);
  }

  /** The state of a session after a stream of updates. */
  function Edited(s: Session, us: seq<Update>): Session {
    s.(words := Feed(s.words, us))
  }

  /** The rebuilt sentence holds the visible text of the sentence the session read, in order, and beyond it exactly
      the visible text of the accepted updates. The sentence must fit the word array. */
  lemma EditedText(base: string, index: int, us: seq<Update>)
    requires Open(base, index).Opened?
    requires |Fields(Open(base, index).session.snapshot, ' ')| <= MAX_WORDS_PER_SENTENCE
    ensures var s := Open(base, index).session;
            var text := Rebuild(Edited(s, us).words);
            && Subseq(Ink(s.snapshot), Ink(text))
            && multiset(Ink(text)) == multiset(Ink(s.snapshot)) + multiset(Ink(AcceptedText(s.words, us)))
  {
    var s := Open(base, index).session;
    var words := Feed(s.words, us);
    TokensKeepText(s.snapshot);
    FeedKeepsText(s.words, us);
    SubseqInk(Flatten(s.words), Flatten(words));
    InkSum(Flatten(words), Flatten(s.words), AcceptedText(s.words, us));
    InkOfSolid(s.snapshot);
    SolidOfRebuild(words);
    InkFromSolid(Rebuild(words), Flatten(words));
  }

  /** The accounting of every commit that replaces a sentence, remapped or not: the visible text of the replaced
      sentence goes out; the sentence the session read and its accepted insertions come in. */
  lemma CommitAccounting(base: string, index: int, us: seq<Update>, content: string, t: nat)
    requires Open(base, index).Opened?
    requires |Fields(Open(base, index).session.snapshot, ' ')| <= MAX_WORDS_PER_SENTENCE
    requires Remap(content, Split(content), Edited(Open(base, index).session, us)) == At(t) && t < |Split(content)|
    ensures var s := Open(base, index).session;
            var out := Commit(content, Edited(s, us));
            && out.Written?
            && multiset(Ink(out.content)) + multiset(Ink(Split(content)[t]))
               == multiset(Ink(content)) + multiset(Ink(s.snapshot)) + multiset(Ink(AcceptedText(s.words, us)))
  {
    hide Ink, Flatten, Split, Join, Splice, Rebuild, Feed, Subseq, Trim, Remap, Open;
    var s := Open(base, index).session;
    var text := Rebuild(Edited(s, us).words);
    EditedText(base, index, us);
    InkOfReplace(content, t, text);
    var latest := Split(content);
    var before, after := Ink(Flatten(latest[..t])), Ink(Flatten(latest[t + 1..]));
    MultisetOfThree(before, Ink(latest[t]), after);
    MultisetOfThree(before, Ink(text), after);
  }

  lemma MultisetOfThree(a: string, b: string, c: string)
    ensures multiset(a + b + c) == multiset(a) + multiset(b) + multiset(c)
  {
  }

  /** The target of the commit is the sentence the session edited, found by its text, or the end of the file. */
  ghost predicate FoundByText(content: string, s: Session) {
    var latest := Split(content);
    var t := Remap(content, latest, s);
    t.At? && (s.append || (t.index < |latest| && SameSentence(latest[t.index], s.snapshot)))
  }

  /** No commit whose target was found by text, and no append, loses a visible character of the latest content,
      whatever the session inserted and whatever other sessions wrote since it started; and what the file gains is
      exactly the visible text of the accepted insertions. */
  lemma CommitLosesNothing(base: string, index: int, us: seq<Update>, content: string)
    requires Open(base, index).Opened?
    requires |Fields(Open(base, index).session.snapshot, ' ')| <= MAX_WORDS_PER_SENTENCE
    requires FoundByText(content, Edited(Open(base, index).session, us))
    ensures var s := Open(base, index).session;
            var out := Commit(content, Edited(s, us));
            && out.Written?
            && Subseq(Ink(content), Ink(out.content))
            && multiset(Ink(out.content)) == multiset(Ink(content)) + multiset(Ink(AcceptedText(s.words, us)))
  {
    hide Ink, Flatten, Split, Join, Splice, Rebuild, Feed, Subseq, Trim;
    var s := Open(base, index).session;
    var text := Rebuild(Edited(s, us).words);
    var latest := Split(content);
    var t := Remap(content, latest, Edited(s, us)).index;
    EditedText(base, index, us);
    if s.append {
      InkOfAppend(content, text);
      SubseqRefl(Ink(content));
      SubseqOfNone(Ink(text));
      SubseqConcat(Ink(content), Ink(content), "", Ink(text));
      assert Ink(content) + "" == Ink(content);
      InkOfNone();
    } else {
      InkOfTrim(latest[t]);
      InkOfTrim(s.snapshot);
      InkOfReplace(content, t, text);
      SubseqMiddle(Ink(Flatten(latest[..t])), Ink(latest[t]), Ink(text), Ink(Flatten(latest[t + 1..])));
      CommitAccounting(base, index, us, content, t);
    }
  }

  lemma SubseqOfNone(b: string)
    ensures Subseq("", b)
  {
  }

  lemma InkOfNone()
    ensures Ink("") == ""
  {
  }

  /** A session that nobody interfered with is always accepted, and lands on the sentence it opened. */
  lemma AloneRemapsToItself(base: string, index: int, us: seq<Update>)
    requires Open(base, index).Opened?
    ensures var s := Edited(Open(base, index).session, us);
            Remap(base, Split(base), s) == At(index) && FoundByText(base, s)
  {
    hide Split, Trim, Feed, LastHasDelimiter;
    OpenedSnapshots(base, index);
  }

  // ---------------------------------------------------------------------- the new sentence list

  lemma {:induction false} SkipKeepsEnd(r: string)
    requires r != "" && r[|r| - 1] != ' '
    ensures var k := SkipSpaces(r); k != "" && k[|k| - 1] == r[|r| - 1]
  {
    if r[0] == ' ' {
      SkipKeepsEnd(r[1..]);
    }
  }

  /** A text without blanks at its ends is split without loss at its ends. */
  lemma {:induction false} SplitOfNeat(text: string)
    requires text != "" && text[|text| - 1] != ' '
    ensures var p := Split(text);
            && p != [] && p == Pieces(text)
            && p[0] != "" && p[0][0] == text[0]
            && (EndsInDelimiter(text) <==> Terminated(p[|p| - 1]))
    decreases |text|
  {
    hide Split, FirstDelimiter, SkipSpaces;
    var d := FirstDelimiter(text);
    SplitStep(text);
    SplitOfEmpty();
    EndOfText(text);
    if d < |text| - 1 {
      var r := text[d + 1..];
      SkipKeepsEnd(r);
      SplitOfNeat(SkipSpaces(r));
    } else if d == |text| - 1 {
      assert text[..d + 1] == text && text[d + 1..] == "";
      SkipNothing();
    }
  }

  lemma SkipNothing()
    ensures SkipSpaces("") == ""
  {
  }

  lemma EndOfText(s: string)
    requires s != ""
    ensures var d := FirstDelimiter(s);
            (d == |s| ==> !EndsInDelimiter(s)) && (d == |s| - 1 ==> EndsInDelimiter(s))
  {
    FirstDelimiterIs(s, FirstDelimiter(s));
  }

  lemma WellFormedConcat(a: seq<string>, b: seq<string>)
    requires WellFormed(a) && WellFormed(b) && a != [] && b != []
    ensures WellFormed(a + b) <==> Terminated(a[|a| - 1]) && b[0][0] != ' '
  {
    var c := a + b;
    assert c[|a| - 1] == a[|a| - 1] && c[|a|] == b[0];
    if Terminated(a[|a| - 1]) && b[0][0] != ' ' {
      forall i | 0 <= i < |c|
        ensures c[i] != "" && |c[i]| - 1 <= FirstDelimiter(c[i])
        ensures i < |c| - 1 ==> Terminated(c[i])
        ensures 0 < i ==> c[i][0] != ' '
      {
        assert c[i] == if i < |a| then a[i] else b[i - |a|];
      }
    }
  }

  lemma WellFormedSlice(ss: seq<string>, i: nat, j: nat)
    requires WellFormed(ss) && i <= j <= |ss|
    ensures WellFormed(ss[i..j])
  {
  }

  lemma NoLeadingBlank(ss: seq<string>, i: nat)
    requires WellFormed(ss) && 0 < i < |ss|
    ensures ss[i] != "" && ss[i][0] != ' ' && Terminated(ss[i - 1])
  {
  }

  /** The edited text closes the gap it is put in: it is last, or ends in a delimiter, and what it is put behind
      is complete. */
  ghost predicate FitsAt(latest: seq<string>, t: nat, text: string) {
    if t < |latest| then t == |latest| - 1 || EndsInDelimiter(text)
    else latest == [] || Terminated(latest[|latest| - 1])
  }

  lemma WellFormedThree(a: seq<string>, p: seq<string>, b: seq<string>)
    requires WellFormed(a) && WellFormed(p) && WellFormed(b) && p != []
    requires a != [] ==> Terminated(a[|a| - 1]) && p[0][0] != ' '
    requires b != [] ==> b[0][0] != ' '
    ensures WellFormed(a + p + b) <==> b == [] || Terminated(p[|p| - 1])
  {
    hide FirstDelimiter, WellFormed;
    var ap := a + p;
    assert ap[|ap| - 1] == p[|p| - 1];
    if a == [] {
      assert ap == p;
    } else {
      WellFormedConcat(a, p);
    }
    if b == [] {
      assert ap + b == ap;
    } else {
      WellFormedConcat(ap, b);
    }
  }

  /** The spliced list is one that parse_sentences could produce exactly when the edited text fits. */
  lemma SpliceWellFormed(latest: seq<string>, t: nat, text: string)
    requires WellFormed(latest) && Neat(text)
    ensures WellFormed(Splice(latest, t, text)) <==> FitsAt(latest, t, text)
  {
    hide FirstDelimiter, EndsInDelimiter, Split, Pieces, WellFormed;
    var p := Pieces(text);
    SplitOfNeat(text);
    SplitIsWellFormed(text);
    if t < |latest| {
      WellFormedSlice(latest, 0, t);
      WellFormedSlice(latest, t + 1, |latest|);
      if t > 0 {
        NoLeadingBlank(latest, t);
      }
      if t + 1 < |latest| {
        NoLeadingBlank(latest, t + 1);
      }
      assert latest[0..t] == latest[..t] && latest[t + 1..|latest|] == latest[t + 1..];
      WellFormedThree(latest[..t], p, latest[t + 1..]);
    } else if latest != [] {
      WellFormedConcat(latest, p);
    } else {
      assert latest + p == p;
    }
  }

  /** The rewritten file parses back into the spliced list exactly when the edited text fits. */
  lemma CommitParsesBack(content: string, t: nat, text: string)
    requires Neat(text)
    ensures Split(Join(Splice(Split(content), t, text))) == Splice(Split(content), t, text)
            <==> FitsAt(Split(content), t, text)
  {
    hide Split, Join, Splice, WellFormed, FitsAt;
    var list := Splice(Split(content), t, text);
    SplitIsWellFormed(content);
    SpliceWellFormed(Split(content), t, text);
    if WellFormed(list) {
      SplitOfJoin(list);
    }
    SplitIsWellFormed(Join(list));
  }
}
