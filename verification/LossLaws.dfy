/** Exactly when a commit that replaces a sentence loses visible text, and inputs on which it does. */
module LossLaws {
  import opened Text
  import opened CString
  import opened Sentences
  import opened WordBuffers
  import opened WordLaws
  import opened Commits
  import opened CommitLaws

  /** For a replacing commit in general, the file gains exactly the accepted text when and only when the replaced
      sentence has the visible characters of the sentence the session read. */
  lemma ReplaceConservesIff(base: string, index: int, us: seq<Update>, content: string, t: nat)
    requires Open(base, index).Opened?
    requires |Fields(Open(base, index).session.snapshot, ' ')| <= MAX_WORDS_PER_SENTENCE
    requires Remap(content, Split(content), Edited(Open(base, index).session, us)) == At(t) && t < |Split(content)|
    ensures var s := Open(base, index).session;
            (multiset(Ink(Commit(content, Edited(s, us)).content))
             == multiset(Ink(content)) + multiset(Ink(AcceptedText(s.words, us))))
            <==> multiset(Ink(Split(content)[t])) == multiset(Ink(s.snapshot))
  {
    CommitAccounting(base, index, us, content, t);
    var s := Open(base, index).session;
    Cancel(multiset(Ink(Commit(content, Edited(s, us)).content)), multiset(Ink(Split(content)[t])),
           multiset(Ink(content)), multiset(Ink(s.snapshot)), multiset(Ink(AcceptedText(s.words, us))));
  }

  lemma Cancel(o: multiset<char>, l: multiset<char>, c: multiset<char>, n: multiset<char>, a: multiset<char>)
    requires o + l == c + n + a
    ensures o == c + a <==> l == n
  {
    if o == c + a {
      forall x
        ensures l[x] == n[x]
      {
        assert (o + l)[x] == (c + n + a)[x];
      }
    }
    if l == n {
      forall x
        ensures o[x] == (c + a)[x]
      {
        assert (o + l)[x] == (c + n + a)[x];
      }
    }
  }

  /** Every visible character of the content is still there, in order, and the gain is what was accepted. */
  ghost predicate LosesNothing(content: string, out: Outcome, accepted: string) {
    && out.Written?
    && Subseq(Ink(content), Ink(out.content))
    && multiset(Ink(out.content)) == multiset(Ink(content)) + multiset(Ink(accepted))
  }

  /** Whatever sentence a commit replaces, the visible characters of the file stay, in order, exactly when those of the
      replaced sentence stay within the text that takes its place. */
  lemma ReplaceKeepsOrderIff(content: string, s: Session, t: nat)
    requires Remap(content, Split(content), s) == At(t) && t < |Split(content)|
    ensures Commit(content, s).Written?
    ensures Subseq(Ink(content), Ink(Commit(content, s).content))
            <==> Subseq(Ink(Split(content)[t]), Ink(Rebuild(s.words)))
  {
    hide Ink, Flatten, Split, Join, Splice, Rebuild, Subseq, Remap;
    var latest, text := Split(content), Rebuild(s.words);
    InkOfReplace(content, t, text);
    SubseqMiddle(Ink(Flatten(latest[..t])), Ink(latest[t]), Ink(text), Ink(Flatten(latest[t + 1..])));
  }

  /** The exact condition for a replacing commit to lose nothing: the replaced sentence has the visible characters of
      the sentence the session read, counted, and they stand in order in the edited text. */
  lemma ReplaceLosesNothingIff(base: string, index: int, us: seq<Update>, content: string, t: nat)
    requires Open(base, index).Opened?
    requires |Fields(Open(base, index).session.snapshot, ' ')| <= MAX_WORDS_PER_SENTENCE
    requires Remap(content, Split(content), Edited(Open(base, index).session, us)) == At(t) && t < |Split(content)|
    ensures var s := Open(base, index).session;
            LosesNothing(content, Commit(content, Edited(s, us)), AcceptedText(s.words, us)) <==>
            && multiset(Ink(Split(content)[t])) == multiset(Ink(s.snapshot))
            && Subseq(Ink(Split(content)[t]), Ink(Rebuild(Feed(s.words, us))))
  {
    hide Ink, Subseq, Split, Remap, Open, Rebuild, Feed, Commit;
    ReplaceConservesIff(base, index, us, content, t);
    ReplaceKeepsOrderIff(content, Edited(Open(base, index).session, us), t);
  }

  /** Remapping does not look at the words. */
  lemma RemapIgnoresWords(content: string, latest: seq<string>, s: Session, us: seq<Update>)
    ensures Remap(content, latest, Edited(s, us)) == Remap(content, latest, s)
  {
  }

  lemma UneditedText(base: string, index: int)
    requires Open(base, index).Opened?
    requires |Fields(Open(base, index).session.snapshot, ' ')| <= MAX_WORDS_PER_SENTENCE
    ensures var s := Open(base, index).session;
            Ink(Rebuild(Feed(s.words, []))) == Ink(s.snapshot)
  {
    hide Ink, Subseq, Split, Open, Rebuild;
    var s := Open(base, index).session;
    EditedText(base, index, []);
    InkOfNone();
    SameCharactersInOrder(Ink(s.snapshot), Ink(Rebuild(Feed(s.words, []))));
  }

  lemma SameCharactersInOrder(a: string, b: string)
    requires Subseq(a, b) && multiset(a) == multiset(b)
    ensures a == b
  {
    SubseqLength(a, b);
    assert |multiset(a)| == |a| && |multiset(b)| == |b|;
  }

  /** A target is safe for every update stream exactly when the sentence there has the visible text of the sentence the
      session read. */
  lemma SafeForEveryStreamIff(base: string, index: int, content: string, t: nat)
    requires Open(base, index).Opened?
    requires |Fields(Open(base, index).session.snapshot, ' ')| <= MAX_WORDS_PER_SENTENCE
    requires Remap(content, Split(content), Open(base, index).session) == At(t) && t < |Split(content)|
    ensures var s := Open(base, index).session;
            (forall us ::
              LosesNothing(content, Commit(content, Edited(s, us)), AcceptedText(s.words, us)))
            <==> Ink(Split(content)[t]) == Ink(s.snapshot)
  {
    hide Ink, Subseq, Split, Remap, Open, Rebuild, Feed, Commit, LosesNothing;
    var s := Open(base, index).session;
    if Ink(Split(content)[t]) == Ink(s.snapshot) {
      forall us
        ensures LosesNothing(content, Commit(content, Edited(s, us)), AcceptedText(s.words, us))
      {
        RemapIgnoresWords(content, Split(content), s, us);
        EditedText(base, index, us);
        ReplaceLosesNothingIff(base, index, us, content, t);
      }
    }
    if LosesNothing(content, Commit(content, Edited(s, [])), AcceptedText(s.words, [])) {
      RemapIgnoresWords(content, Split(content), s, []);
      ReplaceLosesNothingIff(base, index, [], content, t);
      UneditedText(base, index);
      SameCharactersInOrder(Ink(Split(content)[t]), Ink(s.snapshot));
    }
  }
}
