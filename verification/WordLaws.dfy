/** What word insertion means for the text of the sentence. */
module WordLaws {
  import opened Text
  import opened CString
  import opened WordBuffers

  // --------------------------------------------------------------- insertion at character level

  /** Where, in the characters of the tokens, an accepted update lands: at the token boundary it names,
      or one character earlier when it is merged in front of a closing delimiter. */
  function InsertPoint(words: seq<string>, u: Update): int
    requires Accepted(words, u)
  {
    |Flatten(words[..u.index - 1])| - (if Merges(words, u) then 1 else 0)
  }

  /** f is g with x inserted at position k. */
  ghost predicate InsertedInto(f: string, g: string, k: int, x: string) {
    0 <= k <= |g| && f == g[..k] + x + g[k..]
  }

  lemma FlattenThree(a: seq<string>, x: string, b: seq<string>)
    ensures Flatten(a + [x] + b) == Flatten(a) + x + Flatten(b)
  {
    FlattenConcat(a + [x], b);
    FlattenConcat(a, [x]);
    FlattenOne(x);
  }

  lemma SplitInside(a: string, t: string, b: string, x: string)
    requires t != ""
    ensures InsertedInto(a + (t[..|t| - 1] + x + [t[|t| - 1]]) + b, a + t + b, |a| + |t| - 1, x)
  {
    var g, k := a + t + b, |a| + |t| - 1;
    assert g[..k] == a + t[..|t| - 1];
    assert g[k..] == [t[|t| - 1]] + b;
  }

  /** An accepted update inserts its text, in one piece, at InsertPoint and changes no other character. */
  lemma ApplyInsertsText(words: seq<string>, u: Update)
    requires Accepted(words, u)
    ensures InsertedInto(Flatten(Apply(words, u)), Flatten(words), InsertPoint(words, u), u.content)
  {
    hide Flatten;
    var at := u.index - 1;
    if Merges(words, u) {
      var a, t, b := words[..at - 1], words[at - 1], words[at..];
      assert words == a + [t] + b;
      assert Apply(words, u) == a + [Merge(t, u.content)] + b;
      FlattenThree(a, t, b);
      FlattenThree(a, Merge(t, u.content), b);
      assert words[..at] == a + [t] + [];
      FlattenThree(a, t, []);
      FlattenOfNone();
      SplitInside(Flatten(a), t, Flatten(b), u.content);
    } else {
      var a, b := words[..at], words[at..];
      assert words == a + b;
      FlattenConcat(a, b);
      FlattenThree(a, u.content, b);
      assert Flatten(words)[..|Flatten(a)|] == Flatten(a);
      assert Flatten(words)[|Flatten(a)|..] == Flatten(b);
    }
  }

  lemma FlattenOfNone()
    ensures Flatten([]) == ""
  {
  }

  lemma InsertedKeeps(f: string, g: string, k: int, x: string)
    requires InsertedInto(f, g, k, x)
    ensures Subseq(g, f)
    ensures multiset(f) == multiset(g) + multiset(x)
  {
    var a, b := g[..k], g[k..];
    assert g == a + b;
    SubseqRefl(a);
    SubseqRefl(b);
    SubseqPrepend(x, b, b);
    SubseqConcat(a, a, b, x + b);
    Regroup(a, x, b);
  }

  // ------------------------------------------------------------------- a whole update stream

  /** The tokens after a stream of updates; a rejected update leaves them alone. */
  function Feed(words: seq<string>, us: seq<Update>): seq<string>
    decreases |us|
  {
    if us == [] then words
    else Feed(if Accepted(words, us[0]) then Apply(words, us[0]) else words, us[1..])
  }

  /** The texts of the accepted updates of the stream, one after the other. */
  function AcceptedText(words: seq<string>, us: seq<Update>): string
    decreases |us|
  {
    if us == [] then ""
    else if Accepted(words, us[0]) then us[0].content + AcceptedText(Apply(words, us[0]), us[1..])
    else AcceptedText(words, us[1..])
  }

  /** Whatever the stream: the array stays within its capacity, no character of the sentence is lost or moved,
      and the characters that are added are exactly those of the accepted updates. */
  lemma {:induction false} FeedKeepsText(words: seq<string>, us: seq<Update>)
    requires |words| <= MAX_WORDS_PER_SENTENCE
    ensures |Feed(words, us)| <= MAX_WORDS_PER_SENTENCE
    ensures Subseq(Flatten(words), Flatten(Feed(words, us)))
    ensures multiset(Flatten(Feed(words, us))) == multiset(Flatten(words)) + multiset(AcceptedText(words, us))
    decreases |us|
  {
    if us == [] {
      SubseqRefl(Flatten(words));
    } else if Accepted(words, us[0]) {
      var next := Apply(words, us[0]);
      ApplyInsertsText(words, us[0]);
      InsertedKeeps(Flatten(next), Flatten(words), InsertPoint(words, us[0]), us[0].content);
      FeedKeepsText(next, us[1..]);
      SubseqTrans(Flatten(words), Flatten(next), Flatten(Feed(next, us[1..])));
    } else {
      FeedKeepsText(words, us[1..]);
    }
  }

  // --------------------------------------------------------------------- tokens and rebuilding

  lemma {:induction false} RunIsSolid(s: string, n: nat)
    requires n <= |s| && forall i :: 0 <= i < n ==> s[i] != ' '
    ensures Solid(s[..n]) == s[..n]
  {
    if n > 0 {
      RunIsSolid(s[1..], n - 1);
      assert s[..n][1..] == s[1..][..n - 1];
      assert s[..n] == [s[0]] + s[1..][..n - 1];
    }
  }

  lemma {:induction false} FieldsKeepSolid(s: string)
    ensures Flatten(Fields(s, ' ')) == Solid(s)
    decreases |s|
  {
    if s == "" {
    } else if s[0] == ' ' {
      FieldsKeepSolid(s[1..]);
    } else {
      var n := RunLength(s, ' ');
      FieldsKeepSolid(s[n..]);
      RunIsSolid(s, n);
      assert s == s[..n] + s[n..];
      SolidConcat(s[..n], s[n..]);
    }
  }

  lemma {:induction false} FlattenIsNotEmpty(fs: seq<string>)
    requires fs != [] && fs[0] != ""
    ensures Flatten(fs) != ""
  {
  }

  /** The session starts with the first 1000 words of the sentence; so with every non-blank character of it exactly
      when it has no more. */
  lemma TokensKeepText(s: string)
    ensures Tokens(s) <= Fields(s, ' ') && (Tokens(s) == Fields(s, ' ') || |Tokens(s)| == MAX_WORDS_PER_SENTENCE)
    ensures Flatten(Tokens(s)) == Solid(s) <==> |Fields(s, ' ')| <= MAX_WORDS_PER_SENTENCE
  {
    var f := Fields(s, ' ');
    FieldsKeepSolid(s);
    if |f| > MAX_WORDS_PER_SENTENCE {
      var kept, lost := f[..MAX_WORDS_PER_SENTENCE], f[MAX_WORDS_PER_SENTENCE..];
      assert f == kept + lost;
      FlattenConcat(kept, lost);
      FieldsAreFields(s, ' ');
      assert IsField(f[MAX_WORDS_PER_SENTENCE], ' ');
      FlattenIsNotEmpty(lost);
      assert |Flatten(f)| > |Flatten(kept)|;
    }
  }

  lemma {:induction false} SolidOfRest(words: seq<string>)
    ensures Solid(Rest(words)) == Solid(Flatten(words))
  {
    if words != [] {
      SolidOfRest(words[1..]);
      var w := words[0];
      SolidConcat(w, Flatten(words[1..]));
      SolidConcat(w, Rest(words[1..]));
      SolidConcat(" " + w, Rest(words[1..]));
      assert (" " + w)[1..] == w;
    }
  }

  /** Rebuilding writes the characters of the tokens in order and adds only blanks. */
  lemma SolidOfRebuild(words: seq<string>)
    ensures Solid(Rebuild(words)) == Solid(Flatten(words))
  {
    if words != [] {
      SolidOfRest(words[1..]);
      SolidConcat(words[0], Rest(words[1..]));
      SolidConcat(words[0], Flatten(words[1..]));
    }
  }

  // ----------------------------------------------------------------- the closing delimiter

  lemma {:induction false} EndOfRest(words: seq<string>)
    requires words != []
    ensures Rest(words) != "" && EndsInDelimiter(Rest(words)) == EndsInDelimiter(words[|words| - 1])
  {
    if |words| > 1 {
      EndOfRest(words[1..]);
      var h := if Lone(words[0]) then words[0] else " " + words[0];
      EndOfConcat(h, Rest(words[1..]));
    } else {
      assert Rest(words[1..]) == "";
    }
  }

  lemma EndOfConcat(a: string, b: string)
    requires b != ""
    ensures EndsInDelimiter(a + b) == EndsInDelimiter(b)
  {
    assert (a + b)[|a + b| - 1] == b[|b| - 1];
  }

  /** The rebuilt sentence ends in a delimiter exactly when its last token does. */
  lemma EndOfRebuild(words: seq<string>)
    ensures EndsInDelimiter(Rebuild(words)) <==> words != [] && EndsInDelimiter(words[|words| - 1])
  {
    if |words| > 1 {
      EndOfRest(words[1..]);
      EndOfConcat(words[0], Rest(words[1..]));
    } else if |words| == 1 {
      assert words[0] + Rest(words[1..]) == words[0];
    }
  }

  /** Text is being appended behind a last token that is a lone delimiter, and brings no delimiter itself. */
  predicate BuriesDelimiter(words: seq<string>, u: Update) {
    u.index - 1 == |words| && words != [] && Lone(words[|words| - 1]) && !EndsInDelimiter(u.content)
  }

  /** A terminated sentence stays terminated, except when text is appended behind a lone delimiter token:
      that branch means to insert before the delimiter, but stores after it. */
  lemma DelimiterStaysLast(words: seq<string>, u: Update)
    requires Accepted(words, u)
    requires EndsInDelimiter(Rebuild(words))
    ensures EndsInDelimiter(Rebuild(Apply(words, u))) <==> !BuriesDelimiter(words, u)
  {
    EndOfRebuild(words);
    EndOfRebuild(Apply(words, u));
    var at, next := u.index - 1, Apply(words, u);
    if Merges(words, u) {
      EndOfMerge(words[at - 1], u.content);
    } else if at == |words| {
      assert next == words + [u.content];
    }
  }

  lemma EndOfMerge(tok: string, content: string)
    requires tok != ""
    ensures EndsInDelimiter(Merge(tok, content)) == EndsInDelimiter(tok)
  {
    EndOfConcat(tok[..|tok| - 1] + content, [tok[|tok| - 1]]);
  }

  /** A stream none of whose accepted updates buries the delimiter. */
  ghost predicate KeepsDelimiter(words: seq<string>, us: seq<Update>)
    decreases |us|
  {
    us == [] ||
    (if Accepted(words, us[0])
     then !BuriesDelimiter(words, us[0]) && KeepsDelimiter(Apply(words, us[0]), us[1..])
     else KeepsDelimiter(words, us[1..]))
  }

  lemma {:induction false} FeedKeepsDelimiter(words: seq<string>, us: seq<Update>)
    requires EndsInDelimiter(Rebuild(words)) && KeepsDelimiter(words, us)
    ensures EndsInDelimiter(Rebuild(Feed(words, us)))
    decreases |us|
  {
    if us != [] {
      if Accepted(words, us[0]) {
        DelimiterStaysLast(words, us[0]);
        FeedKeepsDelimiter(Apply(words, us[0]), us[1..]);
      } else {
        FeedKeepsDelimiter(words, us[1..]);
      }
    }
  }

  lemma {:induction false} FeedSnoc(words: seq<string>, us: seq<Update>, u: Update)
    ensures var w := Feed(words, us); Feed(words, us + [u]) == if Accepted(w, u) then Apply(w, u) else w
    decreases |us|
  {
    if us == [] {
      assert us + [u] == [u] && [u][1..] == [];
    } else {
      assert (us + [u])[1..] == us[1..] + [u];
      FeedSnoc(if Accepted(words, us[0]) then Apply(words, us[0]) else words, us[1..], u);
    }
  }

  /** The update becomes a new last token. */
  predicate StoresLast(words: seq<string>, u: Update) {
    Accepted(words, u) && u.index - 1 == |words| && !Merges(words, u)
  }

  predicate LastEnds(words: seq<string>) {
    words != [] && EndsInDelimiter(words[|words| - 1])
  }

  lemma LastOfMerged(words: seq<string>, i: nat, content: string)
    requires i < |words| && words[i] != ""
    ensures LastEnds(words[i := Merge(words[i], content)]) == LastEnds(words)
  {
    hide Merge, EndsInDelimiter;
    EndOfMerge(words[i], content);
  }

  lemma LastOfInserted(words: seq<string>, at: nat, w: string)
    requires at <= |words|
    ensures LastEnds(InsertAt(words, at, w)) == if at == |words| then EndsInDelimiter(w) else LastEnds(words)
  {
    hide EndsInDelimiter, InsertAt;
    LastToken(words, at, w);
  }

  lemma LastToken(words: seq<string>, at: nat, w: string)
    requires at <= |words|
    ensures var next := InsertAt(words, at, w);
            next != [] && next[|next| - 1] == if at == |words| then w else words[|words| - 1]
  {
  }

  lemma EndOfStep(words: seq<string>, u: Update)
    requires Accepted(words, u)
    ensures EndsInDelimiter(Rebuild(Apply(words, u)))
            == if StoresLast(words, u) then EndsInDelimiter(u.content) else EndsInDelimiter(Rebuild(words))
  {
    hide Rebuild, EndsInDelimiter, InsertAt, Merge, LastEnds;
    RebuiltEnds(words);
    RebuiltEnds(Apply(words, u));
    if Merges(words, u) {
      EndIsNotEmpty(words[u.index - 2]);
      LastOfMerged(words, u.index - 2, u.content);
    } else {
      LastOfInserted(words, u.index - 1, u.content);
    }
  }

  lemma EndIsNotEmpty(s: string)
    ensures EndsInDelimiter(s) ==> s != ""
  {
  }

  lemma RebuiltEnds(words: seq<string>)
    ensures EndsInDelimiter(Rebuild(words)) == LastEnds(words)
  {
    hide EndsInDelimiter, Rebuild;
    EndOfRebuild(words);
  }

  /** The tokens the i-th update of the stream meets. */
  function Before(words: seq<string>, us: seq<Update>, i: nat): seq<string>
    requires i <= |us|
  {
    Feed(words, us[..i])
  }

  /** Update i is the last of the stream that becomes a new last token. */
  ghost predicate Decides(words: seq<string>, us: seq<Update>, i: nat) {
    && i < |us| && StoresLast(Before(words, us, i), us[i])
    && forall j :: i < j < |us| ==> !StoresLast(Before(words, us, j), us[j])
  }

  /** How a sentence ends after a whole stream: like the text of the last update that became a new last token, and as
      it did before when there is none. A buried delimiter can so be made good by a later update. */
  lemma {:induction false} StreamEnding(words: seq<string>, us: seq<Update>)
    ensures forall i: nat :: Decides(words, us, i) ==>
              (EndsInDelimiter(Rebuild(Feed(words, us))) <==> EndsInDelimiter(us[i].content))
    ensures (forall i: nat :: !Decides(words, us, i)) ==>
              (EndsInDelimiter(Rebuild(Feed(words, us))) <==> EndsInDelimiter(Rebuild(words)))
    decreases |us|
  {
    hide Rebuild, StoresLast, Accepted, Apply, Feed;
    if us == [] {
      FeedNone(words);
    } else {
      var n := |us| - 1;
      var front, u := us[..n], us[n];
      assert us == front + [u];
      FeedSnoc(words, front, u);
      StreamEnding(words, front);
      LastDecides(words, us);
      if Accepted(Feed(words, front), u) {
        EndOfStep(Feed(words, front), u);
      } else {
        RefusedStoresNothing(Feed(words, front), u);
      }
    }
  }

  lemma FeedNone(words: seq<string>)
    ensures Feed(words, []) == words
  {
  }

  lemma RefusedStoresNothing(words: seq<string>, u: Update)
    requires !Accepted(words, u)
    ensures !StoresLast(words, u)
  {
  }

  /** The last update decides, or what decided in front of it. */
  lemma LastDecides(words: seq<string>, us: seq<Update>)
    requires us != []
    ensures var n := |us| - 1;
            if StoresLast(Feed(words, us[..n]), us[n])
            then Decides(words, us, n) && forall i: nat :: Decides(words, us, i) ==> i == n
            else forall i: nat :: Decides(words, us, i) <==> Decides(words, us[..n], i)
  {
    hide StoresLast, Feed;
    var n := |us| - 1;
    var front := us[..n];
    assert forall i :: 0 <= i <= n ==> us[..i] == front[..i];
    forall i: nat
      ensures i < n && !StoresLast(Before(words, us, n), us[n]) ==>
                (Decides(words, us, i) <==> Decides(words, front, i))
    {
    }
  }

  // ------------------------------------------------------------- tokens a client can produce

  /** Non-empty, with no blank at either end. */
  predicate Neat(w: string) {
    w != "" && w[0] != ' ' && w[|w| - 1] != ' '
  }

  ghost predicate AllNeat(words: seq<string>) {
    forall i :: 0 <= i < |words| ==> Neat(words[i])
  }

  ghost predicate NeatUpdates(us: seq<Update>) {
    forall i :: 0 <= i < |us| ==> Neat(us[i].content)
  }

  lemma TokensAreNeat(s: string)
    ensures AllNeat(Tokens(s))
  {
    FieldsAreFields(s, ' ');
    forall i | 0 <= i < |Tokens(s)|
      ensures Neat(Tokens(s)[i])
    {
      assert IsField(Fields(s, ' ')[i], ' ');
    }
  }

  lemma ApplyKeepsNeat(words: seq<string>, u: Update)
    requires Accepted(words, u) && AllNeat(words) && Neat(u.content)
    ensures AllNeat(Apply(words, u))
  {
    if Merges(words, u) {
      var t := words[u.index - 2];
      assert |t| > 1 ==> Merge(t, u.content)[0] == t[0];
      assert Neat(Merge(t, u.content));
    }
  }

  lemma {:induction false} FeedKeepsNeat(words: seq<string>, us: seq<Update>)
    requires AllNeat(words) && NeatUpdates(us)
    ensures AllNeat(Feed(words, us))
    decreases |us|
  {
    if us != [] {
      if Accepted(words, us[0]) {
        ApplyKeepsNeat(words, us[0]);
        FeedKeepsNeat(Apply(words, us[0]), us[1..]);
      } else {
        FeedKeepsNeat(words, us[1..]);
      }
    }
  }

  lemma {:induction false} EndOfNeatRest(words: seq<string>)
    requires words != [] && AllNeat(words)
    ensures Rest(words) != "" && Rest(words)[|Rest(words)| - 1] != ' '
  {
    if |words| > 1 {
      EndOfNeatRest(words[1..]);
    } else {
      assert Rest(words[1..]) == "";
    }
  }

  lemma RebuildIsNeat(words: seq<string>)
    requires words != [] && AllNeat(words)
    ensures Neat(Rebuild(words))
  {
    if |words| > 1 {
      EndOfNeatRest(words[1..]);
    } else {
      assert Rebuild(words) == words[0];
    }
  }
}
