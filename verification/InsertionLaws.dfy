/** What an insertion does, case by case: to the tokens, and to the sentence they are rebuilt into
    (storage_server/storage_server.c, handle_write_file). */
module InsertionLaws {
  import opened Text
  import opened WordBuffers
  import opened WordLaws

  // --------------------------------------------------------------------------------- the tokens

  /** The text is a token of its own, number `at`, and every other token is as it was. */
  ghost predicate GainsToken(words: seq<string>, r: seq<string>, at: nat, text: string) {
    && at <= |words| && |r| == |words| + 1 && r[at] == text
    && (forall i :: 0 <= i < at ==> r[i] == words[i])
    && (forall i :: at <= i < |words| ==> r[i + 1] == words[i])
  }

  /** Token k has taken in the text, in front of its last character, and every other token is as it was. */
  ghost predicate Absorbs(words: seq<string>, r: seq<string>, k: nat, text: string) {
    && k < |words| == |r| && words[k] != ""
    && r[k] == words[k][..|words[k]| - 1] + text + words[k][|words[k]| - 1..]
    && (forall i :: 0 <= i < |words| && i != k ==> r[i] == words[i])
  }

  /** Every accepted update does one of two things. In front of an existing token, the token before the insertion point
      takes the text in exactly when it ends in a delimiter. At the end of the array it does so exactly when it is more
      than a delimiter alone, ends in one, and the text does not. In all other cases the text is a token of its own. */
  lemma InsertionByCases(words: seq<string>, u: Update)
    requires Accepted(words, u)
    ensures 1 <= u.index <= |words| + 1 <= MAX_WORDS_PER_SENTENCE
    ensures var at, r := u.index - 1, Apply(words, u);
            && (at == 0 ==> GainsToken(words, r, 0, u.content))
            && (0 < at < |words| && EndsInDelimiter(words[at - 1]) ==> Absorbs(words, r, at - 1, u.content))
            && (0 < at < |words| && !EndsInDelimiter(words[at - 1]) ==> GainsToken(words, r, at, u.content))
            && (0 < at == |words| ==>
                  var last := words[at - 1];
                  if |last| > 1 && EndsInDelimiter(last) && !EndsInDelimiter(u.content)
                  then Absorbs(words, r, at - 1, u.content)
                  else GainsToken(words, r, at, u.content))
  {
    hide IsDelimiter;
    var at, r := u.index - 1, Apply(words, u);
    if Merges(words, u) {
      var t := words[at - 1];
      assert t[|t| - 1..] == [t[|t| - 1]];
    } else {
      assert r == words[..at] + [u.content] + words[at..];
    }
  }

  // ------------------------------------------------------------------------------- the sentence

  lemma {:induction false} RestConcat(a: seq<string>, b: seq<string>)
    ensures Rest(a + b) == Rest(a) + Rest(b)
  {
    if a == [] {
      assert a + b == b;
    } else {
      assert (a + b)[0] == a[0] && (a + b)[1..] == a[1..] + b;
      RestConcat(a[1..], b);
      Regroup(if Lone(a[0]) then a[0] else " " + a[0], Rest(a[1..]), Rest(b));
    }
  }

  lemma RebuildConcat(a: seq<string>, b: seq<string>)
    requires a != []
    ensures Rebuild(a + b) == Rebuild(a) + Rest(b)
  {
    assert (a + b)[0] == a[0] && (a + b)[1..] == a[1..] + b;
    RestConcat(a[1..], b);
    Regroup(a[0], Rest(a[1..]), Rest(b));
  }

  /** How a token stands behind other tokens: attached if it is a delimiter alone, else one blank away. */
  function Spaced(w: string): string {
    if w == "." || w == "!" || w == "?" then w else " " + w
  }

  lemma RestOfOne(w: string)
    ensures Rest([w]) == Spaced(w)
    ensures Lone(w) <==> w == "." || w == "!" || w == "?"
  {
    assert [w][1..] == [] && Rest([]) == "";
    assert |w| == 1 ==> w == [w[0]];
  }

  /** The rebuilt sentence, one token after the other. */
  lemma RebuildSnoc(words: seq<string>, w: string)
    ensures Rebuild([]) == "" && Rebuild([w]) == w
    ensures words != [] ==> Rebuild(words + [w]) == Rebuild(words) + Spaced(w)
  {
    assert [w][1..] == [] && Rest([]) == "";
    if words != [] {
      RebuildConcat(words, [w]);
      RestOfOne(w);
    }
  }

  /** x behind the tokens a and in front of the tokens b. */
  lemma RebuildThree(a: seq<string>, x: string, b: seq<string>)
    ensures a != [] ==> Rebuild(a + [x] + b) == Rebuild(a) + Spaced(x) + Rest(b)
    ensures a == [] ==> Rebuild(a + [x] + b) == x + Rest(b)
  {
    hide Rebuild, Rest, Spaced;
    RebuildSnoc(a, x);
    RebuildConcat(a + [x], b);
    if a == [] {
      assert a + [x] == [x];
    }
  }

  /** The sentence in front of token x: the tokens a, and a blank unless x is a delimiter alone. */
  function Lead(a: seq<string>, x: string): string {
    if a == [] then "" else if Lone(x) then Rebuild(a) else Rebuild(a) + " "
  }

  lemma RebuildAround(a: seq<string>, x: string, b: seq<string>)
    ensures Rebuild(a + [x] + b) == Lead(a, x) + x + Rest(b)
    ensures Rebuild(a + [x]) == Lead(a, x) + x
  {
    hide Rebuild, Rest;
    RebuildThree(a, x, b);
    RebuildSnoc(a, x);
    RestOfOne(x);
    if a == [] {
      assert a + [x] == [x] && Lead(a, x) + x == x;
    } else {
      Regroup(Rebuild(a), " ", x);
    }
  }

  lemma InsertedBehind(a: string, x: string, b: string)
    ensures InsertedInto(a + x + b, a + b, |a|, x)
  {
    assert (a + b)[..|a|] == a && (a + b)[|a|..] == b;
  }

  /** The blank that merging text into token t puts in front of it. */
  function Gap(a: seq<string>, t: string, text: string): string {
    if a != [] && Lone(t) && text != "" then " " else ""
  }

  /** What the sentence gains, and where. A text that is taken in stands in front of the last character of the token,
      and moves it away from the token before when it was a delimiter alone. A text of its own stands behind the tokens
      in front of it, one blank away unless it is a delimiter; at the front it pushes the first token one blank away
      unless that is a delimiter. */
  ghost predicate SentenceGains(words: seq<string>, u: Update, now: string)
    requires Accepted(words, u)
  {
    var was, at, absorbed := Rebuild(words), u.index - 1, |Apply(words, u)| == |words|;
    var end := |Rebuild(words[..at])|;
    if words == [] then now == u.content
    else if at == 0 then InsertedInto(now, was, 0, u.content + if Lone(words[0]) then "" else " ")
    else if !absorbed then InsertedInto(now, was, end, Spaced(u.content))
    else InsertedInto(now, was, end - 1, Gap(words[..at - 1], words[at - 1], u.content) + u.content)
  }

  lemma LeadOfOne(text: string, x: string)
    ensures Lead([], x) == "" && Lead([text], x) == text + if Lone(x) then "" else " "
  {
    RebuildSnoc([], text);
    assert text + "" == text;
  }

  lemma InsertedInFront(x: string, b: string)
    ensures InsertedInto(x + b, "" + b, 0, x)
  {
  }

  lemma TextAtFront(words: seq<string>, text: string)
    requires words != []
    ensures var gap := if Lone(words[0]) then "" else " ";
            InsertedInto(Rebuild([text] + words), Rebuild(words), 0, text + gap)
  {
    var x, b, gap := words[0], words[1..], if Lone(words[0]) then "" else " ";
    assert [text] + words == [text] + [x] + b && words == [] + [x] + b;
    RebuildAround([text], x, b);
    RebuildAround([], x, b);
    LeadOfOne(text, x);
    hide *;
    Regroup(text + gap, x, Rest(b));
    Regroup("", x, Rest(b));
    InsertedInFront(text + gap, x + Rest(b));
  }

  lemma TextBehind(words: seq<string>, at: nat, text: string)
    requires 0 < at <= |words|
    ensures InsertedInto(Rebuild(InsertAt(words, at, text)), Rebuild(words), |Rebuild(words[..at])|, Spaced(text))
  {
    hide Rest, Rebuild, Spaced;
    var a, b := words[..at], words[at..];
    assert words == a + b;
    RebuildConcat(a, b);
    RebuildThree(a, text, b);
    InsertedBehind(Rebuild(a), Spaced(text), Rest(b));
  }

  lemma TextInside(a: seq<string>, t: string, b: seq<string>, text: string)
    requires t != ""
    ensures InsertedInto(Rebuild(a + [Merge(t, text)] + b), Rebuild(a + [t] + b), |Rebuild(a + [t])| - 1,
                         Gap(a, t, text) + text)
  {
    var m := Merge(t, text);
    RebuildAround(a, t, b);
    RebuildAround(a, m, b);
    LeadOfMerged(a, t, text);
    MergedParts(t, text);
    hide *;
    InsertedInside(Lead(a, t), t, m, Gap(a, t, text), text, Rest(b));
  }

  lemma MergedParts(t: string, text: string)
    requires t != ""
    ensures Merge(t, text) == t[..|t| - 1] + text + [t[|t| - 1]]
  {
  }

  /** A delimiter that is no longer alone moves one blank away. */
  lemma LeadOfMerged(a: seq<string>, t: string, text: string)
    requires t != ""
    ensures Lead(a, Merge(t, text)) == Lead(a, t) + Gap(a, t, text)
    ensures Gap(a, t, text) == "" || |t| == 1
  {
    hide Rebuild;
    var m := Merge(t, text);
    assert |m| == |t| + |text|;
    assert text == "" ==> m == t;
    assert Lead(a, t) + "" == Lead(a, t);
  }

  lemma InsertedInside(h: string, t: string, m: string, gap: string, text: string, rest: string)
    requires t != "" && m == t[..|t| - 1] + text + [t[|t| - 1]]
    requires gap == "" || |t| == 1
    ensures InsertedInto(h + gap + m + rest, h + t + rest, |h + t| - 1, gap + text)
  {
    var front, c := t[..|t| - 1], [t[|t| - 1]];
    InsertedBehind(h + front, gap + text, c + rest);
    assert t == front + c;
    assert h + t + rest == (h + front) + (c + rest);
    assert h + gap + m + rest == (h + front) + (gap + text) + (c + rest);
  }

  /** What the user sees: every accepted update puts its text into the sentence in one piece, and nothing else
      changes. */
  lemma InsertionInSentence(words: seq<string>, u: Update)
    requires Accepted(words, u)
    ensures SentenceGains(words, u, Rebuild(Apply(words, u)))
  {
    var at := u.index - 1;
    if Merges(words, u) {
      var a, t, b := words[..at - 1], words[at - 1], words[at..];
      assert words == a + [t] + b && words[..at] == a + [t];
      assert Apply(words, u) == a + [Merge(t, u.content)] + b;
      hide Rebuild, Merge, Lone, Gap;
      TextInside(a, t, b, u.content);
    } else if words == [] {
      assert Apply(words, u) == [u.content];
      RebuildSnoc([], u.content);
    } else if at == 0 {
      assert Apply(words, u) == [u.content] + words;
      hide Rebuild, Spaced, Lone;
      TextAtFront(words, u.content);
    } else {
      hide Rebuild, Spaced, Lone;
      TextBehind(words, at, u.content);
    }
  }

  /** With "Wow!" in front of them, a text for position 2 of "Hello world" does not stand between "Wow!" and "Hello":
      it goes into "Wow!". */
  lemma MergesIntoTokenBefore()
    ensures Apply(["Wow!", "Hello", "world"], Update(2, "x")) == ["Wowx!", "Hello", "world"]
  {
    var words, u := ["Wow!", "Hello", "world"], Update(2, "x");
    var r := Apply(words, u);
    InsertionByCases(words, u);
    hide Apply;
    assert r == [r[0], r[1], r[2]];
    assert "Wow!"[..3] + "x" + "Wow!"[3..] == "Wowx!";
  }
}
