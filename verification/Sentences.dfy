/** parse_sentences and the rejoining loop of the storage server (storage_server/storage_server.c). */
module Sentences {
  import opened Text

  const MAX_SENTENCES := 1000

  // ------------------------------------------------------------------- splitting

  /** Position of the first sentence delimiter, or |s|. */
  function FirstDelimiter(s: string): (n: nat)
    ensures n <= |s|
  {
    if s == "" || IsDelimiter(s[0]) then 0 else 1 + FirstDelimiter(s[1..])
  }

  /** s without its leading ' ' characters. */
  function SkipSpaces(s: string): (r: string)
    ensures |r| <= |s|
    ensures r != "" ==> r[0] != ' '
  {
    if s != "" && s[0] == ' ' then SkipSpaces(s[1..]) else s
  }

  /** The sentences of a text: each ends with its first delimiter; the blanks after a delimiter are dropped;
      what follows the last delimiter is one more sentence. */
  function Split(s: string): seq<string>
    decreases |s|
  {
    if s == "" then []
    else
      var d := FirstDelimiter(s);
      if d == |s| then [s] else [s[..d + 1]] + Split(SkipSpaces(s[d + 1..]))
  }

  /** A sentence that is complete: its only delimiter is its last character. */
  predicate Terminated(t: string) {
    t != "" && FirstDelimiter(t) == |t| - 1
  }

  /** The list shape parse_sentences produces. */
  ghost predicate WellFormed(ss: seq<string>) {
    && (forall i :: 0 <= i < |ss| ==> ss[i] != "" && |ss[i]| - 1 <= FirstDelimiter(ss[i]))
    && (forall i :: 0 <= i < |ss| - 1 ==> Terminated(ss[i]))
    && (forall i :: 0 < i < |ss| ==> ss[i] != "" && ss[i][0] != ' ')
  }

  /** FirstDelimiter(s) is the one position with no delimiter before it that holds one or ends s. */
  lemma {:induction false} FirstDelimiterIs(s: string, n: nat)
    ensures FirstDelimiter(s) == n <==>
            n <= |s| && (forall i :: 0 <= i < n ==> !IsDelimiter(s[i])) && (n < |s| ==> IsDelimiter(s[n]))
  {
    if s != "" && !IsDelimiter(s[0]) && n > 0 {
      FirstDelimiterIs(s[1..], n - 1);
      assert n <= |s| ==> forall i :: 1 <= i < n ==> s[i] == s[1..][i - 1];
    }
  }

  lemma TakeThroughDelimiter(s: string)
    requires FirstDelimiter(s) < |s|
    ensures Terminated(s[..FirstDelimiter(s) + 1])
  {
    hide FirstDelimiter;
    var d := FirstDelimiter(s);
    FirstDelimiterIs(s, d);
    FirstDelimiterIs(s[..d + 1], d);
  }

  lemma {:induction false} SplitHead(s: string)
    requires s != "" && s[0] != ' '
    ensures Split(s) != [] && Split(s)[0] != "" && Split(s)[0][0] != ' '
  {
  }

  lemma WellFormedCons(t: string, ss: seq<string>)
    requires Terminated(t) && WellFormed(ss)
    requires ss != [] ==> ss[0] != "" && ss[0][0] != ' '
    ensures WellFormed([t] + ss)
  {
  }

  /** Every list parse_sentences produces is well formed. */
  lemma {:induction false} SplitIsWellFormed(s: string)
    ensures WellFormed(Split(s))
    decreases |s|
  {
    var d := FirstDelimiter(s);
    if s != "" && d < |s| {
      TakeThroughDelimiter(s);
      var r := SkipSpaces(s[d + 1..]);
      SplitIsWellFormed(r);
      if r != "" {
        SplitHead(r);
      }
      WellFormedCons(s[..d + 1], Split(r));
    }
  }

  /** The blanks that splitting skips. */
  lemma {:induction false} SkippedBlanks(s: string) returns (k: nat)
    ensures k <= |s| && SkipSpaces(s) == s[k..] && forall i :: 0 <= i < k ==> s[i] == ' '
  {
    k := 0;
    if s != "" && s[0] == ' ' {
      k := SkippedBlanks(s[1..]);
      assert s[1..][k..] == s[k + 1..];
      k := k + 1;
    }
  }

  lemma SplitStep(s: string)
    requires s != ""
    ensures var d := FirstDelimiter(s);
            Split(s) == if d == |s| then [s] else [s[..d + 1]] + Split(SkipSpaces(s[d + 1..]))
  {
  }

  lemma SplitOfEmpty()
    ensures Split("") == []
  {
  }

  lemma FirstDelimiterStep(s: string, p: nat)
    requires p < |s|
    ensures FirstDelimiter(s[p..]) == if IsDelimiter(s[p]) then 0 else 1 + FirstDelimiter(s[p + 1..])
  {
    assert s[p..][1..] == s[p + 1..];
  }

  /** The sentence that starts at `start` ends at p: at its first delimiter, or at the end of the text. */
  lemma SplitAt(s: string, start: nat, p: nat)
    requires start <= p <= |s| && start < |s| && FirstDelimiter(s[start..]) == p - start
    ensures p == |s| ==> Split(s[start..]) == [s[start..]]
    ensures p < |s| ==> Split(s[start..]) == [s[start..p + 1]] + Split(SkipSpaces(s[p + 1..]))
  {
    hide Split, FirstDelimiter, SkipSpaces;
    SplitStep(s[start..]);
    if p < |s| {
      var r, n := s[start..], p - start;
      assert r[..n + 1] == s[start..p + 1];
      assert r[n + 1..] == s[p + 1..];
    }
  }

  lemma SplitAfter(s: string, start: nat, p: nat, sofar: seq<string>)
    requires start <= p < |s| && FirstDelimiter(s[start..]) == p - start
    ensures (sofar + [s[start..p + 1]]) + Split(SkipSpaces(s[p + 1..])) == sofar + Split(s[start..])
  {
    SplitAt(s, start, p);
    var one, rest := [s[start..p + 1]], Split(SkipSpaces(s[p + 1..]));
    assert sofar + (one + rest) == (sofar + one) + rest;
  }

  /** Writes one more entry behind the first `count`. */
  method Store(a: array<string>, count: nat, s: string)
    requires count < a.Length
    modifies a
    ensures a[..count + 1] == old(a[..count]) + [s]
  {
    a[count] := s;
  }

  method AfterSpaces(content: string, from: nat) returns (start: nat)
    requires from <= |content|
    ensures from <= start <= |content| && content[start..] == SkipSpaces(content[from..])
  {
    start := from;
    while start < |content| && content[start] == ' '
      invariant from <= start <= |content|
      invariant SkipSpaces(content[start..]) == SkipSpaces(content[from..])
    {
      assert content[start..][1..] == content[start + 1..];
      start := start + 1;
    }
  }

  /** parse_sentences: `start` marks the sentence being read, `p` scans for its end. */
  method ParseSentences(content: string) returns (sentences: array<string>, count: nat)
    requires |Split(content)| <= MAX_SENTENCES
    ensures fresh(sentences) && count <= sentences.Length
    ensures sentences[..count] == Split(content)
  {
    hide Split, SkipSpaces, FirstDelimiter;
    SplitOfEmpty();
    if content == "" {
      sentences := new string[0];
      return sentences, 0;
    }
    sentences := new string[MAX_SENTENCES];
    count := 0;
    var start, p := 0, 0;
    ghost var sofar: seq<string> := [];
    while p < |content|
      invariant 0 <= start <= p <= |content|
      invariant count <= sentences.Length == MAX_SENTENCES
      invariant FirstDelimiter(content[start..]) == p - start + FirstDelimiter(content[p..])
      invariant sofar == sentences[..count] && sofar + Split(content[start..]) == Split(content)
      decreases |content| - p
    {
      if IsDelimiter(content[p]) {
        FirstDelimiterStep(content, p);
        SplitAfter(content, start, p, sofar);
        Store(sentences, count, content[start..p + 1]);
        sofar := sentences[..count + 1];
        count := count + 1;
        start := AfterSpaces(content, p + 1);
        p := start;
      } else {
        FirstDelimiterStep(content, p);
        p := p + 1;
      }
    }
    assert p == |content|;
    if start == p {
      assert content[start..] == "" && sofar + [] == sofar;
    }
    if start < p {
      SplitAt(content, start, p);
      Store(sentences, count, content[start..]);
      count := count + 1;
    }
  }

  // ------------------------------------------------- what a split is, without its recursion

  /** The text starts with the sentence, and up to position k there are only blanks behind it, behind a delimiter if
      any. */
  predicate StartsWith(s: string, t: string, k: nat) {
    && t <= s && |t| <= k <= |s|
    && (forall i :: |t| <= i < k ==> s[i] == ' ')
    && (|t| < k ==> EndsInDelimiter(t))
  }

  /** The text is the sentences one after the other, with nothing between them but blanks behind delimiters. */
  ghost predicate StandIn(ss: seq<string>, s: string)
    decreases |ss|
  {
    if ss == [] then s == "" else exists k: nat :: StartsWith(s, ss[0], k) && StandIn(ss[1..], s[k..])
  }

  lemma {:induction false} SplitStandsIn(s: string)
    ensures StandIn(Split(s), s)
    decreases |s|
  {
    var d := FirstDelimiter(s);
    hide FirstDelimiter, SkipSpaces, StandIn;
    if s == "" {
      NothingStands("");
    } else if d == |s| {
      NothingStands("");
      assert s[|s|..] == "" && [s] + [] == [s];
      StandsFirst(s, s, [], |s|);
    } else {
      var t := s[..d + 1];
      var k := SkippedBlanks(s[d + 1..]);
      assert s[d + 1..][k..] == s[d + 1 + k..];
      TakeThroughDelimiter(s);
      EndOfTerminated(t);
      SplitStandsIn(s[d + 1 + k..]);
      assert forall i :: d + 1 <= i < d + 1 + k ==> s[i] == s[d + 1..][i - d - 1];
      StandsFirst(s, t, Split(s[d + 1 + k..]), d + 1 + k);
    }
  }

  lemma NothingStands(s: string)
    ensures StandIn([], s) <==> s == ""
  {
  }

  lemma StandsFirst(s: string, t: string, ss: seq<string>, k: nat)
    requires StartsWith(s, t, k) && StandIn(ss, s[k..])
    ensures StandIn([t] + ss, s)
  {
    assert ([t] + ss)[1..] == ss;
  }

  lemma EndOfTerminated(t: string)
    requires Terminated(t)
    ensures EndsInDelimiter(t)
  {
    FirstDelimiterIs(t, |t| - 1);
  }

  /** Skipping the blanks up to a text that has none in front skips exactly those. */
  lemma {:induction false} SkipTo(s: string, k: nat)
    requires k <= |s| && (forall i :: 0 <= i < k ==> s[i] == ' ') && (k < |s| ==> s[k] != ' ')
    ensures SkipSpaces(s) == s[k..]
  {
    if k > 0 {
      SkipTo(s[1..], k - 1);
      assert s[1..][k - 1..] == s[k..];
    }
  }

  lemma StandsAtFront(ss: seq<string>, s: string)
    requires StandIn(ss, s) && ss != [] && ss[0] != ""
    ensures s != "" && s[0] == ss[0][0]
  {
  }

  lemma BlanksBehind(s: string, t: string, k: nat)
    requires StartsWith(s, t, k) && (k < |s| ==> s[k] != ' ')
    ensures s == t + s[|t|..] && SkipSpaces(s[|t|..]) == s[k..]
  {
    var n := |t|;
    assert s[n..][k - n..] == s[k..];
    SkipTo(s[n..], k - n);
  }

  /** The first sentence of a text that starts with a complete one. */
  lemma SplitBehind(s: string, t: string, k: nat)
    requires Terminated(t) && StartsWith(s, t, k) && (k < |s| ==> s[k] != ' ')
    ensures Split(s) == [t] + Split(s[k..])
  {
    BlanksBehind(s, t, k);
    hide Split, FirstDelimiter, SkipSpaces, StartsWith;
    FirstDelimiterOfConcat(t, s[|t|..]);
    SplitStep(s);
    assert s[..|t|] == t;
  }

  /** A text without a delimiter but blanks behind it is one sentence, blanks included. */
  lemma SplitOfOpen(s: string, t: string, k: nat)
    requires t != "" && FirstDelimiter(t) == |t| && StartsWith(s, t, k) && k == |s|
    ensures s == t && Split(s) == [t]
  {
    FirstDelimiterIs(t, |t|);
  }

  /** The split of a text is the one well-formed list of sentences that the text consists of. */
  lemma {:induction false} SplitIsTheOne(s: string, ss: seq<string>)
    requires WellFormed(ss) && StandIn(ss, s)
    ensures Split(s) == ss
    decreases |ss|
  {
    if ss == [] {
      SplitOfEmpty();
    } else {
      var t, rest := ss[0], ss[1..];
      var k: nat :| StartsWith(s, t, k) && StandIn(rest, s[k..]);
      WellFormedTail(ss);
      SplitIsTheOne(s[k..], rest);
      hide StandIn, Split, FirstDelimiter, StartsWith, WellFormed;
      assert ss == [t] + rest;
      if Terminated(t) {
        if rest == [] {
          NothingStands(s[k..]);
        } else {
          StandsAtFront(rest, s[k..]);
        }
        assert k < |s| ==> s[k] == s[k..][0];
        SplitBehind(s, t, k);
      } else {
        NothingStands(s[k..]);
        SplitOfOpen(s, t, k);
      }
    }
  }

  lemma WellFormedTail(ss: seq<string>)
    requires WellFormed(ss) && ss != []
    ensures WellFormed(ss[1..]) && ss[0] != ""
    ensures |ss| > 1 ==> Terminated(ss[0]) && ss[1..][0] != "" && ss[1..][0][0] != ' '
    ensures !Terminated(ss[0]) ==> FirstDelimiter(ss[0]) == |ss[0]|
  {
  }

  // --------------------------------------------------------------------- joining

  /** The rebuild loop from the text accumulated so far: a separator is written only once some text is there. */
  function Glue(acc: string, ss: seq<string>): string
    decreases |ss|
  {
    if ss == [] then acc
    else Glue(if |acc| > 0 then acc + " " + ss[0] else acc + ss[0], ss[1..])
  }

  function Join(ss: seq<string>): string {
    Glue("", ss)
  }

  method JoinSentences(sentences: array<string>, count: nat) returns (content: string)
    requires count <= sentences.Length
    ensures content == Join(sentences[..count])
  {
    content := "";
    assert sentences[0..count] == sentences[..count];
    for i := 0 to count
      invariant i == 0 ==> content == ""
      invariant Glue(content, sentences[i..count]) == Join(sentences[..count])
    {
      assert sentences[i..count][1..] == sentences[i + 1..count];
      if i > 0 && |content| > 0 {
        content := content + " ";
      }
      content := content + sentences[i];
    }
  }

  /** What Glue appends to a text that is not empty. */
  function Tails(ss: seq<string>): string {
    if ss == [] then "" else " " + ss[0] + Tails(ss[1..])
  }

  lemma {:induction false} GlueIsAppend(acc: string, ss: seq<string>)
    requires acc != ""
    ensures Glue(acc, ss) == acc + Tails(ss)
    decreases |ss|
  {
    if ss == [] {
    } else {
      GlueIsAppend(acc + " " + ss[0], ss[1..]);
      assert acc + " " + ss[0] + Tails(ss[1..]) == acc + (" " + ss[0] + Tails(ss[1..]));
    }
  }

  lemma JoinCons(s: string, ss: seq<string>)
    requires s != ""
    ensures Join([s] + ss) == s + Tails(ss)
  {
    assert ([s] + ss)[1..] == ss;
    assert "" + s == s;
    GlueIsAppend(s, ss);
  }

  lemma JoinTwo(s: string, ss: seq<string>)
    requires s != "" && ss != [] && ss[0] != ""
    ensures Join([s] + ss) == s + " " + Join(ss)
  {
    JoinCons(s, ss);
    JoinCons(ss[0], ss[1..]);
    assert ss == [ss[0]] + ss[1..];
    hide Join;
    Regroup(" ", ss[0], Tails(ss[1..]));
    Regroup(s, " ", ss[0] + Tails(ss[1..]));
  }

  lemma {:induction false} GlueSnoc(acc: string, ss: seq<string>, t: string)
    ensures var g := Glue(acc, ss); Glue(acc, ss + [t]) == if g == "" then t else g + " " + t
    decreases |ss|
  {
    if ss == [] {
      assert ([] + [t])[1..] == [] && "" + t == t;
    } else {
      assert (ss + [t])[0] == ss[0] && (ss + [t])[1..] == ss[1..] + [t];
      GlueSnoc(if |acc| > 0 then acc + " " + ss[0] else acc + ss[0], ss[1..], t);
    }
  }

  /** One more sentence stands one blank behind the text so far, or opens the text if there is none so far. */
  lemma JoinSnoc(ss: seq<string>, t: string)
    ensures Join([]) == ""
    ensures Join(ss + [t]) == if Join(ss) == "" then t else Join(ss) + " " + t
  {
    GlueSnoc("", ss, t);
  }

  // ------------------------------------------------------- splitting against joining

  lemma {:induction false} FirstDelimiterOfConcat(t: string, r: string)
    requires FirstDelimiter(t) < |t|
    ensures FirstDelimiter(t + r) == FirstDelimiter(t)
  {
    if !IsDelimiter(t[0]) {
      FirstDelimiterOfConcat(t[1..], r);
      assert (t + r)[1..] == t[1..] + r;
    }
  }

  lemma SplitTerminated(t: string, r: string)
    requires Terminated(t) && (r != "" ==> r[0] != ' ')
    ensures Split(t + " " + r) == [t] + Split(r)
    ensures Split(t) == [t]
  {
    EndOfTerminated(t);
    hide Split, FirstDelimiter, SkipSpaces, EndsInDelimiter;
    SplitBehind(t + " " + r, t, |t| + 1);
    assert (t + " " + r)[|t| + 1..] == r;
    SplitBehind(t, t, |t|);
    assert t[|t|..] == "";
    SplitOfEmpty();
  }

  /** Parsing the joined form of a well-formed list gives the list back. */
  lemma {:induction false} SplitOfJoin(ss: seq<string>)
    requires WellFormed(ss)
    ensures Split(Join(ss)) == ss
    decreases |ss|
  {
    if ss != [] {
      var t, rest := ss[0], ss[1..];
      assert ss == [t] + rest;
      if rest == [] {
        JoinCons(t, []);
        assert [t] + [] == ss && t + Tails([]) == t;
        if FirstDelimiter(t) < |t| {
          SplitTerminated(t, "");
        }
      } else {
        JoinTwo(t, rest);
        JoinCons(rest[0], rest[1..]);
        assert rest == [rest[0]] + rest[1..];
        assert forall i :: 0 <= i < |rest| ==> rest[i] == ss[i + 1];
        SplitTerminated(t, Join(rest));
        SplitOfJoin(rest);
      }
    }
  }

  /** The stored form of a text: its sentences, one blank apart. */
  function Normalise(s: string): string {
    Join(Split(s))
  }

  lemma NormaliseIsIdempotent(s: string)
    ensures Split(Normalise(s)) == Split(s)
    ensures Normalise(Normalise(s)) == Normalise(s)
  {
    SplitIsWellFormed(s);
    SplitOfJoin(Split(s));
  }

  // ------------------------------------------------------------ what stays of the text

  lemma {:induction false} SolidOfSkip(s: string)
    ensures Solid(SkipSpaces(s)) == Solid(s)
  {
    if s != "" && s[0] == ' ' {
      SolidOfSkip(s[1..]);
    }
  }

  lemma {:induction false} SolidOfSplit(s: string)
    ensures Solid(Flatten(Split(s))) == Solid(s)
    decreases |s|
  {
    var d := FirstDelimiter(s);
    if s == "" {
    } else if d == |s| {
      FlattenOne(s);
    } else {
      var t, r := s[..d + 1], SkipSpaces(s[d + 1..]);
      SolidOfSplit(r);
      SolidOfSkip(s[d + 1..]);
      assert ([t] + Split(r))[1..] == Split(r);
      SolidConcat(t, Flatten(Split(r)));
      assert s == t + s[d + 1..];
      SolidConcat(t, s[d + 1..]);
    }
  }

  lemma SolidOfGlueStep(acc: string, s: string)
    ensures Solid(if |acc| > 0 then acc + " " + s else acc + s) == Solid(acc) + Solid(s)
  {
    assert Solid(" ") == "" by { assert " "[1..] == ""; }
    hide Solid;
    SolidConcat(acc, s);
    SolidConcat(acc + " ", s);
    SolidConcat(acc, " ");
    assert Solid(acc) + "" == Solid(acc);
  }

  lemma {:induction false} SolidOfGlue(acc: string, ss: seq<string>)
    ensures Solid(Glue(acc, ss)) == Solid(acc) + Solid(Flatten(ss))
    decreases |ss|
  {
    if ss == [] {
      assert Solid(acc) + "" == Solid(acc);
    } else {
      var next, rest := if |acc| > 0 then acc + " " + ss[0] else acc + ss[0], Flatten(ss[1..]);
      assert Flatten(ss) == ss[0] + rest && Glue(acc, ss) == Glue(next, ss[1..]);
      hide Solid, Flatten, Glue;
      SolidOfGlueStep(acc, ss[0]);
      SolidOfGlue(next, ss[1..]);
      SolidConcat(ss[0], rest);
      Regroup(Solid(acc), Solid(ss[0]), Solid(rest));
    }
  }

  /** Joining writes every character of the sentences, in order, and adds only blanks. */
  lemma SolidOfJoin(ss: seq<string>)
    ensures Solid(Join(ss)) == Solid(Flatten(ss))
  {
    SolidOfGlue("", ss);
  }

  /** Storing a text in its normal form changes only its blanks. */
  lemma NormaliseKeepsText(s: string)
    ensures Solid(Normalise(s)) == Solid(s)
  {
    SolidOfJoin(Split(s));
    SolidOfSplit(s);
  }

  lemma InkOfSplitAndJoin(s: string, ss: seq<string>)
    ensures Ink(Flatten(Split(s))) == Ink(s)
    ensures Ink(Join(ss)) == Ink(Flatten(ss))
  {
    SolidOfSplit(s);
    SolidOfJoin(ss);
    InkOfSolid(s);
    InkOfSolid(Flatten(Split(s)));
    InkOfSolid(Join(ss));
    InkOfSolid(Flatten(ss));
  }
}
