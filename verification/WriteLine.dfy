/** The line parser of the client's WRITE command (client/client.c: execute_write, is_int_str): a typed line becomes
    update messages and, at the word ETIRW, one finish message. */
module WriteLine {
  import opened Text
  import opened CString

  /** What goes to the storage server: the index in arg1 and the text in data. */
  datatype Message = Message(arg1: int, data: string)

  const FINISH := "ETIRW"
  const FINISH_MESSAGE := Message(0, FINISH)

  /** is_int_str. */
  predicate IsIntStr(s: string) {
    s != "" && IsDigits(s)
  }

  // -------------------------------------------------------------------------------- the parser

  predicate OccursAt(s: string, pat: string, i: nat) {
    i + |pat| <= |s| && s[i..i + |pat|] == pat
  }

  predicate Contains(s: string, pat: string) {
    exists i: nat :: i <= |s| && OccursAt(s, pat, i)
  }

  /** strstr: the first occurrence at or after i, or |s| + 1. */
  function FindFrom(s: string, pat: string, i: nat): (r: nat)
    ensures i <= |s| ==> r <= |s| + 1
    ensures r <= |s| ==> i <= r && OccursAt(s, pat, r)
    ensures forall k :: i <= k < r && k <= |s| ==> !OccursAt(s, pat, k)
    decreases |s| + 1 - i
  {
    if i > |s| then |s| + 1 else if OccursAt(s, pat, i) then i else FindFrom(s, pat, i + 1)
  }

  /** The state of the token loop: messages sent, whether an index was seen, the index, the text collected for it. */
  datatype Pending = Pending(sent: seq<Message>, haveIdx: bool, idx: int, content: string)

  function Flush(p: Pending): seq<Message> {
    if p.haveIdx && p.content != "" then p.sent + [Message(p.idx, p.content)] else p.sent
  }

  function TakeToken(p: Pending, tok: string): Pending {
    if IsIntStr(tok) then Pending(Flush(p), true, Atoi(tok), if p.haveIdx then "" else p.content)
    else if p.haveIdx then p.(content := if p.content != "" then p.content + " " + tok else tok)
    else p
  }

  function TakeTokens(p: Pending, toks: seq<string>): Pending
    decreases |toks|
  {
    if toks == [] then p else TakeTokens(TakeToken(p, toks[0]), toks[1..])
  }

  const NOTHING := Pending([], false, -1, "")

  /** The part of the line in front of ETIRW, without trailing white space; the whole line if there is none. */
  function Body(input: string): string {
    var at := FindFrom(input, FINISH, 0);
    if at <= |input| then TrimRight(input[..at]) else input
  }

  predicate Finishes(input: string) {
    FindFrom(input, FINISH, 0) <= |input|
  }

  /** All messages one line makes the client send. */
  function Messages(input: string): seq<Message> {
    Flush(TakeTokens(NOTHING, Fields(Body(input), ' '))) + if Finishes(input) then [FINISH_MESSAGE] else []
  }

  lemma TokensStep(p: Pending, tok: string, rest: seq<string>)
    ensures TakeTokens(p, [tok] + rest) == TakeTokens(TakeToken(p, tok), rest)
  {
    assert ([tok] + rest)[1..] == rest;
  }

  lemma TokensEnd(p: Pending)
    ensures TakeTokens(p, []) == p
  {
  }

  lemma BodyHasNoFinish(input: string)
    ensures !Contains(Body(input), FINISH)
  {
    var at := FindFrom(input, FINISH, 0);
    if at <= |input| {
      var k := TrimRightParts(input[..at]);
      assert Body(input) == input[..k] by {
        assert input[..at][..k] == input[..k];
      }
      assert input[0..k] == input[..k];
      forall i: nat | i <= k
        ensures !OccursAt(input[..k], FINISH, i)
      {
        if i + |FINISH| <= k {
          assert !OccursAt(input, FINISH, i);
          SliceOfSlice(input, 0, k, i, i + |FINISH|);
        }
      }
    }
  }

  lemma {:induction false} FieldsHaveNoOccurrence(s: string, pat: string)
    requires !Contains(s, pat)
    ensures forall i :: 0 <= i < |Fields(s, ' ')| ==> !Contains(Fields(s, ' ')[i], pat)
    decreases |s|
  {
    if s == "" {
    } else if s[0] == ' ' {
      SliceHasNoOccurrence(s, 1, |s|, pat);
      assert s[1..|s|] == s[1..];
      FieldsHaveNoOccurrence(s[1..], pat);
    } else {
      var n := RunLength(s, ' ');
      SliceHasNoOccurrence(s, 0, n, pat);
      SliceHasNoOccurrence(s, n, |s|, pat);
      assert s[n..|s|] == s[n..] && s[0..n] == s[..n];
      FieldsHaveNoOccurrence(s[n..], pat);
    }
  }

  lemma SliceOfSlice(s: string, lo: nat, hi: nat, i: nat, j: nat)
    requires lo <= hi <= |s| && i <= j <= hi - lo
    ensures s[lo..hi][i..j] == s[lo + i..lo + j]
  {
    assert forall k :: 0 <= k < j - i ==> s[lo..hi][i..j][k] == s[lo + i..lo + j][k];
  }

  /** An occurrence of ETIRW starts with an E and covers no blank. */
  lemma OccurrenceLetters(s: string, i: nat, p: nat)
    requires OccursAt(s, FINISH, i) && i <= p < i + |FINISH|
    ensures s[p] != ' ' && s[i] == 'E'
  {
    var cut := s[i..i + |FINISH|];
    assert s[p] == cut[p - i] == FINISH[p - i] && s[i] == cut[0];
  }

  lemma SliceHasNoOccurrence(s: string, lo: nat, hi: nat, pat: string)
    requires lo <= hi <= |s| && !Contains(s, pat)
    ensures !Contains(s[lo..hi], pat)
  {
    forall i: nat | i <= hi - lo
      ensures !OccursAt(s[lo..hi], pat, i)
    {
      assert !OccursAt(s, pat, lo + i);
      if i + |pat| <= hi - lo {
        SliceOfSlice(s, lo, hi, i, i + |pat|);
      }
    }
  }

  /** strstr(input, "ETIRW"). */
  method FindFinish(input: string) returns (at: nat)
    ensures at == FindFrom(input, FINISH, 0)
  {
    at := 0;
    while at <= |input| && !OccursAt(input, FINISH, at)
      invariant at <= |input| + 1 && FindFrom(input, FINISH, at) == FindFrom(input, FINISH, 0)
    {
      at := at + 1;
    }
  }

  /** The token loop. With ETIRW cut off, its own test for that word never succeeds. */
  method TakeLine(buf: string) returns (p: Pending)
    requires !Contains(buf, FINISH)
    ensures p == TakeTokens(NOTHING, Fields(buf, ' '))
  {
    hide Fields, TakeTokens, TakeToken, Contains;
    FieldsHaveNoOccurrence(buf, FINISH);
    ghost var all := Fields(buf, ' ');
    p := NOTHING;
    assert buf[0..] == buf;
    var found, tok, next := NextField(buf, 0, ' ');
    ghost var from, seen := 0, 0;
    while found
      invariant 0 <= from <= next <= |buf| && (found ==> from < next) && seen <= |all|
      invariant Fields(buf[from..], ' ') == all[seen..]
      invariant all[seen..] == if found then [tok] + Fields(buf[next..], ' ') else []
      invariant TakeTokens(p, all[seen..]) == TakeTokens(NOTHING, all)
      decreases |buf| - from
    {
      assert tok == all[seen..][0] == all[seen];
      assert Fields(buf[next..], ' ') == all[seen..][1..] == all[seen + 1..];
      TokensStep(p, tok, all[seen + 1..]);
      WholeIsOccurrence(tok);
      if tok == FINISH {
        assert false;
      }
      p := Accept(p, tok);
      from, seen := next, seen + 1;
      found, tok, next := NextField(buf, next, ' ');
    }
    TokensEnd(p);
  }

  /** The body of the client's input loop for one line. */
  method ParseInput(input: string) returns (sent: seq<Message>)
    ensures sent == Messages(input)
  {
    hide Fields, TakeTokens, FindFrom, Contains, OccursAt, TrimRight;
    var at := FindFinish(input);
    var finishNow := false;
    var buf := input;
    if at <= |input| {
      finishNow := true;
      buf := TrimEnd(input[..at]);
    }
    BodyHasNoFinish(input);
    var p := TakeLine(buf);
    sent := p.sent;
    if p.haveIdx && p.content != "" {
      sent := sent + [Message(p.idx, p.content)];
    }
    if finishNow {
      sent := sent + [FINISH_MESSAGE];
    } else {
      assert sent + [] == sent;
    }
  }

  /** One turn of the token loop: a number flushes the text collected so far, other words extend it. */
  method Accept(p: Pending, tok: string) returns (r: Pending)
    ensures r == TakeToken(p, tok)
  {
    var sent, haveIdx, idx, content := p.sent, p.haveIdx, p.idx, p.content;
    if IsIntStr(tok) {
      if haveIdx && content != "" {
        sent := sent + [Message(idx, content)];
        content := "";
      }
      idx := Atoi(tok);
      haveIdx := true;
    } else if haveIdx {
      if content != "" {
        content := content + " ";
      }
      content := content + tok;
      assert p.content == "" ==> "" + tok == tok;
    }
    r := Pending(sent, haveIdx, idx, content);
  }

  /** Cuts the white space in front of the end of the text. */
  method TrimEnd(s: string) returns (r: string)
    ensures r == TrimRight(s)
  {
    var end := |s|;
    assert s[..end] == s;
    while end > 0 && IsSpace(s[end - 1])
      invariant 0 <= end <= |s| && TrimRight(s[..end]) == TrimRight(s)
    {
      assert s[..end][end - 1] == s[end - 1] && s[..end][..end - 1] == s[..end - 1];
      end := end - 1;
    }
    r := s[..end];
  }

  lemma WholeIsOccurrence(tok: string)
    ensures tok == FINISH ==> Contains(tok, FINISH)
  {
    if tok == FINISH {
      assert tok[0..0 + |FINISH|] == FINISH;
      assert OccursAt(tok, FINISH, 0);
    }
  }

  // ------------------------------------------------------------------- what any line sends

  /** What the token loop takes as text. */
  predicate IsText(w: string) {
    w != "" && !IsIntStr(w)
  }

  ghost predicate AllText(ws: seq<string>) {
    forall k :: 0 <= k < |ws| ==> IsText(ws[k])
  }

  /** A number of a line with the words up to the next one. */
  datatype Group = Group(number: string, words: seq<string>)

  ghost predicate AreGroups(gs: seq<Group>) {
    forall i :: 0 <= i < |gs| ==> IsIntStr(gs[i].number) && AllText(gs[i].words)
  }

  function GroupFields(gs: seq<Group>): seq<string> {
    if gs == [] then [] else [gs[0].number] + gs[0].words + GroupFields(gs[1..])
  }

  /** The message of a group, if it has words. */
  function GroupUpdate(g: Group): seq<Message> {
    if g.words == [] then [] else [Message(Atoi(g.number), JoinWith(g.words, ' '))]
  }

  function GroupUpdates(gs: seq<Group>): seq<Message> {
    if gs == [] then [] else GroupUpdate(gs[0]) + GroupUpdates(gs[1..])
  }

  lemma {:induction false} TakeWords(p: Pending, words: seq<string>, done: seq<string>)
    requires p.haveIdx && p.content == JoinWith(done, ' ')
    requires (forall k :: 0 <= k < |done| ==> done[k] != "") && AllText(words)
    ensures TakeTokens(p, words) == p.(content := JoinWith(done + words, ' '))
    decreases |words|
  {
    hide JoinWith, IsIntStr, IsText, Flush, Atoi;
    if words == [] {
      assert done + words == done;
    } else {
      var w := words[0];
      TextIsWord(w);
      if done == [] {
        assert done + [w] == [w];
        JoinOfOne(w);
      } else {
        JoinWithConcat(done, [w], ' ');
        JoinOfOne(w);
        JoinNotEmpty(done);
      }
      TakeWords(TakeToken(p, w), words[1..], done + [w]);
      assert done + [w] + words[1..] == done + words;
    }
  }

  lemma TextIsWord(w: string)
    requires IsText(w)
    ensures w != "" && !IsIntStr(w)
  {
  }

  lemma JoinOfOne(w: string)
    ensures JoinWith([w], ' ') == w && JoinWith([], ' ') == ""
  {
  }

  lemma JoinNotEmpty(fs: seq<string>)
    requires fs != [] && fs[0] != ""
    ensures JoinWith(fs, ' ') != ""
  {
  }

  lemma {:induction false} TakeTokensConcat(p: Pending, a: seq<string>, b: seq<string>)
    ensures TakeTokens(p, a + b) == TakeTokens(TakeTokens(p, a), b)
    decreases |a|
  {
    if a == [] {
      assert a + b == b;
    } else {
      assert (a + b)[1..] == a[1..] + b;
      TakeTokensConcat(TakeToken(p, a[0]), a[1..], b);
    }
  }

  /** From any state, the fields of the groups first flush what was pending and then send one message per group. */
  lemma {:induction false} TakeGroups(p: Pending, gs: seq<Group>)
    requires AreGroups(gs) && (!p.haveIdx ==> p.content == "")
    ensures Flush(TakeTokens(p, GroupFields(gs))) == Flush(p) + GroupUpdates(gs)
    decreases |gs|
  {
    hide TakeTokens, TakeToken, Flush, IsIntStr, AllText, JoinWith, Atoi;
    if gs == [] {
      TokensEnd(p);
      assert Flush(p) + [] == Flush(p);
    } else {
      var number, words, rest := gs[0].number, gs[0].words, GroupFields(gs[1..]);
      var started := Pending(Flush(p), true, Atoi(number), "");
      var filled := started.(content := JoinWith(words, ' '));
      StartGroup(p, number, words + rest);
      FillGroup(started, words, rest);
      TakeGroups(filled, gs[1..]);
      FlushGroup(started, gs[0]);
      assert GroupFields(gs) == [number] + (words + rest);
      Regroup(Flush(p), GroupUpdate(gs[0]), GroupUpdates(gs[1..]));
    }
  }

  lemma StartGroup(p: Pending, number: string, toks: seq<string>)
    requires IsIntStr(number) && (!p.haveIdx ==> p.content == "")
    ensures TakeTokens(p, [number] + toks) == TakeTokens(Pending(Flush(p), true, Atoi(number), ""), toks)
  {
    hide TakeTokens, Flush;
    TokensStep(p, number, toks);
  }

  lemma FillGroup(p: Pending, words: seq<string>, rest: seq<string>)
    requires p.haveIdx && p.content == "" && AllText(words)
    ensures TakeTokens(p, words + rest) == TakeTokens(p.(content := JoinWith(words, ' ')), rest)
  {
    hide TakeTokens, AllText, JoinWith;
    TakeTokensConcat(p, words, rest);
    JoinOfOne("");
    TakeWords(p, words, []);
    assert [] + words == words;
  }

  lemma FlushGroup(p: Pending, g: Group)
    requires p.haveIdx && p.idx == Atoi(g.number) && p.content == "" && AllText(g.words)
    ensures Flush(p.(content := JoinWith(g.words, ' '))) == p.sent + GroupUpdate(g)
  {
    hide IsIntStr, JoinWith, Atoi;
    JoinOfOne("");
    if g.words != [] {
      assert IsText(g.words[0]);
      JoinNotEmpty(g.words);
    }
  }

  lemma {:induction false} TakeStray(words: seq<string>)
    requires AllText(words)
    ensures TakeTokens(NOTHING, words) == NOTHING
  {
    hide IsIntStr;
    if words != [] {
      assert IsText(words[0]);
      TakeStray(words[1..]);
    }
  }

  /** Every list of fields is words in front of the first number, and then groups. */
  lemma {:induction false} FieldsHaveGroups(toks: seq<string>) returns (front: seq<string>, gs: seq<Group>)
    requires forall k :: 0 <= k < |toks| ==> toks[k] != ""
    ensures toks == front + GroupFields(gs) && AllText(front) && AreGroups(gs)
  {
    front, gs := [], [];
    if toks != [] {
      hide IsIntStr;
      front, gs := FieldsHaveGroups(toks[1..]);
      if IsIntStr(toks[0]) {
        var g := Group(toks[0], front);
        assert ([g] + gs)[1..] == gs;
        assert [toks[0]] + front + GroupFields(gs) == toks;
        front, gs := [], [g] + gs;
      } else {
        front := [toks[0]] + front;
      }
    }
  }

  /** Whatever is typed, the line falls into words in front of the first number, which are ignored, and groups of a
      number and the words behind it. It sends one update per group that has words, in order, and at ETIRW the finish
      message. */
  lemma AnyLineSends(input: string) returns (front: seq<string>, gs: seq<Group>)
    ensures Fields(Body(input), ' ') == front + GroupFields(gs) && AllText(front) && AreGroups(gs)
    ensures Messages(input) == GroupUpdates(gs) + if Finishes(input) then [FINISH_MESSAGE] else []
  {
    var toks := Fields(Body(input), ' ');
    FieldsAreFields(Body(input), ' ');
    assert forall k :: 0 <= k < |toks| ==> IsField(toks[k], ' ');
    hide Fields, Body, IsIntStr, AllText, AreGroups, TakeTokens;
    front, gs := FieldsHaveGroups(toks);
    TakeStray(front);
    TakeTokensConcat(NOTHING, front, GroupFields(gs));
    TakeGroups(NOTHING, gs);
    assert [] + GroupUpdates(gs) == GroupUpdates(gs);
  }

  lemma OccursBehind(a: string, pat: string, b: string)
    ensures OccursAt(a + pat + b, pat, |a|) && (a + pat + b)[..|a|] == a
  {
    assert (a + pat + b)[|a|..|a| + |pat|] == pat;
  }

  lemma CutAtFinish(a: string, b: string)
    requires forall i: nat :: i < |a| ==> !OccursAt(a + FINISH + b, FINISH, i)
    ensures Finishes(a + FINISH + b) && Body(a + FINISH + b) == TrimRight(a)
  {
    var input := a + FINISH + b;
    OccursBehind(a, FINISH, b);
    assert |a| <= |input|;
    hide TrimRight, FindFrom, OccursAt;
    FindFromIs(input, |a|);
  }

  /** A text that holds no ETIRW is taken whole. */
  lemma NothingToCut(s: string)
    requires !Contains(s, FINISH)
    ensures !Finishes(s) && Body(s) == s
  {
    NoFindWithout(s);
    hide FindFrom, TrimRight;
  }

  /** What is typed behind ETIRW is ignored, and in front of it the line says what it says without it. */
  lemma FinishCutsLine(a: string, b: string)
    requires forall i: nat :: i < |a| ==> !OccursAt(a + FINISH + b, FINISH, i)
    ensures Messages(a + FINISH + b) == Messages(TrimRight(a)) + [FINISH_MESSAGE]
  {
    CutAtFinish(a, b);
    BodyHasNoFinish(a + FINISH + b);
    NothingToCut(TrimRight(a));
    hide Body, Finishes, Fields, TakeTokens, Flush, TrimRight, OccursAt, Contains, FindFrom;
    var some := Flush(TakeTokens(NOTHING, Fields(TrimRight(a), ' ')));
    assert some + [] == some;
  }

  // --------------------------------------------------------- what a well-typed line sends

  /** A word a user can mean as text: no white space in it, not a number, and ETIRW nowhere inside. */
  predicate IsWord(w: string) {
    w != "" && (forall i :: 0 <= i < |w| ==> !IsSpace(w[i])) && !IsIntStr(w) && !Contains(w, FINISH)
  }

  /** An index with the words to insert there. */
  datatype Pair = Pair(index: nat, words: seq<string>)

  ghost predicate WellTyped(ps: seq<Pair>) {
    forall i, k :: 0 <= i < |ps| && 0 <= k < |ps[i].words| ==> IsWord(ps[i].words[k])
  }

  function PairFields(ps: seq<Pair>): seq<string> {
    if ps == [] then [] else [PrintNat(ps[0].index)] + ps[0].words + PairFields(ps[1..])
  }

  /** The line the pairs are typed as. */
  function TypedLine(ps: seq<Pair>): string {
    JoinWith(PairFields(ps), ' ')
  }

  /** The message of a pair, if it has words. */
  function OneUpdate(p: Pair): seq<Message> {
    if p.words == [] then [] else [Message(p.index, JoinWith(p.words, ' '))]
  }

  /** One message per pair that has words, in order. */
  function Updates(ps: seq<Pair>): seq<Message> {
    if ps == [] then [] else OneUpdate(ps[0]) + Updates(ps[1..])
  }

  lemma NumberToken(n: nat)
    ensures IsIntStr(PrintNat(n)) && Atoi(PrintNat(n)) == n
  {
    AtoiOfPrintInt(n);
  }

  function AsGroups(ps: seq<Pair>): seq<Group> {
    if ps == [] then [] else [Group(PrintNat(ps[0].index), ps[0].words)] + AsGroups(ps[1..])
  }

  lemma {:induction false} PairsAreGroups(ps: seq<Pair>)
    requires WellTyped(ps)
    ensures AreGroups(AsGroups(ps)) && GroupFields(AsGroups(ps)) == PairFields(ps)
    ensures GroupUpdates(AsGroups(ps)) == Updates(ps)
  {
    if ps != [] {
      var g, rest := Group(PrintNat(ps[0].index), ps[0].words), AsGroups(ps[1..]);
      NumberToken(ps[0].index);
      PairsAreGroups(ps[1..]);
      assert AllText(g.words);
      hide IsIntStr, AllText, JoinWith, Atoi;
      assert AsGroups(ps)[0] == g && AsGroups(ps)[1..] == rest;
    }
  }

  lemma PairsAreTaken(ps: seq<Pair>)
    requires WellTyped(ps)
    ensures Flush(TakeTokens(NOTHING, PairFields(ps))) == Updates(ps)
  {
    PairsAreGroups(ps);
    TakeGroups(NOTHING, AsGroups(ps));
    assert [] + Updates(ps) == Updates(ps);
  }

  lemma NumberHasNoFinish(n: nat)
    ensures !Contains(PrintNat(n), FINISH) && IsField(PrintNat(n), ' ') && !IsSpace(PrintNat(n)[|PrintNat(n)| - 1])
  {
    var s := PrintNat(n);
    assert forall i :: 0 <= i < |s| ==> IsDigit(s[i]);
    forall i: nat | i <= |s|
      ensures !OccursAt(s, FINISH, i)
    {
      if OccursAt(s, FINISH, i) {
        OccurrenceLetters(s, i, i);
      }
    }
  }

  /** A field of a typed line. */
  predicate PlainField(f: string) {
    f != "" && (forall i :: 0 <= i < |f| ==> !IsSpace(f[i])) && !Contains(f, FINISH)
  }

  lemma {:induction false} PairFieldsArePlain(ps: seq<Pair>)
    requires WellTyped(ps)
    ensures forall i :: 0 <= i < |PairFields(ps)| ==> PlainField(PairFields(ps)[i])
    decreases |ps|
  {
    if ps != [] {
      var n, rest := PrintNat(ps[0].index), PairFields(ps[1..]);
      NumberHasNoFinish(ps[0].index);
      assert forall i :: 0 <= i < |n| ==> IsDigit(n[i]);
      assert PlainField(n);
      PairFieldsArePlain(ps[1..]);
      forall i | 0 <= i < |PairFields(ps)|
        ensures PlainField(PairFields(ps)[i])
      {
        var w := ps[0].words;
        assert PairFields(ps)[i] == if i == 0 then n else if i <= |w| then w[i - 1] else rest[i - 1 - |w|];
      }
    }
  }

  lemma NoOccurrenceAcross(a: string, b: string)
    requires !Contains(a, FINISH) && !Contains(b, FINISH)
    ensures !Contains(a + " " + b, FINISH)
  {
    var s := a + " " + b;
    forall i: nat | i <= |s|
      ensures !OccursAt(s, FINISH, i)
    {
      if i + |FINISH| <= |a| {
        assert !OccursAt(a, FINISH, i);
        assert a[i..i + |FINISH|] == s[i..i + |FINISH|];
      } else if |a| < i && i + |FINISH| <= |s| {
        var j := i - |a| - 1;
        assert !OccursAt(b, FINISH, j);
        assert b[j..j + |FINISH|] == s[i..i + |FINISH|];
      } else if OccursAt(s, FINISH, i) {
        OccurrenceLetters(s, i, |a|);
      }
    }
  }

  lemma {:induction false} PlainJoin(fs: seq<string>)
    requires forall i :: 0 <= i < |fs| ==> PlainField(fs[i])
    ensures !Contains(JoinWith(fs, ' '), FINISH)
    ensures fs != [] ==> JoinWith(fs, ' ') != "" && !IsSpace(JoinWith(fs, ' ')[|JoinWith(fs, ' ')| - 1])
  {
    if |fs| > 1 {
      PlainJoin(fs[1..]);
      NoOccurrenceAcross(fs[0], JoinWith(fs[1..], ' '));
    }
  }

  lemma NoFindWithout(s: string)
    requires !Contains(s, FINISH)
    ensures FindFrom(s, FINISH, 0) == |s| + 1
  {
    var r := FindFrom(s, FINISH, 0);
    assert r <= |s| ==> OccursAt(s, FINISH, r);
  }

  lemma FieldsOfTypedLine(ps: seq<Pair>)
    requires WellTyped(ps)
    ensures Fields(TypedLine(ps), ' ') == PairFields(ps)
  {
    var fs := PairFields(ps);
    PairFieldsArePlain(ps);
    forall i | 0 <= i < |fs|
      ensures IsField(fs[i], ' ')
    {
      assert PlainField(fs[i]);
    }
    FieldsOfJoin(fs, ' ');
  }

  /** A typed line sends exactly the updates it was typed for, in order, and nothing else. */
  lemma TypedLineSends(ps: seq<Pair>)
    requires WellTyped(ps)
    ensures Messages(TypedLine(ps)) == Updates(ps)
  {
    PairFieldsArePlain(ps);
    PlainJoin(PairFields(ps));
    NoFindWithout(TypedLine(ps));
    FieldsOfTypedLine(ps);
    PairsAreTaken(ps);
    hide TakeTokens, Flush, Fields, FindFrom, PairFields, Updates;
    assert Updates(ps) + [] == Updates(ps);
  }

  /** With ETIRW behind it, the same line sends the same updates and then one finish message. */
  lemma FinishingLineSends(ps: seq<Pair>)
    requires WellTyped(ps) && ps != []
    ensures Messages(TypedLine(ps) + " " + FINISH) == Updates(ps) + [FINISH_MESSAGE]
  {
    var line := TypedLine(ps);
    PairFieldsArePlain(ps);
    PlainJoin(PairFields(ps));
    var input := line + " " + FINISH;
    FirstFinish(line);
    assert input[..|line| + 1] == line + " ";
    TrimOneSpace(line);
    FieldsOfTypedLine(ps);
    PairsAreTaken(ps);
  }

  lemma TrimOneSpace(line: string)
    requires line != "" && !IsSpace(line[|line| - 1])
    ensures TrimRight(line + " ") == line
  {
    assert (line + " ")[..|line|] == line;
  }

  lemma FirstFinish(line: string)
    requires !Contains(line, FINISH)
    ensures FindFrom(line + " " + FINISH, FINISH, 0) == |line| + 1
  {
    hide FindFrom, OccursAt, Contains;
    var s, n := line + " " + FINISH, |line| + 1;
    FinishAtEnd(line);
    forall i: nat | i < n
      ensures !OccursAt(s, FINISH, i)
    {
      NotBeforeEnd(line, i);
    }
    FindFromIs(s, n);
  }

  lemma FinishAtEnd(line: string)
    ensures OccursAt(line + " " + FINISH, FINISH, |line| + 1)
  {
    var a, pat := line + " ", FINISH;
    assert (a + pat)[|a|..|a| + |pat|] == pat;
  }

  /** No occurrence starts inside the line or at the blank behind it. */
  lemma NotBeforeEnd(line: string, i: nat)
    requires !Contains(line, FINISH) && i <= |line|
    ensures !OccursAt(line + " " + FINISH, FINISH, i)
  {
    var s := line + " " + FINISH;
    if OccursAt(s, FINISH, i) {
      if i + |FINISH| <= |line| {
        assert line[i..i + |FINISH|] == s[i..i + |FINISH|];
        assert OccursAt(line, FINISH, i);
      } else {
        OccurrenceLetters(s, i, |line|);
      }
    }
  }

  lemma FindFromIs(s: string, n: nat)
    requires n <= |s| && OccursAt(s, FINISH, n) && forall i: nat :: i < n ==> !OccursAt(s, FINISH, i)
    ensures FindFrom(s, FINISH, 0) == n
  {
    var r := FindFrom(s, FINISH, 0);
    assert !(r < n) && !(n < r);
  }
}
