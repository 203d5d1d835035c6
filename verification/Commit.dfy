/** Opening a WRITE session and committing it against the latest file content: the index check, the remapping of the
    edited sentence, the splice into the sentence array and the rewritten file
    (storage_server/storage_server.c, handle_write_file). */
module Commits {
  import opened Text
  import opened Lists
  import opened Sentences
  import opened WordBuffers

  // ------------------------------------------------------------------- opening a session

  /** What a session keeps from the content it read: its index, whether that index was one past the last sentence,
      the sentence and its predecessor as they were, and the tokens it edits. */
  datatype Session = Session(index: nat, append: bool, snapshot: string, previous: string, words: seq<string>)

  datatype Opening = Rejected | Opened(session: Session)

  /** The characters the append rule ignores at the end of the file. */
  predicate IsTrailing(c: char) {
    c == ' ' || c == '\n' || c == '\r' || c == '\t'
  }

  function StripEnd(s: string): (r: string)
    ensures |r| <= |s|
  {
    if s != "" && IsTrailing(s[|s| - 1]) then StripEnd(s[..|s| - 1]) else s
  }

  /** The last character that is not trailing white space is a delimiter. */
  predicate LastHasDelimiter(content: string) {
    EndsInDelimiter(StripEnd(content))
  }

  /** May a session append to this content? */
  predicate AllowsAppend(content: string) {
    Split(content) == [] || LastHasDelimiter(content)
  }

  function Open(content: string, index: int): Opening {
    var ss := Split(content);
    if index < 0 || index > |ss| || (index == |ss| && !AllowsAppend(content)) then Rejected
    else
      var target := if index < |ss| then ss[index] else "";
      Opened(Session(index, index == |ss|, target, if index > 0 then ss[index - 1] else "", Tokens(target)))
  }

  method EndsWithDelimiter(content: string) returns (r: bool)
    ensures r == LastHasDelimiter(content)
  {
    var end := |content|;
    assert content[..end] == content;
    while end > 0 && IsTrailing(content[end - 1])
      invariant 0 <= end <= |content|
      invariant StripEnd(content[..end]) == StripEnd(content)
    {
      assert content[..end][..end - 1] == content[..end - 1];
      end := end - 1;
    }
    r := end > 0 && IsDelimiter(content[end - 1]);
  }

  /** The opening section of handle_write_file: parse, check the index, and set up what the session keeps. */
  method OpenSession(content: string, index: int) returns (r: Opening, buffer: WordBuffer?)
    requires |Split(content)| <= MAX_SENTENCES
    ensures r == Open(content, index)
    ensures r.Opened? ==> buffer != null && fresh(buffer) && fresh(buffer.words) && buffer.Valid()
                          && buffer.Contents() == r.session.words
  {
    hide Split, StripEnd, Tokens;
    buffer := null;
    var sentences, count := ParseSentences(content);
    var lastHasDelimiter := false;
    if count > 0 {
      lastHasDelimiter := EndsWithDelimiter(content);
    }
    if index < 0 || index > count || (index == count && count > 0 && !lastHasDelimiter) {
      return Rejected, null;
    }
    assert forall i :: 0 <= i < count ==> sentences[i] == Split(content)[i];
    var target, previous := "", "";
    if index < count {
      target := sentences[index];
    }
    if index > 0 {
      previous := sentences[index - 1];
    }
    buffer := new WordBuffer(target);
    r := Opened(Session(index, index == count, target, previous, buffer.words[..buffer.count]));
  }

  // --------------------------------------------------------------------------- remapping

  predicate SameSentence(a: string, b: string) {
    Trim(a) == Trim(b)
  }

  /** The first sentence equal to text after trimming, or |ss|. */
  function FirstSame(ss: seq<string>, text: string): (j: nat)
    ensures j <= |ss|
  {
    FirstIndex(ss, (t: string) => SameSentence(t, text))
  }

  datatype Target = Abort | At(index: nat)

  /** The sentence behind the first one equal to `previous`, if there is one. */
  function AfterAnchor(latest: seq<string>, previous: string): Target {
    var anchor := FirstSame(latest, previous);
    if anchor + 1 < |latest| then At(anchor + 1) else Abort
  }

  /** The place in the latest sentences that a commit of s replaces (or extends, at |latest|). */
  function Remap(content: string, latest: seq<string>, s: Session): Target {
    if s.append then
      if latest != [] && !LastHasDelimiter(content) then Abort else At(|latest|)
    else if s.index > |latest| then Abort
    else if s.snapshot != "" then
      if s.index < |latest| && SameSentence(latest[s.index], s.snapshot) then At(s.index)
      else
        var j := FirstSame(latest, s.snapshot);
        if j < |latest| then At(j)
        else if s.previous != "" then AfterAnchor(latest, s.previous)
        else if s.index < |latest| then At(s.index)
        else Abort
    else if s.previous != "" then AfterAnchor(latest, s.previous)
    else if s.index >= |latest| then Abort
    else At(s.index)
  }

  /** sentences_equal_trimmed. */
  method SentencesEqualTrimmed(a: string, b: string) returns (eq: bool)
    ensures eq == SameSentence(a, b)
  {
    var ta := TrimString(a);
    var tb := TrimString(b);
    eq := ta == tb;
  }

  lemma FirstSameIsFirst(ss: seq<string>, text: string)
    ensures var j := FirstSame(ss, text);
            (j < |ss| ==> SameSentence(ss[j], text)) && forall i :: 0 <= i < j ==> !SameSentence(ss[i], text)
  {
    hide SameSentence;
  }

  /** The search loops of the commit: the first match, or -1. */
  method FindSentence(latest: array<string>, count: nat, text: string) returns (found: int)
    requires count <= latest.Length
    ensures var j := FirstSame(latest[..count], text); found == if j < count then j else -1
  {
    hide SameSentence, FirstSame;
    FirstSameIsFirst(latest[..count], text);
    var j := 0;
    while j < count
      invariant 0 <= j <= count && FirstSame(latest[..count], text) >= j
    {
      assert latest[..count][j] == latest[j];
      var same := SentencesEqualTrimmed(latest[j], text);
      if same {
        return j;
      }
      j := j + 1;
    }
    return -1;
  }

  method AnchorAfter(latest: array<string>, count: nat, previous: string) returns (t: Target)
    requires count <= latest.Length
    ensures t == AfterAnchor(latest[..count], previous)
  {
    var anchor := FindSentence(latest, count, previous);
    if anchor >= 0 && anchor + 1 < count {
      t := At(anchor + 1);
    } else {
      t := Abort;
    }
  }

  method RemapTarget(content: string, latest: array<string>, count: nat, s: Session) returns (t: Target)
    requires count <= latest.Length
    ensures t == Remap(content, latest[..count], s)
  {
    hide FirstSame, StripEnd, Trim;
    if s.append {
      var terminated := EndsWithDelimiter(content);
      if count > 0 && !terminated {
        return Abort;
      }
      return At(count);
    }
    if s.index > count {
      return Abort;
    }
    if s.snapshot != "" {
      if s.index < count {
        var same := SentencesEqualTrimmed(latest[s.index], s.snapshot);
        if same {
          return At(s.index);
        }
      }
      var j := FindSentence(latest, count, s.snapshot);
      if j >= 0 {
        return At(j);
      }
      if s.previous != "" {
        t := AnchorAfter(latest, count, s.previous);
        return t;
      }
      if s.index < count {
        return At(s.index);
      }
      return Abort;
    }
    if s.previous != "" {
      t := AnchorAfter(latest, count, s.previous);
      return t;
    }
    if s.index >= count {
      return Abort;
    }
    return At(s.index);
  }

  // -------------------------------------------------------------------------------- splice

  /** The list entries a rebuilt sentence becomes: itself when it holds at most one sentence, else its sentences. */
  function Pieces(text: string): (r: seq<string>)
    ensures r != []
  {
    if |Split(text)| <= 1 then [text] else Split(text)
  }

  function Splice(latest: seq<string>, t: nat, text: string): seq<string> {
    if t < |latest| then latest[..t] + Pieces(text) + latest[t + 1..] else latest + Pieces(text)
  }

  /** realloc: a block of the new size that keeps the first `count` entries. */
  method Reallocate(a: array<string>, count: nat, size: nat) returns (b: array<string>)
    requires count <= a.Length && count <= size
    ensures fresh(b) && b.Length == size && b[..count] == a[..count]
  {
    b := new string[size];
    var i := 0;
    while i < count
      invariant 0 <= i <= count
      invariant forall k :: 0 <= k < i ==> b[k] == a[k]
    {
      b[i] := a[i];
      i := i + 1;
    }
  }

  /** Opens a gap of `extra` entries behind `target`: the entries behind it move up, the last of them first. */
  method MoveTail(a: array<string>, count: nat, target: nat, extra: nat)
    requires target < count && count + extra <= a.Length
    modifies a
    ensures a[..target + 1] == old(a[..target + 1])
    ensures a[target + 1 + extra..count + extra] == old(a[target + 1..count])
  {
    var i := count - 1;
    ghost var was := a[..count];
    while i > target
      invariant target <= i < count
      invariant a[..i + 1] == was[..i + 1]
      invariant a[i + 1 + extra..count + extra] == was[i + 1..]
    {
      assert a[i] == a[..i + 1][i] == was[i];
      ghost var before := a[..];
      MoveOne(a, i, extra, count + extra);
      TailMoved(was, before, a[..], i, extra);
      i := i - 1;
    }
  }

  lemma TailMoved(was: seq<string>, b: seq<string>, c: seq<string>, i: nat, extra: nat)
    requires i < |was| && |was| + extra <= |b| == |c|
    requires b[..i + 1] == was[..i + 1] && b[i + 1 + extra..|was| + extra] == was[i + 1..]
    requires c[..i + extra] == b[..i + extra]
    requires c[i + extra..|was| + extra] == [was[i]] + b[i + 1 + extra..|was| + extra]
    ensures c[..i] == was[..i] && c[i + extra..|was| + extra] == was[i..]
  {
    assert c[..i] == c[..i + extra][..i] && b[..i] == b[..i + extra][..i] && b[..i] == b[..i + 1][..i];
    assert was[..i + 1][..i] == was[..i];
    assert [was[i]] + was[i + 1..] == was[i..];
  }

  /** One entry moves up by `extra`: what is in front of its new place, and what is behind, stays. */
  method MoveOne(a: array<string>, i: nat, extra: nat, end: nat)
    requires i + extra < end <= a.Length
    modifies a
    ensures a[..i + extra] == old(a[..i + extra])
    ensures a[i + extra..end] == [old(a[i])] + old(a[i + 1 + extra..end])
  {
    a[i + extra] := a[i];
  }

  /** Copies the pieces from `lo` on to the place that starts at `base`. */
  method CopyPieces(a: array<string>, base: nat, pieces: array<string>, lo: nat, n: nat)
    requires lo <= n <= pieces.Length && base + n <= a.Length && a != pieces
    modifies a
    ensures a[..base + lo] == old(a[..base + lo]) && a[base + n..] == old(a[base + n..])
    ensures a[base + lo..base + n] == pieces[lo..n]
  {
    var k := lo;
    while k < n
      invariant lo <= k <= n
      invariant a[..base + lo] == old(a[..base + lo]) && a[base + n..] == old(a[base + n..])
      invariant a[base + lo..base + k] == pieces[lo..k]
    {
      a[base + k] := pieces[k];
      assert a[base + lo..base + k + 1] == a[base + lo..base + k] + [pieces[k]];
      k := k + 1;
    }
  }

  /** Two or more pieces take the place of one sentence: the tail moves up to make room. */
  method ReplaceByPieces(latest: array<string>, count: nat, target: nat, pieces: array<string>, n: nat)
    returns (out: array<string>)
    requires target < count <= latest.Length && 2 <= n <= pieces.Length && latest != pieces
    modifies latest
    ensures fresh(out) && out.Length == count + n - 1
    ensures out[..] == old(latest[..target]) + pieces[..n] + old(latest[target + 1..count])
  {
    ghost var head, tail := latest[..target], latest[target + 1..count];
    latest[target] := pieces[0];
    assert latest[..count][..target + 1] == head + [pieces[0]];
    assert latest[..count][target + 1..] == tail;
    var extra := n - 1;
    out := Reallocate(latest, count, count + extra);
    assert out[target + 1..count] == out[..count][target + 1..] == tail;
    assert out[..target + 1] == out[..count][..target + 1];
    MoveTail(out, count, target, extra);
    assert out[target + n..] == tail;
    CopyPieces(out, target, pieces, 1, n);
    CutInThree(out[..], target + 1, target + n);
    assert [pieces[0]] + pieces[1..n] == pieces[..n];
    JoinParts(head, pieces[0], pieces[1..n], tail);
  }

  lemma CutInThree(a: seq<string>, i: nat, j: nat)
    requires i <= j <= |a|
    ensures a == a[..i] + a[i..j] + a[j..]
  {
  }

  lemma JoinParts(a: seq<string>, x: string, b: seq<string>, c: seq<string>)
    ensures (a + [x]) + b + c == a + ([x] + b) + c
  {
  }

  /** The splice on the array of latest sentences: replace in place or append, opening a gap for further pieces. */
  method SpliceSentences(latest: array<string>, count: nat, target: nat, text: string, pieces: array<string>, n: nat)
    returns (out: array<string>, size: nat)
    requires count <= latest.Length && target <= count && n <= pieces.Length
    requires pieces[..n] == Split(text) && latest != pieces
    modifies latest
    ensures size <= out.Length && out[..size] == Splice(old(latest[..count]), target, text)
  {
    hide Split;
    ghost var was := latest[..count];
    assert was[..target] == latest[..target];
    assert target < count ==> was[target + 1..] == latest[target + 1..count];
    if n <= 1 {
      if target < count {
        latest[target] := text;
        out, size := latest, count;
        assert out[..size] == was[..target] + [text] + was[target + 1..];
      } else {
        out := Reallocate(latest, count, count + 1);
        out[count] := text;
        size := count + 1;
        assert out[..size] == was + [text];
      }
    } else if target < count {
      out := ReplaceByPieces(latest, count, target, pieces, n);
      size := out.Length;
      assert out[..size] == out[..];
    } else {
      out := Reallocate(latest, count, count + n);
      CopyPieces(out, count, pieces, 0, n);
      size := count + n;
      assert out[..size] == out[..count] + out[count..count + n];
    }
  }

  // -------------------------------------------------------------------------------- commit

  datatype Outcome = Unchanged | Written(content: string)

  /** The file after the session's commit, given the content read under the commit lock. */
  function Commit(content: string, s: Session): Outcome {
    var latest := Split(content);
    match Remap(content, latest, s)
    case Abort => Unchanged
    case At(t) => Written(Join(Splice(latest, t, Rebuild(s.words))))
  }

  /** The commit section of handle_write_file, from the word array to the text that is written. */
  method CommitSession(content: string, s: Session, buffer: WordBuffer) returns (r: Outcome)
    requires buffer.Valid() && s.words == buffer.Contents()
    requires |Split(content)| <= MAX_SENTENCES && |Split(Rebuild(s.words))| <= MAX_SENTENCES
    ensures r == Commit(content, s)
  {
    hide Split, Rebuild, Remap, Splice, Join;
    var text := buffer.RebuildSentence();
    var pieces, n := ParseSentences(text);
    var latest, count := ParseSentences(content);
    var target := RemapTarget(content, latest, count, s);
    RemapInRange(content, latest[..count], s);
    match target {
      case Abort => r := Unchanged;
      case At(t) =>
        var out, size := SpliceSentences(latest, count, t, text, pieces, n);
        var final := JoinSentences(out, size);
        r := Written(final);
    }
  }

  /** A target is a sentence of the latest content, or its end for a session that appends. */
  lemma RemapInRange(content: string, latest: seq<string>, s: Session)
    ensures var t := Remap(content, latest, s);
            t.At? ==> t.index <= |latest| && (t.index == |latest| <==> s.append)
  {
  }
}
