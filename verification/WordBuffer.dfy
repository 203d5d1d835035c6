/** The word array of a WRITE session: tokenising a sentence, punctuation-aware insertion in place, and rebuilding
    the sentence (storage_server/storage_server.c, handle_write_file). */
module WordBuffers {
  import opened Text
  import opened CString

  const MAX_WORDS_PER_SENTENCE := 1000

  /** One line of a session after the client parsed it: a 1-based word index and the text to insert. */
  datatype Update = Update(index: int, content: string)

  /** The tokens a session starts with; the tokenising loop stops at the capacity of the array. */
  function Tokens(sentence: string): seq<string> {
    var f := Fields(sentence, ' ');
    if |f| <= MAX_WORDS_PER_SENTENCE then f else f[..MAX_WORDS_PER_SENTENCE]
  }

  // ------------------------------------------------------------- one insertion, on values

  predicate Accepted(words: seq<string>, u: Update) {
    0 < u.index && u.index - 1 <= |words| < MAX_WORDS_PER_SENTENCE
  }

  /** A token that is nothing but a delimiter. */
  predicate Lone(tok: string) {
    |tok| == 1 && IsDelimiter(tok[0])
  }

  /** The text goes into the token, just before its closing delimiter. */
  function Merge(tok: string, content: string): string
    requires tok != ""
  {
    tok[..|tok| - 1] + content + [tok[|tok| - 1]]
  }

  function InsertAt(words: seq<string>, at: nat, w: string): seq<string>
    requires at <= |words|
  {
    words[..at] + [w] + words[at..]
  }

  /** The update is merged into the token before the insertion point rather than stored as a token of its own.
      At the end of the array a lone delimiter is not merged into, and neither is text that brings a delimiter. */
  predicate Merges(words: seq<string>, u: Update)
    requires Accepted(words, u)
  {
    var at := u.index - 1;
    && at > 0 && EndsInDelimiter(words[at - 1])
    && (at == |words| ==> !Lone(words[at - 1]) && !EndsInDelimiter(u.content))
  }

  function Apply(words: seq<string>, u: Update): (r: seq<string>)
    requires Accepted(words, u)
    ensures |r| == |words| + (if Merges(words, u) then 0 else 1)
  {
    var at := u.index - 1;
    if Merges(words, u) then words[at - 1 := Merge(words[at - 1], u.content)] else InsertAt(words, at, u.content)
  }

  /** What the rebuild loop writes for the tokens after the first. */
  function Rest(words: seq<string>): string {
    if words == [] then "" else (if Lone(words[0]) then words[0] else " " + words[0]) + Rest(words[1..])
  }

  function Rebuild(words: seq<string>): string {
    if words == [] then "" else words[0] + Rest(words[1..])
  }

  lemma RestStep(words: seq<string>, i: nat)
    requires i < |words|
    ensures Rest(words[i..]) == (if Lone(words[i]) then words[i] else " " + words[i]) + Rest(words[i + 1..])
    ensures i == 0 ==> "" + words[i] + Rest(words[i + 1..]) == Rebuild(words)
  {
    assert words[i..][1..] == words[i + 1..];
    assert "" + words[i] == words[i];
  }

  lemma RestOfNone(s: string, words: seq<string>)
    ensures s + Rest(words[|words|..]) == s
  {
  }

  // ------------------------------------------------------------------ the array itself

  class WordBuffer {
    const words: array<string>
    var count: nat

    ghost predicate Valid()
      reads this
    {
      words.Length == MAX_WORDS_PER_SENTENCE && count <= words.Length
    }

    ghost function Contents(): seq<string>
      requires Valid()
      reads this, words
    {
      words[..count]
    }

    /** strtok over the sentence, one blank-separated token after the other. */
    constructor (sentence: string)
      ensures Valid() && fresh(words)
      ensures Contents() == Tokens(sentence)
    {
      words := new string[MAX_WORDS_PER_SENTENCE];
      count := 0;
      new;
      hide Fields;
      var all := Fields(sentence, ' ');
      assert sentence[0..] == sentence;
      var found, tok, next := NextField(sentence, 0, ' ');
      ghost var from := 0;
      ghost var sofar: seq<string> := [];
      while found && count < MAX_WORDS_PER_SENTENCE
        invariant Valid() && fresh(words) && sofar == Contents()
        invariant 0 <= from <= next <= |sentence| && (found ==> from < next)
        invariant Fields(sentence[from..], ' ') == if found then [tok] + Fields(sentence[next..], ' ') else []
        invariant sofar + Fields(sentence[from..], ' ') == all
        decreases |sentence| - from
      {
        Regroup(sofar, [tok], Fields(sentence[next..], ' '));
        Push(tok);
        sofar := sofar + [tok];
        from := next;
        found, tok, next := NextField(sentence, next, ' ');
      }
      assert words[..count] == all[..count];
    }

    /** One more token behind those stored so far. */
    method Push(tok: string)
      requires Valid() && count < words.Length
      modifies words, this`count
      ensures Valid() && Contents() == old(Contents()) + [tok]
    {
      words[count] := tok;
      count := count + 1;
    }

    /** Frees the slot `at`: the words from there on move up by one, the last of them first. */
    method ShiftRight(at: nat)
      requires Valid() && at <= count < words.Length
      modifies words
      ensures words[..at] == old(words[..at]) && words[at + 1..count + 1] == old(words[at..count])
    {
      var i := count;
      while i > at
        invariant at <= i <= count
        invariant forall k :: 0 <= k <= i ==> words[k] == old(words[k])
        invariant forall k :: i < k <= count ==> words[k] == old(words[k - 1])
      {
        words[i] := words[i - 1];
        i := i - 1;
      }
    }

    method StoreAt(at: nat, content: string)
      requires Valid() && at <= count < words.Length
      modifies words, this`count
      ensures Valid() && Contents() == InsertAt(old(Contents()), at, content)
    {
      ShiftRight(at);
      words[at] := content;
      assert words[..count + 1] == words[..at] + [content] + words[at + 1..count + 1];
      count := count + 1;
    }

    method MergeInto(at: nat, content: string)
      requires Valid() && at < count && words[at] != ""
      modifies words
      ensures Contents() == old(Contents())[at := Merge(old(Contents())[at], content)]
    {
      var prev := words[at];
      var merged := prev[..|prev| - 1];
      merged := merged + content;
      merged := merged + [prev[|prev| - 1]];
      words[at] := merged;
    }

    /** The update branch of the session loop: two index checks, then the insertion cases. */
    method Insert(u: Update) returns (accepted: bool)
      requires Valid()
      modifies this`count, words
      ensures Valid() && accepted == (1 <= u.index <= |old(Contents())| + 1 <= MAX_WORDS_PER_SENTENCE)
      ensures Contents() == if accepted then Apply(old(Contents()), u) else old(Contents())
    {
      if u.index <= 0 {
        return false;
      }
      var at := u.index - 1;
      if at > count || count >= MAX_WORDS_PER_SENTENCE {
        return false;
      }
      if at < count {
        if at > 0 && EndsInDelimiter(words[at - 1]) {
          MergeInto(at - 1, u.content);
        } else {
          StoreAt(at, u.content);
        }
      } else if count > 0 {
        var last := words[count - 1];
        if Lone(last) && !EndsInDelimiter(u.content) {
          StoreAt(at, u.content);
        } else if EndsInDelimiter(last) && !EndsInDelimiter(u.content) {
          MergeInto(count - 1, u.content);
        } else {
          StoreAt(count, u.content);
        }
      } else {
        StoreAt(0, u.content);
      }
      return true;
    }

    /** The rebuild loop: tokens one blank apart, a lone delimiter attached to the token before it. */
    method RebuildSentence() returns (s: string)
      requires Valid()
      ensures s == Rebuild(Contents())
    {
      hide Rest;
      s := "";
      ghost var all := words[..count];
      for i := 0 to count
        invariant i == 0 ==> s == ""
        invariant i > 0 ==> s + Rest(all[i..]) == Rebuild(all)
      {
        var tok := words[i];
        RestStep(all, i);
        if i == 0 {
          s := s + tok;
        } else if Lone(tok) {
          Regroup(s, tok, Rest(all[i + 1..]));
          s := s + tok;
        } else {
          Regroup(s, " " + tok, Rest(all[i + 1..]));
          Regroup(s, " ", tok);
          s := s + " ";
          s := s + tok;
        }
      }
      RestOfNone(s, all);
    }
  }
}
