/** Which sentence indices a WRITE session may open, and what it holds then (storage_server/storage_server.c,
    handle_write_file). */
module OpeningLaws {
  import opened CString
  import opened Sentences
  import opened WordBuffers
  import opened WordLaws
  import opened Commits
  import opened AppendLaws

  /** A session opens on every sentence of the file, and one past the last when there is none, or when the last is
      complete, with nothing but white space behind it. */
  lemma OpensIff(content: string, index: int)
    ensures var ss := Split(content);
            Open(content, index).Opened? <==>
            0 <= index <= |ss| && (index == |ss| ==> ss == [] || EndsComplete(ss))
  {
    hide Split, EndsComplete, LastHasDelimiter;
    AppendAllowedIff(content);
  }

  /** What the session then holds: the index as it was asked for, the sentence there and the one before, and the words
      of the sentence, which is none for a session that appends. */
  lemma OpenedHolds(content: string, index: int)
    requires Open(content, index).Opened?
    ensures var ss, s := Split(content), Open(content, index).session;
            && s.index == index && (s.append <==> index == |ss|)
            && (index < |ss| ==> s.snapshot == ss[index])
            && (index == |ss| ==> s.snapshot == "" && s.words == [])
            && (index > 0 ==> s.previous == ss[index - 1])
            && (index == 0 ==> s.previous == "")
            && s.words <= Fields(s.snapshot, ' ')
            && (s.words == Fields(s.snapshot, ' ') || |s.words| == MAX_WORDS_PER_SENTENCE)
  {
    hide Split, AllowsAppend;
    var s := Open(content, index).session;
    TokensKeepText(s.snapshot);
    assert Fields("", ' ') == [];
  }

  /** Storing a file in its normal form makes no difference to sessions: they open on the same indices and hold the
      same. */
  lemma OpeningOfStoredFile(content: string, index: int)
    ensures Open(Normalise(content), index).Opened? <==> Open(content, index).Opened?
    ensures Open(content, index).Opened? ==> Open(Normalise(content), index) == Open(content, index)
  {
    NormaliseIsIdempotent(content);
    OpensIff(content, index);
    OpensIff(Normalise(content), index);
    hide Split, Normalise, EndsComplete, AllowsAppend;
  }
}
