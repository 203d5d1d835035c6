# OrionFS, verified

A Dafny model of the two stateful cores of OrionFS, with proofs.

**The collaborative sentence editor of the storage server.** A file is a text of sentences. A WRITE session reads the
file, splits it, checks the sentence index, locks the pair (file, index), saves an undo image, edits an array of words
in place, and at the end re-reads the file under a per-file commit lock, looks for its sentence by text, splices the
edited sentence into the latest sentence list and writes the result. The model has the loops and arrays of the program
(splitting, tokenising, shifting, merging, remapping, splicing, rejoining), each proved against a function on values,
and a step machine in which any number of sessions interleave with each other and with CREATE, DELETE, UNDO,
CHECKPOINT, REVERT and pushed content. The file is read before the lock is asked for, so a session can start stale.

**The metadata index of the naming server.** A 256-way trie of records behind an LRU cache (a chained hash table and a
doubly linked list), access lists, access requests, the line format of `metadata.dat`, round-robin server selection,
and the mutexes of the request handlers.

Between them stands the line parser of the client's WRITE command.

Main results:

- No commit on a target found by its text, and no append, loses a visible character of the latest content, whatever
  was inserted and whatever others wrote meanwhile (`CommitLaws.CommitLosesNothing`). For every other target the exact
  condition is proved (`LossLaws.ReplaceLosesNothingIff`, `LossLaws.SafeForEveryStreamIff`). Over runs of any number of
  interleaved sessions, the file gains exactly the accepted insertions (`RunLaws.RunLosesNothing`).
- Every write in any run is explained by what went before (`SessionLife.EveryWriteIsExplained`): the content its session
  opened, the updates sent to it, the content read again. A session that loses its connection never writes and gives its
  key back (`SessionLife.DisconnectedNeverWrites`, `SessionLife.DisconnectedGivesKeyBack`), and none is ever stuck
  (`SessionLife.EverySessionCanEnd`).
- Every update puts its text into the sentence in one piece, at a place that is given exactly, and changes nothing else
  (`InsertionLaws.InsertionInSentence`). A session opens on exactly the indices of `OpeningLaws.OpensIff`.
- Independent sessions on one content commit to the same file in every order (`Confluence.CommitsMergeInAnyOrder`), and
  in every interleaving of all their steps (`RunConfluence.EveryInterleavingMerges`).
- The split of a text is the one well-formed list of sentences it consists of (`Sentences.SplitIsTheOne`), joining is
  its inverse on such lists (`Sentences.SplitOfJoin`), and a commit parses back into the spliced list exactly when the
  edited text closes the gap it is put in (`CommitLaws.CommitParsesBack`).
- Sessions holding a lock never share a key, in any interleaving, and a key is locked exactly while it is held
  (`StorageLaws.MutualExclusion`). While sentences keep their indices, that makes every commit land on the sentence its
  session has locked, and no run loses anything (`LockPromise.SteadyRunHitsOwnKeys`); when they do not, WRITE sessions
  alone can lose an update (`Witnesses.WritersLoseAnUpdate`).
- What a user types reaches the file: the client's messages, the server's receive loop, the word array and the commit
  compose (`WriteSessions.TypedSessionEditsFile`).
- The cache never lacks a stored key that was used more recently than one it has (`LruLaws.CacheIsMostRecentPart`);
  without removals it holds exactly the most recently used pairs (`LruLaws.CacheHoldsMostRecent`). Its pointers implement
  that list (`LruCaches.LruCache.Put`), and cache and trie together answer like a plain map over every sequence of
  requests (`NamingServer.Index.Serve`).
- Names are listed in ascending byte order, the first of them if there are too many (`Tries.Trie.GetAllFiles`).
- The trie is saved in ascending order of names, and loading the file gives the same records (`MetadataFiles.SaveTrie`,
  `MetadataFiles.LoadTrie`); exactly which records survive is `Survival.RecordSurvivesIff`. A server that is started
  again has lost nothing but last accesses (`Restart.RestartLosesLastAccessOnly`).
- Whoever has access to a file of another was given that level by its owner, or by an approval of a request of his own
  (`AccessLaws.EveryAccessIsGiven`), in every interleaving of the checks, requests, approvals and grants.
- The handlers can deadlock on their mutexes if and only if one of the requests is a MOVE to a missing folder, which then
  blocks on its own, for good (`HandlerLocks.DeadlockIff`).

Where the code does something other than its comments or error texts say, the model follows the code:

- The branch commented as inserting before a standalone punctuation token appends behind it (its shift loop runs from
  the insertion point to itself). `WordLaws.DelimiterStaysLast` says exactly when a sentence loses its closing
  delimiter, `Witnesses.AppendBuriesDelimiter` is a sentence that does.
- Lock keys are sentence indices, not texts. `CommitLaws.RemapsToOwnIndexIff` says exactly when a commit lands on the
  index its session opened. It need not: in `Witnesses.TwoSessionsOneSentence` two sessions edit one sentence under
  different keys, and in `Witnesses.WritersLoseAnUpdate` the second overwrites what the first committed.
- If a session's index is beyond the latest sentence count, the commit is refused even when its sentence is still there
  (`Witnesses.RefusedThoughPresent`; the exact condition is part of `CommitLaws.RemapFindsSentence`).
- The index-0 and predecessor fallbacks may replace a changed sentence (`Witnesses.FallbackOverwrites` is a run that
  does). `LossLaws.ReplaceLosesNothingIff` is the exact condition for nothing to be lost. Equal counts of characters are
  not enough: `Witnesses.SameCharactersReordered`.
- The commit lock makes reading the latest content and writing back one step only against other commits: CREATE, DELETE,
  UNDO, REVERT and pushed content do not take it. `RunLaws.LatestStaysCurrentIff` and `RunLaws.CurrentRunIff` are the
  exact conditions for a session to write on what is still there; `Witnesses.PushDuringCommitIsLost` and
  `Witnesses.DeleteDuringCommitIsUndone` are what happens otherwise. With a full table of commit locks sessions commit
  without one, and take back each other's writes (`Witnesses.NoCommitLockNoUpdate`).
- A newline behind the last sentence passes the append rule, and becomes the start of the appended sentence
  (`AppendLaws.AppendCommits`, `AppendLaws.NewlineBehindSentence`).
- A session that is abandoned, or refused at commit, has already replaced the undo image
  (`Recovery.AbandonedSessionReplacesImage`).
- WRITE comments that the file must exist; a missing file reads as empty and is created by the commit
  (`Witnesses.MissingFileIsCreated`).
- A removal from the cache leaves room that keys pushed out before do not come back to fill
  (`LruLaws.RemovalLeavesRoom`).
- The last access that READ, STREAM and UNDO record is not saved (`Restart.AccessIsSavedIff`).
- The client sends the finish message also at the end of its input, so that commits too (`WriteSessions.SendLines`).
- A metadata line whose access list is empty has one field too few and is dropped (`Persistence.LineRoundTrip`).

`dafny verify dfyconfig.toml` checks the project. Texts are strings of bytes without NUL.

## Model

| member | source | states |
|---|---|---|
| Text.TrimParts | OrionFS/common/utils.c:74-88 | trimming removes exactly the maximal runs of white space at the two ends |
| Text.TrimString | OrionFS/common/utils.c:74-88 | the two-pointer loop computes that trimming |
| CString.NextField | OrionFS/storage_server/storage_server.c:480-484 | one strtok call: the next separator-free run, and where the following call resumes; false exactly when no field is left |
| CString.FieldsOfJoin | OrionFS/storage_server/storage_server.c:480-484 | tokenising undoes joining, for non-empty separator-free fields |
| CString.FieldsAreFields | OrionFS/naming_server/nm_storage.c:207-211 | no field is empty or holds the separator |
| Sentences.ParseSentences | OrionFS/storage_server/storage_server.c:355-396 | the pointer loop yields exactly the sentences of the content, for up to 1000 of them |
| Sentences.JoinSentences | OrionFS/storage_server/storage_server.c:816-821 | the rebuild loop yields the join, which writes a blank only behind text that is already there |
| Sentences.SplitStandsIn | OrionFS/storage_server/storage_server.c:355-396 | a text is its sentences one after the other, with nothing between them but blanks behind delimiters |
| Sentences.SplitIsTheOne | OrionFS/storage_server/storage_server.c:355-396 | and its split is the only well-formed list of which that is true |
| Sentences.JoinSnoc | OrionFS/storage_server/storage_server.c:816-821 | joining one more sentence puts it one blank behind the text so far, or alone if there is none |
| Sentences.SplitIsWellFormed | OrionFS/storage_server/storage_server.c:355-396 | every split has non-empty sentences, a delimiter only as last character and in all but possibly the last, no leading blank after the first |
| Sentences.SplitOfJoin | OrionFS/storage_server/storage_server.c:816-821 | parsing the join of any well-formed list returns that list |
| Sentences.NormaliseIsIdempotent | OrionFS/storage_server/storage_server.c:816-821 | join after split changes no sentence, and doing it twice changes nothing more |
| Sentences.NormaliseKeepsText | OrionFS/storage_server/storage_server.c:816-821 | join after split keeps every character but blanks, in order |
| Sentences.SolidOfSplit | OrionFS/storage_server/storage_server.c:355-396 | the sentences of a text hold its non-blank characters, in order |
| WordBuffers.WordBuffer.constructor | OrionFS/storage_server/storage_server.c:475-485 | the word array starts with the blank-separated tokens of the sentence, at most 1000 |
| WordBuffers.WordBuffer.ShiftRight | OrionFS/storage_server/storage_server.c:574-577 | the shift loop moves the words behind the insertion point up by one and leaves the others |
| WordBuffers.WordBuffer.Insert | OrionFS/storage_server/storage_server.c:515-631 | accepts exactly the indices 1..count+1 while there is room, and then does what the next two rows say; the array is otherwise unchanged |
| InsertionLaws.InsertionByCases | OrionFS/storage_server/storage_server.c:535-627 | in front of an existing token the text goes into the token before, ahead of its last character, exactly when that ends in a delimiter; at the end of the array exactly when the last token is more than a delimiter, ends in one, and the text does not; else it is a token of its own; all other tokens stay |
| InsertionLaws.InsertionInSentence | OrionFS/storage_server/storage_server.c:535-653 | in the rebuilt sentence every accepted update inserts its text in one piece at a place and with a blank that are given exactly |
| InsertionLaws.MergesIntoTokenBefore | OrionFS/storage_server/storage_server.c:538-572 | a text for the second place behind "Wow!" goes into "Wow!" |
| WordBuffers.WordBuffer.RebuildSentence | OrionFS/storage_server/storage_server.c:639-653 | tokens one blank apart, a lone delimiter attached to the token before it |
| InsertionLaws.RebuildSnoc | OrionFS/storage_server/storage_server.c:639-653 | each further token stands one blank behind the sentence so far, and directly behind it if it is ".", "!" or "?" |
| WordLaws.ApplyInsertsText | OrionFS/storage_server/storage_server.c:535-627 | every accepted update inserts its text, in one piece, at the named token boundary or one character earlier, and changes no other character |
| WordLaws.FeedKeepsText | OrionFS/storage_server/storage_server.c:501-631 | over any update stream the array stays within capacity, the characters it had stay in order, and exactly the accepted texts are added |
| WordLaws.TokensKeepText | OrionFS/storage_server/storage_server.c:475-485 | the words are the first 1000 of the sentence; they keep every non-blank character if and only if it has no more |
| WordLaws.SolidOfRebuild | OrionFS/storage_server/storage_server.c:639-653 | rebuilding writes the characters of the tokens in order and adds only blanks |
| WordLaws.EndOfRebuild | OrionFS/storage_server/storage_server.c:639-653 | the rebuilt sentence ends in a delimiter exactly when its last token does |
| WordLaws.DelimiterStaysLast | OrionFS/storage_server/storage_server.c:585-624 | an update keeps a terminated sentence terminated if and only if it does not append delimiter-free text behind a lone delimiter token |
| WordLaws.FeedKeepsDelimiter | OrionFS/storage_server/storage_server.c:501-653 | a stream without such an update keeps the sentence terminated |
| WordLaws.StreamEnding | OrionFS/storage_server/storage_server.c:501-653 | after a whole stream the sentence ends in a delimiter if and only if the last update that became a new last token does, or, when there is none, the sentence did before |
| WordLaws.FeedKeepsNeat | OrionFS/storage_server/storage_server.c:535-627 | tokens stay non-empty and without blanks at their ends if the inserted texts are |
| Commits.EndsWithDelimiter | OrionFS/storage_server/storage_server.c:425-433 | the scan from the end finds whether the last character that is not trailing white space is a delimiter |
| Commits.OpenSession | OrionFS/storage_server/storage_server.c:398-496 | reading, checking the index and setting up the session give what the next two rows describe |
| OpeningLaws.OpensIff | OrionFS/storage_server/storage_server.c:408-445 | a session opens if and only if its index is that of a sentence, or one past the last when there is no sentence, or the last is complete, or only white space stands behind a complete one |
| OpeningLaws.OpenedHolds | OrionFS/storage_server/storage_server.c:412-496 | it holds the index, whether it appends, the sentence there, the sentence before, and the words of the sentence |
| OpeningLaws.OpeningOfStoredFile | OrionFS/storage_server/storage_server.c:412-445 | writing a file in its normal form changes neither which indices open nor what is held |
| Commits.SentencesEqualTrimmed | OrionFS/storage_server/storage_server.c:259-270 | equality after trimming |
| Commits.FindSentence | OrionFS/storage_server/storage_server.c:708-711 | the first sentence equal to the text after trimming, or -1 |
| Commits.RemapTarget | OrionFS/storage_server/storage_server.c:679-780 | the nested remapping branches compute the target, or abort, of the specification that RemapFindsSentence and RemapAppends describe |
| Commits.MoveTail | OrionFS/storage_server/storage_server.c:797-799 | the sentences behind the target move up, in order, to make room for the pieces; nothing in front changes |
| Commits.SpliceSentences | OrionFS/storage_server/storage_server.c:782-811 | the in-place splice equals prefix, pieces of the edited text, suffix; or the pieces behind the list |
| Commits.CommitSession | OrionFS/storage_server/storage_server.c:634-822 | rebuild, split, remap, splice and rejoin together produce the content written, or no write |
| CommitLaws.CommitWrites | OrionFS/storage_server/storage_server.c:679-822 | a commit writes the latest sentences with the edited text in the place of the target or behind the last, as its sentences if there are two or more and as it is otherwise; or nothing |
| CommitLaws.OpenedSnapshots | OrionFS/storage_server/storage_server.c:486-496 | a replacing session always has a snapshot, and a predecessor unless it started at 0: lines 748-779 are unreachable |
| CommitLaws.RemapFindsSentence | OrionFS/storage_server/storage_server.c:693-780 | the target has the session's text if and only if some latest sentence has and the index is within the count; otherwise it directly follows the first sentence equal to the predecessor, or is sentence 0; and exactly when the commit is refused |
| CommitLaws.RemapsToOwnIndexIff | OrionFS/storage_server/storage_server.c:693-780 | the commit lands on the index the session opened if and only if the sentence there still has its text, or no sentence has and the fallback leads there |
| CommitLaws.RemapPrefersIndex | OrionFS/storage_server/storage_server.c:705-711 | among equal sentences the target is the one at the session's own index, or else the first |
| AppendLaws.AppendAllowedIff | OrionFS/storage_server/storage_server.c:425-434 | the append rule on a content holds if and only if there is no sentence, or the last is complete, or only white space stands behind a complete one |
| AppendLaws.AppendCommits | OrionFS/storage_server/storage_server.c:680-692 | an appending commit is accepted exactly under that rule on the latest content, and its text stands as sentences of its own if and only if the last sentence is complete |
| AppendLaws.NewlineBehindSentence | OrionFS/storage_server/storage_server.c:425-434 | a content where the rule allows an append that does not stand alone |
| CommitLaws.EditedText | OrionFS/storage_server/storage_server.c:470-653 | the edited sentence holds the visible text of the sentence read, in order, plus exactly the accepted insertions |
| CommitLaws.CommitAccounting | OrionFS/storage_server/storage_server.c:782-821 | for every replacing commit: the replaced sentence goes out; the sentence read and the accepted insertions come in |
| CommitLaws.CommitLosesNothing | OrionFS/storage_server/storage_server.c:475-824 | found by text or appended: no visible character of the latest content is lost or reordered, and the gain is exactly the accepted insertions |
| LossLaws.ReplaceConservesIff | OrionFS/storage_server/storage_server.c:693-821 | a replacing commit gains exactly the accepted insertions, counted, if and only if the replaced sentence has the visible characters of the one read, counted |
| LossLaws.ReplaceKeepsOrderIff | OrionFS/storage_server/storage_server.c:693-821 | a replacing commit keeps the visible characters of the file in order if and only if those of the replaced sentence stand in order in the edited text |
| LossLaws.ReplaceLosesNothingIff | OrionFS/storage_server/storage_server.c:475-824 | a replacing commit loses nothing, in order and count, if and only if both conditions hold |
| LossLaws.SafeForEveryStreamIff | OrionFS/storage_server/storage_server.c:475-824 | a target is safe for every update stream if and only if the sentence there has the visible text of the sentence read |
| Witnesses.FallbackReplaces | OrionFS/storage_server/storage_server.c:731-734 | a session on the only sentence of a file writes it over any other sentence that took its place |
| Witnesses.FallbackOverwrites | OrionFS/storage_server/storage_server.c:731-734 | the same in a run: content pushed while a session edits is overwritten by its commit |
| Witnesses.SameCharactersReordered | OrionFS/storage_server/storage_server.c:731-734 | a commit that meets the counting condition and still does not keep the text |
| Witnesses.AppendBuriesDelimiter | OrionFS/storage_server/storage_server.c:594-599 | an accepted update after which a terminated sentence no longer is |
| Witnesses.RefusedThoughPresent | OrionFS/storage_server/storage_server.c:695-704 | a commit that is refused although its sentence is in the file |
| Witnesses.TwoSessionsOneSentence | OrionFS/storage_server/storage_server.c:398-824 | a run of WRITE sessions in which two edit one sentence under different keys, and the first will land on the index the second has locked |
| Witnesses.WritersLoseAnUpdate | OrionFS/storage_server/storage_server.c:712-720 | continuing it, both commits are accepted and the second overwrites the first |
| Witnesses.PushDuringCommitIsLost | OrionFS/storage_server/storage_server.c:1155-1163 | what is pushed between a session's reading under the commit lock and its writing back is lost, whatever it is |
| Witnesses.DeleteDuringCommitIsUndone | OrionFS/storage_server/storage_server.c:308-325 | a file deleted in between is back afterwards |
| Witnesses.CommittingIsReachable | OrionFS/storage_server/storage_server.c:398-660 | a session gets to that point from any state with a free key |
| Witnesses.NoCommitLockNoUpdate | OrionFS/storage_server/storage_server.c:61-70 | without a commit lock, of two sessions that read before either wrote, the later write takes the other back |
| Witnesses.MissingFileIsCreated | OrionFS/storage_server/storage_server.c:402-411 | a WRITE on a missing file creates it |
| CommitLaws.AloneRemapsToItself | OrionFS/storage_server/storage_server.c:679-780 | without interference every opened session is accepted and lands on its own sentence |
| CommitLaws.SpliceWellFormed | OrionFS/storage_server/storage_server.c:782-811 | the spliced list is well formed if and only if the edited text is last or ends in a delimiter (or, appended, follows a complete sentence) |
| CommitLaws.CommitParsesBack | OrionFS/storage_server/storage_server.c:782-822 | the written file parses back into the spliced list under exactly that condition |
| Confluence.RemapsToPlace | OrionFS/storage_server/storage_server.c:705-747 | after any subset of independent commits a session is remapped to where its sentence now stands |
| Confluence.CommitMerges | OrionFS/storage_server/storage_server.c:657-821 | one more independent commit turns the merge of some sessions into the merge of one more |
| Confluence.CommitsMergeInAnyOrder | OrionFS/storage_server/storage_server.c:657-821 | any number of independent sessions, any order: all accepted, and the file is the original with each edited sentence replaced |
| Confluence.OrderDoesNotMatter | OrionFS/storage_server/storage_server.c:657-821 | two orders of the same sessions give the same outcome |
| LockTables.SentenceLockTable.GetOrCreateLock | OrionFS/storage_server/storage_server.c:73-98 | the slot of the key, created if there is room; no other entry changes or moves |
| LockTables.SentenceLockTable.TryAcquireLock | OrionFS/storage_server/storage_server.c:100-114 | grants exactly a free key with a slot, and marks only that key |
| LockTables.SentenceLockTable.ReleaseLock | OrionFS/storage_server/storage_server.c:116-124 | frees that key and no other |
| LockTables.AcquireLaws | OrionFS/storage_server/storage_server.c:73-114 | keys stay unique, entries keep their slots, the key is locked afterwards exactly if it was or could be acquired, no other key is touched |
| LockTables.ReleaseLaws | OrionFS/storage_server/storage_server.c:116-124 | the key is free afterwards, every other key as before |
| LockTables.CanAcquireIff | OrionFS/storage_server/storage_server.c:100-114 | a lock is granted if and only if its key is not locked and has an entry, or there is room for one |
| LockTables.EntryLaws | OrionFS/storage_server/storage_server.c:73-124 | both operations make at most one entry, for their key; a granted entry names its user, a released one nobody; no other entry changes |
| UndoTables.UndoStore.SaveUndo | OrionFS/storage_server/storage_server.c:126-150 | replaces the image of the file, in its entry or a new one while there is room |
| UndoTables.UndoStore.GetUndo | OrionFS/storage_server/storage_server.c:152-166 | hands the image out and leaves none behind |
| UndoTables.SaveLaws | OrionFS/storage_server/storage_server.c:126-150 | the image of this file is set if there is room, of no other file |
| UndoTables.HasRoomIff | OrionFS/storage_server/storage_server.c:126-150 | there is room for every file that has an entry, and for others while fewer than 1000 have |
| UndoTables.TakeLaws | OrionFS/storage_server/storage_server.c:152-166 | taking clears this file's image and no other's |
| StorageServer.StepKeepsLocks | OrionFS/storage_server/storage_server.c:447-459 | every step of every session keeps lock table and holders in agreement and every entry in its slot |
| StepLaws.FileChangesIff | OrionFS/storage_server/storage_server.c:272-1163 | a file changes by the commit of a session that has read it, by CREATE if it is missing, by UNDO if there is an image, by REVERT if there is a checkpoint, by a push, and by DELETE, to the content that goes with it, and by nothing else; its backup likewise but for DELETE |
| StepLaws.SessionMoves | OrionFS/storage_server/storage_server.c:398-884 | a session passes from reading over locking, saving the image, editing, finishing, committing and leaving to its end by its own steps, each in its turn, or from editing straight to leaving when the connection is lost |
| StepLaws.SessionKeeps | OrionFS/storage_server/storage_server.c:398-884 | it keeps file, content and opening, and takes in updates only while it edits |
| StepLaws.SessionBegins | OrionFS/storage_server/storage_server.c:398-445 | a session begins exactly when the content of its file lets it open, with that content |
| StepLaws.SessionIsGiven | OrionFS/storage_server/storage_server.c:447-664 | it is granted its key if and only if nobody holds it and the table has a slot; it commits on the content of its file at that moment |
| StepLaws.LockChanges | OrionFS/storage_server/storage_server.c:447-866 | a key is taken only by the session it is granted to, and given back only by the session that holds it, on leaving |
| StepLaws.ImageChanges | OrionFS/storage_server/storage_server.c:461-905 | the undo image is the content that the last session to lock a sentence of the file had opened, until UNDO uses it up |
| StepLaws.CheckpointChanges | OrionFS/storage_server/storage_server.c:1004-1059 | a checkpoint is set by CHECKPOINT of an existing file, to its content, and by nothing else |
| SessionLife.PhasesAdvance | OrionFS/storage_server/storage_server.c:398-884 | over any run no session goes back to an earlier phase |
| SessionLife.NoWriteAfterLeaving | OrionFS/storage_server/storage_server.c:859-884 | no step of any run writes for a session that has left |
| SessionLife.DisconnectedNeverWrites | OrionFS/storage_server/storage_server.c:505-509 | a session that loses its connection while it edits never writes, whatever runs afterwards |
| SessionLife.DisconnectedGivesKeyBack | OrionFS/storage_server/storage_server.c:859-866 | whatever runs in between, it holds its key until it releases it; then the key is free, every other is as it was, and neither step changed a file |
| SessionLife.AbandonedRun | OrionFS/storage_server/storage_server.c:505-866 | in particular with nothing in between |
| SessionLife.CommitIsPrepared | OrionFS/storage_server/storage_server.c:398-664 | in any run a session that is about to commit was opened, was granted a key that nobody held, saved the image, was told to finish and read the content again, in this order, and took in exactly the updates sent to it between saving and finishing |
| SessionLife.EveryWriteIsExplained | OrionFS/storage_server/storage_server.c:398-824 | every write of a session, in any run from the empty server, is the commit of what it opened, with the updates sent to it, against the content the file had when it read it again |
| SessionLife.EverySessionCanEnd | OrionFS/storage_server/storage_server.c:398-884 | in every reachable state at most four steps end any session, and it then holds no key |
| StorageLaws.MutualExclusion | OrionFS/storage_server/storage_server.c:398-884 | in every interleaving: no two sessions between acquire and release share a key, a key is locked exactly while held, keys are unique |
| StorageLaws.RunKeepsLocks | OrionFS/storage_server/storage_server.c:865-866 | the same from any agreeing state; entries never move |
| StorageLaws.StepKeepsCommits | OrionFS/storage_server/storage_server.c:53-71 | at most one session commits under the lock of a file, with nobody beside it, even when the table of commit locks is full |
| RunLaws.RunKeepsGenuine | OrionFS/storage_server/storage_server.c:398-631 | in every reachable state each session is what opening its base content gives, after the updates it received |
| RunLaws.LatestStaysCurrentIff | OrionFS/storage_server/storage_server.c:658-664 | what a session read under the commit lock stays the content of the file through a step if and only if the step takes or gives back commit locks, or nobody holds that of the file, or the content stays |
| RunLaws.StepKeepsLatest | OrionFS/storage_server/storage_server.c:658-664 | in particular through every step of a WRITE session, and through any write while no session is committing to the file |
| RunLaws.CurrentRunIff | OrionFS/storage_server/storage_server.c:658-831 | over a whole run no session commits on a content that is gone if and only if no step disturbs one |
| RunLaws.QuietCommitsConserve | OrionFS/storage_server/storage_server.c:398-1059 | in any such run, with UNDO, REVERT, DELETE and pushes on the very file, every commit on a target found by text, or at the end, conserves the content it replaces |
| RunLaws.RunLosesNothing | OrionFS/storage_server/storage_server.c:398-884 | any interleaving of sessions, and of anything that leaves the file to them, whose commits hit by text or append: every visible character survives in order, the gain is exactly the accepted insertions of the sessions that committed |
| RunLaws.StartIsSound | OrionFS/storage_server/storage_server.c:398-400 | any files without sessions are a state to start such runs from |
| LockPromise.SteadyRunHitsOwnKeys | OrionFS/storage_server/storage_server.c:447-824 | while locks are granted on sentences still in place and commits keep the indices, every commit replaces the very sentence its session has locked, in any interleaving |
| LockPromise.SteadyRunLosesNothing | OrionFS/storage_server/storage_server.c:447-824 | such a run loses nothing, with no condition on where commits land |
| RunConfluence.EveryInterleavingMerges | OrionFS/storage_server/storage_server.c:398-884 | every interleaving of the steps of independent sessions, and of anything that leaves the file to them, ends in the original content with each committed sentence replaced by its edit |
| RunConfluence.InterleavingDoesNotMatter | OrionFS/storage_server/storage_server.c:398-884 | two interleavings that commit the same sessions leave the same file |
| Recovery.BackupMirrors | OrionFS/storage_server/storage_server.c:230-255 | in every run the backup of each existing file equals the file, and no backup ever disappears |
| Recovery.BackupSurvivesDelete | OrionFS/storage_server/storage_server.c:308-325 | in every run the backup of a deleted file holds its last content, for as long as nobody writes the file |
| Recovery.UndoRestores | OrionFS/storage_server/storage_server.c:886-905 | UNDO gives back what the last session on the file had opened, whatever was written since, unless another image was saved; a second UNDO changes nothing |
| Recovery.AbandonedSessionReplacesImage | OrionFS/storage_server/storage_server.c:461-514 | a session that disconnects still replaces the image, so the UNDO after it undoes nothing |
| Recovery.RevertRestores | OrionFS/storage_server/storage_server.c:1004-1059 | REVERT restores file and backup to the latest CHECKPOINT with that tag, whatever happened in between |
| WriteLine.FindFinish | OrionFS/client/client.c:182-183 | strstr: the first occurrence of ETIRW |
| WriteLine.Accept | OrionFS/client/client.c:199-219 | one turn of the token loop: a number flushes the pair so far, words extend it, words before any number are ignored |
| WriteLine.TakeLine | OrionFS/client/client.c:190-221 | the token loop takes every blank-separated token in order; its own test for ETIRW can never succeed |
| WriteLine.ParseInput | OrionFS/client/client.c:180-238 | the messages of a line, sent in order |
| WriteLine.TypedLineSends | OrionFS/client/client.c:190-230 | a line printed from (index, words) pairs sends exactly those updates, in order |
| WriteLine.FinishingLineSends | OrionFS/client/client.c:180-238 | with ETIRW behind it the same line sends the same updates and then exactly one finish message |
| WriteLine.AnyLineSends | OrionFS/client/client.c:190-230 | whatever is typed: words in front of the first number are ignored, and each number with words behind it sends one update, in order |
| WriteLine.FinishCutsLine | OrionFS/client/client.c:180-238 | what stands behind ETIRW is ignored; the line sends what the part in front says, and then the finish message |
| WriteSessions.SendLines | OrionFS/client/client.c:167-239 | the input loop: empty lines skipped, stop at the first line with ETIRW, finish also at the end of the input |
| WriteSessions.LineUpdatesAreProper | OrionFS/client/client.c:180-238 | whatever is typed, each update has a non-negative index and non-empty text without ETIRW and without blanks at its ends |
| WriteSessions.ReceiveUpdates | OrionFS/storage_server/storage_server.c:501-632 | the receive loop feeds every message before ETIRW to the word array; a lost connection ends it uncommitted |
| WriteSessions.CommittedIffWhole | OrionFS/storage_server/storage_server.c:503-514 | a client's stream cut anywhere commits if and only if it arrived whole; the updates taken in are a prefix of those sent |
| WriteSessions.WhatIsTypedIsApplied | OrionFS/client/client.c:167-239 | pairs typed over any number of lines and closed by ETIRW are exactly what the server applies, in order, before it commits |
| WriteSessions.TypedSessionEditsFile | OrionFS/storage_server/storage_server.c:398-884 | a typed session nobody interferes with is accepted, loses no visible text, gains exactly the updates in range, and parses back exactly when the edit fits its place |
| HashTables.HashTable.Get | OrionFS/naming_server/nm_storage.c:449-457 | the node of the key in the finite map the buckets and chains stand for |
| HashTables.HashTable.Put | OrionFS/naming_server/nm_storage.c:459-475 | that map with the key set, by overwriting an entry or hanging a new one at the bucket head |
| HashTables.HashTable.Remove | OrionFS/naming_server/nm_storage.c:477-490 | that map without the key; the chain is relinked around the entry |
| LruCaches.LruCache.constructor | OrionFS/naming_server/nm_storage.c:531-542 | an empty cache, the default capacity for a non-positive one, at least twice and less than four times as many buckets |
| LruCaches.LruCache.DetachNode | OrionFS/naming_server/nm_storage.c:514-521 | the list without the node, prev and next still mirroring each other from head to tail |
| LruCaches.LruCache.AttachFront | OrionFS/naming_server/nm_storage.c:523-529 | the list with the node in front, pointers mirrored |
| LruCaches.LruCache.Get | OrionFS/naming_server/nm_storage.c:544-554 | the cached record, which moves to the front of the recency list; list, table and size stay in agreement |
| LruCaches.LruCache.Put | OrionFS/naming_server/nm_storage.c:556-583 | the pair goes to the front; a new key in a full cache drops the last pair, from list and table |
| LruCaches.LruCache.Remove | OrionFS/naming_server/nm_storage.c:585-594 | the key leaves list and table |
| LruLaws.OperationsKeepShape | OrionFS/naming_server/nm_storage.c:544-594 | keys stay distinct and the size within capacity under get, put and remove |
| LruLaws.TouchedLookup | OrionFS/naming_server/nm_storage.c:544-554 | a get changes what no key maps to |
| LruLaws.StoredLookup | OrionFS/naming_server/nm_storage.c:556-583 | a put sets its key, forgets exactly the least recently used key when it overflows, and changes no other |
| LruLaws.RemovedLookup | OrionFS/naming_server/nm_storage.c:585-594 | a remove forgets its key only |
| LruLaws.PositionAfterRead | OrionFS/naming_server/nm_storage.c:544-554 | a get takes its key to the front of the recency list, those in front of it one place back, and leaves the others |
| LruLaws.PositionAfterWrite | OrionFS/naming_server/nm_storage.c:556-583 | so does a put; a new key moves all of them one place back, and the last out of a full cache |
| LruLaws.CacheIsMostRecentPart | OrionFS/naming_server/nm_storage.c:544-594 | after any history of gets, puts and removes the cache is a prefix of all stored keys ordered by last use |
| LruLaws.CacheHoldsMostRecent | OrionFS/naming_server/nm_storage.c:544-583 | without removes it is the first `capacity` of them |
| LruLaws.RemovalLeavesRoom | OrionFS/naming_server/nm_storage.c:585-594 | a history with a remove after which it is not |
| TrieOrder.WalkListsKeys | OrionFS/naming_server/nm_storage.c:104-120 | the walk of a subtree visits exactly the keys below it |
| TrieOrder.WalkAscends | OrionFS/naming_server/nm_storage.c:104-120 | in strictly ascending unsigned byte order, hence without repeats |
| Tries.Trie.Search | OrionFS/naming_server/nm_storage.c:72-85 | the record of the name in the finite map the nodes stand for |
| Tries.Trie.Insert | OrionFS/naming_server/nm_storage.c:55-70 | that map with the name set |
| Tries.Trie.Delete | OrionFS/naming_server/nm_storage.c:87-102 | that map without the name; -1 exactly when the path does not exist |
| Tries.Trie.CollectNames | OrionFS/naming_server/nm_storage.c:104-120 | the recursive walk over one shared prefix buffer, within its bounds, appends the names below the node up to the limit |
| Tries.Trie.GetAllFiles | OrionFS/naming_server/nm_storage.c:122-127 | the first min(max, n) names in ascending byte order: none repeated, none smaller left out |
| AccessControl.FileMetadata.constructor | OrionFS/naming_server/nm_storage.c:305-325 | a new record lists its owner at WRITE and nobody else |
| AccessControl.FileMetadata.AddFileAccess | OrionFS/naming_server/nm_storage.c:327-368 | the list after the grant; -1 exactly when the user is new and the list full |
| AccessControl.FileMetadata.RemoveFileAccess | OrionFS/naming_server/nm_storage.c:370-388 | the list without the user's entry, later entries moved down; refused for the owner and for unknown users |
| AccessControl.FileMetadata.CheckFileAccess | OrionFS/naming_server/nm_storage.c:390-400 | the level listed for the user, none if not listed |
| AccessControl.GrantLaws | OrionFS/naming_server/nm_storage.c:327-368 | a grant keeps users distinct, at most 100 of them, the owner at WRITE, and changes this user's level only |
| AccessControl.GrantSetsLevel | OrionFS/naming_server/nm_storage.c:327-368 | after a grant the user has WRITE if he is the owner or had it, else the level asked for if he is listed or fewer than 100 are, else none; everybody else what they had |
| AccessControl.AccessIsListed | OrionFS/naming_server/nm_storage.c:390-400 | a user has the level of his entry, or none |
| AccessControl.GrantNeverLowersWrite | OrionFS/naming_server/nm_storage.c:327-368 | no grant to anyone lowers a WRITE |
| AccessControl.RevokeLaws | OrionFS/naming_server/nm_storage.c:370-388 | a revocation takes this user's access only, and never the owner's |
| AccessRequests.RequestTable.Append | OrionFS/naming_server/nm_storage.c:823-847 | adds one pending request unless an argument is empty, one is pending already, or the table is full, with the code for each |
| AccessRequests.RequestTable.Resolve | OrionFS/naming_server/nm_storage.c:881-894 | closes the first pending request of this user for this file; -1 exactly when there is none |
| AccessRequests.ResolveClears | OrionFS/naming_server/nm_storage.c:881-894 | afterwards none is pending for that pair, and every other request is as it was |
| AccessRequests.ReachableIsSound | OrionFS/naming_server/nm_storage.c:823-906 | in every reachable state each access list is in order and at most one request per file and requester is pending |
| AccessRequests.StartIsSound | OrionFS/naming_server/nm_storage.c:777-778 | the empty server is a state to start from |
| AccessRequests.ApprovalTakesEffect | OrionFS/naming_server/nm_storage.c:881-906 | an approval by a checked owner closes the request at once; whenever its grant is carried out, whatever ran in between, the requester has at least the approved level if the record exists and the list has room |
| AccessLaws.AccessChanges | OrionFS/naming_server/naming_server.c:660-1058 | of the users of a file only the one named gains or loses access, only by its owner or an approval that is carried out, and to exactly the level that goes with it; a denial, a request or an approval not yet carried out changes nobody |
| AccessLaws.RecordsChange | OrionFS/naming_server/naming_server.c:121-476 | a record comes by creation, with its owner alone at WRITE, and goes when its owner deletes it |
| AccessLaws.ChecksChange | OrionFS/naming_server/naming_server.c:996-1049 | a handler passes its check exactly when the sender owns the file, or lacks the access he asks for, and uses it once |
| AccessLaws.ApprovalsChange | OrionFS/naming_server/nm_storage.c:881-906 | an approval comes from a checked owner approving a pending request, and is carried out once |
| AccessLaws.RequestsChange | OrionFS/naming_server/nm_storage.c:823-894 | a request waits from when it is made until a checked owner approves or denies it |
| AccessLaws.EveryAccessIsGiven | OrionFS/naming_server/naming_server.c:660-1058 | in any run from the empty server, who has access to a file of another was given that very level by its owner, or asked for access while he lacked it, was approved while the request waited by someone who had been found to own the file, and the approval was carried out |
| Persistence.PrintLine | OrionFS/naming_server/nm_storage.c:146-170 | the line of a record |
| MetadataColumns.PrintedColumns | OrionFS/naming_server/nm_storage.c:146-170 | the fields of the line, one by one: name, owner, server, address, port, times, last user, size, counts, number of entries, entries |
| Persistence.LoadRecords | OrionFS/naming_server/nm_storage.c:191-301 | the line loop of the loader builds the map that Load describes, malformed lines skipped |
| MetadataColumns.LoadedColumns | OrionFS/naming_server/nm_storage.c:207-295 | what each field of a line with fourteen fields, or with five, becomes; no other line is a record; the owner is at WRITE unless the list is full without him, everybody else at the level of his first entry |
| MetadataColumns.LoadedEntries | OrionFS/naming_server/nm_storage.c:246-265 | the entries with a colon among the first 2047 characters, the first 100 of them: user in front of the first colon, number behind it |
| MetadataColumns.LoadedAccess | OrionFS/naming_server/nm_storage.c:267-281 | making sure of the owner changes nobody else |
| MetadataColumns.LoadConcat | OrionFS/naming_server/nm_storage.c:198-297 | loading a text behind another adds to what the first gives |
| MetadataColumns.LastLineCounts | OrionFS/naming_server/nm_storage.c:198-297 | each line adds its record, in the place of an earlier one of that name |
| Persistence.LineRoundTrip | OrionFS/naming_server/nm_storage.c:198-297 | the line of a record reads back as the record with its owner at WRITE; with an empty access list it is skipped |
| Persistence.LineSurvivesIff | OrionFS/naming_server/nm_storage.c:246-281 | a record comes back unchanged if and only if its owner is listed at WRITE, or is missing from a full list |
| Survival.LoadedAreRestored | OrionFS/naming_server/nm_storage.c:191-301 | whatever the text, every loaded record has non-empty names without separators, and clean users besides the owner it was given |
| Survival.RecordSurvivesIff | OrionFS/naming_server/nm_storage.c:143-301 | a record within the buffers comes back from the file as it was if and only if its names are non-empty and free of separators, its users free of separators, and its owner listed at WRITE or missing from a full list |
| MetadataFiles.SaveBelow | OrionFS/naming_server/nm_storage.c:146-178 | the recursive walk over one shared prefix buffer writes the lines of the names below the node |
| MetadataFiles.SaveTrie | OrionFS/naming_server/nm_storage.c:180-188 | one line per file in ascending order of names; loading the text gives the same files, if each record is stored at its own name and fits the line limits |
| MetadataFiles.LoadTrie | OrionFS/naming_server/nm_storage.c:191-301 | a new trie with exactly the records that Load describes |
| MetadataFiles.MetadataRoundTrip | OrionFS/naming_server/nm_storage.c:143-301 | loading what was saved rebuilds the same map, access lists and their order included, in whatever order the names were saved |
| Restart.RestartLosesLastAccessOnly | OrionFS/naming_server/naming_server.c:121-1190 | after any requests, loading what was saved last gives the files of the index, with all of their records but the last access |
| Restart.AccessIsSavedIff | OrionFS/naming_server/naming_server.c:248-251 | a READ, STREAM or UNDO leaves the saved index up to date if and only if it records nothing new |
| Restart.ChangesAreSaved | OrionFS/naming_server/naming_server.c:159-182 | every other request that changes the index brings the saved one up to date |
| Restart.RecordChanges | OrionFS/naming_server/naming_server.c:159-1188 | an update sets the counts of its file, an access the last access, and no request changes anything else of a record but its access list |
| Restart.LevelsChange | OrionFS/naming_server/naming_server.c:660-906 | of which it changes the level of one user, on behalf of the owner or an approval |
| Restart.FilesChange | OrionFS/naming_server/naming_server.c:121-1125 | a file comes with the record it is created or registered with, and goes when its owner deletes it |
| RoundRobin.Selector.Select | OrionFS/naming_server/nm_storage.c:646-654 | the server after the last one selected, wrapping around; none when there is no server |
| RoundRobin.Selector.SelectMany | OrionFS/naming_server/nm_storage.c:646-654 | k selections in a row are the sequence the next two rows speak of |
| RoundRobin.SelectionIsBalanced | OrionFS/naming_server/nm_storage.c:646-654 | after any k selections, from any start, each of n servers was chosen floor(k/n) or ceil(k/n) times |
| RoundRobin.OneRoundIsAPermutation | OrionFS/naming_server/nm_storage.c:646-654 | any n consecutive selections choose each server once |
| NamingServer.Index.Lookup | OrionFS/naming_server/naming_server.c:208-213 | cache first, trie second: always the very record the trie holds |
| NamingServer.Index.CreateFile | OrionFS/naming_server/naming_server.c:121-199 | refused for a known name or a failed storage server, else the index gains a fresh record of the sender |
| NamingServer.Index.SeedFile | OrionFS/naming_server/naming_server.c:1114-1125 | a name the index does not know gains a record; known names keep theirs |
| NamingServer.Index.DeleteFile | OrionFS/naming_server/naming_server.c:417-476 | the record leaves trie and cache together, exactly when it exists, the sender owns it and the storage server agrees |
| NamingServer.Index.UpdateMetadata | OrionFS/naming_server/naming_server.c:1170-1188 | the counts, size and modification time of this record are set and no other record changes; every update is acknowledged |
| NamingServer.RunServer | OrionFS/naming_server/naming_server.c:1246-1251 | from its start over a loaded trie, with an empty cache, the server answers like a plain map of the loaded files |
| NamingServer.Index.Serve | OrionFS/naming_server/naming_server.c:121-476 | over any sequence of requests the answers and the owners of all files are those of a plain map, while every cache entry is the record the trie holds |
| IndexLaws.OwnersChange | OrionFS/naming_server/naming_server.c:121-476 | a name comes by a creation the storage server carried out or by registration, goes by a deletion its owner asked for and the storage server carried out, and never changes hands |
| IndexLaws.AnswersMean | OrionFS/naming_server/naming_server.c:121-476 | each answer is given exactly when what it says is so; a refusal changes nothing |
| IndexLaws.EveryFileWasBrought | OrionFS/naming_server/naming_server.c:121-1125 | after any requests each file was there from the start or was brought by one of them for the owner it has |
| IndexLaws.EveryLossWasOwned | OrionFS/naming_server/naming_server.c:417-476 | and each file that is gone was deleted by the owner it had |
| LockOrder.NoCircularWait | OrionFS/naming_server/naming_server.c:996-1058 | threads that take mutexes in rank order never wait in a circle, in any reachable state |
| LockOrder.NoDeadlock | OrionFS/naming_server/naming_server.c:996-1058 | and while one of them has work left, one of them can go on |
| HandlerLocks.OrderedUnlessBlocking | OrionFS/naming_server/nm_storage.c:858-945 | a handler path takes its mutexes in rank order if and only if it is not a MOVE to a missing folder |
| HandlerLocks.HandlersDoNotDeadlock | OrionFS/naming_server/naming_server.c:908-1190 | any number of threads serving any other requests, in any interleaving, never deadlock on their mutexes |
| HandlerLocks.BlockingHandlerBlocks | OrionFS/naming_server/nm_storage.c:910-927 | in any system with a MOVE to a missing folder, some schedule brings its thread to wait for itself, and nothing later wakes it |
| HandlerLocks.DeadlockIff | OrionFS/naming_server/naming_server.c:744-808 | a system of requests can deadlock on its mutexes if and only if one of them is a MOVE to a missing folder |
| HandlerLocks.MoveToMissingFolderBlocks | OrionFS/naming_server/nm_storage.c:910-927 | MOVE to a missing folder, alone, leaves the server with work and no step to take |

## Left out

- Sockets, message framing, timeouts and heartbeat exchange: messages are inputs of the steps.
- Real files, directories and paths, `resolve_existing_file_path` and moving files between folders: stored content is a
  map from names to texts.
- EXEC, STREAM, logging, the texts of replies, client menus, LIST, INFO and VIEW output: presentation or foreign calls.
- Folder tables and their file, the user list, and the file of pending access requests: simple lists.
- Pushing content to replicas and resynchronising them: unacknowledged and unordered, no convergence is promised. Content
  that arrives this way is an event of the storage server's step machine.
- `naming_server/storage_server/storage_server.c`: an older copy without remapping, splitting or commit locks.
- Allocation failures and `free`; access times of cache nodes and the last access of a record.
- Fixed buffers for names, contents and messages (64, 256, 1024 and 4096 bytes): texts have any length. The limits of
  1000 sentences, 1000 words, 1000 table entries, 100 access entries, 256-byte names in the trie, 4096-byte lines and the
  2048-byte access list of the loader are modelled.
- Sentences.ParseSentences: requires at most 1000 sentences; the program would write behind its array.
- Numbers that are printed and read back have any size; overflow of `int` and `time_t` is not modelled.
- Persistence.ParseLine: a size is read from its digits; `strtoull` would also take white space or a sign in front.
- RunLaws.RunLosesNothing, RunConfluence.EveryInterleavingMerges: nothing but WRITE sessions writes the file meanwhile,
  since CREATE, DELETE, UNDO, REVERT and pushed content replace it as they like; RunLaws.QuietCommitsConserve is the
  statement for runs with such writes. Sessions commit under a commit lock.
- The write of a file and of its backup copy are one step, as are the whole UNDO, CHECKPOINT and REVERT handlers.
- The step machine puts no limit on the number of sentences of a file.
- RoundRobin.SelectionIsBalanced: the number of servers is fixed; selections happen one at a time, as under the trie
  mutex that their only caller holds.
- The handlers on the metadata index run one at a time, as under the trie mutex; the lookups the program makes without it
  (recovery after a registration) are not modelled. Access lists change through their own class.
- MetadataFiles.LoadTrie: requires that every loaded name fits the trie; the program cuts longer names.
- In the lock-order model the log is open, so that every log message takes its mutex; the per-entry mutexes and table
  mutexes of the storage server are taken one at a time and are not part of it. Waiting for an answer on a socket, which
  CREATE and DELETE do with the trie mutex held, is not part of it either.
