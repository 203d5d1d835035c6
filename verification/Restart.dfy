/** What a naming server that is started again knows: which requests save the index to metadata.dat and which only
    change it in memory (naming_server/naming_server.c, naming_server/nm_storage.c). */
module Restart {
  import opened AccessControl
  import opened Persistence
  import opened MetadataFiles

  /** The index in memory, and the one that was saved last. */
  datatype State = State(index: map<string, FileRecord>, saved: map<string, FileRecord>)

  datatype Event =
    | Create(r: FileRecord)
    | Delete(file: string, sender: string)
    | Seed(rs: seq<FileRecord>)
    | UpdateCounts(file: string, words: int, chars: nat, now: int)
    | AddAccess(file: string, sender: string, user: string, access: int)
    | RemoveAccess(file: string, sender: string, user: string)
    | GrantApproved(file: string, user: string, access: int)
    | Access(file: string, user: string, now: int) // READ, STREAM and UNDO, when they are granted

  predicate OwnedBy(s: State, file: string, sender: string) {
    file in s.index && s.index[file].owner == sender
  }

  /** trie_save_to_disk of the changed index. */
  function Saved(index: map<string, FileRecord>): State {
    State(index, index)
  }

  function Seeded(index: map<string, FileRecord>, rs: seq<FileRecord>): map<string, FileRecord>
    decreases |rs|
  {
    if rs == [] then index
    else Seeded(if rs[0].filename in index then index else index[rs[0].filename := rs[0]], rs[1..])
  }

  function Step(s: State, e: Event): State {
    match e
    case Create(r) => if r.filename in s.index then s else Saved(s.index[r.filename := r])
    case Delete(file, sender) => if OwnedBy(s, file, sender) then Saved(s.index - {file}) else s
    case Seed(rs) => var index := Seeded(s.index, rs); if index == s.index then s else Saved(index)
    case UpdateCounts(file, words, chars, now) =>
      if file in s.index then
        Saved(s.index[file := s.index[file].(wordCount := words, charCount := chars, sizeBytes := chars,
                                             lastModified := now)])
      else s
    case AddAccess(file, sender, user, access) =>
      if OwnedBy(s, file, sender) then
        var r := s.index[file];
        Saved(s.index[file := r.(acl := WithGrant(r.acl, r.owner, user, access))])
      else s
    case RemoveAccess(file, sender, user) =>
      if OwnedBy(s, file, sender) then
        var r := s.index[file];
        Saved(s.index[file := r.(acl := WithoutGrant(r.acl, r.owner, user))])
      else s
    case GrantApproved(file, user, access) =>
      if file in s.index then
        var r := s.index[file];
        Saved(s.index[file := r.(acl := WithGrant(r.acl, r.owner, user, access))])
      else s
    case Access(file, user, now) =>
      if file in s.index then
        s.(index := s.index[file := s.index[file].(lastAccessed := now, lastAccessedBy := user)])
      else s
  }

  function Run(s: State, es: seq<Event>): State
    decreases |es|
  {
    if es == [] then s else Run(Step(s, es[0]), es[1..])
  }

  // -------------------------------------------------------------------- what each request changes

  /** In the record of a file that stays, an update sets the counts, an access the last access, and nothing else
      changes. */
  lemma RecordChanges(s: State, e: Event, k: string)
    requires k in s.index && k in Step(s, e).index
    ensures var r, q := s.index[k], Step(s, e).index[k];
            && q.filename == r.filename && q.owner == r.owner && q.createdAt == r.createdAt
            && q.ssId == r.ssId && q.ssIp == r.ssIp && q.ssClientPort == r.ssClientPort
            && (if e.UpdateCounts? && e.file == k
                then q.wordCount == e.words && q.charCount == q.sizeBytes == e.chars && q.lastModified == e.now
                else q.wordCount == r.wordCount && q.charCount == r.charCount && q.sizeBytes == r.sizeBytes
                     && q.lastModified == r.lastModified)
            && (if e.Access? && e.file == k then q.lastAccessed == e.now && q.lastAccessedBy == e.user
                else q.lastAccessed == r.lastAccessed && q.lastAccessedBy == r.lastAccessedBy)
  {
    if e.Seed? {
      SeededKeeps(s.index, e.rs, k);
    }
    hide WithGrant, WithoutGrant, Seeded;
  }

  predicate GrantsAt(e: Event, k: string, owner: string) {
    (e.AddAccess? && e.file == k && e.sender == owner) || (e.GrantApproved? && e.file == k)
  }

  predicate RevokesAt(e: Event, k: string, owner: string) {
    e.RemoveAccess? && e.file == k && e.sender == owner
  }

  lemma ListChanges(s: State, e: Event, k: string)
    requires k in s.index && k in Step(s, e).index
    ensures var r, acl := s.index[k], Step(s, e).index[k].acl;
            acl == if GrantsAt(e, k, r.owner) then WithGrant(r.acl, r.owner, e.user, e.access)
                   else if RevokesAt(e, k, r.owner) then WithoutGrant(r.acl, r.owner, e.user)
                   else r.acl
  {
    if e.Seed? {
      SeededKeeps(s.index, e.rs, k);
    }
    hide WithGrant, WithoutGrant, Seeded;
  }

  /** And of its access list, the level of one user, by a grant or a revocation of the owner or an approval that is
      carried out. */
  lemma LevelsChange(s: State, e: Event, k: string, u: string)
    requires k in s.index && k in Step(s, e).index && AclOk(s.index[k].acl, s.index[k].owner)
    ensures var r := s.index[k];
            AccessOf(Step(s, e).index[k].acl, u)
            == if GrantsAt(e, k, r.owner) && e.user == u then LevelAfter(r.acl, r.owner, u, e.access)
               else if RevokesAt(e, k, r.owner) && e.user == u && u != r.owner then ACCESS_NONE
               else AccessOf(r.acl, u)
  {
    var r := s.index[k];
    ListChanges(s, e, k);
    hide Step, AccessOf, WithGrant, WithoutGrant, LevelAfter, AclOk;
    if GrantsAt(e, k, r.owner) {
      GrantSetsLevel(r.acl, r.owner, e.user, e.access, u);
    } else if RevokesAt(e, k, r.owner) {
      RevokeLaws(r.acl, r.owner, e.user, u);
    }
  }

  lemma {:induction false} SeededKeeps(index: map<string, FileRecord>, rs: seq<FileRecord>, k: string)
    ensures k in index ==> k in Seeded(index, rs) && Seeded(index, rs)[k] == index[k]
    ensures k !in index && k in Seeded(index, rs) ==> Seeded(index, rs)[k] in rs && Seeded(index, rs)[k].filename == k
    ensures k in Seeded(index, rs) <==> k in index || exists i :: 0 <= i < |rs| && rs[i].filename == k
    decreases |rs|
  {
    if rs != [] {
      SeededKeeps(if rs[0].filename in index then index else index[rs[0].filename := rs[0]], rs[1..], k);
      assert forall i :: 1 <= i < |rs| ==> rs[i] == rs[1..][i - 1];
      assert forall i :: 0 <= i < |rs| - 1 ==> rs[1..][i] == rs[i + 1];
    }
  }

  /** A file comes with the record it is created or registered with, and goes when its owner deletes it. */
  lemma FilesChange(s: State, e: Event, k: string)
    ensures var t := Step(s, e);
            && (k in s.index && k !in t.index <==>
                  k in s.index && e.Delete? && e.file == k && e.sender == s.index[k].owner)
            && (k !in s.index && k in t.index <==>
                  && k !in s.index
                  && ((e.Create? && e.r.filename == k)
                      || (e.Seed? && exists i :: 0 <= i < |e.rs| && e.rs[i].filename == k)))
            && (k !in s.index && k in t.index ==>
                  t.index[k].filename == k && if e.Create? then t.index[k] == e.r else e.Seed? && t.index[k] in e.rs)
  {
    if e.Seed? {
      SeededKeeps(s.index, e.rs, k);
    }
    hide WithGrant, WithoutGrant, Seeded;
  }

  /** The record without its last access. */
  function Forget(r: FileRecord): FileRecord {
    r.(lastAccessed := 0, lastAccessedBy := "")
  }

  /** The same files with the same records, up to their last access. */
  ghost predicate SameButAccess(a: map<string, FileRecord>, b: map<string, FileRecord>) {
    a.Keys == b.Keys && forall k :: k in a ==> Forget(a[k]) == Forget(b[k])
  }

  lemma StepKeepsSaved(s: State, e: Event)
    requires SameButAccess(s.index, s.saved)
    ensures SameButAccess(Step(s, e).index, Step(s, e).saved)
  {
    hide WithGrant, WithoutGrant, Seeded;
    var t := Step(s, e);
    if e.Access? && t != s {
      assert t.index.Keys == s.index.Keys;
    }
  }

  lemma {:induction false} RunKeepsSaved(s: State, es: seq<Event>)
    requires SameButAccess(s.index, s.saved)
    ensures SameButAccess(Run(s, es).index, Run(s, es).saved)
    decreases |es|
  {
    hide Step, SameButAccess;
    if es != [] {
      StepKeepsSaved(s, es[0]);
      RunKeepsSaved(Step(s, es[0]), es[1..]);
    }
  }

  /** After any requests, a server that is started again has the files it had, with everything in their records but who
      read them last and when. */
  lemma RestartLosesLastAccessOnly(s: State, es: seq<Event>, names: seq<string>, now: int)
    requires SameButAccess(s.index, s.saved)
    requires Saveable(Run(s, es).saved) && ListsInOrder(names, Run(s, es).saved.Keys)
    ensures SameButAccess(Load(Lines(Run(s, es).saved, names), now, map[]), Run(s, es).index)
  {
    hide Run, Load, Lines, Saveable, ListsInOrder;
    RunKeepsSaved(s, es);
    LoadOfLines(Run(s, es).saved, names, now);
  }

  /** The last access does get lost: exactly when it says something new. */
  lemma AccessIsSavedIff(s: State, file: string, user: string, now: int)
    requires s.index == s.saved
    ensures var t := Step(s, Access(file, user, now));
            t.index == t.saved <==>
            (file in s.index ==> s.index[file].lastAccessed == now && s.index[file].lastAccessedBy == user)
  {
    var t := Step(s, Access(file, user, now));
    if file in s.index {
      var r := s.index[file].(lastAccessed := now, lastAccessedBy := user);
      assert t.index[file] == r && t.saved[file] == s.index[file];
      if r == s.index[file] {
        assert s.index[file := r] == s.index;
      }
    }
  }

  /** And any other request that changes the index brings it up to date. */
  lemma ChangesAreSaved(s: State, e: Event)
    requires !e.Access? && Step(s, e).index != s.index
    ensures Step(s, e).saved == Step(s, e).index
  {
    hide WithGrant, WithoutGrant, Seeded;
  }
}
