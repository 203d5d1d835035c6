/** The metadata index of the naming server: a trie of records with a cache in front of it, as the request handlers
    use and change the two under the trie mutex (naming_server/naming_server.c). */
module NamingServer {
  import opened Options
  import opened AccessControl
  import opened TrieOrder
  import opened Tries
  import opened Lists
  import opened LruCaches
  import opened LruLaws

  /** A file name as it fits the message buffer. */
  predicate IsFileName(s: string) {
    IsName(s) && |s| < MAX_FILENAME_LEN
  }

  /** Every cached pair is a pair of the index: the same name with the very same record. */
  ghost predicate Agree(es: Recency<FileMetadata>, m: map<string, FileMetadata>) {
    forall i :: 0 <= i < |es| ==> es[i].0 in m && m[es[i].0] == es[i].1
  }

  /** The cache list as the cache keeps it: one pair per name, no more than the capacity, all of them current. */
  ghost predicate Current(es: Recency<FileMetadata>, capacity: nat, m: map<string, FileMetadata>) {
    Agree(es, m) && DistinctNames(es) && |es| <= capacity && 0 < capacity
  }

  /** A cache hit is what the trie holds. */
  lemma HitIsCurrent(es: Recency<FileMetadata>, capacity: nat, m: map<string, FileMetadata>, file: string)
    requires Current(es, capacity, m)
    ensures LruCaches.Lookup(es, file).Some? ==> file in m && LruCaches.Lookup(es, file) == Some(m[file])
  {
  }

  lemma TouchedIsCurrent(es: Recency<FileMetadata>, capacity: nat, m: map<string, FileMetadata>, file: string)
    requires Current(es, capacity, m)
    ensures Current(Touched(es, file), capacity, m)
  {
    if Cached(es, file) {
      OperationsKeepShape(es, capacity, file, es[IndexOf(es, file)].1);
    }
  }

  lemma AgreeWithoutKey(es: Recency<FileMetadata>, m: map<string, FileMetadata>, file: string, r: FileMetadata)
    requires Agree(es, m) && forall j :: 0 <= j < |es| ==> es[j].0 != file
    ensures Agree([(file, r)] + es, m[file := r])
  {
  }

  lemma AgreeOmit(es: Recency<FileMetadata>, m: map<string, FileMetadata>, i: nat)
    requires Agree(es, m) && i < |es|
    ensures Agree(Omit(es, i), m)
  {
  }

  lemma StoredIsCurrent(es: Recency<FileMetadata>, capacity: nat, m: map<string, FileMetadata>, file: string,
                        r: FileMetadata)
    requires Current(es, capacity, m)
    ensures Current(Stored(es, capacity, file, r), capacity, m[file := r])
  {
    OperationsKeepShape(es, capacity, file, r);
    var i := IndexOf(es, file);
    if i < |es| {
      DistinctOmit(es, i);
      AgreeOmit(es, m, i);
      hide Omit, DistinctNames, IndexOf;
      AgreeWithoutKey(Omit(es, i), m, file, r);
    } else {
      hide Omit, DistinctNames, IndexOf;
      AgreeWithoutKey(es, m, file, r);
    }
  }

  lemma RemovedIsCurrent(es: Recency<FileMetadata>, capacity: nat, m: map<string, FileMetadata>, file: string)
    requires Current(es, capacity, m)
    ensures Current(Removed(es, file), capacity, m - {file})
  {
    var i := IndexOf(es, file);
    if i < |es| {
      DistinctOmit(es, i);
    }
  }

  /** A record as it is created: of this file and owner, with no content yet, and the owner alone at WRITE. */
  ghost predicate IsNew(r: FileMetadata, file: string, owner: string, now: int)
    reads r, r.accessList
  {
    && r.filename == file && r.owner == owner && r.lastModified == now
    && r.wordCount == r.charCount == r.sizeBytes == 0
    && r.Valid() && r.Acl() == [Grant(owner, ACCESS_WRITE)]
  }

  /** create_file_metadata. */
  method NewRecord(file: string, owner: string, now: int) returns (r: FileMetadata)
    ensures fresh(r) && fresh(r.accessList) && IsNew(r, file, owner, now) && r.owner == owner
  {
    r := new FileMetadata(file, owner, now);
  }

  /** NoReply: the names a storage server registers with are not answered one by one. */
  datatype Reply = Done | FileExists | NotFound | NotOwner | StorageFailed | NoReply

  // ----------------------------------------------------------- the index as a plain map of owners

  datatype Request =
    | Create(file: string, sender: string, stored: bool, now: int)
    | Find(file: string)
    | Delete(file: string, sender: string, removed: bool)
    | Seed(file: string, now: int)
    | Update(file: string, words: int, chars: int, now: int)

  /** What a request answers when the index is just a map from names to owners. */
  function Answer(owners: map<string, string>, q: Request): Reply {
    match q
    case Create(f, _, stored, _) => if f in owners then FileExists else if !stored then StorageFailed else Done
    case Find(f) => if f in owners then Done else NotFound
    case Delete(f, sender, removed) =>
      if f !in owners then NotFound else if owners[f] != sender then NotOwner
      else if !removed then StorageFailed else Done
    case Seed(_, _) => NoReply
    case Update(_, _, _, _) => Done
  }

  function Effect(owners: map<string, string>, q: Request): map<string, string> {
    match q
    case Create(f, sender, _, _) => if Answer(owners, q) == Done then owners[f := sender] else owners
    case Delete(f, _, _) => if Answer(owners, q) == Done then owners - {f} else owners
    case Seed(f, _) => if f in owners then owners else owners[f := "system"]
    case _ => owners
  }

  function Answers(owners: map<string, string>, qs: seq<Request>): seq<Reply>
    decreases |qs|
  {
    if qs == [] then [] else [Answer(owners, qs[0])] + Answers(Effect(owners, qs[0]), qs[1..])
  }

  function Effects(owners: map<string, string>, qs: seq<Request>): map<string, string>
    decreases |qs|
  {
    if qs == [] then owners else Effects(Effect(owners, qs[0]), qs[1..])
  }

  function OwnersOf(files: map<string, FileMetadata>): map<string, string> {
    map f | f in files :: files[f].owner
  }

  class Index {
    const trie: Trie<FileMetadata>
    const cache: LruCache<FileMetadata>

    ghost function Files(): map<string, FileMetadata>
      reads trie, trie.nodes.Values
    {
      trie.Contents()
    }

    ghost predicate Valid()
      reads trie, trie.nodes.Values
      reads cache, cache.order, cache.table, cache.table.buckets, cache.table.entries
    {
      trie.Valid() && cache.Valid() && Current(cache.Entries(), cache.capacity, Files())
    }

    /** An index with no files and an empty cache. */
    constructor ()
      ensures Valid() && Files() == map[] && fresh(trie) && fresh(trie.nodes.Values)
      ensures cache.order == [] && fresh(cache)
      ensures fresh(cache.table) && fresh(cache.table.buckets) && fresh(cache.table.entries)
    {
      hide Trie.Valid, LruCache.Valid, Trie.Contents;
      trie := new Trie<FileMetadata>();
      cache := new LruCache<FileMetadata>(CACHE_CAPACITY);
    }

    /** How the server starts: the trie has been loaded, the cache is empty. */
    constructor Over(trie: Trie<FileMetadata>)
      requires trie.Valid()
      ensures Valid() && this.trie == trie && Files() == trie.Contents()
      ensures cache.order == [] && fresh(cache)
      ensures fresh(cache.table) && fresh(cache.table.buckets) && fresh(cache.table.entries)
    {
      hide Trie.Valid, LruCache.Valid, Trie.Contents;
      this.trie := trie;
      cache := new LruCache<FileMetadata>(CACHE_CAPACITY);
    }

    /** The lookup every handler starts with: the cache first, then the trie, whose answer is cached. It always gives
        the record the trie holds. */
    method Lookup(file: string) returns (m: Option<FileMetadata>)
      requires Valid() && IsName(file)
      modifies cache, cache.order, cache.table, cache.table.buckets, cache.table.entries
      ensures Valid() && Files() == old(Files()) && Grown()
      ensures m == if file in Files() then Some(Files()[file]) else None
    {
      hide Trie.Valid, LruCache.Valid, Trie.Contents, LruCache.Entries, Current, Touched, Stored, LruCaches.Lookup,
           IsName;
      HitIsCurrent(cache.Entries(), cache.capacity, Files(), file);
      TouchedIsCurrent(cache.Entries(), cache.capacity, Files(), file);
      m := cache.Get(file);
      if m == None {
        m := trie.Search(file);
        if m.Some? {
          assert forall i :: 0 <= i < |cache.order| ==> cache.order[i] in old(cache.order);
          Remember(file, m.value);
        }
      }
    }

    /** cache_put of a record the trie holds. */
    method Remember(file: string, r: FileMetadata)
      requires Valid() && file in Files() && Files()[file] == r
      modifies cache, cache.order, cache.table, cache.table.buckets, cache.table.entries
      ensures Valid() && Files() == old(Files()) && Grown()
    {
      hide Trie.Valid, LruCache.Valid, Trie.Contents, LruCache.Entries, Current, Stored;
      StoredIsCurrent(cache.Entries(), cache.capacity, Files(), file, r);
      assert Files()[file := r] == Files();
      cache.Put(file, r);
    }

    /** trie_insert and cache_put of a new record. */
    method AddRecord(file: string, r: FileMetadata)
      requires Valid() && IsFileName(file)
      modifies trie, trie.nodes.Values
      modifies cache, cache.order, cache.table, cache.table.buckets, cache.table.entries
      ensures Valid() && Files() == old(Files())[file := r] && Grown()
    {
      hide Trie.Valid, LruCache.Valid, Trie.Contents, LruCache.Entries, Current, Stored, IsName;
      StoredIsCurrent(cache.Entries(), cache.capacity, Files(), file, r);
      trie.Insert(file, r);
      cache.Put(file, r);
    }

    /** The objects of the index are the ones it had, or new ones. */
    twostate predicate Grown()
      reads trie, cache, cache.table
    {
      && trie.Owned()
      && (forall i :: 0 <= i < |cache.order| ==> cache.order[i] in old(cache.order) || fresh(cache.order[i]))
      && (forall e :: e in cache.table.entries ==> e in old(cache.table.entries) || fresh(e))
    }

    /** handle_create_file; `stored` is the storage server's answer. */
    method CreateFile(file: string, sender: string, stored: bool, now: int) returns (reply: Reply)
      requires Valid() && IsFileName(file)
      modifies trie, trie.nodes.Values
      modifies cache, cache.order, cache.table, cache.table.buckets, cache.table.entries
      ensures Valid() && Grown()
      ensures reply == if file in old(Files()) then FileExists else if !stored then StorageFailed else Done
      ensures if reply == Done
              then file in Files() && fresh(Files()[file]) && IsNew(Files()[file], file, sender, now)
                   && Files() == old(Files())[file := Files()[file]]
              else Files() == old(Files())
    {
      hide Trie.Valid, LruCache.Valid, Trie.Contents, Current, IsName, IsNew;
      var known := trie.Search(file);
      if known.Some? {
        return FileExists;
      }
      if !stored {
        return StorageFailed;
      }
      var r := NewRecord(file, sender, now);
      AddRecord(file, r);
      return Done;
    }

    /** One name of the list a storage server registers with. */
    method SeedFile(file: string, now: int)
      requires Valid() && IsFileName(file)
      modifies trie, trie.nodes.Values
      modifies cache, cache.order, cache.table, cache.table.buckets, cache.table.entries
      ensures Valid() && Grown()
      ensures if file in old(Files()) then Files() == old(Files())
              else file in Files() && fresh(Files()[file]) && IsNew(Files()[file], file, "system", now)
                   && Files() == old(Files())[file := Files()[file]]
    {
      hide Trie.Valid, LruCache.Valid, Trie.Contents, Current, IsName, IsNew;
      var known := trie.Search(file);
      if known == None {
        var r := NewRecord(file, "system", now);
        AddRecord(file, r);
      }
    }

    /** trie_delete and cache_remove: the record leaves the trie and the cache together. */
    method DropRecord(file: string)
      requires Valid() && IsName(file)
      modifies trie.nodes.Values
      modifies cache, cache.order, cache.table, cache.table.buckets, cache.table.entries
      ensures Valid() && Files() == old(Files()) - {file} && Grown()
    {
      hide Trie.Valid, LruCache.Valid, Trie.Contents, LruCache.Entries, Current, Removed, IsName;
      RemovedIsCurrent(cache.Entries(), cache.capacity, Files(), file);
      var rc := trie.Delete(file);
      cache.Remove(file);
    }

    /** handle_delete_file; `removed` is the storage server's answer. */
    method DeleteFile(file: string, sender: string, removed: bool) returns (reply: Reply)
      requires Valid() && IsName(file)
      modifies trie.nodes.Values
      modifies cache, cache.order, cache.table, cache.table.buckets, cache.table.entries
      ensures Valid() && Grown()
      ensures reply == if file !in old(Files()) then NotFound
                       else if old(Files())[file].owner != sender then NotOwner
                       else if !removed then StorageFailed else Done
      ensures Files() == if reply == Done then old(Files()) - {file} else old(Files())
    {
      hide Trie.Valid, LruCache.Valid, Trie.Contents, LruCache.Entries, Current, IsName;
      var m := Lookup(file);
      if m == None {
        return NotFound;
      }
      if m.value.owner != sender {
        return NotOwner;
      }
      if !removed {
        return StorageFailed;
      }
      DropRecord(file);
      return Done;
    }

    /** The metadata update a storage server sends after a write: it touches the record of that file and no other, and
        is acknowledged whether there is such a file or not. */
    method UpdateMetadata(file: string, words: int, chars: int, now: int) returns (reply: Reply)
      requires Valid() && IsName(file)
      modifies (if file in Files() then {Files()[file]} else {})`wordCount
      modifies (if file in Files() then {Files()[file]} else {})`charCount
      modifies (if file in Files() then {Files()[file]} else {})`sizeBytes
      modifies (if file in Files() then {Files()[file]} else {})`lastModified
      modifies cache, cache.order, cache.table, cache.table.buckets, cache.table.entries
      ensures Valid() && Files() == old(Files()) && Grown()
      ensures reply == Done
      ensures file in Files() ==>
                var r := Files()[file];
                r.wordCount == words && r.charCount == r.sizeBytes == chars && r.lastModified == now
    {
      hide Trie.Valid, LruCache.Valid, Trie.Contents, LruCache.Entries, Current, IsName;
      var m := trie.Search(file);
      if m.Some? {
        m.value.wordCount := words;
        m.value.charCount := chars;
        m.value.sizeBytes := chars;
        m.value.lastModified := now;
        Remember(file, m.value);
      }
      return Done;
    }

    /** One request of a client or a storage server. */
    method Handle(q: Request) returns (reply: Reply)
      requires Valid() && IsFileName(q.file)
      modifies trie, trie.nodes.Values, Files().Values
      modifies cache, cache.order, cache.table, cache.table.buckets, cache.table.entries
      ensures Valid() && Grown()
      ensures forall f :: f in Files() ==> Files()[f] in old(Files().Values) || fresh(Files()[f])
      ensures reply == Answer(OwnersOf(old(Files())), q)
      ensures OwnersOf(Files()) == Effect(OwnersOf(old(Files())), q)
    {
      hide Valid, Files, Grown, IsName;
      match q {
        case Create(f, sender, stored, now) =>
          reply := CreateFile(f, sender, stored, now);
        case Find(f) =>
          var m := Lookup(f);
          reply := if m.Some? then Done else NotFound;
        case Delete(f, sender, removed) =>
          reply := DeleteFile(f, sender, removed);
        case Seed(f, now) =>
          SeedFile(f, now);
          reply := NoReply;
        case Update(f, words, chars, now) =>
          reply := UpdateMetadata(f, words, chars, now);
      }
    }

    /** Any sequence of requests: every answer, and the files in the end, are those of a plain map. Throughout, each
        cache entry is the very record the trie holds for its name, and no entry outlives its record. */
    method Serve(qs: seq<Request>) returns (replies: seq<Reply>)
      requires Valid() && forall i :: 0 <= i < |qs| ==> IsFileName(qs[i].file)
      modifies trie, trie.nodes.Values, Files().Values
      modifies cache, cache.order, cache.table, cache.table.buckets, cache.table.entries
      ensures Valid()
      ensures replies == Answers(OwnersOf(old(Files())), qs)
      ensures OwnersOf(Files()) == Effects(OwnersOf(old(Files())), qs)
    {
      hide Valid, Files, IsName, OwnersOf, Answer, Effect;
      replies := [];
      ghost var owners := OwnersOf(Files());
      assert qs[0..] == qs;
      var i := 0;
      while i < |qs|
        invariant 0 <= i <= |qs| && Valid() && Grown()
        invariant forall f :: f in Files() ==> Files()[f] in old(Files().Values) || fresh(Files()[f])
        invariant replies + Answers(OwnersOf(Files()), qs[i..]) == Answers(owners, qs)
        invariant Effects(OwnersOf(Files()), qs[i..]) == Effects(owners, qs)
      {
        ghost var now := OwnersOf(Files());
        assert qs[i..][0] == qs[i] && qs[i..][1..] == qs[i + 1..];
        var reply := Handle(qs[i]);
        assert replies + ([reply] + Answers(Effect(now, qs[i]), qs[i + 1..]))
            == (replies + [reply]) + Answers(Effect(now, qs[i]), qs[i + 1..]);
        replies := replies + [reply];
        i := i + 1;
      }
      assert replies + [] == replies;
    }
  }

  /** The server from its start over a loaded trie: it answers like a plain map of the loaded files. */
  method RunServer(trie: Trie<FileMetadata>, qs: seq<Request>) returns (replies: seq<Reply>)
    requires trie.Valid() && forall i :: 0 <= i < |qs| ==> IsFileName(qs[i].file)
    modifies trie, trie.nodes.Values, trie.Contents().Values
    ensures trie.Valid()
    ensures replies == Answers(OwnersOf(old(trie.Contents())), qs)
    ensures OwnersOf(trie.Contents()) == Effects(OwnersOf(old(trie.Contents())), qs)
  {
    hide Trie.Valid, LruCache.Valid, LruCache.Entries, Trie.Contents, Current, IsName, OwnersOf, Answers, Effects;
    var index := new Index.Over(trie);
    assert index.Files() == old(trie.Contents());
    replies := index.Serve(qs);
  }
}
