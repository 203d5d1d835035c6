/** Saving the trie of records to metadata.dat and building it again from there (naming_server/nm_storage.c:
    trie_save_helper, trie_save_to_disk, trie_load_from_disk). */
module MetadataFiles {
  import opened Persistence
  import opened TrieOrder
  import opened Tries
  import opened Text

  /** The records of these names, in this order, under the names they are stored at. */
  function RecordsOf(m: map<string, FileRecord>, names: seq<string>): seq<FileRecord> {
    if names == [] then []
    else (if names[0] in m then [m[names[0]].(filename := names[0])] else []) + RecordsOf(m, names[1..])
  }

  lemma {:induction false} SaveTextConcat(a: seq<FileRecord>, b: seq<FileRecord>)
    ensures SaveText(a + b) == SaveText(a) + SaveText(b)
  {
    hide LineText;
    if a == [] {
      assert a + b == b;
    } else {
      assert (a + b)[0] == a[0] && (a + b)[1..] == a[1..] + b;
      SaveTextConcat(a[1..], b);
      Regroup(LineText(a[0]) + "\n", SaveText(a[1..]), SaveText(b));
    }
  }

  lemma {:induction false} RecordsOfConcat(m: map<string, FileRecord>, a: seq<string>, b: seq<string>)
    ensures RecordsOf(m, a + b) == RecordsOf(m, a) + RecordsOf(m, b)
  {
    if a == [] {
      assert a + b == b;
    } else {
      assert (a + b)[0] == a[0] && (a + b)[1..] == a[1..] + b;
      RecordsOfConcat(m, a[1..], b);
      Regroup(if a[0] in m then [m[a[0]].(filename := a[0])] else [], RecordsOf(m, a[1..]), RecordsOf(m, b));
    }
  }

  /** The lines of these names. */
  function Lines(m: map<string, FileRecord>, names: seq<string>): string {
    SaveText(RecordsOf(m, names))
  }

  lemma LinesConcat(m: map<string, FileRecord>, a: seq<string>, b: seq<string>, sofar: string)
    ensures sofar + Lines(m, a + b) == (sofar + Lines(m, a)) + Lines(m, b)
    ensures sofar + Lines(m, []) == sofar
  {
    RecordsOfConcat(m, a, b);
    SaveTextConcat(RecordsOf(m, a), RecordsOf(m, b));
    Regroup(sofar, Lines(m, a), Lines(m, b));
  }

  lemma OneLine(m: map<string, FileRecord>, name: string)
    ensures Lines(m, [name]) == if name in m then LineText(m[name].(filename := name)) + "\n" else ""
  {
    hide LineText;
    assert [name][1..] == [];
    NoRecords(m);
    if name in m {
      var r := m[name].(filename := name);
      assert RecordsOf(m, [name]) == [r] + [] == [r] && [r][1..] == [];
      assert SaveText([]) == "" && LineText(r) + "\n" + "" == LineText(r) + "\n";
    } else {
      assert RecordsOf(m, [name]) == [] + [] == [];
    }
  }

  /** trie_save_helper: the line of this node, if it has a record, then the lines of its children. */
  method SaveBelow(trie: Trie<FileRecord>, node: TrieNode<FileRecord>, ghost p: string, prefix: array<char>, depth: nat,
                   sofar: string) returns (text: string)
    requires trie.Valid() && p in trie.nodes && node == trie.nodes[p] && depth == |p|
    requires prefix.Length == MAX_FILENAME_LEN && prefix[..depth] == p
    modifies prefix
    ensures prefix[..depth] == p
    ensures text == sofar + Lines(trie.Contents(), Walk(trie.nodes.Keys, trie.KeySet(), p))
    decreases Below(trie.nodes.Keys, p), 1
  {
    hide PrefixClosed, WalkChildren, Below, Trie.Contents, Lines, LinksTo, Trie.KeySet, LineText;
    ghost var all, keys, m := trie.nodes.Keys, trie.KeySet(), trie.Contents();
    text := SaveNode(trie, node, p, prefix, depth, sofar);
    ghost var own := if p in keys then [p] else [];
    LinesConcat(m, own, WalkChildren(all, keys, p, 0), sofar);
    var i := 0;
    while i < 0x100
      invariant 0 <= i <= 0x100 && prefix[..depth] == p
      invariant text + Lines(m, WalkChildren(all, keys, p, i)) == sofar + Lines(m, Walk(all, keys, p))
    {
      text := SaveChild(trie, node, p, prefix, depth, text, i);
      i := i + 1;
    }
    LinesConcat(m, [], [], text);
    assert WalkChildren(all, keys, p, 0x100) == [] by { NoChildrenLeft(all, keys, p); }
  }

  lemma NoChildrenLeft(all: set<string>, keys: set<string>, p: string)
    requires p in all
    ensures WalkChildren(all, keys, p, 0x100) == []
  {
  }

  method SaveNode(trie: Trie<FileRecord>, node: TrieNode<FileRecord>, ghost p: string, prefix: array<char>, depth: nat,
                  sofar: string) returns (text: string)
    requires trie.Valid() && p in trie.nodes && node == trie.nodes[p] && depth == |p|
    requires prefix.Length == MAX_FILENAME_LEN && prefix[..depth] == p
    modifies prefix
    ensures prefix[..depth] == p
    ensures text == sofar + Lines(trie.Contents(), if p in trie.KeySet() then [p] else [])
  {
    hide PrefixClosed, Lines, LinksTo, LineText;
    assert trie.NodeOk(p);
    LinesConcat(trie.Contents(), [], [], sofar);
    text := sofar;
    if node.isEnd && node.data.Some? {
      prefix[depth] := 0 as char;
      OneLine(trie.Contents(), p);
      var line := PrintLine(node.data.value.(filename := prefix[..depth]));
      text := text + line;
    }
  }

  method SaveChild(trie: Trie<FileRecord>, node: TrieNode<FileRecord>, ghost p: string, prefix: array<char>, depth: nat,
                   sofar: string, i: nat) returns (text: string)
    requires trie.Valid() && p in trie.nodes && node == trie.nodes[p] && depth == |p| && i < 0x100
    requires prefix.Length == MAX_FILENAME_LEN && prefix[..depth] == p
    modifies prefix
    ensures prefix[..depth] == p
    ensures var all, keys, m := trie.nodes.Keys, trie.KeySet(), trie.Contents();
            text + Lines(m, WalkChildren(all, keys, p, i + 1)) == sofar + Lines(m, WalkChildren(all, keys, p, i))
    decreases Below(trie.nodes.Keys, p), 0
  {
    hide PrefixClosed, Walk, WalkChildren, Below, Trie.Contents, Trie.KeySet, Lines;
    ghost var all, keys, q := trie.nodes.Keys, trie.KeySet(), Child(p, i);
    assert trie.NodeOk(p);
    WalkStep(all, keys, p, i);
    text := sofar;
    if node.children[i] != null {
      prefix[depth] := i as char;
      assert prefix[..depth + 1] == q;
      BelowShrinks(all, p, i as char);
      text := SaveBelow(trie, node.children[i], q, prefix, depth + 1, sofar);
      assert prefix[..depth] == prefix[..depth + 1][..depth];
      LinesConcat(trie.Contents(), Walk(all, keys, q), WalkChildren(all, keys, p, i + 1), sofar);
    }
  }

  /** What the index keeps: each record is stored at its own name, and comes back from its line. */
  ghost predicate Saveable(m: map<string, FileRecord>) {
    forall k :: k in m ==> m[k].filename == k && Durable(m[k])
  }

  /** trie_save_to_disk: one line per file, in ascending order of names. Loading the text gives the same files. */
  method SaveTrie(trie: Trie<FileRecord>) returns (text: string)
    requires trie.Valid()
    ensures exists names: seq<string> ::
              ListsInOrder(names, trie.Contents().Keys) && text == Lines(trie.Contents(), names)
    ensures Saveable(trie.Contents()) ==> forall now :: Load(text, now, map[]) == trie.Contents()
  {
    hide Walk, PrefixClosed, Trie.NodeOk, Trie.Contents, Lines, Load, Saveable, ListsInOrder;
    var prefix := new char[MAX_FILENAME_LEN];
    ghost var all, keys, m := trie.nodes.Keys, trie.KeySet(), trie.Contents();
    assert prefix[..0] == "";
    text := SaveBelow(trie, trie.root, "", prefix, 0, "");
    trie.KeySetIsKnown();
    ghost var names := Walk(all, keys, "");
    WalkIsInOrder(all, keys);
    assert "" + Lines(m, names) == Lines(m, names);
    if Saveable(m) {
      forall now: int
        ensures Load(text, now, map[]) == m
      {
        LoadOfLines(m, names, now);
      }
    }
  }

  /** The names of the set, ascending, each once. */
  ghost predicate ListsInOrder(names: seq<string>, keys: set<string>) {
    Ascending(names) && forall k :: k in names <==> k in keys
  }

  lemma WalkIsInOrder(all: set<string>, keys: set<string>)
    requires PrefixClosed(all) && keys <= all
    ensures "" in all && ListsInOrder(Walk(all, keys, ""), keys)
  {
    hide Walk, Before, Ascending;
    WalkListsKeys(all, keys, "");
    WalkAscends(all, keys, "");
    assert forall k: string {:trigger k in keys} :: "" <= k;
  }

  lemma {:induction false} RecordsAt(m: map<string, FileRecord>, names: seq<string>, i: nat)
    requires (forall j :: 0 <= j < |names| ==> names[j] in m) && i < |names|
    ensures |RecordsOf(m, names)| == |names| && RecordsOf(m, names)[i] == m[names[i]].(filename := names[i])
  {
    if |names| > 1 {
      RecordsAt(m, names[1..], if i == 0 then 0 else i - 1);
    }
  }

  /** Loading what was saved rebuilds the same map from names to records, access lists and their order included,
      whatever order the names were saved in. */
  lemma MetadataRoundTrip(m: map<string, FileRecord>, names: seq<string>, now: int)
    requires Saveable(m)
    requires (forall k :: k in names <==> k in m) && forall i, j :: 0 <= i < j < |names| ==> names[i] != names[j]
    ensures Load(Lines(m, names), now, map[]) == m
  {
    hide Durable, Load, SaveText, RecordsOf;
    var rs := RecordsOf(m, names);
    RecordsAreTheirs(m, names);
    forall i | 0 <= i < |rs|
      ensures Durable(rs[i])
    {
      assert names[i] in names;
    }
    LoadOfSave(rs, now, map[]);
    ByNameIsAll(m, names, rs);
  }

  lemma ByNameIsAll(m: map<string, FileRecord>, names: seq<string>, rs: seq<FileRecord>)
    requires (forall k :: k in names <==> k in m) && forall i, j :: 0 <= i < j < |names| ==> names[i] != names[j]
    requires |rs| == |names| && forall i :: 0 <= i < |names| ==> rs[i] == m[names[i]] && rs[i].filename == names[i]
    ensures ByName(rs, map[]) == m
  {
    hide ByName;
    ByNameIs(rs, map[]);
    var b := ByName(rs, map[]);
    forall k | k in m
      ensures k in b && b[k] == m[k]
    {
      var i :| 0 <= i < |names| && names[i] == k;
      assert rs[i].filename == k;
    }
    assert forall k :: k in b ==> k in m;
  }

  lemma RecordsAreTheirs(m: map<string, FileRecord>, names: seq<string>)
    requires (forall k :: k in names <==> k in m) && forall k :: k in m ==> m[k].filename == k
    ensures var rs := RecordsOf(m, names);
            |rs| == |names| && forall i :: 0 <= i < |names| ==> rs[i] == m[names[i]] && rs[i].filename == names[i]
  {
    hide RecordsOf;
    if names == [] {
      NoRecords(m);
    } else {
      forall i | 0 <= i < |names|
        ensures |RecordsOf(m, names)| == |names| && RecordsOf(m, names)[i] == m[names[i]]
      {
        RecordsAt(m, names, i);
      }
      RecordsAt(m, names, 0);
    }
  }

  lemma NoRecords(m: map<string, FileRecord>)
    ensures RecordsOf(m, []) == []
  {
  }

  lemma LoadOfLines(m: map<string, FileRecord>, names: seq<string>, now: int)
    requires Saveable(m) && ListsInOrder(names, m.Keys)
    ensures Load(Lines(m, names), now, map[]) == m
  {
    hide Durable, Load, SaveText, Lines, Saveable, Before;
    forall i, j | 0 <= i < j < |names|
      ensures names[i] != names[j]
    {
      BeforeIsIrreflexive(names[i]);
      assert Before(names[i], names[j]);
    }
    MetadataRoundTrip(m, names, now);
  }

  // ------------------------------------------------------------------------------------ loading

  lemma {:induction false} LoadKeepsKeys(text: string, now: int, m: map<string, FileRecord>)
    ensures m.Keys <= Load(text, now, m).Keys
    decreases |text|
  {
    hide ParseLine, LineLength;
    if text != "" {
      var n := LineLength(text);
      var next := match ParseLine(text[..n], now) case Some(r) => m[r.filename := r] case None => m;
      LineIsNotEmpty(text);
      LoadKeepsKeys(text[n..], now, next);
    }
  }

  lemma LineIsNotEmpty(text: string)
    requires text != ""
    ensures 0 < LineLength(text) <= |text|
  {
  }

  lemma LoadStep(text: string, now: int, m: map<string, FileRecord>)
    requires text != ""
    ensures 0 < LineLength(text) <= |text|
    ensures Load(text, now, m) == Load(text[LineLength(text)..], now,
      match ParseLine(text[..LineLength(text)], now) case Some(r) => m[r.filename := r] case None => m)
  {
  }

  /** Every loaded name fits the trie. */
  ghost predicate NamesFit(m: map<string, FileRecord>) {
    forall k :: k in m ==> IsName(k) && |k| < MAX_FILENAME_LEN
  }

  /** trie_load_from_disk: a new trie with the records of the text. */
  method LoadTrie(text: string, now: int) returns (trie: Trie<FileRecord>)
    requires NamesFit(Load(text, now, map[]))
    ensures fresh(trie) && trie.Valid() && trie.Contents() == Load(text, now, map[])
  {
    hide Load, ParseLine, LineLength, IsName, Trie.Contents, Trie.NodeOk, PrefixClosed;
    trie := new Trie<FileRecord>();
    var at := 0;
    assert text[0..] == text;
    while at < |text|
      invariant 0 <= at <= |text| && fresh(trie) && fresh(trie.nodes.Values) && trie.Valid()
      invariant Load(text[at..], now, trie.Contents()) == Load(text, now, map[])
    {
      var rest := text[at..];
      LoadStep(rest, now, trie.Contents());
      var n := LineLength(rest);
      var r := LoadLine(rest[..n], now);
      assert rest[n..] == text[at + n..];
      if r.Some? {
        LoadKeepsKeys(text[at + n..], now, trie.Contents()[r.value.filename := r.value]);
        trie.Insert(r.value.filename, r.value);
      }
      at := at + n;
    }
    assert text[at..] == "";
    NothingToLoad(now, trie.Contents());
  }

  lemma NothingToLoad(now: int, m: map<string, FileRecord>)
    ensures Load("", now, m) == m
  {
  }
}
