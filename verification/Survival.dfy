/** Which records survive being written to metadata.dat and read back, whatever their names and users are
    (naming_server/nm_storage.c: trie_save_helper, trie_load_from_disk). */
module Survival {
  import opened Options
  import opened CString
  import opened AccessControl
  import opened Persistence

  // ------------------------------------------------------------------- what a loaded record is like

  ghost predicate CleanUsers(acl: seq<Grant>) {
    forall i :: 0 <= i < |acl| ==> CleanUser(acl[i].user)
  }

  lemma {:induction false} FieldsAvoid(s: string, sep: char, c: char)
    requires c !in s
    ensures forall i :: 0 <= i < |Fields(s, sep)| ==> c !in Fields(s, sep)[i]
    decreases |s|
  {
    if s == "" {
    } else if s[0] == sep {
      FieldsAvoid(s[1..], sep, c);
    } else {
      FieldsAvoid(s[RunLength(s, sep)..], sep, c);
    }
  }

  /** A user:access pair as the loader cuts it out. */
  predicate CleanPair(pair: string) {
    ',' !in pair && '|' !in pair && '\n' !in pair
  }

  lemma {:induction false} ParsedUsersAreClean(pairs: seq<string>, sofar: seq<Grant>)
    requires (forall i :: 0 <= i < |pairs| ==> CleanPair(pairs[i])) && CleanUsers(sofar) && |sofar| <= MAX_USERS
    ensures CleanUsers(ParseGrants(pairs, sofar)) && |ParseGrants(pairs, sofar)| <= MAX_USERS
    decreases |pairs|
  {
    if pairs != [] && |sofar| < MAX_USERS {
      var g := ParseGrant(pairs[0]);
      if g.Some? {
        PairGivesCleanUser(pairs[0]);
        ParsedUsersAreClean(pairs[1..], sofar + [g.value]);
      } else {
        ParsedUsersAreClean(pairs[1..], sofar);
      }
    }
  }

  lemma PairGivesCleanUser(pair: string)
    requires CleanPair(pair) && ParseGrant(pair).Some?
    ensures CleanUser(ParseGrant(pair).value.user)
  {
    var u := ParseGrant(pair).value.user;
    assert forall i :: 0 <= i < |u| ==> u[i] == pair[i] && pair[i] in pair;
  }

  lemma ParsedAclIsClean(text: string)
    requires '|' !in text && '\n' !in text
    ensures CleanUsers(ParseAcl(text)) && |ParseAcl(text)| <= MAX_USERS
  {
    hide ParseGrants;
    var t := Truncate(text, ACL_BUFFER);
    assert '|' !in t && '\n' !in t;
    FieldsAvoid(t, ',', '|');
    FieldsAvoid(t, ',', '\n');
    FieldsAreFields(t, ',');
    forall i | 0 <= i < |Fields(t, ',')|
      ensures CleanPair(Fields(t, ',')[i])
    {
      assert IsField(Fields(t, ',')[i], ',');
    }
    ParsedUsersAreClean(Fields(t, ','), []);
  }

  /** Clean fields, and an access list of clean users in which the owner has been given WRITE. */
  ghost predicate Restored(r: FileRecord) {
    CleanHead(r) && exists p: seq<Grant> :: CleanUsers(p) && |p| <= MAX_USERS && r.acl == EnsureOwner(p, r.owner)
  }

  lemma ChompedIsOneLine(line: string)
    requires RunLength(line, '\n') + 1 >= |line|
    ensures '\n' !in Chomp(line)
  {
    assert forall i :: 0 <= i < |Chomp(line)| ==> Chomp(line)[i] == line[i];
  }

  lemma LineGivesRestored(line: string, now: int)
    requires '\n' !in Chomp(line) && ParseLine(line, now).Some?
    ensures Restored(ParseLine(line, now).value)
  {
    var text, r := Chomp(line), ParseLine(line, now).value;
    var t := Fields(text, '|');
    FieldsAreFields(text, '|');
    FieldsAvoid(text, '|', '\n');
    hide Fields, EnsureOwner, ParseAcl, Atoi, ReadDigits;
    assert forall i :: 0 <= i < |t| ==> IsField(t[i], '|') && CleanField(t[i]);
    if |t| >= FIELDS {
      ParsedAclIsClean(t[13]);
      assert r.acl == EnsureOwner(ParseAcl(t[13]), r.owner);
    } else {
      NobodyListed(r.owner);
      assert r.acl == EnsureOwner([], r.owner);
    }
  }

  lemma NobodyListed(owner: string)
    ensures EnsureOwner([], owner) == [Grant(owner, ACCESS_WRITE)]
  {
  }

  ghost predicate AllRestored(m: map<string, FileRecord>) {
    forall k :: k in m ==> Restored(m[k])
  }

  lemma {:induction false} LoadedAreRestored(text: string, now: int, m: map<string, FileRecord>)
    requires AllRestored(m)
    ensures AllRestored(Load(text, now, m))
    decreases |text|
  {
    hide ParseLine, Restored;
    if text != "" {
      var n := LineLength(text);
      CutIsOneLine(text);
      if ParseLine(text[..n], now).Some? {
        LineGivesRestored(text[..n], now);
      }
      LoadedAreRestored(text[n..], now,
        match ParseLine(text[..n], now) case Some(r) => m[r.filename := r] case None => m);
    }
  }

  lemma CutIsOneLine(text: string)
    requires text != ""
    ensures '\n' !in Chomp(text[..LineLength(text)])
  {
    var n := LineLength(text);
    RunLengthOfPrefix(text, n);
    ChompedIsOneLine(text[..n]);
  }

  lemma RunLengthOfPrefix(text: string, n: nat)
    requires n <= |text| && n <= RunLength(text, '\n') + 1
    ensures RunLength(text[..n], '\n') + 1 >= n
  {
    var k := RunLength(text[..n], '\n');
    assert k < n ==> text[k] == '\n';
  }

  // ----------------------------------------------------------------- how many pairs a list is read as

  /** How many of the strings are read as a pair. */
  function PairCount(pairs: seq<string>): nat {
    if pairs == [] then 0 else (if ParseGrant(pairs[0]).Some? then 1 else 0) + PairCount(pairs[1..])
  }

  lemma {:induction false} PairCountConcat(a: seq<string>, b: seq<string>)
    ensures PairCount(a + b) == PairCount(a) + PairCount(b)
  {
    if a == [] {
      assert a + b == b;
    } else {
      assert (a + b)[0] == a[0] && (a + b)[1..] == a[1..] + b;
      PairCountConcat(a[1..], b);
    }
  }

  lemma {:induction false} ParsedLength(pairs: seq<string>, sofar: seq<Grant>)
    requires |sofar| <= MAX_USERS
    ensures var n := |sofar| + PairCount(pairs);
            |ParseGrants(pairs, sofar)| == if n <= MAX_USERS then n else MAX_USERS
    decreases |pairs|
  {
    hide ParseGrant;
    if pairs != [] && |sofar| < MAX_USERS {
      ParsedLength(pairs[1..], match ParseGrant(pairs[0]) case Some(g) => sofar + [g] case None => sofar);
    }
  }

  /** However the user is called, the text of a grant is read as a pair at least once: what stands behind its last
      comma has the colon. */
  lemma {:induction false} GrantIsPair(u: string, num: string)
    requires ',' !in num
    ensures PairCount(Fields(u + ":" + num, ',')) >= 1
    decreases |u|
  {
    var text := u + ":" + num;
    if ',' in u {
      var k := RunLength(u, ',');
      var pre, post := u[..k], u[k + 1..];
      assert u == pre + [','] + post;
      assert text == pre + [','] + (post + ":" + num);
      GrantIsPair(post, num);
      FieldsConcat(pre, ',', post + ":" + num);
      PairCountConcat(Fields(pre, ','), Fields(post + ":" + num, ','));
    } else {
      assert text[|u|] == ':' && ',' !in text;
      FieldsOne(text, ',');
      assert ParseGrant(text).Some?;
      assert [text][1..] == [];
    }
  }

  lemma NumberHasNoComma(n: int)
    ensures ',' !in PrintInt(n)
  {
    PrintIntIsClean(n);
  }

  lemma {:induction false} EachGrantIsPair(acl: seq<Grant>)
    ensures PairCount(Fields(AclText(acl), ',')) >= |acl|
  {
    hide PairCount, Fields, PrintInt;
    if acl == [] {
      FieldsOfNothing();
    } else {
      var g := GrantText(acl[0]);
      NumberHasNoComma(acl[0].access);
      GrantIsPair(acl[0].user, PrintInt(acl[0].access));
      if |acl| == 1 {
        assert AclText(acl) == g;
      } else {
        EachGrantIsPair(acl[1..]);
        AclTextStep(acl);
        FieldsConcat(g, ',', AclText(acl[1..]));
        PairCountConcat(Fields(g, ','), Fields(AclText(acl[1..]), ','));
      }
    }
  }

  lemma FieldsOfNothing()
    ensures Fields(AclText([]), ',') == [] && PairCount([]) == 0
  {
  }

  lemma AclTextStep(acl: seq<Grant>)
    requires |acl| > 1
    ensures AclText(acl) == GrantText(acl[0]) + [','] + AclText(acl[1..])
  {
    assert GrantTexts(acl)[1..] == GrantTexts(acl[1..]);
  }

  lemma ReadAtLeast(acl: seq<Grant>)
    requires |acl| <= MAX_USERS && |AclText(acl)| < ACL_BUFFER
    ensures |ParseAcl(AclText(acl))| >= |acl|
  {
    hide AclText, PairCount, Fields;
    EachGrantIsPair(acl);
    ParsedLength(Fields(AclText(acl), ','), []);
  }

  // ------------------------------------------------------------------------------------ survival

  /** The record fits the buffers of the loader. */
  predicate FitsBuffers(r: FileRecord) {
    |r.acl| <= MAX_USERS && |AclText(r.acl)| < ACL_BUFFER && |LineText(r)| + 1 < LINE_BUFFER
  }

  /** Non-empty names without separators, users without separators, the owner listed at WRITE, or missing from a full
      list. */
  ghost predicate Survives(r: FileRecord) {
    && CleanHead(r) && CleanUsers(r.acl)
    && (AccessOf(r.acl, r.owner) == ACCESS_WRITE || (|r.acl| == MAX_USERS && FindUser(r.acl, r.owner) == |r.acl|))
  }

  lemma LoadOneLine(r: FileRecord, now: int)
    requires FitsBuffers(r) && '\n' !in LineText(r)
    ensures Load(LineText(r) + "\n", now, map[])
            == match ParseLine(LineText(r) + "\n", now) case Some(x) => map[x.filename := x] case None => map[]
  {
    hide LineText, ParseLine, LineLength, AclText;
    var line := LineText(r);
    FirstLine(line, "");
    assert line + "\n" + "" == line + "\n";
    var m := match ParseLine(line + "\n", now) case Some(x) => map[x.filename := x] case None => map[];
    assert Load("", now, m) == m;
  }

  /** A restored record is written as one line of fourteen fields. */
  lemma RestoredLine(r: FileRecord)
    requires Restored(r)
    ensures CleanField(AclText(r.acl)) && '\n' !in LineText(r)
  {
    hide AclText, LineText, FindUser;
    var p: seq<Grant> :| CleanUsers(p) && |p| <= MAX_USERS && r.acl == EnsureOwner(p, r.owner);
    forall i | 0 <= i < |r.acl|
      ensures '|' !in r.acl[i].user && '\n' !in r.acl[i].user
    {
      assert r.acl[i].user == r.owner || CleanUser(r.acl[i].user);
    }
    OwnerFillsList(p, r.owner);
    AclTextIsClean(r.acl);
    LineOfFourteen(r);
  }

  lemma OwnerFillsList(p: seq<Grant>, owner: string)
    requires |p| <= MAX_USERS
    ensures EnsureOwner(p, owner) != []
  {
  }

  lemma AclTextIsClean(acl: seq<Grant>)
    requires acl != [] && forall i :: 0 <= i < |acl| ==> '|' !in acl[i].user && '\n' !in acl[i].user
    ensures CleanField(AclText(acl))
  {
    hide PrintInt;
    var g := GrantTexts(acl);
    forall i | 0 <= i < |acl|
      ensures g[i] != "" && '|' !in g[i] && '\n' !in g[i]
    {
      PrintIntIsClean(acl[i].access);
    }
    JoinIsClean(g, ',', '|');
    JoinIsClean(g, ',', '\n');
    JoinIsNotEmpty(g, ',');
  }

  /** If giving the owner WRITE turns what was read into the list that was written, and nothing got lost on the way,
      then the list has no user but those that were read. */
  lemma NobodyAdded(acl: seq<Grant>, p: seq<Grant>, owner: string)
    requires acl == EnsureOwner(p, owner) && |p| >= |acl| && CleanUsers(p)
    ensures CleanUsers(acl)
  {
    hide FindUser;
  }

  /** Exactly which records come back from the file as they were, and alone. */
  lemma RecordSurvivesIff(r: FileRecord, now: int)
    requires FitsBuffers(r)
    ensures Load(LineText(r) + "\n", now, map[]) == map[r.filename := r] <==> Survives(r)
  {
    hide Load, LineText, AclText, ParseLine, FindUser, AccessOf, Restored, ParseAcl, EnsureOwner;
    if Load(LineText(r) + "\n", now, map[]) == map[r.filename := r] {
      var m := Load(LineText(r) + "\n", now, map[]);
      LoadedAreRestored(LineText(r) + "\n", now, map[]);
      assert r.filename in m && m[r.filename] == r;
      RestoredHead(r);
      RestoredLine(r);
      LoadOneLine(r, now);
      ParseOfLine(r, now);
      var back := r.(acl := EnsureOwner(ParseAcl(AclText(r.acl)), r.owner));
      assert map[back.filename := back][r.filename] == back;
      ReadAtLeast(r.acl);
      AclFields(r.acl);
      NobodyAdded(r.acl, ParseAcl(AclText(r.acl)), r.owner);
      LineSurvivesIff(r, now);
    }
    if Survives(r) {
      LineSurvivesIff(r, now);
      LineFields(r);
      LoadOneLine(r, now);
    }
  }

  lemma RestoredHead(r: FileRecord)
    requires Restored(r)
    ensures CleanHead(r)
  {
  }

  lemma AclFields(acl: seq<Grant>)
    requires CleanField(AclText(acl))
    ensures CleanUsers(ParseAcl(AclText(acl)))
  {
    hide AclText, ParseAcl;
    ParsedAclIsClean(AclText(acl));
  }
}
