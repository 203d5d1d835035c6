/** The metadata file of the naming server: one line per file, written by trie_save_helper and read back by
    trie_load_from_disk (naming_server/nm_storage.c). */
module Persistence {
  import opened Options
  import opened CString
  import opened AccessControl

  const LINE_BUFFER := 4096
  const ACL_BUFFER := 2048
  const FIELDS := 14

  datatype FileRecord = FileRecord(
    filename: string,
    owner: string,
    ssId: int,
    ssIp: string,
    ssClientPort: int,
    createdAt: int,
    lastModified: int,
    lastAccessed: int,
    lastAccessedBy: string,
    sizeBytes: nat,
    wordCount: int,
    charCount: int,
    acl: seq<Grant>)

  // ----------------------------------------------------------------------------------- saving

  function GrantText(g: Grant): string {
    g.user + ":" + PrintInt(g.access)
  }

  function GrantTexts(acl: seq<Grant>): (r: seq<string>)
    ensures |r| == |acl| && forall i :: 0 <= i < |r| ==> r[i] == GrantText(acl[i])
  {
    seq(|acl|, i requires 0 <= i < |acl| => GrantText(acl[i]))
  }

  function AclText(acl: seq<Grant>): string {
    JoinWith(GrantTexts(acl), ',')
  }

  /** The thirteen fields in front of the access list. */
  function HeadFields(r: FileRecord): (h: seq<string>)
    ensures |h| == 13
  {
    [r.filename, r.owner, PrintInt(r.ssId), r.ssIp, PrintInt(r.ssClientPort), PrintInt(r.createdAt),
     PrintInt(r.lastModified), PrintInt(r.lastAccessed), r.lastAccessedBy, PrintInt(r.sizeBytes),
     PrintInt(r.wordCount), PrintInt(r.charCount), PrintInt(|r.acl|)]
  }

  function LineText(r: FileRecord): string {
    JoinWith(HeadFields(r) + [AclText(r.acl)], '|')
  }

  function SaveText(rs: seq<FileRecord>): string {
    if rs == [] then "" else LineText(rs[0]) + "\n" + SaveText(rs[1..])
  }

  // ---------------------------------------------------------------------------------- loading

  /** What one fgets call takes: up to and including a newline, at most one less than the buffer. */
  function LineLength(text: string): (n: nat)
    ensures n <= |text| && (text != "" ==> n > 0)
  {
    var k := RunLength(text, '\n') + 1;
    if k >= LINE_BUFFER then LINE_BUFFER - 1
    else if k <= |text| then k else |text|
  }

  function Chomp(line: string): string {
    if line != "" && (line[|line| - 1] == '\n' || line[|line| - 1] == '\r') then line[..|line| - 1] else line
  }

  /** user:access; a pair without a colon is skipped. */
  function ParseGrant(pair: string): Option<Grant> {
    var k := RunLength(pair, ':');
    if k < |pair| then Some(Grant(pair[..k], Atoi(pair[k + 1..]))) else None
  }

  function ParseGrants(pairs: seq<string>, sofar: seq<Grant>): seq<Grant>
    decreases |pairs|
  {
    if pairs == [] || |sofar| >= MAX_USERS then sofar
    else ParseGrants(pairs[1..], match ParseGrant(pairs[0]) case Some(g) => sofar + [g] case None => sofar)
  }

  function Truncate(s: string, size: nat): string
    requires size > 0
  {
    if |s| < size then s else s[..size - 1]
  }

  /** The owner ends up with WRITE, if there is room. */
  function EnsureOwner(acl: seq<Grant>, owner: string): seq<Grant> {
    var i := FindUser(acl, owner);
    if i < |acl| then acl[i := Grant(owner, ACCESS_WRITE)]
    else if |acl| < MAX_USERS then acl + [Grant(owner, ACCESS_WRITE)]
    else acl
  }

  function ParseAcl(text: string): seq<Grant> {
    ParseGrants(Fields(Truncate(text, ACL_BUFFER), ','), [])
  }

  /** The record of a line: at least fourteen fields, or exactly five in the old format; other lines are skipped. */
  function ParseLine(line: string, now: int): Option<FileRecord> {
    var t := Fields(Chomp(line), '|');
    if |t| >= FIELDS then
      Some(FileRecord(t[0], t[1], Atoi(t[2]), t[3], Atoi(t[4]), Atoi(t[5]), Atoi(t[6]), Atoi(t[7]), t[8],
        ReadDigits(t[9], 0), Atoi(t[10]), Atoi(t[11]), EnsureOwner(ParseAcl(t[13]), t[1])))
    else if |t| == 5 then
      Some(FileRecord(t[0], t[1], Atoi(t[2]), t[3], Atoi(t[4]), now, now, now, t[1], 0, 0, 0,
        [Grant(t[1], ACCESS_WRITE)]))
    else None
  }

  function Load(text: string, now: int, m: map<string, FileRecord>): map<string, FileRecord>
    decreases |text|
  {
    if text == "" then m
    else
      var n := LineLength(text);
      Load(text[n..], now, match ParseLine(text[..n], now) case Some(r) => m[r.filename := r] case None => m)
  }

  // ------------------------------------------------------------------------------ round trip

  /** Fields that survive: not empty, and free of the field and line separators. */
  predicate CleanField(s: string) {
    s != "" && '|' !in s && '\n' !in s
  }

  predicate CleanUser(u: string) {
    ':' !in u && ',' !in u && '|' !in u && '\n' !in u
  }

  predicate CleanHead(r: FileRecord) {
    CleanField(r.filename) && CleanField(r.owner) && CleanField(r.ssIp) && CleanField(r.lastAccessedBy)
  }

  ghost predicate CleanAcl(acl: seq<Grant>) {
    && (forall i :: 0 <= i < |acl| ==> CleanUser(acl[i].user))
    && |acl| <= MAX_USERS && |AclText(acl)| < ACL_BUFFER
  }

  /** Digits and a sign hold none of the separators. */
  predicate NumberChar(c: char) {
    IsDigit(c) || c == '-'
  }

  lemma {:induction false} PrintNatChars(n: nat)
    ensures forall i :: 0 <= i < |PrintNat(n)| ==> IsDigit(PrintNat(n)[i])
  {
  }

  lemma PrintIntIsClean(n: int)
    ensures CleanField(PrintInt(n)) && ',' !in PrintInt(n) && ':' !in PrintInt(n)
  {
    if n < 0 {
      PrintNatChars(-n);
    } else {
      PrintNatChars(n);
    }
    assert forall i :: 0 <= i < |PrintInt(n)| ==> NumberChar(PrintInt(n)[i]);
  }

  lemma GrantRoundTrip(g: Grant)
    requires CleanUser(g.user)
    ensures ParseGrant(GrantText(g)) == Some(g)
    ensures CleanField(GrantText(g)) && ',' !in GrantText(g)
  {
    var s, k := GrantText(g), |g.user|;
    PrintIntIsClean(g.access);
    assert s[k] == ':' && s[..k] == g.user && s[k + 1..] == PrintInt(g.access);
    assert forall i :: 0 <= i < k ==> s[i] == g.user[i];
    RunLengthIs(s, ':', k);
    AtoiOfPrintInt(g.access);
  }

  lemma {:induction false} ParsePrintedGrants(acl: seq<Grant>, sofar: seq<Grant>)
    requires (forall i :: 0 <= i < |acl| ==> CleanUser(acl[i].user)) && |sofar| + |acl| <= MAX_USERS
    ensures ParseGrants(GrantTexts(acl), sofar) == sofar + acl
    decreases |acl|
  {
    hide GrantText, ParseGrant, GrantTexts;
    if acl == [] {
      assert sofar + acl == sofar;
    } else {
      GrantRoundTrip(acl[0]);
      ParsePrintedGrants(acl[1..], sofar + [acl[0]]);
      assert GrantTexts(acl)[1..] == GrantTexts(acl[1..]);
      assert acl == [acl[0]] + acl[1..];
      assert (sofar + [acl[0]]) + acl[1..] == sofar + ([acl[0]] + acl[1..]);
    }
  }

  lemma AclRoundTrip(acl: seq<Grant>)
    requires CleanAcl(acl)
    ensures ParseAcl(AclText(acl)) == acl
  {
    forall i | 0 <= i < |acl|
      ensures IsField(GrantTexts(acl)[i], ',')
    {
      GrantRoundTrip(acl[i]);
    }
    FieldsOfJoin(GrantTexts(acl), ',');
    ParsePrintedGrants(acl, []);
  }

  lemma {:induction false} JoinIsClean(fs: seq<string>, sep: char, c: char)
    requires c != sep && forall i :: 0 <= i < |fs| ==> c !in fs[i]
    ensures c !in JoinWith(fs, sep)
  {
    if |fs| > 1 {
      JoinIsClean(fs[1..], sep, c);
    }
  }

  lemma {:induction false} JoinIsNotEmpty(fs: seq<string>, sep: char)
    requires fs != [] && fs[0] != ""
    ensures JoinWith(fs, sep) != ""
  {
  }

  lemma AclTextIsField(acl: seq<Grant>)
    requires forall i :: 0 <= i < |acl| ==> CleanUser(acl[i].user)
    ensures '|' !in AclText(acl) && '\n' !in AclText(acl)
    ensures AclText(acl) == "" <==> acl == []
  {
    var g := GrantTexts(acl);
    forall i | 0 <= i < |acl|
      ensures CleanField(g[i])
    {
      GrantRoundTrip(acl[i]);
    }
    JoinIsClean(g, ',', '|');
    JoinIsClean(g, ',', '\n');
    if acl != [] {
      JoinIsNotEmpty(g, ',');
    }
  }

  lemma HeadIsClean(r: FileRecord)
    requires CleanHead(r)
    ensures forall i :: 0 <= i < 13 ==> CleanField(HeadFields(r)[i])
  {
    PrintIntIsClean(r.ssId);
    PrintIntIsClean(r.ssClientPort);
    PrintIntIsClean(r.createdAt);
    PrintIntIsClean(r.lastModified);
    PrintIntIsClean(r.lastAccessed);
    PrintIntIsClean(r.sizeBytes);
    PrintIntIsClean(r.wordCount);
    PrintIntIsClean(r.charCount);
    PrintIntIsClean(|r.acl|);
  }

  /** The fourteen fields of a line whose access list holds no field or line separator. */
  lemma LineOfFourteen(r: FileRecord)
    requires CleanHead(r) && CleanField(AclText(r.acl))
    ensures Fields(LineText(r), '|') == HeadFields(r) + [AclText(r.acl)]
    ensures '\n' !in LineText(r) && LineText(r) != ""
  {
    hide HeadFields, AclText;
    var h, a := HeadFields(r), AclText(r.acl);
    HeadIsClean(r);
    forall i | 0 <= i < 14
      ensures CleanField((h + [a])[i])
    {
      assert (h + [a])[i] == if i < 13 then h[i] else a;
    }
    JoinIsClean(h + [a], '|', '\n');
    JoinIsNotEmpty(h + [a], '|');
    FieldsOfJoin(h + [a], '|');
  }

  lemma LineFields(r: FileRecord)
    requires CleanHead(r) && CleanAcl(r.acl)
    ensures Fields(LineText(r), '|') == if r.acl == [] then HeadFields(r) else HeadFields(r) + [AclText(r.acl)]
    ensures '\n' !in LineText(r) && LineText(r) != ""
  {
    AclTextIsField(r.acl);
    hide HeadFields, AclText, LineText;
    if r.acl == [] {
      LineOfThirteen(r);
    } else {
      LineOfFourteen(r);
    }
  }

  lemma LineOfThirteen(r: FileRecord)
    requires CleanHead(r) && AclText(r.acl) == ""
    ensures Fields(LineText(r), '|') == HeadFields(r)
    ensures '\n' !in LineText(r) && LineText(r) != ""
  {
    hide HeadFields, AclText;
    var h := HeadFields(r);
    HeadIsClean(r);
    JoinWithConcat(h, [""], '|');
    FieldsConcat(JoinWith(h, '|'), '|', "");
    FieldsOfJoin(h, '|');
    JoinIsClean(h, '|', '\n');
    assert JoinWith(h, '|') + ['|'] + "" == LineText(r);
    assert h + Fields("", '|') == h;
  }

  /** Reading the line of a record gives the record, with its owner raised to WRITE, unless its access list is empty:
      then the line has one field too few and is skipped. */
  lemma LineRoundTrip(r: FileRecord, now: int)
    requires CleanHead(r) && CleanAcl(r.acl)
    ensures ParseLine(LineText(r) + "\n", now)
            == if r.acl == [] then None else Some(r.(acl := EnsureOwner(r.acl, r.owner)))
  {
    if r.acl == [] {
      LineFields(r);
      ChompLine(LineText(r));
      hide LineText;
    } else {
      AclTextIsField(r.acl);
      hide AclText, ParseLine, ParseAcl;
      ParseOfLine(r, now);
      AclRoundTrip(r.acl);
    }
  }

  lemma ChompLine(line: string)
    ensures Chomp(line + "\n") == line
  {
    assert (line + "\n")[..|line|] == line;
  }

  lemma ParseOfLine(r: FileRecord, now: int)
    requires CleanHead(r) && CleanField(AclText(r.acl))
    ensures ParseLine(LineText(r) + "\n", now)
            == Some(r.(acl := EnsureOwner(ParseAcl(AclText(r.acl)), r.owner)))
  {
    ChompLine(LineText(r));
    LineOfFourteen(r);
    NumbersRoundTrip(r);
    hide LineText, AclText, ParseAcl, EnsureOwner, PrintInt, Atoi, ReadDigits;
    var t := HeadFields(r) + [AclText(r.acl)];
    assert |t| == 14 && t[13] == AclText(r.acl) && forall i :: 0 <= i < 13 ==> t[i] == HeadFields(r)[i];
  }

  lemma PrintIntOfNat(n: nat)
    ensures PrintInt(n) == PrintNat(n)
  {
  }

  lemma NumbersRoundTrip(r: FileRecord)
    ensures var h := HeadFields(r);
            && Atoi(h[2]) == r.ssId && Atoi(h[4]) == r.ssClientPort && Atoi(h[5]) == r.createdAt
            && Atoi(h[6]) == r.lastModified && Atoi(h[7]) == r.lastAccessed && ReadDigits(h[9], 0) == r.sizeBytes
            && Atoi(h[10]) == r.wordCount && Atoi(h[11]) == r.charCount
  {
    PrintIntOfNat(r.sizeBytes);
    hide PrintInt, PrintNat, Atoi, ReadDigits;
    AtoiOfPrintInt(r.ssId);
    AtoiOfPrintInt(r.ssClientPort);
    AtoiOfPrintInt(r.createdAt);
    AtoiOfPrintInt(r.lastModified);
    AtoiOfPrintInt(r.lastAccessed);
    ReadPrintedNat(r.sizeBytes);
    AtoiOfPrintInt(r.wordCount);
    AtoiOfPrintInt(r.charCount);
  }

  /** A record comes back as it was exactly when its owner is listed at WRITE, or is not listed and the list is full.
      Every access list the server can reach is of the first kind. */
  lemma LineSurvivesIff(r: FileRecord, now: int)
    requires CleanHead(r) && CleanAcl(r.acl)
    ensures ParseLine(LineText(r) + "\n", now) == Some(r)
            <==> AccessOf(r.acl, r.owner) == ACCESS_WRITE
                 || (|r.acl| == MAX_USERS && FindUser(r.acl, r.owner) == |r.acl|)
    ensures AclOk(r.acl, r.owner) ==> ParseLine(LineText(r) + "\n", now) == Some(r)
  {
    LineRoundTrip(r, now);
    hide ParseLine, LineText, EnsureOwner, FindUser, CleanHead, DistinctUsers;
    OwnerKeptIff(r.acl, r.owner);
    assert r.(acl := EnsureOwner(r.acl, r.owner)) == r <==> EnsureOwner(r.acl, r.owner) == r.acl;
  }

  lemma OwnerKeptIff(acl: seq<Grant>, owner: string)
    requires |acl| <= MAX_USERS
    ensures acl != [] && EnsureOwner(acl, owner) == acl
            <==> AccessOf(acl, owner) == ACCESS_WRITE || (|acl| == MAX_USERS && FindUser(acl, owner) == |acl|)
  {
    hide FindUser;
    var i := FindUser(acl, owner);
    if i < |acl| {
      var g := Grant(owner, ACCESS_WRITE);
      assert acl[i := g][i] == g;
      assert acl[i] == g ==> acl[i := g] == acl;
    }
  }

  /** A record whose line comes back as it was: clean fields, within the buffers, the owner at WRITE. */
  ghost predicate Durable(r: FileRecord) {
    && CleanHead(r) && CleanAcl(r.acl)
    && AccessOf(r.acl, r.owner) == ACCESS_WRITE
    && |LineText(r)| + 1 < LINE_BUFFER
  }

  lemma OwnerIsEnsured(acl: seq<Grant>, owner: string)
    requires AccessOf(acl, owner) == ACCESS_WRITE
    ensures acl != [] && EnsureOwner(acl, owner) == acl
  {
  }

  lemma FirstLine(line: string, rest: string)
    requires '\n' !in line && |line| + 1 < LINE_BUFFER
    ensures LineLength(line + "\n" + rest) == |line| + 1
    ensures (line + "\n" + rest)[..|line| + 1] == line + "\n" && (line + "\n" + rest)[|line| + 1..] == rest
  {
    var text := line + "\n" + rest;
    assert forall i :: 0 <= i < |line| ==> text[i] == line[i];
    RunLengthIs(text, '\n', |line|);
  }

  /** The records of the list, by file name. */
  function ByName(rs: seq<FileRecord>, m: map<string, FileRecord>): map<string, FileRecord>
    decreases |rs|
  {
    if rs == [] then m else ByName(rs[1..], m[rs[0].filename := rs[0]])
  }

  lemma {:induction false} LoadOfSave(rs: seq<FileRecord>, now: int, m: map<string, FileRecord>)
    requires forall i :: 0 <= i < |rs| ==> Durable(rs[i])
    ensures Load(SaveText(rs), now, m) == ByName(rs, m)
    decreases |rs|
  {
    if rs != [] {
      var r, rest := rs[0], SaveText(rs[1..]);
      var line := LineText(r);
      LineFields(r);
      LineRoundTrip(r, now);
      OwnerIsEnsured(r.acl, r.owner);
      FirstLine(line, rest);
      hide LineText, ParseLine, LineLength, EnsureOwner;
      assert SaveText(rs) == line + "\n" + rest;
      LoadOfSave(rs[1..], now, m[r.filename := r]);
    }
  }

  lemma {:induction false} ByNameIs(rs: seq<FileRecord>, m: map<string, FileRecord>)
    requires forall i, j :: 0 <= i < j < |rs| ==> rs[i].filename != rs[j].filename
    ensures var b := ByName(rs, m);
            && (forall i :: 0 <= i < |rs| ==> rs[i].filename in b && b[rs[i].filename] == rs[i])
            && (forall k :: k in b ==> k in m || exists i :: 0 <= i < |rs| && rs[i].filename == k)
            && (forall k :: k in m && (forall i :: 0 <= i < |rs| ==> rs[i].filename != k) ==> k in b && b[k] == m[k])
    decreases |rs|
  {
    if rs != [] {
      var m1, rest := m[rs[0].filename := rs[0]], rs[1..];
      ByNameIs(rest, m1);
      var b := ByName(rs, m);
      forall i | 0 <= i < |rs|
        ensures rs[i].filename in b && b[rs[i].filename] == rs[i]
      {
        if i > 0 {
          assert rs[i] == rest[i - 1];
        } else {
          forall j | 0 <= j < |rest|
            ensures rest[j].filename != rs[0].filename
          {
            assert rest[j] == rs[j + 1];
          }
          assert rs[0].filename in m1;
        }
      }
      forall k | k in b && k !in m
        ensures exists i :: 0 <= i < |rs| && rs[i].filename == k
      {
        if k in m1 {
          assert rs[0].filename == k;
        } else {
          var i :| 0 <= i < |rest| && rest[i].filename == k;
          assert rs[i + 1].filename == k;
        }
      }
    }
  }

  // -------------------------------------------------------------------- the loops of the program

  lemma JoinSnoc(fs: seq<string>, sep: char, i: nat)
    requires i < |fs|
    ensures JoinWith(fs[..i + 1], sep) == if i == 0 then fs[0] else JoinWith(fs[..i], sep) + [sep] + fs[i]
  {
    assert fs[..i + 1] == fs[..i] + [fs[i]];
    if i > 0 {
      JoinWithConcat(fs[..i], [fs[i]], sep);
    }
  }

  /** The access list part of trie_save_helper. */
  method PrintAcl(acl: seq<Grant>) returns (text: string)
    ensures text == AclText(acl)
  {
    hide GrantText;
    text := "";
    ghost var all := GrantTexts(acl);
    var i := 0;
    while i < |acl|
      invariant 0 <= i <= |acl|
      invariant text == if i == 0 then "" else if i < |acl| then JoinWith(all[..i], ',') + "," else JoinWith(all, ',')
    {
      JoinSnoc(all, ',', i);
      text := text + GrantText(acl[i]);
      if i < |acl| - 1 {
        text := text + ",";
      } else {
        assert all[..i + 1] == all;
      }
      i := i + 1;
    }
  }

  /** The line trie_save_helper writes for a record. */
  method PrintLine(r: FileRecord) returns (line: string)
    ensures line == LineText(r) + "\n"
  {
    hide AclText;
    var acl := PrintAcl(r.acl);
    line := JoinWith(HeadFields(r) + [acl], '|') + "\n";
  }

  /** The first `max` fields of a line, as the strtok_r loops of the loader collect them. */
  method CollectFields(line: string, sep: char, max: nat) returns (tokens: seq<string>)
    ensures tokens == if |Fields(line, sep)| <= max then Fields(line, sep) else Fields(line, sep)[..max]
  {
    hide Fields;
    ghost var all := Fields(line, sep);
    tokens := [];
    assert line[0..] == line;
    var found, tok, next := NextField(line, 0, sep);
    ghost var from := 0;
    while found && |tokens| < max
      invariant 0 <= from <= next <= |line| && (found ==> from < next)
      invariant Fields(line[from..], sep) == if found then [tok] + Fields(line[next..], sep) else []
      invariant tokens + Fields(line[from..], sep) == all && |tokens| <= max
      decreases |line| - from
    {
      assert tokens + ([tok] + Fields(line[next..], sep)) == (tokens + [tok]) + Fields(line[next..], sep);
      tokens := tokens + [tok];
      from := next;
      found, tok, next := NextField(line, next, sep);
    }
  }

  /** strchr(s, c). */
  method IndexOfChar(s: string, c: char) returns (k: nat)
    ensures k == RunLength(s, c)
  {
    k := 0;
    while k < |s| && s[k] != c
      invariant 0 <= k <= |s| && RunLength(s, c) == k + RunLength(s[k..], c)
    {
      assert s[k..][0] == s[k] && s[k..][1..] == s[k + 1..];
      k := k + 1;
    }
  }

  lemma NextGrant(pair: string, rest: seq<string>, sofar: seq<Grant>)
    requires |sofar| < MAX_USERS
    ensures ParseGrants([pair] + rest, sofar)
            == ParseGrants(rest, match ParseGrant(pair) case Some(g) => sofar + [g] case None => sofar)
  {
    assert ([pair] + rest)[1..] == rest;
  }

  lemma NoMoreGrants(pairs: seq<string>, sofar: seq<Grant>)
    requires pairs == [] || |sofar| >= MAX_USERS
    ensures ParseGrants(pairs, sofar) == sofar
  {
  }

  /** The access list loop of trie_load_from_disk. */
  method LoadAcl(text: string) returns (acl: seq<Grant>)
    ensures acl == ParseAcl(text)
  {
    hide Fields, Atoi, ParseGrants, Truncate;
    var buf := Truncate(text, ACL_BUFFER);
    acl := [];
    ghost var all := Fields(buf, ',');
    assert buf[0..] == buf;
    var found, pair, next := NextField(buf, 0, ',');
    ghost var from := 0;
    while found && |acl| < MAX_USERS
      invariant 0 <= from <= next <= |buf| && (found ==> from < next)
      invariant Fields(buf[from..], ',') == if found then [pair] + Fields(buf[next..], ',') else []
      invariant ParseGrants(Fields(buf[from..], ','), acl) == ParseGrants(all, [])
      decreases |buf| - from
    {
      NextGrant(pair, Fields(buf[next..], ','), acl);
      var sep := IndexOfChar(pair, ':');
      if sep < |pair| {
        acl := acl + [Grant(pair[..sep], Atoi(pair[sep + 1..]))];
      }
      from := next;
      found, pair, next := NextField(buf, next, ',');
    }
    NoMoreGrants(Fields(buf[from..], ','), acl);
  }

  /** One line of the file. */
  method LoadLine(line: string, now: int) returns (r: Option<FileRecord>)
    ensures r == ParseLine(line, now)
  {
    hide Fields, Atoi, ReadDigits, ParseAcl, EnsureOwner;
    ghost var all := Fields(Chomp(line), '|');
    var t := CollectFields(Chomp(line), '|', FIELDS);
    if |t| >= FIELDS {
      assert forall i :: 0 <= i < FIELDS ==> t[i] == all[i];
      var acl := LoadAcl(t[13]);
      r := Some(FileRecord(t[0], t[1], Atoi(t[2]), t[3], Atoi(t[4]), Atoi(t[5]), Atoi(t[6]), Atoi(t[7]), t[8],
                           ReadDigits(t[9], 0), Atoi(t[10]), Atoi(t[11]), EnsureOwner(acl, t[1])));
    } else if |t| == 5 {
      r := Some(FileRecord(t[0], t[1], Atoi(t[2]), t[3], Atoi(t[4]), now, now, now, t[1], 0, 0, 0,
                           [Grant(t[1], ACCESS_WRITE)]));
    } else {
      r := None;
    }
  }

  /** trie_load_from_disk, into a map. */
  method LoadRecords(text: string, now: int) returns (m: map<string, FileRecord>)
    ensures m == Load(text, now, map[])
  {
    hide ParseLine, LineLength;
    m := map[];
    var at := 0;
    assert text[0..] == text;
    while at < |text|
      invariant 0 <= at <= |text|
      invariant Load(text[at..], now, m) == Load(text, now, map[])
    {
      var rest := text[at..];
      var n := LineLength(rest);
      var r := LoadLine(rest[..n], now);
      if r.Some? {
        m := m[r.value.filename := r.value];
      }
      assert rest[n..] == text[at + n..];
      at := at + n;
    }
  }
}
