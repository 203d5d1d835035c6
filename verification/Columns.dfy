/** The columns of metadata.dat, in each direction on its own: what stands where in the line that is written for a
    record, and which part of the record each field of a line becomes (naming_server/nm_storage.c: trie_save_helper,
    trie_load_from_disk). */
module MetadataColumns {
  import opened Options
  import opened CString
  import opened AccessControl
  import opened Persistence

  // ---------------------------------------------------------------------------------- writing

  /** The line of a record: name, owner, server number and address, port, the three times, who accessed it last, size,
      words, characters, the number of access entries, and the entries. An empty access list is no field at all. */
  lemma PrintedColumns(r: FileRecord)
    requires CleanHead(r) && CleanAcl(r.acl)
    ensures var f := Fields(LineText(r), '|');
            && |f| == (if r.acl == [] then 13 else 14)
            && f[0] == r.filename && f[1] == r.owner
            && f[2] == PrintInt(r.ssId) && f[3] == r.ssIp && f[4] == PrintInt(r.ssClientPort)
            && f[5] == PrintInt(r.createdAt) && f[6] == PrintInt(r.lastModified) && f[7] == PrintInt(r.lastAccessed)
            && f[8] == r.lastAccessedBy && f[9] == PrintInt(r.sizeBytes)
            && f[10] == PrintInt(r.wordCount) && f[11] == PrintInt(r.charCount) && f[12] == PrintInt(|r.acl|)
            && (r.acl != [] ==> EntriesStandIn(r.acl, f[13]))
  {
    LineFields(r);
    PrintedEntries(r.acl);
    HeadColumns(r);
    hide *;
    assert forall i :: 0 <= i < 13 ==> (HeadFields(r) + [AclText(r.acl)])[i] == HeadFields(r)[i];
  }

  lemma HeadColumns(r: FileRecord)
    ensures var f := HeadFields(r);
            && f[0] == r.filename && f[1] == r.owner
            && f[2] == PrintInt(r.ssId) && f[3] == r.ssIp && f[4] == PrintInt(r.ssClientPort)
            && f[5] == PrintInt(r.createdAt) && f[6] == PrintInt(r.lastModified) && f[7] == PrintInt(r.lastAccessed)
            && f[8] == r.lastAccessedBy && f[9] == PrintInt(r.sizeBytes)
            && f[10] == PrintInt(r.wordCount) && f[11] == PrintInt(r.charCount) && f[12] == PrintInt(|r.acl|)
  {
    hide PrintInt;
  }

  /** The text holds one entry per grant, in order, a comma between two: user, colon, level. */
  ghost predicate EntriesStandIn(acl: seq<Grant>, text: string) {
    var f := Fields(text, ',');
    |f| == |acl| && forall i :: 0 <= i < |acl| ==> f[i] == acl[i].user + ":" + PrintInt(acl[i].access)
  }

  lemma PrintedEntries(acl: seq<Grant>)
    requires CleanAcl(acl)
    ensures EntriesStandIn(acl, AclText(acl))
  {
    forall i | 0 <= i < |acl|
      ensures IsField(GrantTexts(acl)[i], ',')
    {
      GrantRoundTrip(acl[i]);
    }
    FieldsOfJoin(GrantTexts(acl), ',');
  }

  // ---------------------------------------------------------------------------------- reading

  /** The entry is the text in front of its first colon, with the number behind it. */
  ghost predicate Reads(pair: string, g: Grant) {
    var k := |g.user|;
    k < |pair| && pair[..k] == g.user && ':' !in g.user && pair[k] == ':' && g.access == Atoi(pair[k + 1..])
  }

  /** The entries that have a colon. */
  function WithColon(pairs: seq<string>): seq<string> {
    if pairs == [] then [] else (if ':' in pairs[0] then [pairs[0]] else []) + WithColon(pairs[1..])
  }

  lemma OneGrant(pair: string)
    ensures ParseGrant(pair).Some? <==> ':' in pair
    ensures ParseGrant(pair).Some? ==> Reads(pair, ParseGrant(pair).value)
  {
    hide Atoi;
    var k := RunLength(pair, ':');
    assert ':' in pair ==> k < |pair|;
    assert k < |pair| ==> pair[k] == ':';
  }

  lemma {:induction false} GrantsAre(pairs: seq<string>, sofar: seq<Grant>)
    requires |sofar| <= MAX_USERS
    ensures var r, e, n := ParseGrants(pairs, sofar), WithColon(pairs), |sofar|;
            && |r| == (if n + |e| < MAX_USERS then n + |e| else MAX_USERS)
            && (forall i :: 0 <= i < n ==> r[i] == sofar[i])
            && (forall i :: n <= i < |r| ==> Reads(e[i - n], r[i]))
    decreases |pairs|
  {
    hide ParseGrant, Reads;
    if pairs != [] && |sofar| < MAX_USERS {
      OneGrant(pairs[0]);
      var rest := WithColon(pairs[1..]);
      match ParseGrant(pairs[0])
      case Some(g) =>
        GrantsAre(pairs[1..], sofar + [g]);
        assert WithColon(pairs) == [pairs[0]] + rest;
      case None =>
        GrantsAre(pairs[1..], sofar);
        assert WithColon(pairs) == [] + rest == rest;
    }
  }

  /** Of the first 2047 characters of the field, the first 100 entries with a colon are read, in order. */
  lemma LoadedEntries(text: string)
    ensures var e := WithColon(Fields(if |text| < 2048 then text else text[..2047], ','));
            var r := ParseAcl(text);
            && |r| == (if |e| < MAX_USERS then |e| else MAX_USERS)
            && forall i :: 0 <= i < |r| ==> Reads(e[i], r[i])
  {
    hide Reads, ParseGrants, Fields;
    GrantsAre(Fields(Truncate(text, ACL_BUFFER), ','), []);
  }

  /** The list that is kept: the owner at WRITE, unless the list is full without him; everybody else as in the line. */
  lemma LoadedAccess(acl: seq<Grant>, owner: string, u: string)
    requires |acl| <= MAX_USERS
    ensures |acl| <= |EnsureOwner(acl, owner)| <= MAX_USERS
    ensures AccessOf(EnsureOwner(acl, owner), u)
            == if u != owner then AccessOf(acl, u)
               else if |acl| == MAX_USERS && (forall i :: 0 <= i < |acl| ==> acl[i].user != owner) then ACCESS_NONE
               else ACCESS_WRITE
  {
    var i := FindUser(acl, owner);
    hide FindUser;
    if i < |acl| {
      FindInUpdated(acl, i, ACCESS_WRITE, u);
    } else if |acl| < MAX_USERS {
      FindInAppended(acl, Grant(owner, ACCESS_WRITE), u);
    } else {
      NotListed(acl, owner);
    }
  }

  /** The record of a line: from fourteen fields or more the columns above; from exactly five, as older files have them,
      the first five, with the present for every time and the owner alone at WRITE. Any other line is no record. */
  lemma LoadedColumns(line: string, now: int)
    ensures var t, r := Fields(Chomp(line), '|'), ParseLine(line, now);
            && (r.Some? <==> |t| >= 14 || |t| == 5)
            && (r.Some? ==>
                  && r.value.filename == t[0] && r.value.owner == t[1]
                  && r.value.ssId == Atoi(t[2]) && r.value.ssIp == t[3] && r.value.ssClientPort == Atoi(t[4]))
            && (|t| >= 14 ==>
                  && r.value.createdAt == Atoi(t[5]) && r.value.lastModified == Atoi(t[6])
                  && r.value.lastAccessed == Atoi(t[7]) && r.value.lastAccessedBy == t[8]
                  && r.value.sizeBytes == ReadDigits(t[9], 0)
                  && r.value.wordCount == Atoi(t[10]) && r.value.charCount == Atoi(t[11])
                  && forall u :: AccessOf(r.value.acl, u) == LoadedLevel(t[13], t[1], u))
            && (|t| == 5 ==>
                  && r.value.createdAt == r.value.lastModified == r.value.lastAccessed == now
                  && r.value.lastAccessedBy == t[1]
                  && r.value.sizeBytes == r.value.wordCount == r.value.charCount == 0
                  && forall u :: AccessOf(r.value.acl, u) == if u == t[1] then ACCESS_WRITE else ACCESS_NONE)
  {
    var t := Fields(Chomp(line), '|');
    hide Fields, Atoi, ReadDigits, Chomp, ParseAcl, EnsureOwner, FindUser, LoadedLevel;
    if |t| >= 14 {
      forall u
        ensures AccessOf(EnsureOwner(ParseAcl(t[13]), t[1]), u) == LoadedLevel(t[13], t[1], u)
      {
        LevelIsLoaded(t[13], t[1], u);
      }
    } else if |t| == 5 {
      forall u
        ensures AccessOf([Grant(t[1], ACCESS_WRITE)], u) == if u == t[1] then ACCESS_WRITE else ACCESS_NONE
      {
        AccessOfOne(t[1], u);
      }
    }
  }

  /** The level the access field gives a user: that of his first entry, and WRITE for the owner. */
  ghost function LoadedLevel(text: string, owner: string, u: string): int {
    var acl := ParseAcl(text);
    if u == owner && (|acl| < MAX_USERS || exists i :: 0 <= i < |acl| && acl[i].user == owner) then ACCESS_WRITE
    else AccessOf(acl, u)
  }

  lemma LevelIsLoaded(text: string, owner: string, u: string)
    ensures AccessOf(EnsureOwner(ParseAcl(text), owner), u) == LoadedLevel(text, owner, u)
  {
    LoadedEntries(text);
    LoadedAccess(ParseAcl(text), owner, u);
    hide ParseAcl, EnsureOwner, FindUser;
    if u == owner && forall i :: 0 <= i < |ParseAcl(text)| ==> ParseAcl(text)[i].user != owner {
      Unlisted(ParseAcl(text), owner);
    }
  }

  lemma Unlisted(acl: seq<Grant>, u: string)
    requires forall i :: 0 <= i < |acl| ==> acl[i].user != u
    ensures AccessOf(acl, u) == ACCESS_NONE
  {
    hide FindUser;
    assert !(FindUser(acl, u) < |acl|);
  }

  lemma AccessOfOne(owner: string, u: string)
    ensures AccessOf([Grant(owner, ACCESS_WRITE)], u) == if u == owner then ACCESS_WRITE else ACCESS_NONE
  {
    FindUserIs([Grant(owner, ACCESS_WRITE)], u, if u == owner then 0 else 1);
  }

  // ------------------------------------------------------------------------------ line by line

  /** The loader works line by line. */
  lemma {:induction false} LoadConcat(a: string, b: string, now: int, m: map<string, FileRecord>)
    requires a == "" || a[|a| - 1] == '\n'
    ensures Load(a + b, now, m) == Load(b, now, Load(a, now, m))
    decreases |a|
  {
    hide ParseLine, RunLength, LineLength;
    if a == "" {
      assert a + b == b;
    } else {
      var n := LineLength(a);
      SameLine(a, b);
      assert (a + b)[..n] == a[..n] && (a + b)[n..] == a[n..] + b;
      assert a[n..] != "" ==> a[n..][|a[n..]| - 1] == a[|a| - 1];
      LoadConcat(a[n..], b, now, match ParseLine(a[..n], now) case Some(r) => m[r.filename := r] case None => m);
    }
  }

  lemma SameLine(a: string, b: string)
    requires a != "" && a[|a| - 1] == '\n'
    ensures LineLength(a + b) == LineLength(a)
  {
    var k := RunLength(a, '\n');
    assert k < |a|;
    assert forall i :: 0 <= i < k ==> (a + b)[i] == a[i];
    RunLengthIs(a + b, '\n', k);
  }

  /** Each line adds its record, in the place of an earlier one of that name; a line that is no record adds nothing. */
  lemma LastLineCounts(text: string, line: string, now: int, m: map<string, FileRecord>)
    requires text == "" || text[|text| - 1] == '\n'
    requires '\n' !in line && |line| + 1 < LINE_BUFFER
    ensures var before, r := Load(text, now, m), ParseLine(line + "\n", now);
            Load(text + line + "\n", now, m) == if r.Some? then before[r.value.filename := r.value] else before
  {
    hide ParseLine, LineLength;
    LoadConcat(text, line + "\n", now, m);
    assert text + line + "\n" == text + (line + "\n");
    FirstLine(line, "");
    assert line + "\n" + "" == line + "\n";
  }
}
