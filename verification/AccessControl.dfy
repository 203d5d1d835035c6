/** The access list of a file (naming_server/nm_storage.c: create_file_metadata, add_file_access, remove_file_access,
    check_file_access). */
module AccessControl {
  import opened Lists

  const MAX_USERS := 100
  const ACCESS_NONE := 0
  const ACCESS_WRITE := 2

  datatype Grant = Grant(user: string, access: int)

  // ------------------------------------------------------------------------ the list as a value

  function FindUser(acl: seq<Grant>, user: string): (i: nat)
    ensures i <= |acl| && (i < |acl| ==> acl[i].user == user)
    ensures forall j :: 0 <= j < i ==> acl[j].user != user
  {
    FirstIndex(acl, (g: Grant) => g.user == user)
  }

  function AccessOf(acl: seq<Grant>, user: string): int {
    var i := FindUser(acl, user);
    if i < |acl| then acl[i].access else ACCESS_NONE
  }

  /** The level a grant ends in: the owner always has WRITE, and WRITE is never lowered. */
  function Raised(acl: seq<Grant>, owner: string, user: string, access: int): int {
    if user == owner || AccessOf(acl, user) == ACCESS_WRITE then ACCESS_WRITE else access
  }

  /** There is an entry for the user, or room for one. */
  predicate CanGrant(acl: seq<Grant>, user: string) {
    FindUser(acl, user) < |acl| || |acl| < MAX_USERS
  }

  function WithGrant(acl: seq<Grant>, owner: string, user: string, access: int): seq<Grant> {
    var i, e := FindUser(acl, user), Grant(user, Raised(acl, owner, user, access));
    if i < |acl| then acl[i := e] else if |acl| < MAX_USERS then acl + [e] else acl
  }

  predicate CanRevoke(acl: seq<Grant>, owner: string, user: string) {
    user != owner && FindUser(acl, user) < |acl|
  }

  function WithoutGrant(acl: seq<Grant>, owner: string, user: string): seq<Grant> {
    var i := FindUser(acl, user);
    if CanRevoke(acl, owner, user) then Omit(acl, i) else acl
  }

  // -------------------------------------------------------------------------------- the laws

  ghost predicate DistinctUsers(acl: seq<Grant>) {
    forall i, j :: 0 <= i < j < |acl| ==> acl[i].user != acl[j].user
  }

  /** What every access list keeps: one entry per user, room for no more than MAX_USERS, the owner at WRITE. */
  ghost predicate AclOk(acl: seq<Grant>, owner: string) {
    && DistinctUsers(acl)
    && |acl| <= MAX_USERS
    && AccessOf(acl, owner) == ACCESS_WRITE
  }

  lemma FindUserIs(acl: seq<Grant>, user: string, i: nat)
    requires i <= |acl| && (i < |acl| ==> acl[i].user == user) && forall j :: 0 <= j < i ==> acl[j].user != user
    ensures FindUser(acl, user) == i
  {
    var k := FindUser(acl, user);
    assert !(i < k) && !(k < i);
  }

  lemma FindInUpdated(acl: seq<Grant>, i: nat, access: int, u: string)
    requires i < |acl|
    ensures FindUser(acl[i := Grant(acl[i].user, access)], u) == FindUser(acl, u)
  {
    FindUserIs(acl[i := Grant(acl[i].user, access)], u, FindUser(acl, u));
  }

  lemma FindInAppended(acl: seq<Grant>, e: Grant, u: string)
    ensures FindUser(acl + [e], u) == if FindUser(acl, u) < |acl| || e.user == u then FindUser(acl, u) else |acl| + 1
  {
    var i := FindUser(acl, u);
    FindUserIs(acl + [e], u, if i < |acl| || e.user == u then i else |acl| + 1);
  }

  lemma DistinctWithGrant(acl: seq<Grant>, owner: string, user: string, access: int)
    requires DistinctUsers(acl)
    ensures DistinctUsers(WithGrant(acl, owner, user, access))
  {
  }

  /** A grant changes this user's access only, to at least what was asked for, and is refused only by a full list. */
  lemma GrantLaws(acl: seq<Grant>, owner: string, user: string, access: int, u: string)
    requires AclOk(acl, owner)
    ensures AclOk(WithGrant(acl, owner, user, access), owner)
    ensures AccessOf(WithGrant(acl, owner, user, access), u)
            == if u == user && CanGrant(acl, user) then Raised(acl, owner, user, access) else AccessOf(acl, u)
  {
    var i := FindUser(acl, user);
    DistinctWithGrant(acl, owner, user, access);
    hide FindUser, DistinctUsers;
    var e := Grant(user, Raised(acl, owner, user, access));
    if i < |acl| {
      FindInUpdated(acl, i, e.access, u);
      FindInUpdated(acl, i, e.access, owner);
    } else if |acl| < MAX_USERS {
      FindInAppended(acl, e, u);
      FindInAppended(acl, e, owner);
    }
  }

  /** There is an entry for the user. */
  ghost predicate Listed(acl: seq<Grant>, user: string) {
    exists i :: 0 <= i < |acl| && acl[i].user == user
  }

  lemma ListedIff(acl: seq<Grant>, user: string)
    ensures FindUser(acl, user) < |acl| <==> Listed(acl, user)
  {
    hide FindUser;
    if Listed(acl, user) {
      var i :| 0 <= i < |acl| && acl[i].user == user;
      assert !(i < FindUser(acl, user));
    }
  }

  /** The level of a user is that of his entry, or none; each has one entry. */
  lemma AccessIsListed(acl: seq<Grant>, user: string, access: int)
    requires DistinctUsers(acl)
    ensures Grant(user, access) in acl ==> AccessOf(acl, user) == access
    ensures !Listed(acl, user) ==> AccessOf(acl, user) == ACCESS_NONE
  {
    ListedIff(acl, user);
    hide FindUser;
    if Grant(user, access) in acl {
      var i :| 0 <= i < |acl| && acl[i] == Grant(user, access);
      assert FindUser(acl, user) == i;
    }
  }

  /** What a user has after a grant to him: WRITE if he is the owner or had it; else what was asked for, if he is listed
      or the list has room; else nothing, as before. */
  ghost function LevelAfter(acl: seq<Grant>, owner: string, user: string, access: int): int {
    if user == owner || AccessOf(acl, user) == ACCESS_WRITE then ACCESS_WRITE
    else if Listed(acl, user) || |acl| < MAX_USERS then access
    else ACCESS_NONE
  }

  lemma GrantSetsLevel(acl: seq<Grant>, owner: string, user: string, access: int, u: string)
    requires AclOk(acl, owner)
    ensures AccessOf(WithGrant(acl, owner, user, access), u)
            == if u == user then LevelAfter(acl, owner, user, access) else AccessOf(acl, u)
    ensures |WithGrant(acl, owner, user, access)| == |acl| + if Listed(acl, user) || |acl| == MAX_USERS then 0 else 1
  {
    GrantLaws(acl, owner, user, access, u);
    ListedIff(acl, user);
    if !Listed(acl, user) {
      NotListed(acl, user);
    }
    hide FindUser, DistinctUsers;
  }

  /** No grant, to anyone, lowers a WRITE. */
  lemma GrantNeverLowersWrite(acl: seq<Grant>, owner: string, user: string, access: int, u: string)
    requires AclOk(acl, owner) && AccessOf(acl, u) == ACCESS_WRITE
    ensures AccessOf(WithGrant(acl, owner, user, access), u) == ACCESS_WRITE
  {
    GrantLaws(acl, owner, user, access, u);
  }

  lemma DistinctOmitted(acl: seq<Grant>, i: nat)
    requires i < |acl| && DistinctUsers(acl)
    ensures DistinctUsers(Omit(acl, i))
  {
  }

  lemma FindInOmitted(acl: seq<Grant>, i: nat, u: string)
    requires i < |acl| && DistinctUsers(acl)
    ensures DistinctUsers(Omit(acl, i))
    ensures var d, p := Omit(acl, i), FindUser(acl, u);
            FindUser(d, u) == if p == i || p == |acl| then |acl| - 1 else if p < i then p else p - 1
  {
    DistinctOmitted(acl, i);
    var d, p := Omit(acl, i), FindUser(acl, u);
    FindUserIs(d, u, if p == i || p == |acl| then |acl| - 1 else if p < i then p else p - 1);
  }

  lemma AccessWithout(acl: seq<Grant>, i: nat, u: string)
    requires i < |acl| && DistinctUsers(acl)
    ensures var d := Omit(acl, i);
            && DistinctUsers(d) && |d| == |acl| - 1
            && AccessOf(d, u) == if u == acl[i].user then ACCESS_NONE else AccessOf(acl, u)
  {
    hide FindUser;
    FindInOmitted(acl, i, u);
  }

  /** Revoking takes away this user's access only, and never the owner's. */
  lemma RevokeLaws(acl: seq<Grant>, owner: string, user: string, u: string)
    requires AclOk(acl, owner)
    ensures AclOk(WithoutGrant(acl, owner, user), owner)
    ensures AccessOf(WithoutGrant(acl, owner, user), u)
            == if u == user && u != owner then ACCESS_NONE else AccessOf(acl, u)
  {
    hide FindUser, DistinctUsers, AccessOf;
    if CanRevoke(acl, owner, user) {
      AccessWithout(acl, FindUser(acl, user), u);
      AccessWithout(acl, FindUser(acl, user), owner);
    }
    if FindUser(acl, u) == |acl| {
      NotListed(acl, u);
    }
  }

  lemma NotListed(acl: seq<Grant>, u: string)
    requires FindUser(acl, u) == |acl|
    ensures AccessOf(acl, u) == ACCESS_NONE
  {
  }

  // ------------------------------------------------------------------------- the record itself

  class FileMetadata {
    const filename: string
    const owner: string
    const accessList: array<Grant>
    var accessCount: nat
    var wordCount: int
    var charCount: int
    var sizeBytes: int
    var lastModified: int

    ghost predicate Valid()
      reads this
    {
      accessList.Length == MAX_USERS && accessCount <= accessList.Length
    }

    ghost function Acl(): seq<Grant>
      requires Valid()
      reads this, accessList
    {
      accessList[..accessCount]
    }

    /** create_file_metadata at time `now`: the owner has WRITE from the start. */
    constructor (filename: string, owner: string, now: int)
      ensures Valid() && fresh(accessList) && this.owner == owner && this.filename == filename
      ensures Acl() == [Grant(owner, ACCESS_WRITE)] && AclOk(Acl(), owner)
      ensures wordCount == charCount == sizeBytes == 0 && lastModified == now
    {
      this.filename, this.owner := filename, owner;
      accessList := new Grant[MAX_USERS](_ => Grant("", ACCESS_NONE));
      accessCount := 1;
      wordCount, charCount, sizeBytes, lastModified := 0, 0, 0, now;
      new;
      accessList[0] := Grant(owner, ACCESS_WRITE);
    }

    method IndexOf(user: string) returns (idx: int)
      requires Valid()
      ensures var i := FindUser(Acl(), user); idx == if i < accessCount then i else -1
    {
      hide FindUser;
      var i := 0;
      while i < accessCount
        invariant 0 <= i <= accessCount && FindUser(Acl(), user) >= i
      {
        assert Acl()[i] == accessList[i];
        if accessList[i].user == user {
          return i;
        }
        i := i + 1;
      }
      return -1;
    }

    method SetAccess(idx: nat, access: int)
      requires Valid() && idx < accessCount
      modifies accessList
      ensures Acl() == old(Acl())[idx := Grant(old(Acl())[idx].user, access)]
    {
      accessList[idx] := accessList[idx].(access := access);
    }

    method AppendAccess(user: string, access: int)
      requires Valid() && accessCount < MAX_USERS
      modifies `accessCount, accessList
      ensures Valid() && Acl() == old(Acl()) + [Grant(user, access)]
    {
      accessList[accessCount] := Grant(user, access);
      accessCount := accessCount + 1;
    }

    /** add_file_access; 0 when granted, -1 when the list is full. */
    method AddFileAccess(user: string, access: int) returns (rc: int)
      requires Valid()
      modifies `accessCount, accessList
      ensures Valid() && rc == if Listed(old(Acl()), user) || old(accessCount) < MAX_USERS then 0 else -1
      ensures Acl() == WithGrant(old(Acl()), owner, user, access)
    {
      ListedIff(Acl(), user);
      hide FindUser, Listed;
      var idx := IndexOf(user);
      if user == owner {
        if idx >= 0 {
          SetAccess(idx, ACCESS_WRITE);
          return 0;
        }
        if accessCount < MAX_USERS {
          AppendAccess(user, ACCESS_WRITE);
          return 0;
        }
        return -1;
      }
      if idx >= 0 {
        assert accessList[idx] == Acl()[idx];
        if accessList[idx].access == ACCESS_WRITE {
          assert Acl()[idx := Grant(user, ACCESS_WRITE)] == Acl();
          return 0;
        }
        SetAccess(idx, access);
        return 0;
      }
      if accessCount < MAX_USERS {
        AppendAccess(user, access);
        return 0;
      }
      return -1;
    }

    /** remove_file_access: later entries move down by one. */
    method RemoveFileAccess(user: string) returns (rc: int)
      requires Valid()
      modifies `accessCount, accessList
      ensures Valid() && rc == if user != owner && Listed(old(Acl()), user) then 0 else -1
      ensures Acl() == WithoutGrant(old(Acl()), owner, user)
    {
      ListedIff(Acl(), user);
      hide FindUser, Listed;
      if owner == user {
        return -1;
      }
      var idx := IndexOf(user);
      if idx < 0 {
        return -1;
      }
      ShiftDown(idx);
      return 0;
    }

    /** Takes entry `idx` out: the entries behind it move down by one. */
    method ShiftDown(idx: nat)
      requires Valid() && idx < accessCount
      modifies `accessCount, accessList
      ensures Valid() && Acl() == Omit(old(Acl()), idx)
    {
      ghost var was := Acl();
      var j := idx;
      while j < accessCount - 1
        invariant Valid() && accessCount == |was| && idx <= j <= accessCount - 1
        invariant forall k :: 0 <= k < idx ==> accessList[k] == was[k]
        invariant forall k :: idx <= k < j ==> accessList[k] == was[k + 1]
        invariant forall k :: j <= k < accessCount ==> accessList[k] == was[k]
      {
        accessList[j] := accessList[j + 1];
        j := j + 1;
      }
      accessCount := accessCount - 1;
    }

    /** check_file_access. */
    method CheckFileAccess(user: string) returns (access: int)
      requires Valid()
      ensures access == AccessOf(Acl(), user)
    {
      var idx := IndexOf(user);
      access := if idx >= 0 then accessList[idx].access else ACCESS_NONE;
    }
  }
}
