/** Access requests and the steps that grant, revoke and resolve them (naming_server/nm_storage.c:
    access_requests_append, access_requests_resolve; naming_server/naming_server.c, the request cases). Approving is
    three steps, as in the program: the owner is checked under one mutex, the request is taken off the table under
    another, the access is granted under the first again, and anything may happen in between. Asking is two. */
module AccessRequests {
  import opened AccessControl
  import opened Lists

  const MAX_REQUESTS := 1000

  datatype Request = Request(file: string, requester: string, access: int, pending: bool)

  // ----------------------------------------------------------------------- the table as a value

  predicate Matches(r: Request, file: string, requester: string) {
    r.pending && r.file == file && r.requester == requester
  }

  /** The first pending request of this user for this file, or |t|. */
  function FindPending(t: seq<Request>, file: string, requester: string): (i: nat)
    ensures i <= |t| && (i < |t| ==> Matches(t[i], file, requester))
    ensures forall j :: 0 <= j < i ==> !Matches(t[j], file, requester)
  {
    FirstIndex(t, (r: Request) => Matches(r, file, requester))
  }

  predicate HasPending(t: seq<Request>, file: string, requester: string) {
    FindPending(t, file, requester) < |t|
  }

  const ALREADY_PENDING := -2
  const TABLE_FULL := -3

  function AppendCode(t: seq<Request>, file: string, requester: string): int {
    if file == "" || requester == "" then -1
    else if HasPending(t, file, requester) then ALREADY_PENDING
    else if |t| >= MAX_REQUESTS then TABLE_FULL
    else 0
  }

  function Appended(t: seq<Request>, file: string, requester: string, access: int): seq<Request> {
    if AppendCode(t, file, requester) == 0 then t + [Request(file, requester, access, true)] else t
  }

  function Resolved(t: seq<Request>, file: string, requester: string): seq<Request> {
    var i := FindPending(t, file, requester);
    if i < |t| then t[i := t[i].(pending := false)] else t
  }

  /** At most one request of a user for a file is pending, and the table is within its capacity. */
  ghost predicate TableOk(t: seq<Request>) {
    && |t| <= MAX_REQUESTS
    && forall i, j :: 0 <= i < j < |t| && t[i].pending && t[j].pending ==>
         t[i].file != t[j].file || t[i].requester != t[j].requester
  }

  lemma AppendKeepsTable(t: seq<Request>, file: string, requester: string, access: int)
    requires TableOk(t)
    ensures TableOk(Appended(t, file, requester, access))
    ensures AppendCode(t, file, requester) == 0 ==> HasPending(Appended(t, file, requester, access), file, requester)
  {
    hide FindPending;
    var u := Appended(t, file, requester, access);
    if u != t {
      assert Matches(u[|t|], file, requester);
    }
  }

  /** Resolving leaves no pending request of this user for this file, and every other request as it was. */
  lemma ResolveClears(t: seq<Request>, file: string, requester: string)
    requires TableOk(t)
    ensures TableOk(Resolved(t, file, requester)) && !HasPending(Resolved(t, file, requester), file, requester)
    ensures var u := Resolved(t, file, requester);
            |u| == |t| && forall i :: 0 <= i < |t| ==>
              u[i] == t[i] || (Matches(t[i], file, requester) && u[i] == t[i].(pending := false))
  {
    hide FindPending;
    var u, i := Resolved(t, file, requester), FindPending(t, file, requester);
    assert forall j :: 0 <= j < |t| && j != i ==> !Matches(t[j], file, requester) && u[j] == t[j];
  }

  // -------------------------------------------------------------------------- the table itself

  class RequestTable {
    const entries: array<Request>
    var count: nat

    ghost predicate Valid()
      reads this
    {
      entries.Length == MAX_REQUESTS && count <= entries.Length
    }

    ghost function Contents(): seq<Request>
      requires Valid()
      reads this, entries
    {
      entries[..count]
    }

    constructor ()
      ensures Valid() && fresh(entries) && Contents() == []
    {
      entries := new Request[MAX_REQUESTS](_ => Request("", "", ACCESS_NONE, false));
      count := 0;
    }

    method IndexOfPending(file: string, requester: string) returns (idx: int)
      requires Valid()
      ensures var i := FindPending(Contents(), file, requester); idx == if i < count then i else -1
    {
      hide FindPending;
      ghost var t := Contents();
      var i := 0;
      while i < count
        invariant 0 <= i <= count && FindPending(t, file, requester) >= i
      {
        assert t[i] == entries[i];
        if entries[i].pending && entries[i].file == file && entries[i].requester == requester {
          return i;
        }
        i := i + 1;
      }
      return -1;
    }

    /** access_requests_append. */
    method Append(file: string, requester: string, access: int) returns (rc: int)
      requires Valid()
      modifies this, entries
      ensures Valid() && rc == if file == "" || requester == "" then -1
                               else if HasPending(old(Contents()), file, requester) then -2
                               else if |old(Contents())| == MAX_REQUESTS then -3
                               else 0
      ensures Contents() == Appended(old(Contents()), file, requester, access)
    {
      hide FindPending;
      if file == "" || requester == "" {
        return -1;
      }
      var idx := IndexOfPending(file, requester);
      if idx >= 0 {
        return ALREADY_PENDING;
      }
      if count >= MAX_REQUESTS {
        return TABLE_FULL;
      }
      entries[count] := Request(file, requester, access, true);
      count := count + 1;
      return 0;
    }

    /** The first half of access_requests_resolve: 0 if a pending request was closed, -1 if there is none. */
    method Resolve(file: string, requester: string) returns (rc: int)
      requires Valid()
      modifies entries
      ensures Valid() && rc == if HasPending(old(Contents()), file, requester) then 0 else -1
      ensures Contents() == Resolved(old(Contents()), file, requester)
    {
      hide FindPending;
      var idx := IndexOfPending(file, requester);
      if idx < 0 {
        return -1;
      }
      assert entries[idx] == Contents()[idx];
      entries[idx] := entries[idx].(pending := false);
      return 0;
    }
  }

  // ------------------------------------------------------------------------------ the machine

  datatype Record = Record(owner: string, acl: seq<Grant>)

  /** An approval whose request is closed and whose access is not granted yet. */
  datatype Approval = Approval(file: string, requester: string, access: int)

  /** A handler that has passed its check and not used it yet: of someone who may answer the requests for a file, or who
      may ask for access to it. */
  datatype Check = MayAnswer(file: string, sender: string) | MayAsk(file: string, requester: string, access: int)

  datatype State = State(
    records: map<string, Record>,
    checks: multiset<Check>,
    table: seq<Request>,
    approvals: seq<Approval>)

  datatype Event =
    | Create(file: string, owner: string)
    | Delete(file: string, sender: string)
    | AddAccess(file: string, sender: string, user: string, access: int)
    | RemoveAccess(file: string, sender: string, user: string)
    | CheckAsk(file: string, requester: string, access: int)
    | Ask(file: string, requester: string, access: int)
    | CheckOwner(file: string, sender: string)
    | Approve(file: string, sender: string, requester: string, access: int)
    | GrantApproved(index: nat)
    | Deny(file: string, sender: string, requester: string)

  predicate IsOwner(s: State, file: string, sender: string) {
    file in s.records && s.records[file].owner == sender
  }

  function GrantTo(s: State, file: string, user: string, access: int): State {
    if file in s.records then
      var r := s.records[file];
      s.(records := s.records[file := r.(acl := WithGrant(r.acl, r.owner, user, access))])
    else s
  }

  /** The file exists, and the user is neither its owner nor has this access already. */
  predicate LacksAccess(s: State, file: string, requester: string, access: int) {
    && file in s.records && s.records[file].owner != requester
    && AccessOf(s.records[file].acl, requester) < access
  }

  function Passed(s: State, c: Check, ok: bool): State {
    if ok then s.(checks := s.checks + multiset{c}) else s
  }

  /** Ask, Approve and Deny use up a check that was passed; what was checked may no longer hold. */
  function Step(s: State, e: Event): State {
    match e
    case Create(file, owner) =>
      if file in s.records then s
      else s.(records := s.records[file := Record(owner, [Grant(owner, ACCESS_WRITE)])])
    case Delete(file, sender) => if IsOwner(s, file, sender) then s.(records := s.records - {file}) else s
    case AddAccess(file, sender, user, access) =>
      if IsOwner(s, file, sender) then GrantTo(s, file, user, access) else s
    case RemoveAccess(file, sender, user) =>
      if IsOwner(s, file, sender) then
        var r := s.records[file];
        s.(records := s.records[file := r.(acl := WithoutGrant(r.acl, r.owner, user))])
      else s
    case CheckAsk(file, requester, access) =>
      Passed(s, MayAsk(file, requester, access), LacksAccess(s, file, requester, access))
    case Ask(file, requester, access) =>
      var c := MayAsk(file, requester, access);
      if c !in s.checks then s
      else s.(checks := s.checks - multiset{c}, table := Appended(s.table, file, requester, access))
    case CheckOwner(file, sender) => Passed(s, MayAnswer(file, sender), IsOwner(s, file, sender))
    case Approve(file, sender, requester, access) =>
      var c := MayAnswer(file, sender);
      if c !in s.checks then s
      else
        var next := if HasPending(s.table, file, requester) then [Approval(file, requester, access)] else [];
        s.(checks := s.checks - multiset{c}, table := Resolved(s.table, file, requester),
           approvals := s.approvals + next)
    case GrantApproved(i) =>
      if i < |s.approvals| then
        var a := s.approvals[i];
        GrantTo(s, a.file, a.requester, a.access).(approvals := Omit(s.approvals, i))
      else s
    case Deny(file, sender, requester) =>
      var c := MayAnswer(file, sender);
      if c !in s.checks then s
      else s.(checks := s.checks - multiset{c}, table := Resolved(s.table, file, requester))
  }

  function Run(s: State, es: seq<Event>): State
    decreases |es|
  {
    if es == [] then s else Run(Step(s, es[0]), es[1..])
  }

  /** Every access list is in order, and so is the request table. */
  ghost predicate Sound(s: State) {
    && TableOk(s.table)
    && forall f :: f in s.records ==> AclOk(s.records[f].acl, s.records[f].owner)
  }

  const START := State(map[], multiset{}, [], [])

  lemma StepKeepsSound(s: State, e: Event)
    requires Sound(s)
    ensures Sound(Step(s, e))
  {
    hide AclOk, TableOk, WithGrant, WithoutGrant, Appended, Resolved, FindPending;
    match e
    case Create(file, owner) => NewListIsOk(owner);
    case AddAccess(file, sender, user, access) =>
      if file in s.records { GrantLaws(s.records[file].acl, s.records[file].owner, user, access, user); }
    case RemoveAccess(file, sender, user) =>
      if file in s.records { RevokeLaws(s.records[file].acl, s.records[file].owner, user, user); }
    case Ask(file, requester, access) => AppendKeepsTable(s.table, file, requester, access);
    case Approve(file, _, requester, _) => ResolveClears(s.table, file, requester);
    case Deny(file, _, requester) => ResolveClears(s.table, file, requester);
    case GrantApproved(i) =>
      if i < |s.approvals| && s.approvals[i].file in s.records {
        var a := s.approvals[i];
        var r := s.records[a.file];
        GrantLaws(r.acl, r.owner, a.requester, a.access, a.requester);
      }
    case _ =>
  }

  lemma NewListIsOk(owner: string)
    ensures AclOk([Grant(owner, ACCESS_WRITE)], owner)
  {
  }

  /** In every reachable state each access list has one entry per user, no more than MAX_USERS, and its owner at
      WRITE; and at most one request per file and requester is pending. */
  lemma {:induction false} ReachableIsSound(s: State, es: seq<Event>)
    requires Sound(s)
    ensures Sound(Run(s, es))
    decreases |es|
  {
    hide Step, Sound;
    if es != [] {
      StepKeepsSound(s, es[0]);
      ReachableIsSound(Step(s, es[0]), es[1..]);
    }
  }

  lemma StartIsSound()
    ensures Sound(START)
  {
  }

  /** When an owner who passed the check approves a pending request, it is closed at once; when its grant is carried
      out, the requester has at least the approved access, provided the file still exists and its list has room. */
  lemma ApprovalTakesEffect(s: State, file: string, sender: string, requester: string, access: int, es: seq<Event>)
    requires Sound(s) && HasPending(s.table, file, requester) && MayAnswer(file, sender) in s.checks
    ensures var asked := Step(s, Approve(file, sender, requester, access));
            && !HasPending(asked.table, file, requester)
            && asked.approvals == s.approvals + [Approval(file, requester, access)]
    ensures var t := Run(Step(s, Approve(file, sender, requester, access)), es);
            forall i: nat | i < |t.approvals| && t.approvals[i] == Approval(file, requester, access) ::
              file in t.records && CanGrant(t.records[file].acl, requester) && access <= ACCESS_WRITE ==>
                AccessOf(Step(t, GrantApproved(i)).records[file].acl, requester) >= access
  {
    ResolveClears(s.table, file, requester);
    var asked := Step(s, Approve(file, sender, requester, access));
    StepKeepsSound(s, Approve(file, sender, requester, access));
    ReachableIsSound(asked, es);
    hide Run, Sound, Resolved, FindPending, AccessOf;
    var t := Run(asked, es);
    if file in t.records && CanGrant(t.records[file].acl, requester) && access <= ACCESS_WRITE {
      forall i: nat | i < |t.approvals| && t.approvals[i] == Approval(file, requester, access)
        ensures AccessOf(Step(t, GrantApproved(i)).records[file].acl, requester) >= access
      {
        GrantedAtLeast(t, i);
      }
    }
  }

  lemma GrantedAtLeast(s: State, i: nat)
    requires Sound(s) && i < |s.approvals|
    requires var a := s.approvals[i];
             a.file in s.records && CanGrant(s.records[a.file].acl, a.requester) && a.access <= ACCESS_WRITE
    ensures var a, t := s.approvals[i], Step(s, GrantApproved(i));
            a.file in t.records && AccessOf(t.records[a.file].acl, a.requester) >= a.access
  {
    var a := s.approvals[i];
    var r := s.records[a.file];
    SoundRecord(s, a.file);
    GrantLaws(r.acl, r.owner, a.requester, a.access, a.requester);
    hide Sound, AclOk, WithGrant, FindUser, Omit;
  }

  lemma SoundRecord(s: State, file: string)
    requires Sound(s) && file in s.records
    ensures AclOk(s.records[file].acl, s.records[file].owner)
  {
  }
}
