/** Who gains and who loses access to a file, step by step and over whole runs (naming_server/naming_server.c,
    naming_server/nm_storage.c). */
module AccessLaws {
  import opened AccessControl
  import opened Lists
  import opened AccessRequests

  // ------------------------------------------------------------------------------- one step

  /** The step is a grant of this level to the user: by the owner, or the carrying out of an approval. */
  ghost predicate Grants(s: State, e: Event, file: string, user: string, access: int) {
    || (e.AddAccess? && e.file == file && e.user == user && e.access == access && IsOwner(s, file, e.sender))
    || (e.GrantApproved? && e.index < |s.approvals| && s.approvals[e.index] == Approval(file, user, access))
  }

  /** The step takes the user's access away: by the owner. */
  predicate Revokes(s: State, e: Event, file: string, user: string) {
    e.RemoveAccess? && e.file == file && e.user == user && IsOwner(s, file, e.sender)
  }

  lemma GrantedTo(s: State, file: string, user: string, access: int, u: string)
    requires Sound(s) && file in s.records
    ensures var r, t := s.records[file], GrantTo(s, file, user, access);
            && file in t.records && t.records[file].owner == r.owner
            && AccessOf(t.records[file].acl, u)
               == if u == user then LevelAfter(r.acl, r.owner, u, access) else AccessOf(r.acl, u)
  {
    var r := s.records[file];
    GrantSetsLevel(r.acl, r.owner, user, access, u);
    hide WithGrant, LevelAfter, AccessOf;
  }

  /** The user's level, and the owner, are as they were. */
  ghost predicate Untouched(s: State, t: State, file: string, u: string)
    requires file in s.records && file in t.records
  {
    && t.records[file].owner == s.records[file].owner
    && AccessOf(t.records[file].acl, u) == AccessOf(s.records[file].acl, u)
  }

  lemma GrantIsCarriedOut(s: State, e: Event, file: string, u: string, access: int)
    requires Sound(s) && file in s.records && Grants(s, e, file, u, access)
    ensures file in Step(s, e).records
    ensures var r, q := s.records[file], Step(s, e).records[file];
            q.owner == r.owner && AccessOf(q.acl, u) == LevelAfter(r.acl, r.owner, u, access)
  {
    GrantedTo(s, file, u, access, u);
    hide AccessOf, WithGrant, LevelAfter, Sound, Omit;
  }

  lemma GrantToAnother(s: State, e: Event, file: string, u: string)
    requires Sound(s) && file in s.records && (e.AddAccess? || e.GrantApproved?)
    requires forall access :: !Grants(s, e, file, u, access)
    ensures file in Step(s, e).records && Untouched(s, Step(s, e), file, u)
  {
    hide AccessOf, WithGrant, LevelAfter, Sound, Omit;
    match e
    case AddAccess(f, sender, user, access) =>
      assert !Grants(s, e, file, u, access);
      GrantedTo(s, file, user, access, u);
    case GrantApproved(i) =>
      if i < |s.approvals| {
        var a := s.approvals[i];
        assert !Grants(s, e, file, u, a.access);
        assert a == Approval(a.file, a.requester, a.access);
        GrantedTo(s, file, a.requester, a.access, u);
      }
    case _ =>
  }

  lemma RevokedFrom(s: State, e: Event, file: string, u: string)
    requires Sound(s) && file in s.records && e.RemoveAccess?
    ensures file in Step(s, e).records
    ensures var r, q := s.records[file], Step(s, e).records[file];
            && (Revokes(s, e, file, u) ==>
                  q.owner == r.owner && AccessOf(q.acl, u) == if u == r.owner then ACCESS_WRITE else ACCESS_NONE)
            && (!Revokes(s, e, file, u) ==> Untouched(s, Step(s, e), file, u))
  {
    var r := s.records[file];
    RevokeLaws(r.acl, r.owner, e.user, u);
    hide AccessOf, WithoutGrant;
  }

  lemma OtherStepsKeepLists(s: State, e: Event, file: string, u: string)
    requires !e.AddAccess? && !e.GrantApproved? && !e.RemoveAccess?
    requires file in s.records && file in Step(s, e).records
    ensures Untouched(s, Step(s, e), file, u)
  {
    hide AccessOf, Resolved, Appended, FindPending;
  }

  /** Of the users of an existing file only the one named gains or loses access, and only by a grant or a revocation; a
      denial, a request, an approval not yet carried out and anything another user asks for change nobody's level. */
  lemma AccessChanges(s: State, e: Event, file: string, u: string)
    requires Sound(s) && file in s.records && file in Step(s, e).records
    ensures var r, q := s.records[file], Step(s, e).records[file];
            && q.owner == r.owner
            && (forall access :: Grants(s, e, file, u, access) ==>
                  AccessOf(q.acl, u) == LevelAfter(r.acl, r.owner, u, access))
            && (Revokes(s, e, file, u) ==> AccessOf(q.acl, u) == if u == r.owner then ACCESS_WRITE else ACCESS_NONE)
            && ((forall access :: !Grants(s, e, file, u, access)) && !Revokes(s, e, file, u) ==>
                  AccessOf(q.acl, u) == AccessOf(r.acl, u))
  {
    hide Step, AccessOf, LevelAfter, Sound;
    if e.RemoveAccess? {
      RevokedFrom(s, e, file, u);
    } else if !e.AddAccess? && !e.GrantApproved? {
      OtherStepsKeepLists(s, e, file, u);
    } else if forall access :: !Grants(s, e, file, u, access) {
      GrantToAnother(s, e, file, u);
    } else {
      forall access | Grants(s, e, file, u, access)
        ensures var r, q := s.records[file], Step(s, e).records[file];
                q.owner == r.owner && AccessOf(q.acl, u) == LevelAfter(r.acl, r.owner, u, access)
      {
        GrantIsCarriedOut(s, e, file, u, access);
      }
    }
  }

  /** A file appears by its creation, with its owner as the only user, and goes when its owner deletes it. */
  lemma RecordsChange(s: State, e: Event, file: string)
    ensures var t := Step(s, e);
            && (file !in s.records ==> (file in t.records <==> e.Create? && e.file == file))
            && (file in s.records ==>
                  (file !in t.records <==> e.Delete? && e.file == file && e.sender == s.records[file].owner))
            && (file !in s.records && file in t.records ==>
                  && t.records[file].owner == e.owner
                  && forall u :: AccessOf(t.records[file].acl, u) == if u == e.owner then ACCESS_WRITE else ACCESS_NONE)
  {
    hide AccessOf, WithGrant, WithoutGrant, Resolved, Appended, FindPending, Omit;
    if e.Create? {
      forall u
        ensures AccessOf([Grant(e.owner, ACCESS_WRITE)], u) == if u == e.owner then ACCESS_WRITE else ACCESS_NONE
      {
        OwnerAlone(e.owner, u);
      }
    }
  }

  lemma OwnerAlone(owner: string, u: string)
    ensures AccessOf([Grant(owner, ACCESS_WRITE)], u) == if u == owner then ACCESS_WRITE else ACCESS_NONE
  {
    FindUserIs([Grant(owner, ACCESS_WRITE)], u, if u == owner then 0 else 1);
  }

  /** The step approves this, on a check of its sender's ownership, and the request is pending. */
  predicate Approves(s: State, e: Event, a: Approval) {
    && e.Approve? && a == Approval(e.file, e.requester, e.access)
    && MayAnswer(e.file, e.sender) in s.checks && HasPending(s.table, e.file, e.requester)
  }

  /** An approval comes from a checked owner who approves a pending request, and is carried out once. */
  lemma ApprovalsChange(s: State, e: Event, a: Approval)
    ensures var was, now := multiset(s.approvals)[a], multiset(Step(s, e).approvals)[a];
            now == if Approves(s, e, a) then was + 1
                   else if e.GrantApproved? && e.index < |s.approvals| && s.approvals[e.index] == a then was - 1
                   else was
  {
    hide WithGrant, WithoutGrant, Resolved, Appended, FindPending, AccessOf, GrantTo, Omit;
    match e
    case GrantApproved(i) =>
      if i < |s.approvals| {
        GrantKeepsRest(s, s.approvals[i].file, s.approvals[i].requester, s.approvals[i].access);
        OmittedOnce(s.approvals, i, a);
      }
    case AddAccess(f, _, user, access) => GrantKeepsRest(s, f, user, access);
    case Approve(f, _, r, access) => assert s.approvals + [] == s.approvals;
    case _ =>
  }

  lemma OmittedOnce(aps: seq<Approval>, i: nat, a: Approval)
    requires i < |aps|
    ensures multiset(Omit(aps, i))[a] == multiset(aps)[a] - if aps[i] == a then 1 else 0
  {
    assert aps == aps[..i] + [aps[i]] + aps[i + 1..];
  }

  lemma GrantKeepsRest(s: State, file: string, user: string, access: int)
    ensures var t := GrantTo(s, file, user, access);
            t.checks == s.checks && t.table == s.table && t.approvals == s.approvals
  {
    hide WithGrant;
  }

  /** The step checks this, and it holds: the owner of the file wants to answer its requests, or somebody who lacks the
      access asks for it. */
  predicate Checks(s: State, e: Event, c: Check) {
    match c
    case MayAnswer(file, sender) => e == CheckOwner(file, sender) && IsOwner(s, file, sender)
    case MayAsk(file, requester, access) =>
      e == CheckAsk(file, requester, access) && LacksAccess(s, file, requester, access)
  }

  /** The step is one that needs this check. */
  predicate Uses(e: Event, c: Check) {
    match c
    case MayAnswer(file, sender) => (e.Approve? || e.Deny?) && e.file == file && e.sender == sender
    case MayAsk(file, requester, access) => e == Ask(file, requester, access)
  }

  predicate ConcernsChecks(e: Event) {
    e.CheckAsk? || e.Ask? || e.CheckOwner? || e.Approve? || e.Deny?
  }

  lemma ChecksStay(s: State, e: Event)
    requires !ConcernsChecks(e)
    ensures Step(s, e).checks == s.checks
  {
    hide WithGrant, WithoutGrant, Omit;
  }

  /** A check is passed by what it checks, and used once. */
  lemma ChecksChange(s: State, e: Event, c: Check)
    ensures var was, now := s.checks[c], Step(s, e).checks[c];
            now == if Checks(s, e, c) then was + 1 else if Uses(e, c) && was > 0 then was - 1 else was
  {
    hide Resolved, Appended, FindPending, AccessOf;
    if !ConcernsChecks(e) {
      ChecksStay(s, e);
      hide Step;
    }
  }

  /** A request of this user for this file is waiting. */
  ghost predicate Waits(t: seq<Request>, file: string, requester: string) {
    exists i :: 0 <= i < |t| && t[i].pending && t[i].file == file && t[i].requester == requester
  }

  lemma WaitsIff(t: seq<Request>, file: string, requester: string)
    ensures HasPending(t, file, requester) <==> Waits(t, file, requester)
  {
    hide FindPending;
    if Waits(t, file, requester) {
      var i :| 0 <= i < |t| && t[i].pending && t[i].file == file && t[i].requester == requester;
      assert Matches(t[i], file, requester) && !(i < FindPending(t, file, requester));
    }
  }

  /** A request waits from when it is made, on a check, by a named user for a named file while the table has room, until
      someone who was checked approves or denies it. */
  lemma RequestsChange(s: State, e: Event, file: string, requester: string)
    requires TableOk(s.table)
    ensures Waits(Step(s, e).table, file, requester) <==>
            if e.Ask? && e.file == file && e.requester == requester && MayAsk(file, requester, e.access) in s.checks
            then Waits(s.table, file, requester) || (file != "" && requester != "" && |s.table| < MAX_REQUESTS)
            else Waits(s.table, file, requester)
                 && !((e.Approve? || e.Deny?) && e.file == file && e.requester == requester
                      && MayAnswer(file, e.sender) in s.checks)
  {
    WaitsIff(s.table, file, requester);
    WaitsIff(Step(s, e).table, file, requester);
    hide Waits, FindPending, AccessOf, WithGrant, WithoutGrant, Appended, Resolved, TableOk;
    match e
    case Ask(f, r, access) => AskedPending(s.table, f, r, access, file, requester);
    case Approve(f, _, r, _) => ResolvedPending(s.table, f, r, file, requester);
    case Deny(f, _, r) => ResolvedPending(s.table, f, r, file, requester);
    case _ =>
  }

  lemma AskedPending(t: seq<Request>, f: string, r: string, access: int, file: string, requester: string)
    ensures HasPending(Appended(t, f, r, access), file, requester) <==>
            || HasPending(t, file, requester)
            || (f == file && r == requester && f != "" && r != "" && |t| < MAX_REQUESTS)
  {
    hide FindPending;
    var u, i := Appended(t, f, r, access), FindPending(t, file, requester);
    var j := FindPending(u, file, requester);
    assert i < |t| ==> Matches(u[i], file, requester) && !(i < j);
    if u != t {
      assert Matches(u[|t|], f, r);
      assert j < |t| ==> u[j] == t[j] && !(j < i);
    }
  }

  lemma ResolvedPending(t: seq<Request>, f: string, r: string, file: string, requester: string)
    requires TableOk(t)
    ensures HasPending(Resolved(t, f, r), file, requester) <==>
            HasPending(t, file, requester) && !(f == file && r == requester)
  {
    ResolveClears(t, f, r);
    hide FindPending, Resolved, TableOk;
    var u, i := Resolved(t, f, r), FindPending(t, file, requester);
    var j := FindPending(u, file, requester);
    if i < |t| && !(f == file && r == requester) {
      assert Matches(u[i], file, requester) && !(i < j);
    }
    if j < |u| {
      assert Matches(t[j], file, requester) && !(j < i);
    }
  }

  // ------------------------------------------------------------------------------- whole runs

  lemma {:induction false} RunSnoc(s: State, es: seq<Event>)
    requires es != []
    ensures Run(s, es) == Step(Run(s, es[..|es| - 1]), es[|es| - 1])
    decreases |es|
  {
    hide Step;
    var n := |es| - 1;
    if n > 0 {
      RunSnoc(Step(s, es[0]), es[1..]);
      assert es[1..][..n - 1] == es[..n][1..];
    }
  }

  lemma PrefixOfPrefix(es: seq<Event>, n: nat, i: nat)
    requires i < n <= |es|
    ensures es[..n][..i] == es[..i] && es[..n][i] == es[i]
  {
  }

  /** A check that was passed was passed at some step of the run. */
  lemma {:induction false} WhenChecked(es: seq<Event>, c: Check) returns (h: nat)
    requires c in Run(START, es).checks
    ensures h < |es| && Checks(Run(START, es[..h]), es[h], c)
    decreases |es|
  {
    assert es != [];
    var n := |es| - 1;
    RunSnoc(START, es);
    hide Step, Run, Checks, Uses;
    var p := Run(START, es[..n]);
    ChecksChange(p, es[n], c);
    if Checks(p, es[n], c) {
      h := n;
    } else {
      h := WhenChecked(es[..n], c);
      PrefixOfPrefix(es, n, h);
    }
  }

  /** A request that waits was made by its requester, who lacked the access when it was checked. */
  lemma {:induction false} WhoAsked(es: seq<Event>, file: string, requester: string) returns (k: nat, h: nat)
    requires Waits(Run(START, es).table, file, requester)
    ensures h < k < |es| && es[k].Ask? && es[k].file == file && es[k].requester == requester
    ensures Checks(Run(START, es[..h]), es[h], MayAsk(file, requester, es[k].access))
    decreases |es|
  {
    hide Step, Waits, Checks;
    assert es != [] by { NobodyWaitsAtStart(file, requester); }
    var n := |es| - 1;
    RunSnoc(START, es);
    StartIsSound();
    ReachableIsSound(START, es[..n]);
    RequestsChange(Run(START, es[..n]), es[n], file, requester);
    hide Run;
    if Waits(Run(START, es[..n]).table, file, requester) {
      k, h := WhoAsked(es[..n], file, requester);
      PrefixOfPrefix(es, n, k);
      PrefixOfPrefix(es, n, h);
    } else {
      k := n;
      h := WhenChecked(es[..n], MayAsk(file, requester, es[n].access));
      PrefixOfPrefix(es, n, h);
    }
  }

  lemma NobodyWaitsAtStart(file: string, requester: string)
    ensures !Waits(Run(START, []).table, file, requester)
  {
  }

  /** An approval was given to a request that was waiting, by someone who was checked to own the file. */
  lemma {:induction false} WhoApproved(es: seq<Event>, a: Approval) returns (j: nat, h: nat)
    requires a in Run(START, es).approvals
    ensures h < j < |es| && es[j].Approve? && es[j] == Approve(a.file, es[j].sender, a.requester, a.access)
    ensures Waits(Run(START, es[..j]).table, a.file, a.requester)
    ensures es[h] == CheckOwner(a.file, es[j].sender) && IsOwner(Run(START, es[..h]), a.file, es[j].sender)
    decreases |es|
  {
    assert es != [];
    var n := |es| - 1;
    RunSnoc(START, es);
    hide Step, Run, Waits;
    var p := Run(START, es[..n]);
    ApprovalsChange(p, es[n], a);
    if a in p.approvals {
      j, h := WhoApproved(es[..n], a);
      PrefixOfPrefix(es, n, j);
      PrefixOfPrefix(es, n, h);
    } else {
      WaitsIff(p.table, a.file, a.requester);
      j := n;
      h := WhenChecked(es[..n], MayAnswer(a.file, es[n].sender));
      PrefixOfPrefix(es, n, h);
    }
  }

  /** The last step that changed the user's level was a grant of that level. */
  lemma {:induction false} WhoGranted(es: seq<Event>, file: string, u: string) returns (i: nat)
    requires var t := Run(START, es);
             file in t.records && u != t.records[file].owner && AccessOf(t.records[file].acl, u) != ACCESS_NONE
    ensures i < |es|
    ensures Grants(Run(START, es[..i]), es[i], file, u, AccessOf(Run(START, es).records[file].acl, u))
    decreases |es|
  {
    assert es != [];
    var n := |es| - 1;
    RunSnoc(START, es);
    StartIsSound();
    ReachableIsSound(START, es[..n]);
    hide Step, Run, AccessOf, Grants, Revokes, Sound;
    var p, t := Run(START, es[..n]), Run(START, es);
    RecordsChange(p, es[n], file);
    if file in p.records {
      AccessChanges(p, es[n], file, u);
      var r := p.records[file];
      if AccessOf(r.acl, u) == AccessOf(t.records[file].acl, u) {
        i := WhoGranted(es[..n], file, u);
        PrefixOfPrefix(es, n, i);
      } else {
        var access :| Grants(p, es[n], file, u, access);
        i := n;
      }
    } else {
      assert false;
    }
  }

  /** Step i is the owner giving the user this level. */
  ghost predicate GivenByOwner(es: seq<Event>, i: nat, file: string, u: string, level: int) {
    && i < |es| && es[i].AddAccess? && es[i] == AddAccess(file, es[i].sender, u, level)
    && IsOwner(Run(START, es[..i]), file, es[i].sender)
  }

  /** Step i carries out an approval of this level for the user: at h the user was found to lack access, at k he asked,
      at g the sender of the approval was found to own the file, and at j, while the request waited, he approved. */
  ghost predicate GivenByRequest(es: seq<Event>, i: nat, file: string, u: string, level: int, h: nat, k: nat, g: nat,
                                 j: nat) {
    && h < k < j < i < |es| && g < j
    && es[i].GrantApproved? && Grants(Run(START, es[..i]), es[i], file, u, level)
    && es[j].Approve? && es[j] == Approve(file, es[j].sender, u, level) && Waits(Run(START, es[..j]).table, file, u)
    && es[g] == CheckOwner(file, es[j].sender) && IsOwner(Run(START, es[..g]), file, es[j].sender)
    && es[k].Ask? && es[k].file == file && es[k].requester == u
    && Checks(Run(START, es[..h]), es[h], MayAsk(file, u, es[k].access))
  }

  /** Whoever can read or write a file he does not own was given just that: by the owner, with ADDACCESS, or by way of a
      request of his own that someone who owned the file approved while it was waiting, and whose approval was then
      carried out. */
  lemma EveryAccessIsGiven(es: seq<Event>, file: string, u: string)
    requires var t := Run(START, es);
             file in t.records && u != t.records[file].owner && AccessOf(t.records[file].acl, u) != ACCESS_NONE
    ensures var level := AccessOf(Run(START, es).records[file].acl, u);
            || (exists i: nat :: GivenByOwner(es, i, file, u, level))
            || (exists i: nat, h: nat, k: nat, g: nat, j: nat :: GivenByRequest(es, i, file, u, level, h, k, g, j))
  {
    var level := AccessOf(Run(START, es).records[file].acl, u);
    var i := WhoGranted(es, file, u);
    hide Run, AccessOf, Waits, Checks;
    if es[i].GrantApproved? {
      var j, g := WhoApproved(es[..i], Approval(file, u, level));
      PrefixOfPrefix(es, i, j);
      PrefixOfPrefix(es, i, g);
      var k, h := WhoAsked(es[..j], file, u);
      PrefixOfPrefix(es, j, k);
      PrefixOfPrefix(es, j, h);
      assert GivenByRequest(es, i, file, u, level, h, k, g, j);
    } else {
      assert GivenByOwner(es, i, file, u, level);
    }
  }
}
