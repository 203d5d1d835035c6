/** What the requests on the metadata index may do, for the plain map of owners that the server answers like: who can
    create and delete, what each answer means, and where every file and every loss comes from
    (naming_server/naming_server.c). */
module IndexLaws {
  import opened NamingServer

  /** A file comes by a creation that its storage server carried out, and then belongs to the sender, or by the
      registration of a storage server, and then belongs to the system. It goes by a deletion that its owner asked for
      and the storage server carried out. Its owner never changes. */
  lemma OwnersChange(owners: map<string, string>, q: Request, f: string)
    ensures var now := Effect(owners, q);
            && (f in owners && f in now ==> now[f] == owners[f])
            && (f in owners && f !in now <==>
                  f in owners && q.Delete? && q.file == f && q.sender == owners[f] && q.removed)
            && (f !in owners && f in now <==>
                  f !in owners && q.file == f && ((q.Create? && q.stored) || q.Seed?))
            && (f !in owners && f in now ==> now[f] == if q.Create? then q.sender else "system")
  {
  }

  /** What the answers say. */
  lemma AnswersMean(owners: map<string, string>, q: Request)
    ensures var a, f, now := Answer(owners, q), q.file, Effect(owners, q);
            && (q.Create? ==> (a == Done <==> f !in owners && f in now))
            && (q.Delete? ==> (a == Done <==> f in owners && f !in now))
            && (q.Find? ==> (a == Done <==> f in owners))
            && (q.Update? ==> a == Done) && (q.Seed? <==> a == NoReply)
            && (a == FileExists <==> q.Create? && f in owners)
            && (a == NotFound <==> (q.Find? || q.Delete?) && f !in owners)
            && (a == NotOwner <==> q.Delete? && f in owners && owners[f] != q.sender)
            && (a == StorageFailed <==>
                  || (q.Create? && f !in owners && !q.stored)
                  || (q.Delete? && f in owners && owners[f] == q.sender && !q.removed))
            && (a != Done && a != NoReply ==> now == owners)
  {
    assert q.Delete? && Answer(owners, q) == Done ==> q.file !in Effect(owners, q);
  }

  lemma {:induction false} EffectsSnoc(owners: map<string, string>, qs: seq<Request>)
    requires qs != []
    ensures var n := |qs| - 1; Effects(owners, qs) == Effect(Effects(owners, qs[..n]), qs[n])
    decreases |qs|
  {
    hide Effect;
    var n := |qs| - 1;
    if n > 0 {
      EffectsSnoc(Effect(owners, qs[0]), qs[1..]);
      assert qs[1..][..n - 1] == qs[..n][1..];
    }
  }

  /** Request i brought the file, for this owner. */
  predicate Brings(q: Request, f: string, owner: string) {
    q.file == f && ((q.Create? && q.stored && q.sender == owner) || (q.Seed? && owner == "system"))
  }

  /** After any requests, a file was there from the start or was brought by one of them, and it belongs to whom it was
      brought for, for as long as it is there. */
  lemma {:induction false} EveryFileWasBrought(owners: map<string, string>, qs: seq<Request>, f: string)
    requires f in Effects(owners, qs)
    ensures var owner := Effects(owners, qs)[f];
            || (f in owners && owners[f] == owner)
            || exists i :: 0 <= i < |qs| && Brings(qs[i], f, owner) && f !in Effects(owners, qs[..i])
    decreases |qs|
  {
    hide Effect, Brings;
    if qs != [] {
      var n := |qs| - 1;
      var before := Effects(owners, qs[..n]);
      EffectsSnoc(owners, qs);
      OwnersChange(before, qs[n], f);
      if f in before {
        EveryFileWasBrought(owners, qs[..n], f);
        assert forall i :: 0 <= i < n ==> qs[..n][i] == qs[i] && qs[..n][..i] == qs[..i];
      } else {
        assert Brings(qs[n], f, Effects(owners, qs)[f]) by { BroughtBy(before, qs[n], f); }
      }
    }
  }

  lemma BroughtBy(owners: map<string, string>, q: Request, f: string)
    requires f !in owners && f in Effect(owners, q)
    ensures Brings(q, f, Effect(owners, q)[f])
  {
  }

  /** And a file that is gone was deleted by its owner. */
  lemma {:induction false} EveryLossWasOwned(owners: map<string, string>, qs: seq<Request>, f: string)
    requires f in owners && f !in Effects(owners, qs)
    ensures exists i :: 0 <= i < |qs| &&
              var before := Effects(owners, qs[..i]);
              f in before && qs[i] == Delete(f, before[f], true)
    decreases |qs|
  {
    hide Effect;
    assert qs != [];
    var n := |qs| - 1;
    var before := Effects(owners, qs[..n]);
    EffectsSnoc(owners, qs);
    OwnersChange(before, qs[n], f);
    if f in before {
      assert qs[n] == Delete(f, before[f], true);
    } else {
      EveryLossWasOwned(owners, qs[..n], f);
      var i :| 0 <= i < n && var b := Effects(owners, qs[..n][..i]); f in b && qs[..n][i] == Delete(f, b[f], true);
      assert qs[..n][..i] == qs[..i];
    }
  }
}
