/** Sessions that opened different sentences of one file content: the order of their commits does not matter. */
module Confluence {
  import opened Text
  import opened Sentences
  import opened WordBuffers
  import opened WordLaws
  import opened Commits
  import opened CommitLaws

  // ------------------------------------------------------------------------ sessions on one content

  /** The update stream of each session, by the index of the sentence it opened. */
  type Edits = map<nat, seq<Update>>

  function SessionOn(base: string, k: nat, us: seq<Update>): Session
    requires k < |Split(base)|
  {
    Edited(Open(base, k).session, us)
  }

  function EditText(base: string, k: nat, us: seq<Update>): string
    requires k < |Split(base)|
  {
    Rebuild(SessionOn(base, k, us).words)
  }

  ghost predicate Distinct(ss: seq<string>) {
    forall i, j :: 0 <= i < j < |ss| ==> !SameSentence(ss[i], ss[j])
  }

  /** The edit of sentence k does not produce the text of sentence i. */
  ghost predicate Avoids(base: string, k: nat, us: seq<Update>, i: nat)
    requires k < |Split(base)| && i < |Split(base)|
  {
    var p := Pieces(EditText(base, k, us));
    forall j :: 0 <= j < |p| ==> !SameSentence(p[j], Split(base)[i])
  }

  /** The edit leaves a sentence of words, and a closing delimiter unless it is the last of the file. */
  ghost predicate Complete(base: string, k: nat, us: seq<Update>)
    requires k < |Split(base)|
  {
    && NeatUpdates(us)
    && SessionOn(base, k, us).words != []
    && (k == |Split(base)| - 1 || EndsInDelimiter(EditText(base, k, us)))
  }

  ghost predicate Independent(base: string, edits: Edits) {
    && (forall k :: k in edits ==> k < |Split(base)|)
    && Distinct(Split(base))
    && (forall k :: k in edits ==> Complete(base, k, edits[k]))
    && (forall k, i :: k in edits && i in edits && k != i ==> Avoids(base, k, edits[k], i))
  }

  // ------------------------------------------------------------------------ the reference result

  /** What stands in the place of sentence i once the sessions in `done` have committed. */
  function Block(base: string, edits: Edits, done: set<nat>, i: nat): (b: seq<string>)
    requires i < |Split(base)|
    ensures b != []
  {
    if i in done && i in edits then Pieces(EditText(base, i, edits[i])) else [Split(base)[i]]
  }

  /** Blocks lo up to hi, one after the other. */
  function Blocks(base: string, edits: Edits, done: set<nat>, lo: nat, hi: nat): seq<string>
    requires lo <= hi <= |Split(base)|
    decreases hi - lo
  {
    if lo == hi then [] else Block(base, edits, done, lo) + Blocks(base, edits, done, lo + 1, hi)
  }

  /** The sentences of the base content with each edited one replaced by its edit. */
  function Merged(base: string, edits: Edits, done: set<nat>): seq<string> {
    Blocks(base, edits, done, 0, |Split(base)|)
  }

  // -------------------------------------------------------------------------------- its shape

  lemma {:induction false} BlocksCut(base: string, edits: Edits, done: set<nat>, lo: nat, k: nat, hi: nat)
    requires lo <= k <= hi <= |Split(base)|
    ensures Blocks(base, edits, done, lo, hi) == Blocks(base, edits, done, lo, k) + Blocks(base, edits, done, k, hi)
    decreases k - lo
  {
    hide Split, Block;
    if lo < k {
      BlocksCut(base, edits, done, lo + 1, k, hi);
      Regroup(Block(base, edits, done, lo), Blocks(base, edits, done, lo + 1, k), Blocks(base, edits, done, k, hi));
    }
  }

  lemma BlocksAround(base: string, edits: Edits, done: set<nat>, k: nat)
    requires k < |Split(base)|
    ensures Merged(base, edits, done)
            == Blocks(base, edits, done, 0, k) + Block(base, edits, done, k)
               + Blocks(base, edits, done, k + 1, |Split(base)|)
  {
    hide Split, Block;
    var n := |Split(base)|;
    BlocksCut(base, edits, done, 0, k, n);
    Regroup(Blocks(base, edits, done, 0, k), Block(base, edits, done, k), Blocks(base, edits, done, k + 1, n));
  }

  /** Committing k changes no block in front of it or behind it. */
  lemma {:induction false} BlocksUnchanged(base: string, edits: Edits, done: set<nat>, k: nat, lo: nat, hi: nat)
    requires lo <= hi <= |Split(base)| && (k < lo || hi <= k)
    ensures Blocks(base, edits, done + {k}, lo, hi) == Blocks(base, edits, done, lo, hi)
    decreases hi - lo
  {
    hide Split, Pieces, EditText;
    if lo < hi {
      BlocksUnchanged(base, edits, done, k, lo + 1, hi);
    }
  }

  lemma {:induction false} BlocksOfNone(base: string, edits: Edits, lo: nat)
    requires lo <= |Split(base)|
    ensures Blocks(base, edits, {}, lo, |Split(base)|) == Split(base)[lo..]
    decreases |Split(base)| - lo
  {
    hide Split;
    if lo < |Split(base)| {
      BlocksOfNone(base, edits, lo + 1);
      assert Split(base)[lo..] == [Split(base)[lo]] + Split(base)[lo + 1..];
    }
  }

  lemma {:induction false} BlocksAreMany(base: string, edits: Edits, done: set<nat>, lo: nat, hi: nat)
    requires lo <= hi <= |Split(base)|
    ensures |Blocks(base, edits, done, lo, hi)| >= hi - lo
    decreases hi - lo
  {
    hide Split;
    if lo < hi {
      BlocksAreMany(base, edits, done, lo + 1, hi);
    }
  }

  /** Outside its own block, no sentence of the merged list has the text of an uncommitted session's sentence. */
  lemma {:induction false} NoOtherMatch(base: string, edits: Edits, done: set<nat>, k: nat, lo: nat, hi: nat, t: nat)
    requires Independent(base, edits) && done <= edits.Keys && k in edits && k !in done
    requires lo <= hi <= |Split(base)| && (k < lo || hi <= k)
    requires t < |Blocks(base, edits, done, lo, hi)|
    ensures !SameSentence(Blocks(base, edits, done, lo, hi)[t], Split(base)[k])
    decreases hi - lo
  {
    hide Split, Trim, Pieces, EditText, Complete;
    var b := Block(base, edits, done, lo);
    if t < |b| {
      if lo in done {
        assert Avoids(base, lo, edits[lo], k);
      }
    } else {
      NoOtherMatch(base, edits, done, k, lo + 1, hi, t - |b|);
    }
  }

  // ------------------------------------------------------------------------------ one commit

  lemma EditTextIsNeat(base: string, k: nat, us: seq<Update>)
    requires k < |Split(base)| && Complete(base, k, us)
    ensures Neat(EditText(base, k, us))
  {
    var s := Open(base, k).session;
    TokensAreNeat(s.snapshot);
    FeedKeepsNeat(s.words, us);
    RebuildIsNeat(SessionOn(base, k, us).words);
  }

  /** The place of session k's sentence while it is uncommitted. */
  function Place(base: string, edits: Edits, done: set<nat>, k: nat): nat
    requires k < |Split(base)|
  {
    |Blocks(base, edits, done, 0, k)|
  }

  lemma RemapsToPlace(base: string, edits: Edits, done: set<nat>, k: nat, content: string)
    requires Independent(base, edits) && done <= edits.Keys && k in edits && k !in done
    requires Split(content) == Merged(base, edits, done)
    ensures var latest, t := Merged(base, edits, done), Place(base, edits, done, k);
            && Remap(content, latest, SessionOn(base, k, edits[k])) == At(t)
            && t < |latest| && (k == |Split(base)| - 1 ==> t == |latest| - 1)
  {
    hide Split, Trim, Pieces, EditText, Complete, FirstSame, Feed, Avoids;
    var n, s, latest := |Split(base)|, SessionOn(base, k, edits[k]), Merged(base, edits, done);
    var t := Place(base, edits, done, k);
    OpenedSnapshots(base, k);
    BlocksAround(base, edits, done, k);
    BlocksAreMany(base, edits, done, 0, n);
    assert latest[t] == Split(base)[k] == s.snapshot;
    assert HasSame(latest, s.snapshot) by {
      assert SameSentence(latest[t], s.snapshot);
    }
    RemapOfReplace(content, latest, s);
    hide Remap, Block, HasSame, FollowsFirst, Independent;
    var r := Remap(content, latest, s).index;
    if r < t {
      NoOtherMatch(base, edits, done, k, 0, k, r);
    } else if r > t {
      NoOtherMatch(base, edits, done, k, k + 1, n, r - t - 1);
    }
  }

  /** Splicing the edit in at the session's place gives the merged list with one session more. */
  lemma SpliceMerges(base: string, edits: Edits, done: set<nat>, k: nat)
    requires k < |Split(base)| && k in edits && k !in done
    ensures Splice(Merged(base, edits, done), Place(base, edits, done, k), EditText(base, k, edits[k]))
            == Merged(base, edits, done + {k})
  {
    hide Split, Pieces, EditText, Blocks;
    var n, t, latest := |Split(base)|, Place(base, edits, done, k), Merged(base, edits, done);
    BlocksAround(base, edits, done, k);
    BlocksAround(base, edits, done + {k}, k);
    BlocksUnchanged(base, edits, done, k, 0, k);
    BlocksUnchanged(base, edits, done, k, k + 1, n);
    assert Block(base, edits, done, k) == [Split(base)[k]];
    assert latest[..t] == Blocks(base, edits, done, 0, k);
    assert latest[t + 1..] == Blocks(base, edits, done, k + 1, n);
  }

  /** One more session commits: the list it finds is merged, and so is the list it leaves. */
  lemma CommitMerges(base: string, edits: Edits, done: set<nat>, k: nat, content: string)
    requires Independent(base, edits) && done <= edits.Keys && k in edits && k !in done
    requires Split(content) == Merged(base, edits, done)
    ensures Commit(content, SessionOn(base, k, edits[k])) == Written(Join(Merged(base, edits, done + {k})))
    ensures Split(Join(Merged(base, edits, done + {k}))) == Merged(base, edits, done + {k})
  {
    hide Split, Splice, Feed, Remap, Blocks, Join, Rebuild, Merged, Place;
    RemapsToPlace(base, edits, done, k, content);
    SpliceMerges(base, edits, done, k);
    EditTextIsNeat(base, k, edits[k]);
    CommitParsesBack(content, Place(base, edits, done, k), EditText(base, k, edits[k]));
  }

  // ---------------------------------------------------------------------------- all commits

  ghost predicate Sessions(base: string, edits: Edits, order: seq<nat>) {
    forall i :: 0 <= i < |order| ==> order[i] in edits && order[i] < |Split(base)|
  }

  /** The file after the sessions commit in the given order; Unchanged if one of them is refused. */
  ghost function CommitAll(base: string, edits: Edits, content: string, order: seq<nat>): Outcome
    requires Sessions(base, edits, order)
    decreases |order|
  {
    if order == [] then Written(content)
    else
      match Commit(content, SessionOn(base, order[0], edits[order[0]]))
      case Unchanged => Unchanged
      case Written(next) => CommitAll(base, edits, next, order[1..])
  }

  ghost predicate NoRepeats(order: seq<nat>) {
    forall i, j :: 0 <= i < j < |order| ==> order[i] != order[j]
  }

  function Elements(order: seq<nat>): set<nat> {
    set k | k in order
  }

  lemma {:induction false} CommitAllFrom(base: string, edits: Edits, content: string, done: set<nat>, order: seq<nat>)
    requires Independent(base, edits) && done <= edits.Keys
    requires Split(content) == Merged(base, edits, done)
    requires Sessions(base, edits, order) && NoRepeats(order) && order != []
    requires forall i :: 0 <= i < |order| ==> order[i] !in done
    ensures CommitAll(base, edits, content, order) == Written(Join(Merged(base, edits, done + Elements(order))))
    decreases |order|
  {
    hide Split, Commit, Merged, Join, SessionOn;
    var k, rest := order[0], order[1..];
    CommitMerges(base, edits, done, k, content);
    assert forall i :: 0 <= i < |rest| ==> rest[i] == order[i + 1];
    if rest == [] {
      assert Elements(order) == {k};
    } else {
      CommitAllFrom(base, edits, Join(Merged(base, edits, done + {k})), done + {k}, rest);
      assert done + {k} + Elements(rest) == done + Elements(order);
    }
  }

  /** Confluence: any number of independent sessions opened on one content, committing in any order, are all accepted,
      and the file becomes the original sentence list with each edited sentence replaced by its edit. */
  lemma CommitsMergeInAnyOrder(base: string, edits: Edits, order: seq<nat>)
    requires Independent(base, edits) && Sessions(base, edits, order)
    requires order != [] && NoRepeats(order)
    ensures CommitAll(base, edits, base, order) == Written(Join(Merged(base, edits, Elements(order))))
  {
    hide Split;
    BlocksOfNone(base, edits, 0);
    assert Split(base)[0..] == Split(base);
    CommitAllFrom(base, edits, base, {}, order);
    assert {} + Elements(order) == Elements(order);
  }

  lemma OrderDoesNotMatter(base: string, edits: Edits, first: seq<nat>, second: seq<nat>)
    requires Independent(base, edits) && Sessions(base, edits, first) && Sessions(base, edits, second)
    requires NoRepeats(first) && NoRepeats(second) && multiset(first) == multiset(second)
    ensures CommitAll(base, edits, base, first) == CommitAll(base, edits, base, second)
  {
    if first == [] {
      assert |multiset(second)| == 0;
    } else {
      assert first[0] in multiset(second);
      assert Elements(first) == Elements(second) by {
        assert forall k :: k in first <==> k in multiset(first);
        assert forall k :: k in second <==> k in multiset(second);
      }
      CommitsMergeInAnyOrder(base, edits, first);
      CommitsMergeInAnyOrder(base, edits, second);
    }
  }
}
