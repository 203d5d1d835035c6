/** What the cache keeps and what it forgets. */
module LruLaws {
  import opened Options
  import opened Lists
  import opened LruCaches

  lemma IndexIs<V>(es: Recency<V>, key: string, i: nat)
    requires i <= |es| && (i < |es| ==> es[i].0 == key) && forall j :: 0 <= j < i ==> es[j].0 != key
    ensures IndexOf(es, key) == i
  {
    var k := IndexOf(es, key);
    assert !(i < k) && !(k < i);
  }

  /** Keys stay distinct and the size within the capacity, whatever the operation. */
  lemma OperationsKeepShape<V>(es: Recency<V>, capacity: nat, key: string, value: V)
    requires DistinctNames(es) && |es| <= capacity && capacity > 0
    ensures DistinctNames(Touched(es, key)) && |Touched(es, key)| == |es|
    ensures DistinctNames(Stored(es, capacity, key, value)) && |Stored(es, capacity, key, value)| <= capacity
    ensures DistinctNames(Removed(es, key)) && |Removed(es, key)| <= |es|
  {
    var i := IndexOf(es, key);
    if i < |es| {
      DistinctOmit(es, i);
      hide Omit, IndexOf;
      DistinctCons(es[i], Omit(es, i));
      DistinctCons((key, value), Omit(es, i));
    } else {
      DistinctCons((key, value), es);
    }
  }

  lemma DistinctOmit<V>(es: Recency<V>, i: nat)
    requires i < |es| && DistinctNames(es)
    ensures DistinctNames(Omit(es, i)) && forall j :: 0 <= j < |es| - 1 ==> Omit(es, i)[j].0 != es[i].0
  {
  }

  lemma DistinctCons<V>(e: (string, V), es: Recency<V>)
    requires DistinctNames(es) && forall j :: 0 <= j < |es| ==> es[j].0 != e.0
    ensures DistinctNames([e] + es)
  {
  }

  lemma IndexOfOmit<V>(es: Recency<V>, i: nat, q: string)
    requires i < |es| && DistinctNames(es)
    ensures var p, d := IndexOf(es, q), Omit(es, i);
            if q == es[i].0 then !Cached(d, q)
            else if p == |es| then !Cached(d, q)
            else Cached(d, q) && d[IndexOf(d, q)] == es[p]
  {
    var p, d := IndexOf(es, q), Omit(es, i);
    if q == es[i].0 || p == |es| {
      IndexIs(d, q, |d|);
    } else {
      IndexIs(d, q, if p < i then p else p - 1);
    }
  }

  lemma IndexOfCons<V>(e: (string, V), es: Recency<V>, q: string)
    ensures IndexOf([e] + es, q) == if q == e.0 then 0 else 1 + IndexOf(es, q)
  {
    hide IndexOf;
    var d := [e] + es;
    assert d[0] == e && forall j :: 0 <= j < |es| ==> d[j + 1] == es[j];
    IndexIs(d, q, if q == e.0 then 0 else 1 + IndexOf(es, q));
  }

  lemma LookupCons<V>(e: (string, V), es: Recency<V>, q: string)
    ensures Lookup([e] + es, q) == if q == e.0 then Some(e.1) else Lookup(es, q)
  {
    hide IndexOf;
    IndexOfCons(e, es, q);
  }

  lemma LookupOmit<V>(es: Recency<V>, i: nat, q: string)
    requires i < |es| && DistinctNames(es)
    ensures Lookup(Omit(es, i), q) == if q == es[i].0 then None else Lookup(es, q)
  {
    hide IndexOf, Omit, DistinctNames;
    IndexOfOmit(es, i, q);
  }

  lemma IndexOfPrefix<V>(es: Recency<V>, n: nat, q: string)
    requires n <= |es|
    ensures IndexOf(es[..n], q) == if IndexOf(es, q) < n then IndexOf(es, q) else n
  {
    IndexIs(es[..n], q, if IndexOf(es, q) < n then IndexOf(es, q) else n);
  }

  /** Reading never changes what any key maps to. */
  lemma TouchedLookup<V>(es: Recency<V>, key: string, q: string)
    requires DistinctNames(es)
    ensures Lookup(Touched(es, key), q) == Lookup(es, q)
  {
    var i := IndexOf(es, key);
    if i < |es| {
      assert Lookup(es, key) == Some(es[i].1);
      assert Touched(es, key) == [es[i]] + Omit(es, i);
      hide IndexOf, Omit, DistinctNames, Lookup, Touched;
      LookupOmit(es, i, q);
      LookupCons(es[i], Omit(es, i), q);
    }
  }

  /** The key pushed out by storing a new key in a full cache is the least recently used one, and only that. */
  predicate Evicts<V>(es: Recency<V>, capacity: nat, key: string, q: string) {
    !Cached(es, key) && |es| == capacity > 0 && q == es[|es| - 1].0
  }

  lemma LastIndex<V>(es: Recency<V>)
    requires es != [] && DistinctNames(es)
    ensures IndexOf(es, es[|es| - 1].0) == |es| - 1
  {
    IndexIs(es, es[|es| - 1].0, |es| - 1);
  }

  lemma StoredLookup<V>(es: Recency<V>, capacity: nat, key: string, value: V, q: string)
    requires DistinctNames(es) && |es| <= capacity && capacity > 0
    ensures Lookup(Stored(es, capacity, key, value), q)
            == if q == key then Some(value) else if Evicts(es, capacity, key, q) then None else Lookup(es, q)
  {
    hide IndexOf, Omit, DistinctNames;
    var i := IndexOf(es, key);
    if i < |es| {
      LookupOmit(es, i, q);
      LookupCons((key, value), Omit(es, i), q);
    } else {
      NewKeyLookup(es, capacity, key, value, q);
    }
  }

  lemma NewKeyLookup<V>(es: Recency<V>, capacity: nat, key: string, value: V, q: string)
    requires DistinctNames(es) && |es| <= capacity && capacity > 0 && !Cached(es, key)
    ensures Lookup(Stored(es, capacity, key, value), q)
            == if q == key then Some(value) else if Evicts(es, capacity, key, q) then None else Lookup(es, q)
  {
    hide IndexOf, DistinctNames;
    var full := [(key, value)] + es;
    if es != [] {
      LastIndex(es);
    }
    IndexOfCons((key, value), es, q);
    IndexOfPrefix(full, |full| - 1, q);
  }

  lemma RemovedLookup<V>(es: Recency<V>, key: string, q: string)
    requires DistinctNames(es)
    ensures Lookup(Removed(es, key), q) == if q == key then None else Lookup(es, q)
  {
    hide IndexOf, Omit, DistinctNames;
    var i := IndexOf(es, key);
    if i < |es| {
      LookupOmit(es, i, q);
    }
  }

  lemma PositionInOmitted<V>(es: Recency<V>, i: nat, q: string)
    requires i < |es| && DistinctNames(es) && q != es[i].0
    ensures IndexOf(Omit(es, i), q) == if IndexOf(es, q) < i then IndexOf(es, q) else IndexOf(es, q) - 1
  {
    var p := IndexOf(es, q);
    IndexIs(Omit(es, i), q, if p < i then p else p - 1);
  }

  /** A read takes its key to the front, those that were in front of it one place back, and leaves the others. A read
      of a key that is not cached changes nothing. */
  lemma PositionAfterRead<V>(es: Recency<V>, key: string, q: string)
    requires DistinctNames(es)
    ensures var i, p, r := IndexOf(es, key), IndexOf(es, q), IndexOf(Touched(es, key), q);
            if !Cached(es, key) then r == p else r == if q == key then 0 else if p < i then p + 1 else p
  {
    var i := IndexOf(es, key);
    if i < |es| {
      assert es[i].0 == key && Touched(es, key) == [es[i]] + Omit(es, i);
      hide IndexOf, Omit, DistinctNames, Touched;
      IndexOfCons(es[i], Omit(es, i), q);
      if q != key {
        PositionInOmitted(es, i, q);
      }
    }
  }

  /** So does a write; for a new key everything moves one place back, and the last out of a full cache. */
  lemma PositionAfterWrite<V>(es: Recency<V>, capacity: nat, key: string, value: V, q: string)
    requires DistinctNames(es) && |es| <= capacity && capacity > 0
    ensures var i, p, t := IndexOf(es, key), IndexOf(es, q), Stored(es, capacity, key, value);
            IndexOf(t, q) == if q == key then 0
                             else if Cached(es, key) && p > i then p
                             else if p + 1 < |t| then p + 1 else |t|
  {
    var i := IndexOf(es, key);
    var e := (key, value);
    hide IndexOf, Omit, DistinctNames;
    if i < |es| {
      IndexOfCons(e, Omit(es, i), q);
      if q != key {
        PositionInOmitted(es, i, q);
      }
    } else {
      IndexOfCons(e, es, q);
      IndexOfPrefix([e] + es, |Stored(es, capacity, key, value)|, q);
      assert ([e] + es)[..|[e] + es|] == [e] + es;
    }
  }

  // ----------------------------------------------------------------------- over whole histories

  datatype Op<V> = Read(key: string) | Write(key: string, value: V) | Remove(key: string)

  function CacheStep<V>(es: Recency<V>, capacity: nat, op: Op<V>): Recency<V> {
    match op
    case Read(k) => Touched(es, k)
    case Write(k, v) => Stored(es, capacity, k, v)
    case Remove(k) => Removed(es, k)
  }

  function CacheAfter<V>(es: Recency<V>, capacity: nat, ops: seq<Op<V>>): Recency<V>
    decreases |ops|
  {
    if ops == [] then es else CacheAfter(CacheStep(es, capacity, ops[0]), capacity, ops[1..])
  }

  /** A pair goes to the front of an unbounded list, replacing the pair of its key. */
  function Promoted<V>(all: Recency<V>, e: (string, V)): Recency<V> {
    var i := IndexOf(all, e.0);
    [e] + if i < |all| then Omit(all, i) else all
  }

  /** Every key written and not removed since, by its last use, and how many of them the cache still has. */
  datatype Uses<V> = Uses(all: Recency<V>, held: nat)

  /** A read counts as a use when the cache has the key. */
  function UseStep<V>(u: Uses<V>, capacity: nat, op: Op<V>): Uses<V> {
    var i := IndexOf(u.all, op.key);
    match op
    case Read(k) => if i < u.held && i < |u.all| then u.(all := Promoted(u.all, u.all[i])) else u
    case Write(k, v) =>
      Uses(Promoted(u.all, (k, v)), if i < u.held || u.held >= capacity then u.held else u.held + 1)
    case Remove(k) => Uses(Removed(u.all, k), if i < u.held then u.held - 1 else u.held)
  }

  function UsesAfter<V>(u: Uses<V>, capacity: nat, ops: seq<Op<V>>): Uses<V>
    decreases |ops|
  {
    if ops == [] then u else UsesAfter(UseStep(u, capacity, ops[0]), capacity, ops[1..])
  }

  ghost predicate UsesOk<V>(u: Uses<V>, capacity: nat) {
    DistinctNames(u.all) && u.held <= |u.all| && u.held <= capacity
  }

  lemma PromotedShape<V>(all: Recency<V>, e: (string, V))
    requires DistinctNames(all)
    ensures DistinctNames(Promoted(all, e))
    ensures |Promoted(all, e)| == if IndexOf(all, e.0) < |all| then |all| else |all| + 1
  {
    var i := IndexOf(all, e.0);
    if i < |all| {
      DistinctOmit(all, i);
    }
  }

  lemma PrefixOfPromoted<V>(all: Recency<V>, n: nat, e: (string, V))
    requires n <= |all|
    ensures var i := IndexOf(all, e.0);
            && |Promoted(all, e)| > (if i < n then n - 1 else n)
            && (i < n ==> Promoted(all, e)[..n] == [e] + Omit(all[..n], i))
            && (i >= n ==> Promoted(all, e)[..n + 1] == [e] + all[..n])
  {
    hide IndexOf;
    var i := IndexOf(all, e.0);
    if i < n {
      assert Omit(all, i)[..n - 1] == Omit(all[..n], i);
    } else if i < |all| {
      assert Omit(all, i)[..n] == all[..n];
    }
  }

  /** A write does to the cached prefix what promotion does to the whole list. */
  lemma PrefixOfWritten<V>(all: Recency<V>, n: nat, capacity: nat, k: string, v: V)
    requires n <= |all| && n <= capacity && capacity > 0
    ensures var m := if IndexOf(all, k) < n || n >= capacity then n else n + 1;
            m <= |Promoted(all, (k, v))| && Stored(all[..n], capacity, k, v) == Promoted(all, (k, v))[..m]
  {
    hide IndexOf, Omit, Promoted;
    IndexOfPrefix(all, n, k);
    PrefixOfPromoted(all, n, (k, v));
    if IndexOf(all, k) >= n {
      var full := [(k, v)] + all[..n];
      assert Promoted(all, (k, v))[..n] == full[..n];
    }
  }

  lemma PrefixOfRead<V>(all: Recency<V>, n: nat, k: string)
    requires n <= |all|
    ensures var i := IndexOf(all, k);
            var next := if i < n then Promoted(all, all[i]) else all;
            n <= |next| && Touched(all[..n], k) == next[..n]
  {
    hide IndexOf, Omit, Promoted;
    IndexOfPrefix(all, n, k);
    var i := IndexOf(all, k);
    if i < n {
      PrefixOfPromoted(all, n, all[i]);
    }
  }

  lemma PrefixOfRemoved<V>(all: Recency<V>, n: nat, k: string)
    requires n <= |all| && DistinctNames(all)
    ensures var m := if IndexOf(all, k) < n then n - 1 else n;
            m <= |Removed(all, k)| && Removed(all[..n], k) == Removed(all, k)[..m] && DistinctNames(Removed(all, k))
  {
    hide IndexOf;
    IndexOfPrefix(all, n, k);
    var i := IndexOf(all, k);
    if i < |all| {
      DistinctOmit(all, i);
      assert i < n ==> Omit(all, i)[..n - 1] == Omit(all[..n], i);
      assert i >= n ==> Omit(all, i)[..n] == all[..n];
    }
  }

  lemma StepKeepsPrefix<V>(u: Uses<V>, capacity: nat, op: Op<V>)
    requires capacity > 0 && UsesOk(u, capacity)
    ensures UsesOk(UseStep(u, capacity, op), capacity)
    ensures var t := UseStep(u, capacity, op); CacheStep(u.all[..u.held], capacity, op) == t.all[..t.held]
  {
    hide IndexOf, Omit, Promoted, Touched, Stored, Removed, DistinctNames;
    match op
    case Read(k) =>
      PrefixOfRead(u.all, u.held, k);
      var i := IndexOf(u.all, k);
      if i < u.held {
        PromotedShape(u.all, u.all[i]);
      }
    case Write(k, v) =>
      PrefixOfWritten(u.all, u.held, capacity, k, v);
      PromotedShape(u.all, (k, v));
    case Remove(k) => PrefixOfRemoved(u.all, u.held, k);
  }

  /** After any history of reads, writes and removals the cache is a prefix of the stored pairs by last use: it never
      lacks a key that was used more recently than one it has. */
  lemma {:induction false} CacheIsMostRecentPart<V>(u: Uses<V>, capacity: nat, ops: seq<Op<V>>)
    requires capacity > 0 && UsesOk(u, capacity)
    ensures var t := UsesAfter(u, capacity, ops);
            UsesOk(t, capacity) && CacheAfter(u.all[..u.held], capacity, ops) == t.all[..t.held]
    decreases |ops|
  {
    hide CacheStep, UseStep, UsesOk;
    if ops != [] {
      StepKeepsPrefix(u, capacity, ops[0]);
      UsesAreOk(u, capacity);
      UsesAreOk(UseStep(u, capacity, ops[0]), capacity);
      CacheIsMostRecentPart(UseStep(u, capacity, ops[0]), capacity, ops[1..]);
    }
  }

  lemma UsesAreOk<V>(u: Uses<V>, capacity: nat)
    requires UsesOk(u, capacity)
    ensures u.held <= |u.all|
  {
  }

  /** The cache is as full as it could be. */
  predicate Full<V>(u: Uses<V>, capacity: nat) {
    u.held == capacity || u.held == |u.all|
  }

  lemma {:induction false} StaysFull<V>(u: Uses<V>, capacity: nat, ops: seq<Op<V>>)
    requires capacity > 0 && UsesOk(u, capacity) && Full(u, capacity)
    requires forall i :: 0 <= i < |ops| ==> !ops[i].Remove?
    ensures Full(UsesAfter(u, capacity, ops), capacity)
    decreases |ops|
  {
    hide IndexOf, Promoted, UsesOk, DistinctNames;
    if ops != [] {
      assert !ops[0].Remove?;
      StepKeepsPrefix(u, capacity, ops[0]);
      StepStaysFull(u, capacity, ops[0]);
      hide UseStep, Full;
      StaysFull(UseStep(u, capacity, ops[0]), capacity, ops[1..]);
    }
  }

  lemma StepStaysFull<V>(u: Uses<V>, capacity: nat, op: Op<V>)
    requires UsesOk(u, capacity) && Full(u, capacity) && !op.Remove?
    ensures Full(UseStep(u, capacity, op), capacity)
  {
    hide IndexOf, Promoted, DistinctNames;
    if op.Write? {
      PromotedShape(u.all, (op.key, op.value));
    } else if IndexOf(u.all, op.key) < |u.all| {
      PromotedShape(u.all, u.all[IndexOf(u.all, op.key)]);
    }
  }

  function Top<V>(all: Recency<V>, n: nat): Recency<V> {
    if |all| <= n then all else all[..n]
  }

  /** After any history of reads and writes, nothing removed, the cache is exactly the `capacity` most recently used
      pairs. */
  lemma CacheHoldsMostRecent<V>(all: Recency<V>, capacity: nat, ops: seq<Op<V>>)
    requires capacity > 0 && DistinctNames(all) && forall i :: 0 <= i < |ops| ==> !ops[i].Remove?
    ensures var start := Uses(all, |Top(all, capacity)|);
            CacheAfter(Top(all, capacity), capacity, ops) == Top(UsesAfter(start, capacity, ops).all, capacity)
  {
    hide CacheAfter, UsesAfter, DistinctNames;
    var start := Uses(all, |Top(all, capacity)|);
    assert all[..start.held] == Top(all, capacity);
    CacheIsMostRecentPart(start, capacity, ops);
    StaysFull(start, capacity, ops);
    var t := UsesAfter(start, capacity, ops);
    assert t.held == |t.all| ==> t.all[..t.held] == t.all;
  }

  /** A removal leaves room that keys pushed out before do not come back to fill: of "a" and "b", written in this order
      to a cache of one pair, none is cached when "b" is removed, though "a" is stored. */
  lemma RemovalLeavesRoom<V>(v: V)
    ensures var ops := [Write("a", v), Write("b", v), Remove("b")];
            var t := UsesAfter(Uses([], 0), 1, ops);
            CacheAfter([], 1, ops) == [] && t == Uses([("a", v)], 0) && Top(t.all, 1) != []
  {
    var a, b := ("a", v), ("b", v);
    var ops := [Write("a", v), Write("b", v), Remove("b")];
    var none: Recency<V> := [];
    IndexIs(none, "a", 0);
    IndexIs([a], "b", 1);
    IndexIs([b, a], "b", 0);
    hide IndexOf;
    var u0 := Uses(none, 0);
    var u1 := UseStep(u0, 1, ops[0]);
    assert u1 == Uses([a], 1) by { assert [a] + none == [a]; }
    var u2 := UseStep(u1, 1, ops[1]);
    assert u2 == Uses([b, a], 1) by { assert [b] + [a] == [b, a]; }
    var u3 := UseStep(u2, 1, ops[2]);
    assert u3 == Uses([a], 0) by { assert Omit([b, a], 0) == [a]; }
    ThreeOps(u0, ops);
    CacheIsMostRecentPart(u0, 1, ops);
    assert none[..0] == none;
  }

  lemma ThreeOps<V>(u: Uses<V>, ops: seq<Op<V>>)
    requires |ops| == 3
    ensures UsesAfter(u, 1, ops) == UseStep(UseStep(UseStep(u, 1, ops[0]), 1, ops[1]), 1, ops[2])
  {
    hide UseStep;
    var u1 := UseStep(u, 1, ops[0]);
    var u2 := UseStep(u1, 1, ops[1]);
    assert ops[1..][1..] == ops[2..] && ops[2..][1..] == [];
    assert UsesAfter(u1, 1, ops[1..]) == UsesAfter(u2, 1, ops[2..]);
    assert UsesAfter(u2, 1, ops[2..]) == UsesAfter(UseStep(u2, 1, ops[2]), 1, []);
  }
}
