/** The chained hash table behind the metadata cache (naming_server/nm_storage.c: hash_filename, ht_get, ht_put,
    ht_remove). */
module HashTables {
  import opened Lists
  import opened Options

  /** The value of a char as the program reads it: a signed byte widened to unsigned long. */
  function CharValue(c: char): nat {
    var n := c as int % 0x100;
    if n < 0x80 then n else n + 0x1_0000_0000_0000_0000 - 0x100
  }

  /** djb2 over 64-bit unsigned arithmetic. */
  function Djb2(s: string, hash: nat): nat
    decreases |s|
  {
    if s == "" then hash
    else Djb2(s[1..], (33 * hash + CharValue(s[0])) % 0x1_0000_0000_0000_0000)
  }

  function BucketOf(key: string, buckets: nat): (b: nat)
    requires buckets > 0
    ensures b < buckets
  {
    Djb2(key, 5381) % buckets
  }

  class HashEntry<V> {
    const key: string
    var node: V
    var next: HashEntry?<V>

    constructor (key: string, node: V, next: HashEntry?<V>)
      ensures this.key == key && this.node == node && this.next == next
    {
      this.key, this.node, this.next := key, node, next;
    }
  }

  /** Entry i of the chain, null behind its end. */
  ghost function Nth<V>(c: seq<HashEntry<V>>, i: nat): HashEntry?<V> {
    if i < |c| then c[i] else null
  }

  /** The chain that starts at head is exactly c. */
  ghost predicate Linked<V>(head: HashEntry?<V>, c: seq<HashEntry<V>>)
    reads c
  {
    head == Nth(c, 0) && forall i :: 0 <= i < |c| ==> c[i].next == Nth(c, i + 1)
  }

  lemma LinkedCons<V>(e: HashEntry<V>, c: seq<HashEntry<V>>)
    requires Linked(e.next, c)
    ensures Linked(e, [e] + c)
  {
    var d := [e] + c;
    forall i | 0 <= i < |d|
      ensures d[i].next == Nth(d, i + 1)
    {
      assert Nth(d, i + 1) == Nth(c, i);
      if i > 0 {
        assert d[i] == c[i - 1] && c[i - 1].next == Nth(c, i);
      }
    }
  }

  ghost predicate DistinctKeys<V>(c: seq<HashEntry<V>>) {
    forall i, j :: 0 <= i < j < |c| ==> c[i].key != c[j].key
  }

  /** Position of the key in the chain, or its length. */
  ghost function Position<V>(c: seq<HashEntry<V>>, key: string): (i: nat)
    ensures i <= |c| && (i < |c| ==> c[i].key == key)
    ensures forall j :: 0 <= j < i ==> c[j].key != key
  {
    FirstIndex(c, (e: HashEntry<V>) => e.key == key)
  }

  class HashTable<V> {
    const buckets: array<HashEntry?<V>>
    ghost var chains: seq<seq<HashEntry<V>>>
    ghost var entries: set<HashEntry<V>>
    ghost var Contents: map<string, V>

    ghost predicate Shape()
      reads `chains, `entries, buckets, entries
    {
      && 0 < buckets.Length == |chains|
      && forall b :: 0 <= b < |chains| ==> BucketOk(b)
    }

    /** Bucket b links exactly the entries of its chain; they belong there and their keys differ. */
    ghost predicate BucketOk(b: nat)
      requires 0 < buckets.Length == |chains| && b < |chains|
      reads `chains, `entries, buckets, entries
    {
      var c := chains[b];
      && (forall i :: 0 <= i < |c| ==> c[i] in entries && BucketOf(c[i].key, buckets.Length) == b)
      && DistinctKeys(c)
      && Linked(buckets[b], c)
    }

    /** Contents has the key exactly when it hangs in its bucket, with the node of its entry. */
    ghost predicate Agrees(key: string)
      requires Shape()
      reads this, buckets, entries
    {
      var b := BucketOf(key, buckets.Length);
      assert BucketOk(b);
      var i := Position(chains[b], key);
      if i < |chains[b]| then key in Contents && Contents[key] == chains[b][i].node else key !in Contents
    }

    ghost predicate Valid()
      reads this, buckets, entries
    {
      Shape() && forall key :: Agrees(key)
    }

    constructor (capacity: nat)
      requires capacity > 0
      ensures Valid() && fresh(buckets) && buckets.Length == capacity && entries == {} && Contents == map[]
    {
      buckets := new HashEntry?<V>[capacity](_ => null);
      chains := seq(capacity, _ => []);
      entries := {};
      Contents := map[];
    }

    /** ht_get. */
    method Get(key: string) returns (node: Option<V>)
      requires Valid()
      ensures node == if key in Contents then Some(Contents[key]) else None
    {
      var e := FindEntry(key);
      assert Agrees(key);
      node := if e == null then None else Some(e.node);
    }

    /** The walk along the bucket's chain that ht_get and ht_put share. */
    method FindEntry(key: string) returns (e: HashEntry?<V>)
      requires Shape()
      ensures var c := chains[BucketOf(key, buckets.Length)];
              e == Nth(c, Position(c, key))
    {
      hide BucketOf;
      var h := BucketOf(key, buckets.Length);
      ghost var c, i := chains[h], 0;
      assert Linked(buckets[h], c) by {
        assert BucketOk(h);
      }
      hide BucketOk;
      e := buckets[h];
      while e != null
        invariant 0 <= i <= |c| && e == Nth(c, i)
        invariant i <= Position(c, key)
        decreases |c| - i
      {
        assert c[i] == e && c[i].next == Nth(c, i + 1);
        if e.key == key {
          return;
        }
        e := e.next;
        i := i + 1;
      }
    }

    /** A new entry in front of bucket h. */
    method AddFirst(h: nat, key: string, node: V)
      requires Shape() && BucketOf(key, buckets.Length) == h && Position(chains[h], key) == |chains[h]|
      modifies `chains, `entries, buckets
      ensures Shape() && fresh(entries - old(entries)) && old(entries) <= entries
      ensures exists e :: e in entries && e.key == key && e.node == node
                          && chains == old(chains)[h := [e] + old(chains)[h]]
    {
      hide BucketOf, Position, Linked;
      assert BucketOk(h);
      ghost var c := chains[h];
      var ne := new HashEntry(key, node, buckets[h]);
      assert Linked(ne.next, c);
      buckets[h] := ne;
      chains := chains[h := [ne] + c];
      entries := entries + {ne};
      LinkedCons(ne, c);
      assert BucketOk(h);
      forall b | 0 <= b < |chains|
        ensures BucketOk(b)
      {
        if b != h {
          assert old(BucketOk(b));
        }
      }
    }

    /** ht_put: overwrite the entry of the key, or hang a new one at the head of its bucket. */
    method Put(key: string, node: V)
      requires Valid()
      modifies this, buckets, entries
      ensures Valid() && fresh(entries - old(entries))
      ensures Contents == old(Contents)[key := node]
    {
      var e := FindEntry(key);
      assert BucketOk(BucketOf(key, buckets.Length));
      if e != null {
        SetNode(e, key, node);
      } else {
        AddNew(key, node);
      }
    }

    method SetNode(e: HashEntry<V>, key: string, node: V)
      requires Valid() && var c := chains[BucketOf(key, buckets.Length)];
                          Position(c, key) < |c| && e == c[Position(c, key)]
      modifies e`node, `Contents
      ensures Valid() && Contents == old(Contents)[key := node]
    {
      hide BucketOf;
      var h := BucketOf(key, buckets.Length);
      ghost var c, p := chains[h], Position(chains[h], key);
      assert BucketOk(h);
      e.node := node;
      Contents := Contents[key := node];
      forall b | 0 <= b < |chains|
        ensures BucketOk(b)
      {
        assert old(BucketOk(b));
      }
      forall k
        ensures Agrees(k)
      {
        assert old(Agrees(k));
        var b, i := BucketOf(k, buckets.Length), Position(chains[BucketOf(k, buckets.Length)], k);
        assert BucketOk(b);
        if i < |chains[b]| && chains[b][i] == e {
          assert e.key == k == key;
        }
      }
    }

    method AddNew(key: string, node: V)
      requires Valid() && var c := chains[BucketOf(key, buckets.Length)]; Position(c, key) == |c|
      modifies this, buckets
      ensures Valid() && fresh(entries - old(entries))
      ensures Contents == old(Contents)[key := node]
    {
      hide BucketOf;
      var h := BucketOf(key, buckets.Length);
      AddFirst(h, key, node);
      Contents := Contents[key := node];
      forall k
        ensures Agrees(k)
      {
        assert old(Agrees(k));
        assert chains[h][1..] == old(chains)[h];
      }
    }

    /** ht_remove: unhang the entry of the key, if there is one. */
    method Remove(key: string)
      requires Valid()
      modifies this, buckets, entries
      ensures Valid() && entries == old(entries)
      ensures Contents == old(Contents) - {key}
    {
      var prev, e := FindWithPrevious(key);
      assert Agrees(key);
      if e != null {
        RemoveAt(key, Position(chains[BucketOf(key, buckets.Length)], key), prev, e);
      } else {
        assert Contents - {key} == Contents;
      }
    }

    /** The walk of ht_remove, which keeps the entry before the current one. */
    method FindWithPrevious(key: string) returns (prev: HashEntry?<V>, e: HashEntry?<V>)
      requires Shape()
      ensures var c := chains[BucketOf(key, buckets.Length)];
              var i := Position(c, key);
              e == Nth(c, i) && prev == if i == 0 then null else c[i - 1]
    {
      hide BucketOf;
      var h := BucketOf(key, buckets.Length);
      ghost var c, i := chains[h], 0;
      assert Linked(buckets[h], c) by {
        assert BucketOk(h);
      }
      hide BucketOk;
      e := buckets[h];
      prev := null;
      while e != null
        invariant 0 <= i <= |c| && e == Nth(c, i)
        invariant prev == if i == 0 then null else c[i - 1]
        invariant i <= Position(c, key)
        decreases |c| - i
      {
        assert c[i] == e && c[i].next == Nth(c, i + 1);
        if e.key == key {
          return;
        }
        prev := e;
        e := e.next;
        i := i + 1;
      }
    }

    method RemoveAt(key: string, ghost i: nat, prev: HashEntry?<V>, e: HashEntry<V>)
      requires Valid()
      requires var c := chains[BucketOf(key, buckets.Length)];
               i == Position(c, key) < |c| && e == c[i] && prev == if i == 0 then null else c[i - 1]
      modifies `chains, `Contents, buckets, entries`next
      ensures Valid() && Contents == old(Contents) - {key}
    {
      hide BucketOf, Position, Omit, Shape;
      var h := BucketOf(key, buckets.Length);
      ChainIsDistinct(h);
      ghost var c := chains[h];
      Unlink(h, i, prev, e);
      Contents := Contents - {key};
      forall k
        ensures Agrees(k)
      {
        assert old(Agrees(k));
        if BucketOf(k, buckets.Length) == h {
          PositionOmitted(c, i, k);
        }
      }
    }

    lemma ChainIsDistinct(h: nat)
      requires Shape() && h < buckets.Length
      ensures h < |chains| && DistinctKeys(chains[h])
    {
      assert BucketOk(h);
    }

    /** The predecessor of the entry, or the bucket when it is the first one, now leads past it. */
    method Unlink(h: nat, ghost i: nat, prev: HashEntry?<V>, e: HashEntry<V>)
      requires Shape() && h < buckets.Length && i < |chains[h]| && e == chains[h][i]
      requires prev == if i == 0 then null else chains[h][i - 1]
      modifies `chains, buckets, entries`next
      ensures Shape() && chains == old(chains)[h := Omit(old(chains)[h], i)]
    {
      assert BucketOk(h);
      if prev != null {
        Bypass(h, i, prev, e);
      } else {
        LinkedTail(chains[h]);
        buckets[h] := e.next;
        forall b | 0 <= b < |chains| && b != h
          ensures BucketOk(b)
        {
          assert old(BucketOk(b));
        }
      }
      Drop(h, i);
    }

    /** The ghost side of unlinking: bucket h now links the shorter chain. */
    ghost method Drop(h: nat, i: nat)
      requires 0 < buckets.Length == |chains| && h < buckets.Length && i < |chains[h]|
      requires forall b :: 0 <= b < |chains| && b != h ==> BucketOk(b)
      requires Linked(buckets[h], Omit(chains[h], i)) && DistinctKeys(chains[h])
      requires forall j :: 0 <= j < |chains[h]| ==>
                 chains[h][j] in entries && BucketOf(chains[h][j].key, buckets.Length) == h
      modifies `chains
      ensures Shape() && chains == old(chains)[h := Omit(old(chains)[h], i)]
    {
      hide BucketOf;
      DistinctOmitted(chains[h], i);
      chains := chains[h := Omit(chains[h], i)];
      assert BucketOk(h);
      forall b | 0 <= b < |chains| && b != h
        ensures BucketOk(b)
      {
        assert old(BucketOk(b));
      }
    }

    method Bypass(h: nat, ghost i: nat, prev: HashEntry<V>, e: HashEntry<V>)
      requires Shape() && h < buckets.Length && 0 < i < |chains[h]| && e == chains[h][i] && prev == chains[h][i - 1]
      modifies prev`next
      ensures Linked(buckets[h], Omit(chains[h], i))
      ensures forall b :: 0 <= b < |chains| && b != h ==> BucketOk(b)
    {
      hide BucketOf;
      assert BucketOk(h);
      assert BucketOf(prev.key, buckets.Length) == h;
      BypassNext(prev, e, chains[h], i);
      forall b | 0 <= b < |chains| && b != h
        ensures BucketOk(b)
      {
        assert old(BucketOk(b));
        assert forall j :: 0 <= j < |chains[b]| ==> chains[b][j] != prev;
      }
    }
  }

  /** The chain behind its first entry. */
  lemma LinkedTail<V>(c: seq<HashEntry<V>>)
    requires c != [] && Linked(c[0], c)
    ensures Linked(c[0].next, Omit(c, 0))
  {
    var d := Omit(c, 0);
    assert d == c[1..];
    forall i | 0 <= i < |d|
      ensures d[i].next == Nth(d, i + 1)
    {
      assert d[i] == c[i + 1] && Nth(d, i + 1) == Nth(c, i + 2);
    }
  }

  method BypassNext<V>(prev: HashEntry<V>, e: HashEntry<V>, ghost c: seq<HashEntry<V>>, ghost i: nat)
    requires 0 < i < |c| && Linked(c[0], c) && DistinctKeys(c) && prev == c[i - 1] && e == c[i]
    modifies prev`next
    ensures Linked(c[0], Omit(c, i))
  {
    prev.next := e.next;
    ghost var d := Omit(c, i);
    forall j | 0 <= j < |d|
      ensures d[j].next == Nth(d, j + 1)
    {
      var k := if j < i then j else j + 1;
      assert d[j] == c[k] && old(c[k].next) == Nth(c, k + 1);
      assert j != i - 1 ==> c[k].key != prev.key;
    }
  }

  lemma DistinctOmitted<V>(c: seq<HashEntry<V>>, i: nat)
    requires i < |c| && DistinctKeys(c)
    ensures var d := Omit(c, i);
            DistinctKeys(d) && forall j :: 0 <= j < |d| ==> d[j] == c[if j < i then j else j + 1]
  {
  }

  lemma PositionIs<V>(c: seq<HashEntry<V>>, k: string, p: nat)
    requires p <= |c| && (p < |c| ==> c[p].key == k) && forall j :: 0 <= j < p ==> c[j].key != k
    ensures Position(c, k) == p
  {
    var q := Position(c, k);
    assert !(p < q) && !(q < p);
  }

  /** Taking out the entry of one key leaves the entry of every other key in the chain. */
  lemma PositionOmitted<V>(c: seq<HashEntry<V>>, i: nat, k: string)
    requires i < |c| && DistinctKeys(c)
    ensures var d := Omit(c, i);
            if k == c[i].key then Position(d, k) == |d|
            else if Position(c, k) == |c| then Position(d, k) == |d|
            else Position(d, k) < |d| && d[Position(d, k)] == c[Position(c, k)]
  {
    var d, p := Omit(c, i), Position(c, k);
    if k == c[i].key || p == |c| {
      PositionIs(d, k, |d|);
    } else {
      PositionIs(d, k, if p < i then p else p - 1);
    }
  }
}
