/** The metadata cache: a doubly linked list in recency order, indexed by the hash table
    (naming_server/nm_storage.c: detach_node, attach_front, cache_get, cache_put, cache_remove). */
module LruCaches {
  import opened Options
  import opened HashTables
  import opened Lists

  // ------------------------------------------------------------------ the cache as a value

  const CACHE_CAPACITY := 100

  /** Cached pairs, most recently used first. */
  type Recency<V> = seq<(string, V)>

  /** Position of the key, or the length. */
  function IndexOf<V>(es: Recency<V>, key: string): (i: nat)
    ensures i <= |es| && (i < |es| ==> es[i].0 == key)
    ensures forall j :: 0 <= j < i ==> es[j].0 != key
  {
    FirstIndex(es, (e: (string, V)) => e.0 == key)
  }

  predicate Cached<V>(es: Recency<V>, key: string) {
    IndexOf(es, key) < |es|
  }

  function Lookup<V>(es: Recency<V>, key: string): Option<V> {
    if Cached(es, key) then Some(es[IndexOf(es, key)].1) else None
  }

  /** A hit moves to the front. */
  function Touched<V>(es: Recency<V>, key: string): Recency<V> {
    var i := IndexOf(es, key);
    if i < |es| then [es[i]] + Omit(es, i) else es
  }

  /** The pair goes to the front; a new key pushes out the last pair of a full cache. */
  function Stored<V>(es: Recency<V>, capacity: nat, key: string, value: V): Recency<V> {
    var i := IndexOf(es, key);
    if i < |es| then [(key, value)] + Omit(es, i)
    else
      var full := [(key, value)] + es;
      if |full| > capacity then full[..|full| - 1] else full
  }

  function Removed<V>(es: Recency<V>, key: string): Recency<V> {
    var i := IndexOf(es, key);
    if i < |es| then Omit(es, i) else es
  }

  ghost predicate DistinctNames<V>(es: Recency<V>) {
    forall i, j :: 0 <= i < j < |es| ==> es[i].0 != es[j].0
  }

  // ------------------------------------------------------------------------- the linked list

  class CacheNode<V> {
    const filename: string
    var data: V
    var prev: CacheNode?<V>
    var next: CacheNode?<V>

    constructor (filename: string, data: V)
      ensures this.filename == filename && this.data == data && prev == null && next == null
    {
      this.filename, this.data, this.prev, this.next := filename, data, null, null;
    }
  }

  /** Node i of the list; null in front of it and behind it. */
  ghost function NodeAt<V>(c: seq<CacheNode<V>>, i: int): CacheNode?<V> {
    if 0 <= i < |c| then c[i] else null
  }

  /** The prev and next pointers of neighbours mirror each other along c. */
  ghost predicate Links<V>(c: seq<CacheNode<V>>)
    reads c`prev, c`next
  {
    forall i :: 0 <= i < |c| ==> c[i].prev == NodeAt(c, i - 1) && c[i].next == NodeAt(c, i + 1)
  }

  /** Following next from the head, or prev from the tail, visits exactly c, in opposite orders. */
  ghost predicate DoublyLinked<V>(head: CacheNode?<V>, tail: CacheNode?<V>, c: seq<CacheNode<V>>)
    reads c`prev, c`next
  {
    head == NodeAt(c, 0) && tail == NodeAt(c, |c| - 1) && Links(c)
  }

  /** The first slot that holds the node, or |c|. */
  ghost function Slot<V>(c: seq<CacheNode<V>>, n: CacheNode?<V>): nat {
    if c == [] || c[0] == n then 0 else 1 + Slot(c[1..], n)
  }

  /** No node is listed twice. */
  ghost predicate NoRepeats<V>(c: seq<CacheNode<V>>) {
    forall i :: 0 <= i < |c| ==> Slot(c, c[i]) == i
  }

  lemma {:induction false} DistinctNodesHaveSlots<V>(c: seq<CacheNode<V>>)
    requires DistinctNodes(c)
    ensures NoRepeats(c)
  {
    if c != [] {
      DistinctNodesHaveSlots(c[1..]);
      forall i | 0 <= i < |c|
        ensures Slot(c, c[i]) == i
      {
        if i > 0 {
          assert c[i] == c[1..][i - 1] && c[0].filename != c[i].filename;
        }
      }
    }
  }

  lemma DistinctAfterOmit<V>(c: seq<CacheNode<V>>, i: nat)
    requires i < |c| && DistinctNodes(c)
    ensures DistinctNodes(Omit(c, i))
  {
  }

  lemma OmittedIsGone<V>(c: seq<CacheNode<V>>, i: nat)
    requires i < |c| && DistinctNodes(c)
    ensures forall j :: 0 <= j < |c| - 1 ==> Omit(c, i)[j].filename != c[i].filename
  {
  }

  /** The pointers of the nodes of c are those listed in ps and ns. */
  ghost predicate PointsTo<V>(c: seq<CacheNode<V>>, ps: seq<CacheNode?<V>>, ns: seq<CacheNode?<V>>)
    reads c`prev, c`next
  {
    |c| == |ps| == |ns| && forall k :: 0 <= k < |c| ==> c[k].prev == ps[k] && c[k].next == ns[k]
  }

  ghost function Prevs<V>(c: seq<CacheNode<V>>): (r: seq<CacheNode?<V>>)
    ensures |r| == |c| && forall k :: 0 <= k < |c| ==> r[k] == NodeAt(c, k - 1)
  {
    seq(|c|, k requires 0 <= k < |c| => NodeAt(c, k - 1))
  }

  ghost function Nexts<V>(c: seq<CacheNode<V>>): (r: seq<CacheNode?<V>>)
    ensures |r| == |c| && forall k :: 0 <= k < |c| ==> r[k] == NodeAt(c, k + 1)
  {
    seq(|c|, k requires 0 <= k < |c| => NodeAt(c, k + 1))
  }

  method WriteNext<V>(p: CacheNode<V>, v: CacheNode?<V>, ghost c: seq<CacheNode<V>>, ghost k: nat,
                      ghost ps: seq<CacheNode?<V>>, ghost ns: seq<CacheNode?<V>>)
    requires k < |c| && p == c[k] && NoRepeats(c) && PointsTo(c, ps, ns)
    modifies p`next
    ensures PointsTo(c, ps, ns[k := v])
  {
    hide Slot;
    p.next := v;
    assert forall j :: 0 <= j < |c| ==> Slot(c, c[j]) == j && (c[j] == p ==> j == k);
  }

  method WritePrev<V>(n: CacheNode<V>, v: CacheNode?<V>, ghost c: seq<CacheNode<V>>, ghost k: nat,
                      ghost ps: seq<CacheNode?<V>>, ghost ns: seq<CacheNode?<V>>)
    requires k < |c| && n == c[k] && NoRepeats(c) && PointsTo(c, ps, ns)
    modifies n`prev
    ensures PointsTo(c, ps[k := v], ns)
  {
    hide Slot;
    n.prev := v;
    assert forall j :: 0 <= j < |c| ==> Slot(c, c[j]) == j && (c[j] == n ==> j == k);
  }

  /** The pointer writes of detach_node: the neighbours are joined, the node is left alone. */
  method JoinNeighbours<V>(node: CacheNode<V>, ghost c: seq<CacheNode<V>>, ghost i: nat)
    requires i < |c| && node == c[i] && Links(c) && NoRepeats(c)
    modifies c`prev, c`next
    ensures Links(Omit(c, i)) && node.prev == null && node.next == null
  {
    hide Slot, Omit, NoRepeats, Links, PointsTo, Prevs, Nexts;
    ghost var ps, ns := Prevs(c), Nexts(c);
    LinksPoint(c);
    NeighboursOf(c, i);
    var p, n := node.prev, node.next;
    JoinNext(p, n, c, i, ps, ns);
    ns := if i > 0 then ns[i - 1 := n] else ns;
    JoinPrev(n, p, c, i, ps, ns);
    ps := if i + 1 < |c| then ps[i + 1 := p] else ps;
    WritePrev(node, null, c, i, ps, ns);
    WriteNext(node, null, c, i, ps[i := null], ns);
    BridgedLinks(c, i, ps[i := null], ns[i := null]);
  }

  lemma LinksPoint<V>(c: seq<CacheNode<V>>)
    requires Links(c)
    ensures PointsTo(c, Prevs(c), Nexts(c))
  {
  }

  lemma NeighboursOf<V>(c: seq<CacheNode<V>>, i: nat)
    requires i < |c| && Links(c)
    ensures c[i].prev == NodeAt(c, i - 1) && c[i].next == NodeAt(c, i + 1)
  {
  }

  method JoinNext<V>(p: CacheNode?<V>, n: CacheNode?<V>, ghost c: seq<CacheNode<V>>, ghost i: nat,
                     ghost ps: seq<CacheNode?<V>>, ghost ns: seq<CacheNode?<V>>)
    requires i < |c| && p == NodeAt(c, i - 1) && NoRepeats(c) && PointsTo(c, ps, ns)
    modifies c`next
    ensures PointsTo(c, ps, if i > 0 then ns[i - 1 := n] else ns)
  {
    hide Slot, NoRepeats;
    if p != null {
      WriteNext(p, n, c, i - 1, ps, ns);
    }
  }

  method JoinPrev<V>(n: CacheNode?<V>, p: CacheNode?<V>, ghost c: seq<CacheNode<V>>, ghost i: nat,
                     ghost ps: seq<CacheNode?<V>>, ghost ns: seq<CacheNode?<V>>)
    requires i < |c| && n == NodeAt(c, i + 1) && NoRepeats(c) && PointsTo(c, ps, ns)
    modifies c`prev
    ensures PointsTo(c, if i + 1 < |c| then ps[i + 1 := p] else ps, ns)
  {
    hide Slot, NoRepeats;
    if n != null {
      WritePrev(n, p, c, i + 1, ps, ns);
    }
  }

  /** The pointer writes of attach_front. */
  method LinkFront<V>(node: CacheNode<V>, head: CacheNode?<V>, ghost c: seq<CacheNode<V>>)
    requires Links(c) && NoRepeats(c) && head == NodeAt(c, 0) && node !in c
    modifies node`prev, node`next, c`prev
    ensures Links([node] + c)
  {
    hide Slot, NoRepeats, Links, PointsTo, Prevs, Nexts;
    ghost var ps, ns := Prevs(c), Nexts(c);
    LinksPoint(c);
    node.prev := null;
    node.next := head;
    assert PointsTo(c, ps, ns);
    if head != null {
      WritePrev(head, node, c, 0, ps, ns);
      ps := ps[0 := node];
    }
    FrontLinks(node, c, ps, ns);
  }

  lemma FrontLinks<V>(node: CacheNode<V>, c: seq<CacheNode<V>>, ps: seq<CacheNode?<V>>, ns: seq<CacheNode?<V>>)
    requires PointsTo(c, ps, ns) && node.prev == null && node.next == NodeAt(c, 0)
    requires forall k :: 0 <= k < |c| ==>
               ps[k] == (if k == 0 then node else NodeAt(c, k - 1)) && ns[k] == NodeAt(c, k + 1)
    ensures Links([node] + c)
  {
    var d := [node] + c;
    forall j | 0 <= j < |d|
      ensures d[j].prev == NodeAt(d, j - 1) && d[j].next == NodeAt(d, j + 1)
    {
      assert NodeAt(d, j + 1) == NodeAt(c, j);
      if j > 0 {
        assert d[j] == c[j - 1] && d[j - 1] == if j == 1 then node else c[j - 2];
      }
    }
  }

  lemma DistinctCons<V>(node: CacheNode<V>, c: seq<CacheNode<V>>)
    requires DistinctNodes(c) && forall i :: 0 <= i < |c| ==> c[i].filename != node.filename
    ensures DistinctNodes([node] + c) && node !in c
  {
  }

  lemma NodeAtOmit<V>(c: seq<CacheNode<V>>, i: nat, j: int)
    requires i < |c|
    ensures NodeAt(Omit(c, i), j) == NodeAt(c, if j < i then j else j + 1)
  {
  }

  lemma BridgedLinks<V>(c: seq<CacheNode<V>>, i: nat, ps: seq<CacheNode?<V>>, ns: seq<CacheNode?<V>>)
    requires i < |c| && PointsTo(c, ps, ns)
    requires forall k :: 0 <= k < |c| && k != i ==>
               && ps[k] == NodeAt(c, if k == i + 1 then i - 1 else k - 1)
               && ns[k] == NodeAt(c, if k == i - 1 then i + 1 else k + 1)
    ensures Links(Omit(c, i)) && c[i].prev == ps[i] && c[i].next == ns[i]
  {
    hide Omit, NodeAt;
    var d := Omit(c, i);
    forall j | 0 <= j < |d|
      ensures d[j].prev == NodeAt(d, j - 1) && d[j].next == NodeAt(d, j + 1)
    {
      NodeAtOmit(c, i, j - 1);
      NodeAtOmit(c, i, j + 1);
      var k := if j < i then j else j + 1;
      assert d[j] == c[k];
    }
  }

  /** The ends of the list without node i. */
  lemma EndsOfOmit<V>(c: seq<CacheNode<V>>, i: nat)
    requires i < |c| && NoRepeats(c)
    ensures NodeAt(Omit(c, i), 0) == if c[0] == c[i] then NodeAt(c, i + 1) else c[0]
    ensures NodeAt(Omit(c, i), |c| - 2) == if c[|c| - 1] == c[i] then NodeAt(c, i - 1) else c[|c| - 1]
  {
    hide Omit, Slot;
    NodeAtOmit(c, i, 0);
    NodeAtOmit(c, i, |c| - 2);
    assert Slot(c, c[i]) == i && Slot(c, c[0]) == 0 && Slot(c, c[|c| - 1]) == |c| - 1;
  }

  ghost predicate DistinctNodes<V>(c: seq<CacheNode<V>>) {
    forall i, j :: 0 <= i < j < |c| ==> c[i].filename != c[j].filename
  }

  /** The map has exactly the file names of the listed nodes, each with its node. */
  ghost predicate IndexedBy<V>(c: seq<CacheNode<V>>, m: map<string, CacheNode<V>>) {
    && (forall i :: 0 <= i < |c| ==> c[i].filename in m && m[c[i].filename] == c[i])
    && (forall k :: k in m ==> m[k] in c && m[k].filename == k)
  }

  lemma IndexedToFront<V>(c: seq<CacheNode<V>>, i: nat, m: map<string, CacheNode<V>>)
    requires i < |c| && IndexedBy(c, m)
    ensures IndexedBy([c[i]] + Omit(c, i), m)
  {
    var d := [c[i]] + Omit(c, i);
    forall k | k in m
      ensures m[k] in d
    {
      var j :| 0 <= j < |c| && c[j] == m[k];
      assert d[if j == i then 0 else if j < i then j + 1 else j] == c[j];
    }
  }

  lemma PairsToFront<V>(c: seq<CacheNode<V>>, i: nat)
    requires i < |c|
    ensures Pairs([c[i]] + Omit(c, i)) == [Pairs(c)[i]] + Omit(Pairs(c), i)
  {
    hide Pairs, Omit;
    PairsCons(c[i], Omit(c, i));
    PairsOmit(c, i);
  }

  lemma IndexedCons<V>(n: CacheNode<V>, c: seq<CacheNode<V>>, m: map<string, CacheNode<V>>)
    requires IndexedBy(c, m) && n.filename !in m
    ensures IndexedBy([n] + c, m[n.filename := n])
  {
    var d := [n] + c;
    forall k | k in m
      ensures m[k] in d
    {
      var j :| 0 <= j < |c| && c[j] == m[k];
      assert d[j + 1] == c[j];
    }
    assert d[0] == n;
  }

  lemma IndexedOmit<V>(c: seq<CacheNode<V>>, i: nat, m: map<string, CacheNode<V>>)
    requires i < |c| && IndexedBy(c, m) && DistinctNodes(c)
    ensures IndexedBy(Omit(c, i), m - {c[i].filename})
  {
    var d := Omit(c, i);
    hide Omit;
    forall k | k in m && k != c[i].filename
      ensures m[k] in d
    {
      var j :| 0 <= j < |c| && c[j] == m[k];
      assert d[if j < i then j else j - 1] == c[j];
    }
  }

  lemma PairsCons<V>(n: CacheNode<V>, c: seq<CacheNode<V>>)
    ensures Pairs([n] + c) == [(n.filename, n.data)] + Pairs(c)
  {
    assert ([n] + c)[1..] == c;
  }

  lemma PairsOmit<V>(c: seq<CacheNode<V>>, i: nat)
    requires i < |c|
    ensures Pairs(Omit(c, i)) == Omit(Pairs(c), i)
  {
    hide Pairs, Omit;
  }

  lemma OmitKeeps<T>(es: seq<T>, i: nat)
    requires i < |es|
    ensures forall x :: x in Omit(es, i) ==> x in es
  {
  }

  lemma OmitUpdated<T>(es: seq<T>, i: nat, x: T)
    requires i < |es|
    ensures Omit(es[i := x], i) == Omit(es, i)
  {
  }

  lemma OmitLast<T>(es: seq<T>)
    requires es != []
    ensures Omit(es, |es| - 1) == es[..|es| - 1]
  {
  }

  ghost function Pairs<V>(c: seq<CacheNode<V>>): (es: Recency<V>)
    reads c`data
    ensures |es| == |c|
    ensures forall i :: 0 <= i < |c| ==> es[i] == (c[i].filename, c[i].data)
  {
    if c == [] then [] else [(c[0].filename, c[0].data)] + Pairs(c[1..])
  }

  class LruCache<V> {
    const capacity: nat
    const table: HashTable<CacheNode<V>>
    var head: CacheNode?<V>
    var tail: CacheNode?<V>
    var size: nat
    ghost var order: seq<CacheNode<V>>

    ghost predicate Valid()
      reads this, order, table, table.buckets, table.entries
    {
      && Listed() && table.Valid() && IndexedBy(order, table.Contents)
      && size == |order| <= capacity && 0 < capacity
    }

    ghost function Entries(): (es: Recency<V>)
      reads `order, order`data
    {
      Pairs(order)
    }

    /** cache_init: doubles the number of buckets until it is at least twice the capacity. */
    constructor (capacity: int)
      ensures Valid() && Entries() == [] && order == [] && fresh(table) && fresh(table.buckets) && fresh(table.entries)
      ensures this.capacity == if capacity <= 0 then CACHE_CAPACITY else capacity
      ensures 2 * this.capacity <= table.buckets.Length < 4 * this.capacity
    {
      var cap: nat := if capacity <= 0 then CACHE_CAPACITY else capacity;
      var buckets := 1;
      while buckets < cap * 2
        invariant 1 <= buckets < 4 * cap
      {
        buckets := buckets * 2;
      }
      this.capacity := cap;
      table := new HashTable<CacheNode<V>>(buckets);
      head, tail, size, order := null, null, 0, [];
    }

    ghost predicate Listed()
      reads `head, `tail, `order, order`prev, order`next
    {
      DoublyLinked(head, tail, order) && DistinctNodes(order)
    }

    /** detach_node. */
    method DetachNode(node: CacheNode<V>, ghost i: nat)
      requires Listed() && i < |order| && node == order[i]
      modifies `head, `tail, `order, order`prev, order`next
      ensures Listed() && order == Omit(old(order), i)
      ensures node.prev == null && node.next == null
    {
      hide Omit, Slot, DistinctNodes, Links, NoRepeats, NodeAt;
      ghost var c := order;
      NeighboursOf(c, i);
      var p, n := node.prev, node.next;
      DistinctNodesHaveSlots(c);
      DistinctAfterOmit(c, i);
      JoinNeighbours(node, c, i);
      UpdateEnds(node, p, n, c, i);
      order := Omit(c, i);
    }

    /** The head and tail updates of detach_node. */
    method UpdateEnds(node: CacheNode<V>, p: CacheNode?<V>, n: CacheNode?<V>, ghost c: seq<CacheNode<V>>, ghost i: nat)
      requires i < |c| && node == c[i] && NoRepeats(c) && head == NodeAt(c, 0) && tail == NodeAt(c, |c| - 1)
      requires p == NodeAt(c, i - 1) && n == NodeAt(c, i + 1)
      modifies `head, `tail
      ensures head == NodeAt(Omit(c, i), 0) && tail == NodeAt(Omit(c, i), |c| - 2)
    {
      hide Omit, Slot, NoRepeats;
      EndsOfOmit(c, i);
      if head == node {
        head := n;
      }
      if tail == node {
        tail := p;
      }
    }

    /** attach_front. */
    method AttachFront(node: CacheNode<V>)
      requires Listed() && forall i :: 0 <= i < |order| ==> order[i].filename != node.filename
      modifies `head, `tail, `order, order`prev, node`prev, node`next
      ensures Listed() && order == [node] + old(order)
    {
      hide Links, DistinctNodes, Slot, NoRepeats;
      ghost var c := order;
      DistinctNodesHaveSlots(c);
      DistinctCons(node, c);
      LinkFront(node, head, c);
      head := node;
      if tail == null {
        tail := node;
      }
      order := [node] + c;
    }

    /** The node the table gives for a key is listed, at the position of the key. */
    lemma NodePosition(key: string) returns (i: nat)
      requires Valid() && key in table.Contents
      ensures i < |order| && order[i] == table.Contents[key] && i == IndexOf(Entries(), key)
    {
      var node := table.Contents[key];
      i :| 0 <= i < |order| && order[i] == node;
      var p := IndexOf(Entries(), key);
      assert !(i < p) && !(p < i);
    }

    lemma NoPosition(key: string)
      requires Valid() && key !in table.Contents
      ensures IndexOf(Entries(), key) == |Entries()|
      ensures forall i :: 0 <= i < |order| ==> order[i].filename != key
    {
    }

    /** detach_node followed by attach_front. */
    method MoveToFront(node: CacheNode<V>, ghost i: nat)
      requires Listed() && i < |order| && node == order[i]
      modifies `head, `tail, `order, order`prev, order`next
      ensures Listed() && order == [node] + Omit(old(order), i)
    {
      hide DoublyLinked, Omit;
      OmittedIsGone(order, i);
      DetachNode(node, i);
      AttachFront(node);
    }

    /** cache_get: a hit becomes the most recent entry. */
    method Get(filename: string) returns (data: Option<V>)
      requires Valid()
      modifies this, order
      ensures Valid() && forall n :: n in order ==> n in old(order)
      ensures data == Lookup(old(Entries()), filename)
      ensures Entries() == Touched(old(Entries()), filename)
    {
      hide Pairs, IndexOf, Omit, IndexedBy, Listed, HashTable.Shape, HashTable.Agrees;
      var node := table.Get(filename);
      if node == None {
        NoPosition(filename);
        return None;
      }
      ghost var i := NodePosition(filename);
      data := Some(node.value.data);
      Promote(node.value, i);
    }

    method Promote(node: CacheNode<V>, ghost i: nat)
      requires Valid() && i < |order| && node == order[i]
      modifies `head, `tail, `order, order`prev, order`next
      ensures Valid() && Entries() == [old(Entries())[i]] + Omit(old(Entries()), i)
      ensures forall n :: n in order ==> n in old(order)
    {
      hide Pairs, Omit, IndexedBy, Listed, DistinctNodes, HashTable.Shape, HashTable.Agrees;
      PairsToFront(order, i);
      IndexedToFront(order, i, table.Contents);
      OmitKeeps(order, i);
      MoveToFront(node, i);
    }

    /** A known file: new data, and to the front. */
    method Refresh(node: CacheNode<V>, filename: string, data: V)
      requires Valid() && filename in table.Contents && node == table.Contents[filename]
      modifies `head, `tail, `order, order
      ensures Valid() && Entries() == Stored(old(Entries()), capacity, filename, data)
      ensures forall n :: n in order ==> n in old(order)
    {
      hide Pairs, IndexOf, Omit, IndexedBy, Listed, DistinctNodes, HashTable.Shape, HashTable.Agrees;
      ghost var i := NodePosition(filename);
      ghost var es := Entries();
      SetData(node, i, data);
      OmitUpdated(es, i, (filename, data));
      Promote(node, i);
    }

    method SetData(node: CacheNode<V>, ghost i: nat, data: V)
      requires Listed() && i < |order| && node == order[i]
      modifies node`data
      ensures Listed() && Pairs(order) == old(Pairs(order))[i := (node.filename, data)]
    {
      hide Pairs, DoublyLinked;
      node.data := data;
      assert forall j :: 0 <= j < |order| && j != i ==> order[j].filename != node.filename;
    }

    /** Drop the least recently used entry. */
    method Evict()
      requires Listed() && table.Valid() && IndexedBy(order, table.Contents) && size == |order| && 0 < size
      modifies `head, `tail, `order, `size, order`prev, order`next, table, table.buckets, table.entries
      ensures Listed() && table.Valid() && IndexedBy(order, table.Contents) && size == |order| == old(size) - 1
      ensures table.entries == old(table.entries) && forall n :: n in order ==> n in old(order)
      ensures order == old(order)[..|old(order)| - 1] && Entries() == old(Entries())[..old(size) - 1]
    {
      hide Pairs, Omit, IndexedBy, DistinctNodes, Links;
      var ev := tail;
      ghost var c, last := order, |order| - 1;
      assert ev == c[last];
      OmitLast(c);
      PairsOmit(c, last);
      OmitLast(Pairs(c));
      IndexedOmit(c, last, table.Contents);
      DetachNode(ev, last);
      table.Remove(ev.filename);
      size := size - 1;
    }

    /** A new file: attached in front, hung in the table, counted; the cache may now hold one entry too many. */
    method AddEntry(filename: string, data: V)
      requires Valid() && filename !in table.Contents
      modifies this, order, table, table.buckets, table.entries
      ensures Listed() && table.Valid() && IndexedBy(order, table.Contents) && size == |order| == old(size) + 1
      ensures (forall n :: n in order ==> n in old(order) || fresh(n)) && fresh(table.entries - old(table.entries))
      ensures Entries() == [(filename, data)] + old(Entries())
    {
      hide Pairs, IndexedBy, Listed, DistinctNodes, HashTable.Shape, HashTable.Agrees;
      NoPosition(filename);
      ghost var c := order;
      var node := new CacheNode(filename, data);
      IndexedCons(node, c, table.Contents);
      AttachFront(node);
      PairsCons(node, c);
      table.Put(filename, node);
      size := size + 1;
    }

    /** cache_put: refresh a cached file, or add it and evict the least recently used entry of a full cache. */
    method Put(filename: string, data: V)
      requires Valid()
      modifies this, order, table, table.buckets, table.entries
      ensures Valid() && fresh(table.entries - old(table.entries))
      ensures forall n :: n in order ==> n in old(order) || fresh(n)
      ensures Entries() == Stored(old(Entries()), capacity, filename, data)
    {
      hide Pairs, IndexOf, IndexedBy, Links, DistinctNodes, HashTable.Shape, HashTable.Agrees, Omit;
      var node := table.Get(filename);
      if node.Some? {
        Refresh(node.value, filename, data);
        return;
      }
      NoPosition(filename);
      AddEntry(filename, data);
      if size > capacity && tail != null {
        assert forall i :: 0 <= i < |order| ==> order[i] in old(order) || fresh(order[i]);
        assert forall e :: e in table.entries ==> e in old(table.entries) || fresh(e);
        Evict();
      }
    }

    /** cache_remove. */
    method Remove(filename: string)
      requires Valid()
      modifies this, order, table, table.buckets, table.entries
      ensures Valid() && table.entries == old(table.entries) && forall n :: n in order ==> n in old(order)
      ensures Entries() == Removed(old(Entries()), filename)
    {
      hide Pairs, IndexOf, IndexedBy, Listed, HashTable.Shape, HashTable.Agrees, Omit;
      var node := table.Get(filename);
      if node == None {
        NoPosition(filename);
        return;
      }
      ghost var i := NodePosition(filename);
      Discard(node.value, i);
    }

    method Discard(node: CacheNode<V>, ghost i: nat)
      requires Valid() && i < |order| && node == order[i]
      modifies this, order, table, table.buckets, table.entries
      ensures Valid() && table.entries == old(table.entries) && order == Omit(old(order), i)
      ensures Entries() == Omit(old(Entries()), i)
    {
      hide Pairs, IndexedBy, DoublyLinked, DistinctNodes, HashTable.Shape, HashTable.Agrees, Omit;
      OmitKeeps(order, i);
      PairsOmit(order, i);
      IndexedOmit(order, i, table.Contents);
      DetachNode(node, i);
      table.Remove(node.filename);
      if size > 0 {
        size := size - 1;
      }
    }
  }
}
