/** The 256-way trie of the naming server (naming_server/nm_storage.c: trie_insert, trie_search, trie_delete,
    trie_get_all_files). */
module Tries {
  import opened Options
  import opened TrieOrder

  const MAX_FILENAME_LEN := 0x100

  /** children is the array inside the C struct; path is where the node hangs. */
  class TrieNode<V> {
    ghost const path: string
    var children: seq<TrieNode?<V>>
    var isEnd: bool
    var data: Option<V>

    constructor (ghost path: string)
      ensures this.path == path && !isEnd && data == None
      ensures |children| == 0x100 && forall c :: 0 <= c < 0x100 ==> children[c] == null
    {
      this.path := path;
      children := seq(0x100, _ => null);
      isEnd, data := false, None;
    }
  }

  lemma SnocIsInjective(r: string, d: nat, p: string, c: nat)
    requires d < 0x100 && c < 0x100
    ensures Child(r, d) == Child(p, c) <==> r == p && d == c
  {
    if Child(r, d) == Child(p, c) {
      assert r == (Child(r, d))[..|r|] && p == (Child(p, c))[..|p|];
      assert (Child(r, d))[|r|] == (Child(p, c))[|p|];
    }
  }

  lemma ClosedUnderChild(keys: set<string>, p: string, c: nat)
    requires PrefixClosed(keys) && p in keys && c < 0x100
    ensures PrefixClosed(keys + {Child(p, c)})
  {
    var q := Child(p, c);
    assert q[..|q| - 1] == p;
    assert IsName(p);
  }

  /** The child pointers of the node at r, when exactly the paths of m are known. */
  ghost predicate LinksTo<V>(children: seq<TrieNode?<V>>, m: map<string, TrieNode<V>>, r: string) {
    |children| == 0x100
    && forall d :: 0 <= d < 0x100 ==> children[d] == if Child(r, d) in m then m[Child(r, d)] else null
  }

  /** The map knows path q in addition to those of `was`. */
  ghost predicate NewPath<V>(was: map<string, TrieNode<V>>, m: map<string, TrieNode<V>>, q: string) {
    q !in was && q in m && m == was[q := m[q]]
  }

  /** A node stays linked right when a path is added: nothing changes, or, for the parent, the new pointer. */
  lemma LinksToNew<V>(was: map<string, TrieNode<V>>, m: map<string, TrieNode<V>>, p: string, c: nat, r: string,
                      children: seq<TrieNode?<V>>)
    requires c < 0x100 && NewPath(was, m, Child(p, c)) && LinksTo(children, was, r)
    ensures LinksTo(if r == p then children[c := m[Child(p, c)]] else children, m, r)
  {
    forall d | 0 <= d < 0x100
      ensures Child(r, d) == Child(p, c) <==> r == p && d == c
    {
      SnocIsInjective(r, d, p, c);
    }
  }

  lemma LinksToLength<V>(children: seq<TrieNode?<V>>, m: map<string, TrieNode<V>>, r: string)
    requires LinksTo(children, m, r)
    ensures |children| == 0x100
  {
  }

  lemma ChildLength(p: string, c: nat)
    requires c < 0x100
    ensures |Child(p, c)| == |p| + 1
  {
  }

  /** The new node itself has no children yet. */
  lemma NewNodeLinks<V>(was: map<string, TrieNode<V>>, m: map<string, TrieNode<V>>, p: string, c: nat,
                        children: seq<TrieNode?<V>>)
    requires c < 0x100 && PrefixClosed(was.Keys) && NewPath(was, m, Child(p, c))
    requires |children| == 0x100 && forall d :: 0 <= d < 0x100 ==> children[d] == null
    ensures LinksTo(children, m, Child(p, c))
  {
    var q := Child(p, c);
    forall d | 0 <= d < 0x100
      ensures Child(q, d) !in m
    {
      var r := Child(q, d);
      assert r[..|r| - 1] == q;
    }
  }

  /** At most the first n elements. */
  function Take<T>(s: seq<T>, n: nat): seq<T> {
    if |s| <= n then s else s[..n]
  }

  lemma TakeTake<T>(a: seq<T>, b: seq<T>, c: seq<T>, n: nat)
    ensures Take(Take(a + b, n) + c, n) == Take(a + (b + c), n)
  {
    assert a + (b + c) == (a + b) + c;
    if |a + b| > n {
      assert (Take(a + b, n) + c)[..n] == Take(a + b, n) == ((a + b) + c)[..n];
    }
  }

  lemma TakeFull<T>(a: seq<T>, b: seq<T>, n: nat)
    requires |a| == n
    ensures Take(a + b, n) == a
  {
  }

  class Trie<V> {
    const root: TrieNode<V>
    ghost var nodes: map<string, TrieNode<V>>

    /** Each known path leads to its own node, and a child pointer is set exactly when the longer path is known. */
    ghost predicate Valid()
      reads this, nodes.Values
    {
      && PrefixClosed(nodes.Keys)
      && "" in nodes && nodes[""] == root
      && (forall p :: p in nodes ==> NodeOk(p))
      && (forall p :: p in nodes ==> |p| < MAX_FILENAME_LEN)
    }

    ghost predicate NodeOk(p: string)
      requires p in nodes
      reads `nodes, nodes[p]
    {
      var n := nodes[p];
      n.path == p && (n.isEnd <==> n.data.Some?) && LinksTo(n.children, nodes, p)
    }

    /** The finite map the trie stands for. */
    ghost function Contents(): map<string, V>
      reads this, nodes.Values
    {
      map p | p in nodes && nodes[p].isEnd && nodes[p].data.Some? :: nodes[p].data.value
    }

    constructor ()
      ensures Valid() && fresh(root) && fresh(nodes.Values) && Contents() == map[]
    {
      var r := new TrieNode<V>("");
      root := r;
      nodes := map["" := r];
    }

    lemma StepIntoChild(name: string, i: nat)
      requires Valid() && IsName(name) && i < |name| && name[..i] in nodes
      ensures var n := nodes[name[..i]];
              |n.children| == 0x100
              && n.children[name[i] as int] == if name[..i + 1] in nodes then nodes[name[..i + 1]] else null
    {
      hide PrefixClosed;
      assert NodeOk(name[..i]);
      assert Child(name[..i], name[i] as int) == name[..i + 1];
    }

    /** trie_search. */
    method Search(filename: string) returns (r: Option<V>)
      requires Valid() && IsName(filename)
      ensures r == if filename in Contents() then Some(Contents()[filename]) else None
    {
      var current := root;
      var i := 0;
      while i < |filename|
        invariant 0 <= i <= |filename| && filename[..i] in nodes && current == nodes[filename[..i]]
      {
        StepIntoChild(filename, i);
        var ch := filename[i] as int;
        if current.children[ch] == null {
          if filename in nodes {
            PrefixInNodes(nodes.Keys, filename, i + 1);
          }
          return None;
        }
        current := current.children[ch];
        i := i + 1;
      }
      assert filename[..i] == filename;
      assert NodeOk(filename);
      r := if current.isEnd then current.data else None;
    }

    /** calloc of a missing child: one more path. */
    method AddChild(current: TrieNode<V>, ghost p: string, c: nat)
      requires Valid() && p in nodes && current == nodes[p]
      requires c < 0x100 && Child(p, c) !in nodes && |p| + 1 < MAX_FILENAME_LEN
      modifies `nodes, current`children
      ensures Valid() && NewPath(old(nodes), nodes, Child(p, c))
      ensures var n := nodes[Child(p, c)]; fresh(n) && !n.isEnd && n.data == None
    {
      hide PrefixClosed, Contents, LinksTo, Child;
      ghost var q, was := Child(p, c), nodes;
      assert NodeOk(p);
      ClosedUnderChild(nodes.Keys, p, c);
      var n := new TrieNode<V>(q);
      LinksToLength(current.children, was, p);
      current.children := current.children[c := n];
      nodes := nodes[q := n];
      assert nodes.Keys == was.Keys + {q};
      NewNodeLinks(was, nodes, p, c, n.children);
      assert NodeOk(q);
      forall r | r in was
        ensures NodeOk(r)
      {
        assert old(NodeOk(r));
        LinksToNew(was, nodes, p, c, r, old(was[r].children));
      }
      ChildLength(p, c);
    }

    /** A new node holds no key. */
    method GrowChild(current: TrieNode<V>, ghost p: string, c: nat)
      requires Valid() && p in nodes && current == nodes[p]
      requires c < 0x100 && Child(p, c) !in nodes && |p| + 1 < MAX_FILENAME_LEN
      modifies `nodes, current`children
      ensures Valid() && NewPath(old(nodes), nodes, Child(p, c)) && fresh(nodes[Child(p, c)])
      ensures Contents() == old(Contents())
    {
      hide NodeOk, PrefixClosed;
      ghost var was := nodes;
      AddChild(current, p, c);
      assert forall r :: r in was ==> nodes[r].isEnd == old(was[r].isEnd) && nodes[r].data == old(was[r].data);
    }

    /** Every node is one the trie had, or a new one. */
    twostate predicate Owned()
      reads `nodes
    {
      forall q :: q in nodes ==> nodes[q] in old(nodes.Values) || fresh(nodes[q])
    }

    /** The node at path p gets a record, or loses it. */
    method Mark(current: TrieNode<V>, ghost p: string, data: Option<V>)
      requires Valid() && p in nodes && current == nodes[p]
      modifies current`isEnd, current`data
      ensures Valid()
      ensures Contents() == if data.Some? then old(Contents())[p := data.value] else old(Contents()) - {p}
    {
      hide Valid, NodeOk, LinksTo, PrefixClosed;
      MarkNode(current, p, data);
      assert forall r :: r in nodes && r != p ==>
          nodes[r].isEnd == old(nodes[r].isEnd) && nodes[r].data == old(nodes[r].data);
    }

    method MarkNode(current: TrieNode<V>, ghost p: string, data: Option<V>)
      requires Valid() && p in nodes && current == nodes[p]
      modifies current`isEnd, current`data
      ensures Valid() && current.isEnd == data.Some? && current.data == data
      ensures forall r :: r in nodes && r != p ==> nodes[r] != current
    {
      hide PrefixClosed, LinksTo, Contents;
      assert NodeOk(p);
      current.isEnd := data.Some?;
      current.data := data;
      forall r | r in nodes
        ensures NodeOk(r) && (r != p ==> nodes[r] != current)
      {
        assert old(NodeOk(r));
      }
    }

    /** trie_insert: walk down, allocating what is missing, and set the record of the last node. */
    method Insert(filename: string, data: V)
      requires Valid() && IsName(filename) && |filename| < MAX_FILENAME_LEN
      modifies this, nodes.Values
      ensures Valid() && Owned() && Contents() == old(Contents())[filename := data]
    {
      hide NodeOk, PrefixClosed, Contents;
      var current := root;
      assert filename[..0] == "";
      var i := 0;
      while i < |filename|
        invariant Valid() && Owned() && Contents() == old(Contents())
        invariant 0 <= i <= |filename| && filename[..i] in nodes && current == nodes[filename[..i]]
      {
        var ch := filename[i] as int;
        StepIntoChild(filename, i);
        assert Child(filename[..i], ch) == filename[..i + 1];
        if current.children[ch] == null {
          GrowChild(current, filename[..i], ch);
          StepIntoChild(filename, i);
        }
        current := current.children[ch];
        i := i + 1;
      }
      assert filename[..i] == filename;
      Mark(current, filename, Some(data));
    }

    /** trie_delete: the nodes stay, the record goes; -1 if the path does not exist. */
    method Delete(filename: string) returns (rc: int)
      requires Valid() && IsName(filename)
      modifies nodes.Values
      ensures Valid() && Contents() == old(Contents()) - {filename}
      ensures rc == if filename in nodes then 0 else -1
    {
      hide NodeOk, PrefixClosed, Contents;
      var current := root;
      assert filename[..0] == "";
      var i := 0;
      while i < |filename|
        invariant Valid() && Contents() == old(Contents())
        invariant 0 <= i <= |filename| && filename[..i] in nodes && current == nodes[filename[..i]]
      {
        var ch := filename[i] as int;
        StepIntoChild(filename, i);
        if current.children[ch] == null {
          if filename in nodes {
            PrefixInNodes(nodes.Keys, filename, i + 1);
          }
          NoKeyWithoutPath(filename);
          return -1;
        }
        current := current.children[ch];
        i := i + 1;
      }
      assert filename[..i] == filename;
      Mark(current, filename, None);
      return 0;
    }

    lemma NoKeyWithoutPath(filename: string)
      requires filename !in nodes
      ensures Contents() - {filename} == Contents()
    {
    }

    /** The names with a record. */
    ghost function KeySet(): set<string>
      reads this, nodes.Values
    {
      Contents().Keys
    }

    lemma KeySetIsKnown()
      requires Valid()
      ensures KeySet() <= nodes.Keys
    {
    }

    /** trie_get_all_helper: one prefix buffer for the whole walk, cut at the requested number of names. */
    method CollectNames(node: TrieNode<V>, ghost p: string, prefix: array<char>, depth: nat,
                        filenames: array<string>, count: nat, max: nat) returns (total: nat)
      requires Valid() && p in nodes && node == nodes[p] && depth == |p|
      requires prefix.Length == MAX_FILENAME_LEN && prefix[..depth] == p
      requires count <= max <= filenames.Length
      modifies prefix, filenames
      ensures prefix[..depth] == p && total <= max
      ensures filenames[..total] == Take(old(filenames[..count]) + Walk(nodes.Keys, KeySet(), p), max)
      decreases Below(nodes.Keys, p), 1
    {
      hide PrefixClosed, Walk, WalkChildren, Below, Contents, KeySet, Take, LinksTo;
      ghost var all, keys, start := nodes.Keys, KeySet(), filenames[..count];
      if count >= max {
        TakeFull(start, Walk(all, keys, p), max);
        return count;
      }
      total := AddName(node, p, prefix, depth, filenames, count);
      var i := 0;
      while i < 0x100
        invariant 0 <= i <= 0x100 && total <= max && prefix[..depth] == p
        invariant Take(filenames[..total] + WalkChildren(all, keys, p, i), max) == Take(start + Walk(all, keys, p), max)
      {
        total := CollectChild(node, p, prefix, depth, filenames, total, max, i);
        i := i + 1;
      }
      NoMoreChildren(all, keys, p, filenames[..total], max);
    }

    /** The name of this node, if it has a record. */
    method AddName(node: TrieNode<V>, ghost p: string, prefix: array<char>, depth: nat,
                   filenames: array<string>, count: nat) returns (total: nat)
      requires Valid() && p in nodes && node == nodes[p] && depth == |p|
      requires prefix.Length == MAX_FILENAME_LEN && prefix[..depth] == p && count < filenames.Length
      modifies prefix, filenames
      ensures prefix[..depth] == p && total <= count + 1
      ensures filenames[..total] + WalkChildren(nodes.Keys, KeySet(), p, 0)
              == old(filenames[..count]) + Walk(nodes.Keys, KeySet(), p)
    {
      hide PrefixClosed, WalkChildren, LinksTo;
      ghost var all, keys, start := nodes.Keys, KeySet(), filenames[..count];
      assert NodeOk(p);
      if node.isEnd && node.data.Some? {
        prefix[depth] := 0 as char;
        filenames[count] := prefix[..depth];
        assert filenames[..count + 1] == start + [p];
        assert (start + [p]) + WalkChildren(all, keys, p, 0) == start + ([p] + WalkChildren(all, keys, p, 0));
        return count + 1;
      }
      assert [] + WalkChildren(all, keys, p, 0) == WalkChildren(all, keys, p, 0);
      return count;
    }

    /** One turn of the loop over the 256 children. */
    method CollectChild(node: TrieNode<V>, ghost p: string, prefix: array<char>, depth: nat,
                        filenames: array<string>, count: nat, max: nat, i: nat) returns (total: nat)
      requires Valid() && p in nodes && node == nodes[p] && depth == |p| && i < 0x100
      requires prefix.Length == MAX_FILENAME_LEN && prefix[..depth] == p
      requires count <= max <= filenames.Length
      modifies prefix, filenames
      ensures prefix[..depth] == p && total <= max
      ensures var all, keys := nodes.Keys, KeySet();
              Take(filenames[..total] + WalkChildren(all, keys, p, i + 1), max)
              == Take(old(filenames[..count]) + WalkChildren(all, keys, p, i), max)
      decreases Below(nodes.Keys, p), 0
    {
      hide PrefixClosed, Walk, WalkChildren, Below, Contents, KeySet, Take;
      ghost var all, keys, q := nodes.Keys, KeySet(), Child(p, i);
      assert NodeOk(p);
      WalkStep(all, keys, p, i);
      if node.children[i] != null {
        prefix[depth] := i as char;
        assert prefix[..depth + 1] == q;
        BelowShrinks(all, p, i as char);
        ghost var start := filenames[..count];
        total := CollectNames(node.children[i], q, prefix, depth + 1, filenames, count, max);
        assert prefix[..depth] == prefix[..depth + 1][..depth];
        TakeTake(start, Walk(all, keys, q), WalkChildren(all, keys, p, i + 1), max);
      } else {
        total := count;
      }
    }

    /** trie_get_all_files: the first max names in ascending byte order. */
    method GetAllFiles(filenames: array<string>, max: nat) returns (count: nat)
      requires Valid() && max <= filenames.Length
      modifies filenames
      ensures count == if |Contents()| <= max then |Contents()| else max
      ensures Ascending(filenames[..count]) && forall k :: k in filenames[..count] ==> k in Contents()
      ensures forall k :: k in Contents() && k !in filenames[..count] ==>
                forall i :: 0 <= i < count ==> Before(filenames[i], k)
    {
      hide Walk, Take, Ascending, Before, PrefixClosed, NodeOk, Contents;
      var prefix := new char[MAX_FILENAME_LEN];
      ghost var all, keys := nodes.Keys, KeySet();
      assert prefix[..0] == "" && filenames[..0] == [];
      count := CollectNames(root, "", prefix, 0, filenames, 0, max);
      KeySetIsKnown();
      FirstOfWalk(all, keys, max);
      assert [] + Walk(all, keys, "") == Walk(all, keys, "");
      ghost var names := filenames[..count];
      assert |keys| == |Contents()|;
      assert forall i :: 0 <= i < count ==> names[i] == filenames[i];
    }
  }

  lemma WalkStep(all: set<string>, keys: set<string>, p: string, i: nat)
    requires p in all && i < 0x100
    ensures WalkChildren(all, keys, p, i)
            == if Child(p, i) in all then Walk(all, keys, Child(p, i)) + WalkChildren(all, keys, p, i + 1)
               else WalkChildren(all, keys, p, i + 1)
  {
  }

  lemma NoMoreChildren(all: set<string>, keys: set<string>, p: string, names: seq<string>, max: nat)
    requires p in all && |names| <= max
    ensures Take(names + WalkChildren(all, keys, p, 0x100), max) == names
  {
    assert names + [] == names;
  }

  /** A cut of the walk of the whole trie: as many names as asked for, ascending, and none skipped. */
  lemma FirstOfWalk(all: set<string>, keys: set<string>, max: nat)
    requires PrefixClosed(all) && keys <= all
    ensures var names := Take(Walk(all, keys, ""), max);
            && |names| == (if |keys| <= max then |keys| else max)
            && Ascending(names) && (forall k :: k in names ==> k in keys)
            && forall k :: k in keys && k !in names ==> forall i :: 0 <= i < |names| ==> Before(names[i], k)
  {
    RootInClosed(all);
    hide Walk, PrefixClosed, Ascending, Before, Take;
    WalkListsKeys(all, keys, "");
    WalkAscends(all, keys, "");
    CutOfAscending(Walk(all, keys, ""), keys, max);
  }

  lemma RootInClosed(all: set<string>)
    requires PrefixClosed(all)
    ensures "" in all
  {
  }

  lemma CutOfAscending(w: seq<string>, keys: set<string>, max: nat)
    requires Ascending(w) && forall k :: k in w <==> k in keys
    ensures var names := Take(w, max);
            && |names| == (if |keys| <= max then |keys| else max)
            && Ascending(names) && (forall k :: k in names ==> k in keys)
            && forall k :: k in keys && k !in names ==> forall i :: 0 <= i < |names| ==> Before(names[i], k)
  {
    hide Before;
    AscendingHasSize(w, keys);
    var names := Take(w, max);
    forall k | k in keys && k !in names
      ensures forall i :: 0 <= i < |names| ==> Before(names[i], k)
    {
      assert k in w;
      var j :| 0 <= j < |w| && w[j] == k;
      assert !(j < |names|);
    }
  }

  lemma {:induction false} AscendingHasSize(ks: seq<string>, keys: set<string>)
    requires Ascending(ks) && forall k :: k in ks <==> k in keys
    ensures |ks| == |keys|
    decreases |ks|
  {
    if ks == [] {
      assert keys == {};
    } else {
      var last, rest := ks[|ks| - 1], ks[..|ks| - 1];
      forall k | k in rest
        ensures k != last
      {
        var i :| 0 <= i < |rest| && rest[i] == k;
        assert Before(ks[i], last);
        BeforeIsIrreflexive(last);
      }
      assert forall k :: k in rest <==> k in keys - {last};
      AscendingHasSize(rest, keys - {last});
    }
  }
}
