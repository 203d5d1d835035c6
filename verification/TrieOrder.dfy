/** The order in which a trie is walked: prefix closed sets of names, and the keys among them in ascending byte
    order. */
module TrieOrder {

  /** A C string as the trie indexes it: one child slot per unsigned byte. */
  predicate IsName(s: string) {
    forall i :: 0 <= i < |s| ==> s[i] as int < 0x100
  }

  /** The name with one more byte. */
  function Child(p: string, c: nat): string
    requires c < 0x100
  {
    p + [c as char]
  }

  // ------------------------------------------------------------------- lexicographic byte order

  /** strcmp(a, b) < 0 on unsigned bytes. */
  predicate Before(a: string, b: string) {
    b != "" && (a == "" || a[0] < b[0] || (a[0] == b[0] && Before(a[1..], b[1..])))
  }

  ghost predicate Ascending(ks: seq<string>) {
    forall i, j :: 0 <= i < j < |ks| ==> Before(ks[i], ks[j])
  }

  lemma {:induction false} BeforeIsIrreflexive(a: string)
    ensures !Before(a, a)
  {
    if a != "" {
      BeforeIsIrreflexive(a[1..]);
    }
  }

  /** A name comes before its extensions, and before whatever branches off behind a larger byte. */
  lemma {:induction false} PrefixBefore(p: string, a: string, b: string)
    requires p <= a && p <= b
    requires |b| > |p| && (a == p || a[|p|] < b[|p|])
    ensures Before(a, b)
  {
    if p != "" {
      assert p[0] == a[0] == b[0];
      PrefixBefore(p[1..], a[1..], b[1..]);
    }
  }

  // -------------------------------------------------------------------------------- the walk

  /** The set holds the empty name and every prefix of its names. */
  ghost predicate PrefixClosed(nodes: set<string>) {
    && "" in nodes
    && (forall q :: q in nodes && q != "" ==> q[..|q| - 1] in nodes)
    && (forall q :: q in nodes ==> IsName(q))
  }

  ghost function Below(nodes: set<string>, p: string): set<string> {
    set q | q in nodes && p <= q
  }

  lemma BelowShrinks(nodes: set<string>, p: string, c: char)
    requires p in nodes
    ensures Below(nodes, p + [c]) < Below(nodes, p)
  {
    assert p in Below(nodes, p) && p !in Below(nodes, p + [c]);
    forall q | q in Below(nodes, p + [c])
      ensures p <= q
    {
      assert p == (p + [c])[..|p|];
    }
  }

  /** The keys at and below node p: the node itself, then its children by ascending byte. */
  ghost function Walk(nodes: set<string>, keys: set<string>, p: string): seq<string>
    requires p in nodes
    decreases Below(nodes, p), 0x101
  {
    (if p in keys then [p] else []) + WalkChildren(nodes, keys, p, 0)
  }

  ghost function WalkChildren(nodes: set<string>, keys: set<string>, p: string, c: nat): seq<string>
    requires p in nodes && c <= 0x100
    decreases Below(nodes, p), 0x100 - c
  {
    if c == 0x100 then []
    else
      BelowShrinks(nodes, p, c as char);
      var q := p + [c as char];
      (if q in nodes then Walk(nodes, keys, q) else []) + WalkChildren(nodes, keys, p, c + 1)
  }

  /** The keys below p whose next byte is at least c. */
  ghost predicate BehindChild(p: string, c: nat, k: string) {
    p < k && k[|p|] as int >= c
  }

  lemma {:induction false} PrefixInNodes(nodes: set<string>, q: string, n: nat)
    requires PrefixClosed(nodes) && q in nodes && n <= |q|
    ensures q[..n] in nodes
    decreases |q| - n
  {
    if n == |q| {
      assert q[..n] == q;
    } else {
      PrefixInNodes(nodes, q, n + 1);
      assert q[..n + 1][..n] == q[..n];
    }
  }

  /** The walk of a node lists exactly the keys that extend it. */
  lemma {:induction false} WalkListsKeys(nodes: set<string>, keys: set<string>, p: string)
    requires PrefixClosed(nodes) && keys <= nodes && p in nodes
    ensures forall k :: k in Walk(nodes, keys, p) <==> k in keys && p <= k
    decreases Below(nodes, p), 0x101
  {
    WalkChildrenListsKeys(nodes, keys, p, 0);
    forall k
      ensures k in Walk(nodes, keys, p) <==> k in keys && p <= k
    {
      if p <= k && !BehindChild(p, 0, k) {
        assert k == p;
      }
    }
  }

  lemma {:induction false} WalkChildrenListsKeys(nodes: set<string>, keys: set<string>, p: string, c: nat)
    requires PrefixClosed(nodes) && keys <= nodes && p in nodes && c <= 0x100
    ensures forall k :: k in WalkChildren(nodes, keys, p, c) <==> k in keys && BehindChild(p, c, k)
    decreases Below(nodes, p), 0x100 - c
  {
    if c == 0x100 {
      forall k | k in keys
        ensures !BehindChild(p, c, k)
      {
        assert IsName(k);
      }
    } else {
      BelowShrinks(nodes, p, c as char);
      var q := p + [c as char];
      WalkChildrenListsKeys(nodes, keys, p, c + 1);
      if q in nodes {
        WalkListsKeys(nodes, keys, q);
      }
      forall k
        ensures k in WalkChildren(nodes, keys, p, c) <==> k in keys && BehindChild(p, c, k)
      {
        ChildOrLater(p, c, k);
        if k in keys && q <= k {
          PrefixInNodes(nodes, k, |q|);
          assert k[..|q|] == q;
        }
      }
    }
  }

  lemma ChildOrLater(p: string, c: nat, k: string)
    requires c < 0x100
    ensures BehindChild(p, c, k) <==> p + [c as char] <= k || BehindChild(p, c + 1, k)
  {
    var q := p + [c as char];
    if BehindChild(p, c, k) && !BehindChild(p, c + 1, k) {
      assert k[|p|] == c as char;
      assert k[..|q|] == q;
    }
    if q <= k {
      assert k[..|p|] == q[..|p|] == p && k[|p|] == q[|p|];
    }
  }

  lemma AscendingConcat(a: seq<string>, b: seq<string>)
    requires Ascending(a) && Ascending(b)
    requires forall x, y :: x in a && y in b ==> Before(x, y)
    ensures Ascending(a + b)
  {
    var c := a + b;
    forall i, j | 0 <= i < j < |c|
      ensures Before(c[i], c[j])
    {
      if i < |a| <= j {
        assert c[i] == a[i] && c[i] in a;
        assert c[j] == b[j - |a|] && c[j] in b;
      }
    }
  }

  lemma ChildBeforeLater(p: string, c: nat, x: string, y: string)
    requires c < 0x100 && p + [c as char] <= x && BehindChild(p, c + 1, y)
    ensures Before(x, y)
  {
    var q := p + [c as char];
    assert x[..|p|] == q[..|p|] == p && x[|p|] == q[|p|];
    PrefixBefore(p, x, y);
  }

  /** The walk lists the keys in strictly ascending byte order, hence without repeats. */
  lemma {:induction false} WalkAscends(nodes: set<string>, keys: set<string>, p: string)
    requires PrefixClosed(nodes) && keys <= nodes && p in nodes
    ensures Ascending(Walk(nodes, keys, p))
    decreases Below(nodes, p), 0x101
  {
    WalkChildrenAscend(nodes, keys, p, 0);
    WalkChildrenListsKeys(nodes, keys, p, 0);
    var rest := WalkChildren(nodes, keys, p, 0);
    if p in keys {
      forall y | y in rest
        ensures Before(p, y)
      {
        assert BehindChild(p, 0, y);
        PrefixBefore(p, p, y);
      }
      AscendingConcat([p], rest);
    } else {
      assert [] + rest == rest;
    }
  }

  lemma {:induction false} WalkChildrenAscend(nodes: set<string>, keys: set<string>, p: string, c: nat)
    requires PrefixClosed(nodes) && keys <= nodes && p in nodes && c <= 0x100
    ensures Ascending(WalkChildren(nodes, keys, p, c))
    decreases Below(nodes, p), 0x100 - c
  {
    if c < 0x100 {
      BelowShrinks(nodes, p, c as char);
      var q := p + [c as char];
      WalkChildrenAscend(nodes, keys, p, c + 1);
      WalkChildrenListsKeys(nodes, keys, p, c + 1);
      var rest := WalkChildren(nodes, keys, p, c + 1);
      if q in nodes {
        WalkAscends(nodes, keys, q);
        WalkListsKeys(nodes, keys, q);
        var first := Walk(nodes, keys, q);
        hide Walk, WalkChildren, Before;
        forall x, y | x in first && y in rest
          ensures Before(x, y)
        {
          ChildBeforeLater(p, c, x, y);
        }
        AscendingConcat(first, rest);
      } else {
        assert [] + rest == rest;
      }
    }
  }
}
