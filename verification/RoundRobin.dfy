/** Selecting a storage server for a new file (naming_server/nm_storage.c: select_storage_server_for_new_file). */
module RoundRobin {

  /** The static last_selected of the C function, with the number of servers held fixed. */
  class Selector {
    var last: int

    constructor ()
      ensures last == -1
    {
      last := -1;
    }

    /** -1 stands for the null pointer: there is no server. */
    method Select(servers: nat) returns (id: int)
      requires -1 <= last
      modifies this
      ensures servers == 0 ==> id == -1 && last == old(last)
      ensures servers > 0 ==> id == last == (old(last) + 1) % servers
    {
      if servers == 0 {
        return -1;
      }
      last := (last + 1) % servers;
      return last;
    }

    /** k selections in a row. */
    method SelectMany(servers: nat, k: nat) returns (ids: seq<int>)
      requires -1 <= last && servers > 0
      modifies this
      ensures ids == Selections(old(last), servers, k)
    {
      ids := [];
      ghost var from := last;
      for i := 0 to k
        invariant -1 <= last && last == if i == 0 then from else (from + i) % servers
        invariant ids == Selections(from, servers, i)
      {
        NextSelection(from, servers, i, last);
        var id := Select(servers);
        ids := ids + [id];
      }
    }
  }

  /** The i-th selection after `last` is last + 1 + i, wrapped. */
  function Selections(last: int, servers: nat, k: nat): (r: seq<int>)
    requires servers > 0 && -1 <= last
    ensures |r| == k
  {
    seq(k, i requires 0 <= i < k => (last + 1 + i) % servers)
  }

  lemma NextSelection(from: int, servers: nat, i: nat, last: int)
    requires servers > 0 && -1 <= from && last == if i == 0 then from else (from + i) % servers
    ensures (last + 1) % servers == (from + i + 1) % servers
    ensures Selections(from, servers, i + 1) == Selections(from, servers, i) + [(from + 1 + i) % servers]
  {
    if i > 0 {
      ModStep(from + i, servers);
    }
  }

  lemma ModStep(x: nat, n: nat)
    requires n > 0
    ensures (x % n + 1) % n == (x + 1) % n
  {
    var q := x / n;
    assert x == n * q + x % n;
    if x % n + 1 < n {
      DivModIs(x + 1, n, q, x % n + 1);
    } else {
      assert x + 1 == n * q + n == n * (q + 1);
      DivModIs(x + 1, n, q + 1, 0);
      DivModIs(n, n, 1, 0);
    }
  }

  lemma ProductNotNegative(n: nat, d: nat)
    ensures n * d >= 0
  {
  }

  lemma ProductGap(n: nat, a: int, b: int)
    requires a < b
    ensures n * a + n <= n * b
  {
    ProductNotNegative(n, b - a - 1);
    assert n * (b - a - 1) == n * b - n * a - n;
  }

  /** Quotient and remainder are unique. */
  lemma DivModIs(x: int, n: nat, q: int, r: nat)
    requires r < n && x == n * q + r
    ensures x / n == q && x % n == r
  {
    assert x == n * (x / n) + x % n;
    if q < x / n {
      ProductGap(n, q, x / n);
    } else if x / n < q {
      ProductGap(n, x / n, q);
    }
  }

  function Count(ids: seq<int>, j: int): nat {
    if ids == [] then 0 else Count(ids[..|ids| - 1], j) + if ids[|ids| - 1] == j then 1 else 0
  }

  /** How often server j comes up among `k` consecutive numbers from `start` on, modulo the number of servers. */
  function Hits(start: nat, servers: nat, k: nat, j: nat): nat
    requires servers > 0
  {
    if k == 0 then 0 else Hits(start, servers, k - 1, j) + if (start + k - 1) % servers == j then 1 else 0
  }

  lemma {:induction false} CountIsHits(last: int, servers: nat, k: nat, j: nat)
    requires servers > 0 && -1 <= last
    ensures Count(Selections(last, servers, k), j) == Hits(last + 1, servers, k, j)
  {
    if k > 0 {
      var ids := Selections(last, servers, k);
      assert ids[..k - 1] == Selections(last, servers, k - 1);
      CountIsHits(last, servers, k - 1, j);
    }
  }

  /** Turns of server j before number x, when counting starts at 0. */
  function Turns(x: nat, servers: nat, j: nat): nat
    requires j < servers
  {
    (x + servers - 1 - j) / servers
  }

  lemma TurnsStep(x: nat, servers: nat, j: nat)
    requires j < servers
    ensures Turns(x + 1, servers, j) == Turns(x, servers, j) + if x % servers == j then 1 else 0
  {
    var q, r := x / servers, x % servers;
    assert x == servers * q + r;
    DivModIs(x + servers - 1 - j, servers, if r > j then q + 1 else q,
             if r > j then r - 1 - j else r + servers - 1 - j);
    if r < j {
      DivModIs(x + servers - j, servers, q, r + servers - j);
    } else {
      assert servers * (q + 1) == servers * q + servers;
      DivModIs(x + servers - j, servers, q + 1, r - j);
    }
  }

  lemma {:induction false} HitsAreTurns(start: nat, servers: nat, k: nat, j: nat)
    requires j < servers
    ensures Hits(start, servers, k, j) == Turns(start + k, servers, j) - Turns(start, servers, j)
  {
    if k > 0 {
      HitsAreTurns(start, servers, k - 1, j);
      TurnsStep(start + k - 1, servers, j);
    }
  }

  lemma SumOfQuotients(n: nat, qa: nat, ra: nat, qk: nat, rk: nat)
    requires ra < n && rk < n
    ensures var q := (n * qa + ra + n * qk + rk) / n; q == if ra + rk < n then qa + qk else qa + qk + 1
  {
    assert n * (qa + qk) == n * qa + n * qk;
    if ra + rk < n {
      DivModIs(n * qa + ra + n * qk + rk, n, qa + qk, ra + rk);
    } else {
      assert n * (qa + qk + 1) == n * qa + n * qk + n;
      DivModIs(n * qa + ra + n * qk + rk, n, qa + qk + 1, ra + rk - n);
    }
  }

  lemma RoundedUp(n: nat, k: nat)
    requires n > 0
    ensures (k + n - 1) / n == if k % n == 0 then k / n else k / n + 1
  {
    var q, r := k / n, k % n;
    assert k == n * q + r;
    if r == 0 {
      DivModIs(k + n - 1, n, q, n - 1);
    } else {
      assert n * (q + 1) == n * q + n;
      DivModIs(k + n - 1, n, q + 1, r - 1);
    }
  }

  lemma TurnsSpread(x: nat, k: nat, servers: nat, j: nat)
    requires j < servers
    ensures var d := Turns(x + k, servers, j) - Turns(x, servers, j);
            k / servers <= d <= (k + servers - 1) / servers
  {
    var a := x + servers - 1 - j;
    var qa, ra, qk, rk := a / servers, a % servers, k / servers, k % servers;
    assert a == servers * qa + ra;
    assert k == servers * qk + rk;
    SumOfQuotients(servers, qa, ra, qk, rk);
    RoundedUp(servers, k);
  }

  /** After any k selections, from any starting point, every server has been chosen floor(k/n) or ceil(k/n) times. */
  lemma SelectionIsBalanced(last: int, servers: nat, k: nat, j: nat)
    requires j < servers && -1 <= last
    ensures k / servers <= Count(Selections(last, servers, k), j) <= (k + servers - 1) / servers
  {
    CountIsHits(last, servers, k, j);
    HitsAreTurns(last + 1, servers, k, j);
    TurnsSpread(last + 1, k, servers, j);
  }

  /** Any n consecutive selections are a permutation of the n servers. */
  lemma OneRoundIsAPermutation(last: int, servers: nat)
    requires servers > 0 && -1 <= last
    ensures var ids := Selections(last, servers, servers);
            |ids| == servers && forall j: nat :: j < servers ==> Count(ids, j) == 1
  {
    forall j: nat | j < servers
      ensures Count(Selections(last, servers, servers), j) == 1
    {
      SelectionIsBalanced(last, servers, servers, j);
      DivModIs(servers, servers, 1, 0);
      DivModIs(servers + servers - 1, servers, 1, servers - 1);
    }
  }
}
