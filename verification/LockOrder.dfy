/** The mutexes of the naming server and the order its handlers take them in (naming_server/naming_server.c,
    naming_server/nm_storage.c). Each thread runs a list of acquire and release actions; the threads are interleaved in
    any way. */
module LockOrder {

  datatype Mutex = Requests | Trie | Folders | Clients | Registry | Replicas | Log

  function Rank(m: Mutex): nat {
    match m
    case Requests => 0
    case Trie => 1
    case Folders => 2
    case Clients => 3
    case Registry => 4
    case Replicas => 5
    case Log => 6
  }

  datatype Action = Acquire(m: Mutex) | Release(m: Mutex)

  // -------------------------------------------------------------------- threads and interleavings

  datatype Thread = Thread(held: set<Mutex>, todo: seq<Action>)

  type System = seq<Thread>

  predicate Free(s: System, m: Mutex) {
    forall i :: 0 <= i < |s| ==> m !in s[i].held
  }

  /** pthread_mutex_lock waits while anybody, the caller included, holds the mutex. */
  predicate CanStep(s: System, i: nat) {
    i < |s| && s[i].todo != [] && (s[i].todo[0].Acquire? ==> Free(s, s[i].todo[0].m))
  }

  function After(t: Thread): Thread
    requires t.todo != []
  {
    var a := t.todo[0];
    Thread(if a.Acquire? then t.held + {a.m} else t.held - {a.m}, t.todo[1..])
  }

  function Step(s: System, i: nat): System {
    if CanStep(s, i) then s[i := After(s[i])] else s
  }

  function Run(s: System, schedule: seq<nat>): System
    decreases |schedule|
  {
    if schedule == [] then s else Run(Step(s, schedule[0]), schedule[1..])
  }

  // -------------------------------------------------------------------------------- the discipline

  /** Mutexes are taken in increasing rank, released only when held, and none is held in the end. */
  predicate Ordered(held: set<Mutex>, todo: seq<Action>)
    decreases |todo|
  {
    if todo == [] then held == {}
    else
      match todo[0]
      case Acquire(m) => (forall h :: h in held ==> Rank(h) < Rank(m)) && Ordered(held + {m}, todo[1..])
      case Release(m) => m in held && Ordered(held - {m}, todo[1..])
  }

  /** Every thread keeps the discipline, and no mutex is held twice. */
  ghost predicate Disciplined(s: System) {
    && (forall i :: 0 <= i < |s| ==> Ordered(s[i].held, s[i].todo))
    && (forall i, j :: 0 <= i < j < |s| ==> s[i].held !! s[j].held)
  }

  lemma StepKeepsDiscipline(s: System, i: nat)
    requires Disciplined(s)
    ensures Disciplined(Step(s, i))
  {
    if CanStep(s, i) {
      var t := Step(s, i);
      assert Ordered(s[i].held, s[i].todo);
      forall a, b | 0 <= a < b < |t|
        ensures t[a].held !! t[b].held
      {
        assert s[a].held !! s[b].held;
        var m := s[i].todo[0].m;
        assert s[i].todo[0].Acquire? ==> m !in s[a].held && m !in s[b].held;
      }
    }
  }

  lemma {:induction false} RunKeepsDiscipline(s: System, schedule: seq<nat>)
    requires Disciplined(s)
    ensures Disciplined(Run(s, schedule))
    decreases |schedule|
  {
    if schedule != [] {
      hide Disciplined, Step;
      StepKeepsDiscipline(s, schedule[0]);
      RunKeepsDiscipline(Step(s, schedule[0]), schedule[1..]);
    }
  }

  // -------------------------------------------------------------------------------- no deadlock

  /** Thread a waits for a mutex that thread b holds. */
  predicate WaitsFor(s: System, a: nat, b: nat) {
    && a < |s| && b < |s| && s[a].todo != [] && s[a].todo[0].Acquire?
    && s[a].todo[0].m in s[b].held
  }

  /** Each thread of the list waits for the next one. */
  ghost predicate WaitChain(s: System, ts: seq<nat>) {
    forall i :: 0 <= i < |ts| - 1 ==> WaitsFor(s, ts[i], ts[i + 1])
  }

  lemma WaitingRises(s: System, a: nat, b: nat)
    requires Disciplined(s) && WaitsFor(s, a, b) && s[b].todo != [] && s[b].todo[0].Acquire?
    ensures Rank(s[a].todo[0].m) < Rank(s[b].todo[0].m)
  {
    assert Ordered(s[b].held, s[b].todo);
  }

  lemma {:induction false} ChainRises(s: System, ts: seq<nat>, k: nat)
    requires Disciplined(s) && WaitChain(s, ts) && 0 < k < |ts| - 1
    ensures ts[0] < |s| && s[ts[0]].todo != [] && s[ts[0]].todo[0].Acquire?
    ensures ts[k] < |s| && s[ts[k]].todo != [] && s[ts[k]].todo[0].Acquire?
    ensures Rank(s[ts[0]].todo[0].m) < Rank(s[ts[k]].todo[0].m)
  {
    assert WaitsFor(s, ts[k - 1], ts[k]) && WaitsFor(s, ts[k], ts[k + 1]);
    WaitingRises(s, ts[k - 1], ts[k]);
    if k > 1 {
      ChainRises(s, ts, k - 1);
    }
  }

  /** In no reachable state do threads wait for each other in a circle, however long, not even a thread for itself. */
  lemma NoCircularWait(start: System, schedule: seq<nat>, ts: seq<nat>)
    requires Disciplined(start)
    requires |ts| > 1 && ts[0] == ts[|ts| - 1]
    ensures !WaitChain(Run(start, schedule), ts)
  {
    RunKeepsDiscipline(start, schedule);
    var s := Run(start, schedule);
    if WaitChain(s, ts) {
      var n := |ts|;
      assert WaitsFor(s, ts[n - 2], ts[n - 1]);
      assert WaitsFor(s, ts[0], ts[1]);
      WaitingRises(s, ts[n - 2], ts[n - 1]);
      if n > 2 {
        ChainRises(s, ts, n - 2);
      }
    }
  }

  /** From a waiting thread, following the holders of the wanted mutexes leads to a thread that can step. */
  lemma {:induction false} SomeoneCanStep(s: System, i: nat)
    requires Disciplined(s) && i < |s| && s[i].todo != []
    ensures exists j: nat :: CanStep(s, j)
    decreases if s[i].todo[0].Acquire? then 7 - Rank(s[i].todo[0].m) else 0
  {
    if CanStep(s, i) {
    } else {
      var m := s[i].todo[0].m;
      var j :| 0 <= j < |s| && m in s[j].held;
      assert Ordered(s[j].held, s[j].todo);
      assert WaitsFor(s, i, j);
      if s[j].todo[0].Acquire? {
        WaitingRises(s, i, j);
        SomeoneCanStep(s, j);
      } else {
        assert CanStep(s, j);
      }
    }
  }

  /** In every reachable state in which some thread has work left, some thread can go on. */
  lemma NoDeadlock(start: System, schedule: seq<nat>, i: nat)
    requires Disciplined(start)
    ensures var s := Run(start, schedule);
            i < |s| && s[i].todo != [] ==> exists j: nat :: CanStep(s, j)
  {
    RunKeepsDiscipline(start, schedule);
    var s := Run(start, schedule);
    if i < |s| && s[i].todo != [] {
      SomeoneCanStep(s, i);
    }
  }
}
