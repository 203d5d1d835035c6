/** What the request handlers of the naming server do with its mutexes, path by path (naming_server/naming_server.c,
    naming_server/nm_storage.c), and that they deadlock exactly when one of them is a MOVE to a missing folder. */
module HandlerLocks {
  import opened LockOrder
  import opened Text

  // -------------------------------------------------------------------------------- the handlers

  function Use(m: Mutex): seq<Action> {
    [Acquire(m), Release(m)]
  }

  function Within(m: Mutex, body: seq<Action>): seq<Action> {
    [Acquire(m)] + body + [Release(m)]
  }

  function Times(n: nat, body: seq<Action>): seq<Action> {
    if n == 0 then [] else body + Times(n - 1, body)
  }

  function If(b: bool, body: seq<Action>): seq<Action> {
    if b then body else []
  }

  /** How a choice of server goes: the primary is up, or it is down and the status of `tried` replicas is read. */
  datatype Choice = PrimaryUp | PrimaryDown(tried: nat)

  /** replicas_pick_alive_for_access. */
  function PickAlive(c: Choice): seq<Action> {
    match c
    case PrimaryUp => Use(Registry)
    case PrimaryDown(tried) => Use(Registry) + (Use(Replicas) + Times(tried, Use(Registry)))
  }

  /** One choice for each file whose primary is the server that registers. */
  function PickAll(cs: seq<Choice>): seq<Action> {
    if cs == [] then [] else PickAlive(cs[0]) + PickAll(cs[1..])
  }

  datatype ReplicaCreation = NoReplica | ReplicaAcked | ReplicaFailed

  datatype MoveOutcome = MoveFailed | FileGone | FileMoved

  datatype Handler =
    | NoMutex                                     // LIST, folder requests without a folder name, unknown clients
    | TrieOnly                                    // INFO, checkpoint routing, and the early error replies
    | ViewFiles
    | CreateFile(replica: ReplicaCreation)
    | RouteToServer(choice: Choice, found: bool)  // READ, WRITE, STREAM, UNDO; `found`: there is a server to name
    | DeleteFile
    | ExecFile(completed: bool)                   // false: the content or the shell could not be had
    | ChangeAccess                                // ADDACCESS, REMACCESS
    | MakeFolder(made: bool)
    | MoveToFolder(missing: bool, outcome: MoveOutcome) // `missing`: the target folder does not exist yet
    | ViewFolder
    | AskAccess(named: bool)                      // `named`: the requester's name is not empty
    | ListRequests
    | ApproveRequest(pending: bool)
    | DenyRequest
    | RegisterClient
    | RemoveClient
    | RegisterServer(seeded: bool, choices: seq<Choice>)
    | UpdateCounts
    | ReplicateFile(known: bool, choice: Choice, fetched: bool)
    | Heartbeat(servers: nat)

  function Trace(h: Handler): seq<Action> {
    match h
    case NoMutex => []
    case TrieOnly => Use(Trie)
    case ViewFiles => Use(Trie) + Use(Log)
    case CreateFile(replica) =>
      Within(Trie, Use(Log)) + Use(Registry)
      + (match replica case NoReplica => [] case ReplicaAcked => Use(Replicas) case ReplicaFailed => Use(Log))
    case RouteToServer(choice, found) => Within(Trie, PickAlive(choice)) + If(found, Use(Log))
    case DeleteFile => Within(Trie, Use(Log))
    case ExecFile(completed) => Use(Trie) + Use(Log) + If(completed, Use(Log))
    case ChangeAccess => Use(Trie) + Use(Log)
    case MakeFolder(made) => Use(Folders) + If(made, Use(Folders)) + Use(Log)
    case MoveToFolder(missing, outcome) =>
      Use(Trie)
      + (if missing then Within(Folders, Use(Folders)) else Use(Folders))
      + (If(!outcome.MoveFailed?, Use(Folders) + Use(Trie)) + If(outcome.FileMoved?, Use(Replicas)) + Use(Log))
    case ViewFolder => Use(Folders) + Use(Log)
    case AskAccess(named) => Use(Trie) + If(named, Use(Requests)) + Use(Trie)
    case ListRequests => Within(Requests, Use(Trie))
    case ApproveRequest(pending) => Use(Trie) + Use(Requests) + If(pending, Use(Trie))
    case DenyRequest => Use(Trie) + Use(Requests)
    case RegisterClient => Use(Clients) + Use(Log)
    case RemoveClient => Use(Clients)
    case RegisterServer(seeded, choices) => Use(Registry) + Use(Log) + If(seeded, Use(Trie)) + PickAll(choices)
    case UpdateCounts => Use(Trie)
    case ReplicateFile(known, choice, fetched) =>
      Use(Trie) + If(known, PickAlive(choice) + If(fetched, Use(Replicas)))
    case Heartbeat(n) => Times(n, Use(Registry))
  }

  /** The one trace that does not keep the discipline: create_folder called with the folder mutex held. */
  predicate BlocksItself(h: Handler) {
    h.MoveToFolder? && h.missing
  }

  function Traces(hs: seq<Handler>): seq<Action> {
    if hs == [] then [] else Trace(hs[0]) + Traces(hs[1..])
  }

  // ------------------------------------------------------------------------- traces in rank order

  /** body takes and gives back only mutexes above everything held. */
  ghost predicate Above(rank: int, body: seq<Action>) {
    forall held: set<Mutex>, rest: seq<Action> {:trigger Ordered(held, body + rest)} ::
      (forall h :: h in held ==> Rank(h) <= rank) && Ordered(held, rest) ==> Ordered(held, body + rest)
  }

  lemma UseIsAbove(m: Mutex, rank: int)
    requires rank < Rank(m)
    ensures Above(rank, Use(m))
  {
    forall held: set<Mutex>, rest: seq<Action>
      | (forall h :: h in held ==> Rank(h) <= rank) && Ordered(held, rest)
      ensures Ordered(held, Use(m) + rest)
    {
      assert m !in held;
      assert (Use(m) + rest)[1..] == [Release(m)] + rest;
      assert ([Release(m)] + rest)[1..] == rest;
      assert held + {m} - {m} == held;
    }
  }

  lemma NothingIsAbove(rank: int)
    ensures Above(rank, [])
  {
    forall held: set<Mutex>, rest: seq<Action>
      | Ordered(held, rest)
      ensures Ordered(held, [] + rest)
    {
      assert [] + rest == rest;
    }
  }

  lemma BothAreAbove(rank: int, a: seq<Action>, b: seq<Action>)
    requires Above(rank, a) && Above(rank, b)
    ensures Above(rank, a + b)
  {
    hide Ordered;
    forall held: set<Mutex>, rest: seq<Action>
      | (forall h :: h in held ==> Rank(h) <= rank) && Ordered(held, rest)
      ensures Ordered(held, (a + b) + rest)
    {
      assert (a + b) + rest == a + (b + rest);
      assert Ordered(held, b + rest);
    }
  }

  lemma WithinIsAbove(rank: int, m: Mutex, body: seq<Action>)
    requires rank < Rank(m) && Above(Rank(m), body)
    ensures Above(rank, Within(m, body))
  {
    forall held: set<Mutex>, rest: seq<Action>
      | (forall h :: h in held ==> Rank(h) <= rank) && Ordered(held, rest)
      ensures Ordered(held, Within(m, body) + rest)
    {
      var tail := [Release(m)] + rest;
      assert tail[1..] == rest && held + {m} - {m} == held;
      assert Ordered(held + {m}, tail);
      assert Ordered(held + {m}, body + tail);
      assert (Within(m, body) + rest)[1..] == body + tail;
    }
  }

  lemma {:induction false} TimesIsAbove(rank: int, n: nat, body: seq<Action>)
    requires Above(rank, body)
    ensures Above(rank, Times(n, body))
  {
    hide Above;
    if n == 0 {
      NothingIsAbove(rank);
    } else {
      TimesIsAbove(rank, n - 1, body);
      BothAreAbove(rank, body, Times(n - 1, body));
    }
  }

  lemma IfIsAbove(rank: int, b: bool, body: seq<Action>)
    requires b ==> Above(rank, body)
    ensures Above(rank, If(b, body))
  {
    hide Above;
    NothingIsAbove(rank);
  }

  lemma PickAliveIsAbove(rank: int, c: Choice)
    requires rank < Rank(Registry)
    ensures Above(rank, PickAlive(c))
  {
    hide Above, Times;
    UseIsAbove(Registry, rank);
    UseIsAbove(Replicas, rank);
    if c.PrimaryDown? {
      TimesIsAbove(rank, c.tried, Use(Registry));
      BothAreAbove(rank, Use(Replicas), Times(c.tried, Use(Registry)));
      BothAreAbove(rank, Use(Registry), Use(Replicas) + Times(c.tried, Use(Registry)));
    }
  }

  lemma {:induction false} PickAllIsAbove(rank: int, cs: seq<Choice>)
    requires rank < Rank(Registry)
    ensures Above(rank, PickAll(cs))
  {
    hide Above, PickAlive;
    if cs == [] {
      NothingIsAbove(rank);
    } else {
      PickAliveIsAbove(rank, cs[0]);
      PickAllIsAbove(rank, cs[1..]);
      BothAreAbove(rank, PickAlive(cs[0]), PickAll(cs[1..]));
    }
  }

  lemma ThreeAreAbove(a: seq<Action>, b: seq<Action>, c: seq<Action>)
    requires Above(-1, a) && Above(-1, b) && Above(-1, c)
    ensures Above(-1, a + b) && Above(-1, a + b + c) && Above(-1, a + (b + c))
  {
    hide Above;
    BothAreAbove(-1, a, b);
    BothAreAbove(-1, a + b, c);
    BothAreAbove(-1, b, c);
    BothAreAbove(-1, a, b + c);
  }

  /** Every handler but MOVE to a missing folder keeps the discipline in whatever context holds nothing. */
  lemma TraceIsAbove(h: Handler)
    requires !BlocksItself(h)
    ensures Above(-1, Trace(h))
  {
    hide Above, Times, PickAlive, PickAll, Use, Within, If;
    forall m: Mutex
      ensures Above(-1, Use(m))
    {
      UseIsAbove(m, -1);
    }
    NothingIsAbove(-1);
    match h
    case NoMutex =>
    case ViewFiles => BothAreAbove(-1, Use(Trie), Use(Log));
    case CreateFile(replica) =>
      UseIsAbove(Log, Rank(Trie));
      WithinIsAbove(-1, Trie, Use(Log));
      ThreeAreAbove(Within(Trie, Use(Log)), Use(Registry), match replica
        case NoReplica => [] case ReplicaAcked => Use(Replicas) case ReplicaFailed => Use(Log));
    case RouteToServer(choice, found) =>
      PickAliveIsAbove(Rank(Trie), choice);
      WithinIsAbove(-1, Trie, PickAlive(choice));
      IfIsAbove(-1, found, Use(Log));
      BothAreAbove(-1, Within(Trie, PickAlive(choice)), If(found, Use(Log)));
    case DeleteFile =>
      UseIsAbove(Log, Rank(Trie));
      WithinIsAbove(-1, Trie, Use(Log));
    case ExecFile(completed) =>
      IfIsAbove(-1, completed, Use(Log));
      ThreeAreAbove(Use(Trie), Use(Log), If(completed, Use(Log)));
    case ChangeAccess => BothAreAbove(-1, Use(Trie), Use(Log));
    case MakeFolder(made) =>
      IfIsAbove(-1, made, Use(Folders));
      ThreeAreAbove(Use(Folders), If(made, Use(Folders)), Use(Log));
    case MoveToFolder(_, outcome) => MoveIsAbove(outcome);
    case ViewFolder => BothAreAbove(-1, Use(Folders), Use(Log));
    case AskAccess(named) =>
      IfIsAbove(-1, named, Use(Requests));
      ThreeAreAbove(Use(Trie), If(named, Use(Requests)), Use(Trie));
    case ListRequests =>
      UseIsAbove(Trie, Rank(Requests));
      WithinIsAbove(-1, Requests, Use(Trie));
    case ApproveRequest(pending) =>
      IfIsAbove(-1, pending, Use(Trie));
      ThreeAreAbove(Use(Trie), Use(Requests), If(pending, Use(Trie)));
    case DenyRequest => BothAreAbove(-1, Use(Trie), Use(Requests));
    case RegisterClient => BothAreAbove(-1, Use(Clients), Use(Log));
    case RegisterServer(seeded, choices) =>
      IfIsAbove(-1, seeded, Use(Trie));
      PickAllIsAbove(-1, choices);
      ThreeAreAbove(Use(Registry), Use(Log), If(seeded, Use(Trie)));
      BothAreAbove(-1, Use(Registry) + Use(Log) + If(seeded, Use(Trie)), PickAll(choices));
    case ReplicateFile(known, choice, fetched) =>
      PickAliveIsAbove(-1, choice);
      IfIsAbove(-1, fetched, Use(Replicas));
      BothAreAbove(-1, PickAlive(choice), If(fetched, Use(Replicas)));
      IfIsAbove(-1, known, PickAlive(choice) + If(fetched, Use(Replicas)));
      BothAreAbove(-1, Use(Trie), If(known, PickAlive(choice) + If(fetched, Use(Replicas))));
    case Heartbeat(n) => TimesIsAbove(-1, n, Use(Registry));
    case _ =>
  }

  lemma MoveIsAbove(outcome: MoveOutcome)
    ensures Above(-1, Trace(MoveToFolder(false, outcome)))
  {
    hide Above, Use, If;
    forall m: Mutex
      ensures Above(-1, Use(m))
    {
      UseIsAbove(m, -1);
    }
    BothAreAbove(-1, Use(Folders), Use(Trie));
    IfIsAbove(-1, !outcome.MoveFailed?, Use(Folders) + Use(Trie));
    IfIsAbove(-1, outcome.FileMoved?, Use(Replicas));
    ThreeAreAbove(If(!outcome.MoveFailed?, Use(Folders) + Use(Trie)), If(outcome.FileMoved?, Use(Replicas)), Use(Log));
    ThreeAreAbove(Use(Trie), Use(Folders),
      If(!outcome.MoveFailed?, Use(Folders) + Use(Trie)) + If(outcome.FileMoved?, Use(Replicas)) + Use(Log));
  }

  lemma {:induction false} TracesAreAbove(hs: seq<Handler>)
    requires forall i :: 0 <= i < |hs| ==> !BlocksItself(hs[i])
    ensures Above(-1, Traces(hs))
  {
    hide Above, Trace;
    if hs == [] {
      NothingIsAbove(-1);
    } else {
      TraceIsAbove(hs[0]);
      TracesAreAbove(hs[1..]);
      BothAreAbove(-1, Trace(hs[0]), Traces(hs[1..]));
    }
  }

  lemma AboveIsOrdered(body: seq<Action>)
    requires Above(-1, body)
    ensures Ordered({}, body)
  {
    var none: seq<Action> := [];
    assert body + none == body;
    assert Ordered({}, none);
    assert Ordered({}, body + none);
  }

  /** One thread per list of handlers, nothing held yet. */
  function Start(programs: seq<seq<Handler>>): System {
    seq(|programs|, i requires 0 <= i < |programs| => Thread({}, Traces(programs[i])))
  }

  /** Any number of threads, each serving any requests except MOVE to a missing folder, in any interleaving: no set of
      them ever waits in a circle, and as long as somebody has work left somebody can go on. */
  lemma HandlersDoNotDeadlock(programs: seq<seq<Handler>>, schedule: seq<nat>, ts: seq<nat>, i: nat)
    requires forall p, k :: 0 <= p < |programs| && 0 <= k < |programs[p]| ==> !BlocksItself(programs[p][k])
    ensures var s := Run(Start(programs), schedule);
            && (|ts| > 1 && ts[0] == ts[|ts| - 1] ==> !WaitChain(s, ts))
            && (i < |s| && s[i].todo != [] ==> exists j: nat :: CanStep(s, j))
  {
    hide Ordered, Traces, Above;
    var s := Start(programs);
    forall p | 0 <= p < |programs|
      ensures Ordered(s[p].held, s[p].todo)
    {
      TracesAreAbove(programs[p]);
      AboveIsOrdered(Traces(programs[p]));
    }
    assert Disciplined(s);
    hide Run, Disciplined, Start, WaitChain, CanStep;
    if |ts| > 1 && ts[0] == ts[|ts| - 1] {
      NoCircularWait(s, schedule, ts);
    }
    NoDeadlock(s, schedule, i);
  }

  // ---------------------------------------------------------------- the handler that blocks itself

  function Alone(p: nat, n: nat): seq<nat> {
    if n == 0 then [] else [p] + Alone(p, n - 1)
  }

  lemma {:induction false} RunBoth(s: System, a: seq<nat>, b: seq<nat>)
    ensures Run(s, a + b) == Run(Run(s, a), b)
    decreases |a|
  {
    hide Step;
    if a == [] {
      assert a + b == b;
    } else {
      assert (a + b)[1..] == a[1..] + b;
      RunBoth(Step(s, a[0]), a[1..], b);
    }
  }

  ghost predicate OthersHoldNothing(s: System, p: nat) {
    forall i :: 0 <= i < |s| && i != p ==> s[i].held == {}
  }

  lemma StepOfOne(s: System, p: nat, held: set<Mutex>, a: Action, todo: seq<Action>)
    requires p < |s| && s[p] == Thread(held, [a] + todo) && OthersHoldNothing(s, p)
    requires a.Acquire? ==> a.m !in held
    ensures Step(s, p) == s[p := Thread(if a.Acquire? then held + {a.m} else held - {a.m}, todo)]
  {
    assert s[p].todo[0] == a && s[p].todo[1..] == todo;
    assert CanStep(s, p);
  }

  /** With nobody else holding anything, a thread gets through a trace that keeps the discipline. */
  lemma {:induction false} RunsAlone(s: System, p: nat, held: set<Mutex>, body: seq<Action>, rest: seq<Action>)
    requires p < |s| && s[p] == Thread(held, body + rest) && OthersHoldNothing(s, p) && Ordered(held, body)
    ensures Run(s, Alone(p, |body|)) == s[p := Thread({}, rest)]
    decreases |body|
  {
    hide Step, CanStep;
    if body == [] {
      assert body + rest == rest && s[p := Thread({}, rest)] == s;
    } else {
      var a, tail := body[0], body[1..];
      assert body + rest == [a] + (tail + rest);
      StepOfOne(s, p, held, a, tail + rest);
      assert Alone(p, |body|)[1..] == Alone(p, |tail|);
      var t := Step(s, p);
      RunsAlone(t, p, t[p].held, tail, rest);
      assert t[p := Thread({}, rest)] == s[p := Thread({}, rest)];
    }
  }

  /** A thread that waits for itself waits forever. */
  lemma {:induction false} SelfWaitIsForever(s: System, p: nat, schedule: seq<nat>)
    requires WaitsFor(s, p, p)
    ensures WaitsFor(Run(s, schedule), p, p)
    decreases |schedule|
  {
    if schedule != [] {
      assert !CanStep(s, p);
      SelfWaitIsForever(Step(s, schedule[0]), p, schedule[1..]);
    }
  }

  lemma {:induction false} TracesConcat(a: seq<Handler>, b: seq<Handler>)
    ensures Traces(a + b) == Traces(a) + Traces(b)
    decreases |a|
  {
    hide Trace;
    if a == [] {
      assert a + b == b;
    } else {
      assert (a + b)[0] == a[0] && (a + b)[1..] == a[1..] + b;
      TracesConcat(a[1..], b);
      Regroup(Trace(a[0]), Traces(a[1..]), Traces(b));
    }
  }

  /** The thread's work up to its handler j, that handler, and the rest. */
  lemma TracesSplit(hs: seq<Handler>, j: nat)
    requires j < |hs|
    ensures Traces(hs) == Traces(hs[..j]) + (Trace(hs[j]) + Traces(hs[j + 1..]))
  {
    hide Trace;
    assert hs == hs[..j] + hs[j..] && hs[j..][1..] == hs[j + 1..];
    TracesConcat(hs[..j], hs[j..]);
  }

  lemma BlockingTrace(h: Handler) returns (rest: seq<Action>)
    requires BlocksItself(h)
    ensures Trace(h) == Use(Trie) + ([Acquire(Folders)] + ([Acquire(Folders)] + rest))
  {
    hide If;
    var tail :=
      If(!h.outcome.MoveFailed?, Use(Folders) + Use(Trie)) + If(h.outcome.FileMoved?, Use(Replicas)) + Use(Log);
    var released := [Release(Folders), Release(Folders)];
    rest := released + tail;
    assert Trace(h) == Use(Trie) + Within(Folders, Use(Folders)) + tail;
    hide Trace;
    assert Within(Folders, Use(Folders)) == [Acquire(Folders)] + ([Acquire(Folders)] + released);
    hide Use, Within;
    Spliced(Use(Trie), released, tail);
  }

  lemma Spliced(u: seq<Action>, r: seq<Action>, tail: seq<Action>)
    ensures u + ([Acquire(Folders)] + ([Acquire(Folders)] + r)) + tail
            == u + ([Acquire(Folders)] + ([Acquire(Folders)] + (r + tail)))
  {
    var f := [Acquire(Folders)];
    Regroup(f, r, tail);
    Regroup(f, f + r, tail);
    Regroup(u, f + (f + r), tail);
  }

  lemma {:induction false} LastSteps(s: System, p: nat, rest: seq<Action>)
    requires p < |s| && s[p] == Thread({}, Use(Trie) + ([Acquire(Folders)] + ([Acquire(Folders)] + rest)))
    requires OthersHoldNothing(s, p)
    ensures WaitsFor(Run(s, Alone(p, 2) + [p]), p, p)
  {
    var blocked := [Acquire(Folders)] + rest;
    UseIsAbove(Trie, -1);
    AboveIsOrdered(Use(Trie));
    RunsAlone(s, p, {}, Use(Trie), [Acquire(Folders)] + blocked);
    var t := Run(s, Alone(p, 2));
    RunBoth(s, Alone(p, 2), [p]);
    StepOfOne(t, p, {}, Acquire(Folders), blocked);
    assert [p][1..] == [];
  }

  /** The first such MOVE of a thread: run the thread alone. */
  lemma FirstBlockerBlocks(programs: seq<seq<Handler>>, p: nat, j: nat) returns (schedule: seq<nat>)
    requires p < |programs| && j < |programs[p]| && BlocksItself(programs[p][j])
    requires forall k :: 0 <= k < j ==> !BlocksItself(programs[p][k])
    ensures WaitsFor(Run(Start(programs), schedule), p, p)
  {
    hide Trace, Traces, Ordered, Above, BlocksItself, Use, Run, WaitsFor, Alone;
    var hs := programs[p];
    var s, before, tail := Start(programs), Traces(hs[..j]), Traces(hs[j + 1..]);
    TracesSplit(hs, j);
    var rest := BlockingTrace(hs[j]);
    TracesAreAbove(hs[..j]);
    AboveIsOrdered(before);
    RunsAlone(s, p, {}, before, Trace(hs[j]) + tail);
    Spliced(Use(Trie), rest, tail);
    LastSteps(Run(s, Alone(p, |before|)), p, rest + tail);
    RunBoth(s, Alone(p, |before|), Alone(p, 2) + [p]);
    schedule := Alone(p, |before|) + (Alone(p, 2) + [p]);
  }

  /** A MOVE to a missing folder, in any thread of any system, can always bring that thread to wait for itself, and
      nothing that happens later wakes it. */
  lemma BlockingHandlerBlocks(programs: seq<seq<Handler>>, p: nat, j: nat) returns (schedule: seq<nat>)
    requires p < |programs| && j < |programs[p]| && BlocksItself(programs[p][j])
    ensures forall more: seq<nat> :: WaitsFor(Run(Run(Start(programs), schedule), more), p, p)
    decreases j
  {
    hide Run, WaitsFor, BlocksItself, Start;
    if k: nat :| k < j && BlocksItself(programs[p][k]) {
      schedule := BlockingHandlerBlocks(programs, p, k);
    } else {
      schedule := FirstBlockerBlocks(programs, p, j);
      forall more: seq<nat>
        ensures WaitsFor(Run(Run(Start(programs), schedule), more), p, p)
      {
        SelfWaitIsForever(Run(Start(programs), schedule), p, more);
      }
    }
  }

  /** Taking a mutex that is held is out of order. */
  lemma TakenTwice(rest: seq<Action>)
    ensures !Ordered({}, Use(Trie) + ([Acquire(Folders)] + ([Acquire(Folders)] + rest)))
  {
    var r3 := [Acquire(Folders)] + rest;
    var r2 := [Acquire(Folders)] + r3;
    var r1 := [Release(Trie)] + r2;
    assert Use(Trie) + r2 == [Acquire(Trie)] + r1;
    assert ([Acquire(Trie)] + r1)[1..] == r1 && r1[1..] == r2 && r2[1..] == r3;
    assert {} + {Trie} - {Trie} == {};
    assert !Ordered({} + {Folders}, r3);
    assert Ordered({}, [Acquire(Trie)] + r1) == Ordered({} + {Trie}, r1);
    assert Ordered({} + {Trie}, r1) == Ordered({} + {Trie} - {Trie}, r2);
  }

  /** The handlers that keep the discipline are exactly those that do not block themselves. */
  lemma OrderedUnlessBlocking(h: Handler)
    ensures Ordered({}, Trace(h)) <==> !BlocksItself(h)
  {
    if BlocksItself(h) {
      var rest := BlockingTrace(h);
      hide Trace, Ordered;
      TakenTwice(rest);
    } else {
      TraceIsAbove(h);
      AboveIsOrdered(Trace(h));
    }
  }

  /** With nobody else around, a MOVE to a missing folder leaves the server with work and no step to take. */
  lemma MoveToMissingFolderBlocks(outcome: MoveOutcome) returns (schedule: seq<nat>)
    ensures var s := Run(Start([[MoveToFolder(true, outcome)]]), schedule);
            |s| == 1 && s[0].todo != [] && (forall j: nat :: !CanStep(s, j)) && WaitsFor(s, 0, 0)
  {
    hide Trace, Traces, Step;
    schedule := FirstBlockerBlocks([[MoveToFolder(true, outcome)]], 0, 0);
    RunKeepsThreads(Start([[MoveToFolder(true, outcome)]]), schedule);
  }

  lemma {:induction false} RunKeepsThreads(s: System, schedule: seq<nat>)
    ensures |Run(s, schedule)| == |s|
    decreases |schedule|
  {
    if schedule != [] {
      RunKeepsThreads(Step(s, schedule[0]), schedule[1..]);
    }
  }

  /** Some run of the system brings a set of threads to wait in a circle. */
  ghost predicate CanDeadlock(programs: seq<seq<Handler>>) {
    exists schedule: seq<nat>, ts: seq<nat> ::
      |ts| > 1 && ts[0] == ts[|ts| - 1] && WaitChain(Run(Start(programs), schedule), ts)
  }

  predicate SomeBlocksItself(programs: seq<seq<Handler>>) {
    exists p, k :: 0 <= p < |programs| && 0 <= k < |programs[p]| && BlocksItself(programs[p][k])
  }

  /** The handlers can deadlock if and only if one of the requests is a MOVE to a missing folder. */
  lemma DeadlockIff(programs: seq<seq<Handler>>)
    ensures CanDeadlock(programs) <==> SomeBlocksItself(programs)
  {
    hide Trace, Run, Start, BlocksItself, Step;
    if p, k :| 0 <= p < |programs| && 0 <= k < |programs[p]| && BlocksItself(programs[p][k]) {
      var schedule := BlockingHandlerBlocks(programs, p, k);
      var s := Run(Start(programs), schedule);
      RunNothing(s);
      var none: seq<nat> := [];
      assert WaitsFor(Run(s, none), p, p);
      assert WaitChain(s, [p, p]);
    } else {
      forall schedule: seq<nat>, ts: seq<nat> | |ts| > 1 && ts[0] == ts[|ts| - 1]
        ensures !WaitChain(Run(Start(programs), schedule), ts)
      {
        HandlersDoNotDeadlock(programs, schedule, ts, 0);
      }
    }
  }

  lemma RunNothing(s: System)
    ensures Run(s, []) == s
  {
  }
}
