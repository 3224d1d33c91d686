/** One pool shared by its workers, by any number of client threads that each Enqueue the
    tasks of a script, and by a main thread that does Start, then Stop, then Wait. Clients
    may call Enqueue at any moment, before Start and after Stop included. */
module PoolProtocol {
  import opened Sync
  import opened Counting
  import opened ThreadPool

  datatype Client<T> = Client(at: ClientAt, todo: seq<T>)

  /** `enqueued`, `dequeued` and `executed` record, in order, every push, every pop and every
      completed task. No statement reads them. */
  datatype System<T> = System(
    pool: Pool<T>,
    main: MainAt,
    clients: seq<Client<T>>,
    enqueued: seq<T>,
    dequeued: seq<T>,
    executed: seq<T>)

  /** The scheduler's choice: whose turn it is, which waiter a Signal picks, or a spurious
      wakeup. */
  datatype Action = WorkerTurn(w: nat) | ClientTurn(c: nat, choice: nat) | MainTurn | Spurious(w: nat)

  ghost predicate Initial<T>(s: System<T>) {
    && |s.pool.workers| >= 1
    && s.pool == Pool([], false, 0, None, s.pool.workers)
    && (forall w | 0 <= w < |s.pool.workers| :: s.pool.workers[w] == Worker(New, None))
    && s.main == Start
    && (forall c | 0 <= c < |s.clients| :: s.clients[c].at == Lock)
    && s.enqueued == [] && s.dequeued == [] && s.executed == []
  }

  function Step<T>(s: System<T>, a: Action): Outcome<System<T>> {
    match a
    case WorkerTurn(w) => (
      match WorkerStep(s.pool, w)
      case Blocked => Blocked
      case Crash => Crash
      case Moved(p) =>
        var x := s.pool.workers[w];
        Moved(s.(pool := p,
                 dequeued := if x.at == Take then s.dequeued + [s.pool.tasks[0]] else s.dequeued,
                 executed := if x.at == Work && x.hand.Some? then s.executed + [x.hand.value] else s.executed)))
    case ClientTurn(c, choice) =>
      if c >= |s.clients| || s.clients[c].todo == [] then Blocked
      else (
        var Client(at, todo) := s.clients[c];
        match EnqueueStep(s.pool, c, at, todo[0], choice)
        case Blocked => Blocked
        case Crash => Crash
        case Moved(p) =>
          Moved(s.(pool := p,
                   clients := s.clients[c := Client(Following(at), if at == Unlock then todo[1..] else todo)],
                   enqueued := if at == Push then s.enqueued + [todo[0]] else s.enqueued)))
    case MainTurn => (
      match MainStep(s.pool, s.main)
      case Blocked => Blocked
      case Crash => Crash
      case Moved((p, at)) => Moved(s.(pool := p, main := at)))
    case Spurious(w) => (
      match SpuriousStep(s.pool, w)
      case Blocked => Blocked
      case Crash => Crash
      case Moved(p) => Moved(s.(pool := p)))
  }

  /** Every interleaving is some schedule; an action that is not possible changes nothing. */
  function Exec<T>(s: System<T>, schedule: seq<Action>): System<T>
    decreases |schedule|
  {
    if schedule == [] then s
    else
      var s' := Exec(s, schedule[..|schedule| - 1]);
      match Step(s', schedule[|schedule| - 1])
      case Moved(s'') => s''
      case _ => s'
  }

  // ---------------------------------------------------------------- invariant

  predicate WorkerHolds(at: WorkerAt) {
    at == Test || at == CountUp || at == CondWait || at == CountDown || at == Decide || at == Take
    || at == Release || at == Quit
  }

  predicate MainHolds(at: MainAt) {
    at == StopClear || at == StopBroadcast || at == StopUnlock
  }

  ghost predicate Locks<T>(s: System<T>) {
    && (forall w | 0 <= w < |s.pool.workers| ::
          WorkerHolds(s.pool.workers[w].at) <==> s.pool.mutex == Some(WorkerThread(w)))
    && (forall c | 0 <= c < |s.clients| ::
          && (s.clients[c].at != Lock <==> s.pool.mutex == Some(ClientThread(c)))
          && (s.clients[c].at != Lock ==> s.clients[c].todo != []))
    && (MainHolds(s.main) <==> s.pool.mutex == Some(MainThread))
    && (forall w: nat :: s.pool.mutex == Some(WorkerThread(w)) ==> w < |s.pool.workers|)
    && (forall c: nat :: s.pool.mutex == Some(ClientThread(c)) ==> c < |s.clients|)
  }

  /** Workers counted as asleep. */
  function Counted<T>(x: Worker<T>): nat {
    if x.at == CondWait || x.at == Waiting || x.at == Woken || x.at == CountDown then 1 else 0
  }

  /** Workers on their way to look at the queue: woken but not yet back, or holding the mutex
      and about to test or take. */
  function Rechecking<T>(x: Worker<T>): nat {
    if x.at == Woken || x.at == CountDown || x.at == Test || x.at == Decide || x.at == Take then 1 else 0
  }

  /** 1 while a client has pushed its task and not yet signalled. */
  function SignalDue<T>(s: System<T>): nat {
    match s.pool.mutex
    case Some(ClientThread(c)) => if c < |s.clients| && s.clients[c].at == Signal then 1 else 0
    case _ => 0
  }

  ghost predicate SleepCount<T>(s: System<T>) {
    s.pool.sleepers == Sum(s.pool.workers, Counted)
  }

  ghost predicate NoLostWakeup<T>(s: System<T>) {
    SomeoneWaits(s.pool) ==> |s.pool.tasks| <= Sum(s.pool.workers, Rechecking) + SignalDue(s)
  }

  predicate MainStopped(at: MainAt) {
    at == StopBroadcast || at == StopUnlock || at.Join? || at == Returned
  }

  predicate MainBroadcast(at: MainAt) {
    at == StopUnlock || at.Join? || at == Returned
  }

  function CreatedUpTo<T>(s: System<T>): nat {
    match s.main
    case Start => 0
    case Create(i) => i
    case _ => |s.pool.workers|
  }

  function JoinedUpTo<T>(s: System<T>): nat {
    match s.main
    case Join(i) => i
    case Returned => |s.pool.workers|
    case _ => 0
  }

  /** What is known of worker `x` from where main is and what it is itself about to do. */
  ghost predicate WorkerPhase<T>(s: System<T>, x: Worker<T>) {
    && (x.at == CountUp || x.at == CondWait ==> s.pool.running && s.pool.tasks == [])
    && (x.at == Decide ==> !s.pool.running || s.pool.tasks != [])
    && (x.at == Take ==> s.pool.tasks != [])
    && (x.at == Quit || x.at == Done ==> MainStopped(s.main))
    && (x.at == Quit ==> s.pool.tasks == [])
    && (x.at == Waiting ==> !MainBroadcast(s.main))
    && (x.hand.Some? <==> x.at == Release || x.at == Work)
  }

  ghost predicate Phases<T>(s: System<T>) {
    && (s.pool.running <==> s.main != Start && !MainStopped(s.main))
    && CreatedUpTo(s) <= |s.pool.workers| && JoinedUpTo(s) <= |s.pool.workers|
    && (forall w | 0 <= w < |s.pool.workers| ::
          && WorkerPhase(s, s.pool.workers[w])
          && (s.pool.workers[w].at == New <==> w >= CreatedUpTo(s))
          && (w < JoinedUpTo(s) ==> s.pool.workers[w].at == Done))
  }

  function Bag<T>(hand: Option<T>): multiset<T> {
    if hand.Some? then multiset{hand.value} else multiset{}
  }

  function InHand<T>(workers: seq<Worker<T>>): multiset<T> {
    if workers == [] then multiset{} else Bag(workers[0].hand) + InHand(workers[1..])
  }

  ghost predicate Logs<T>(s: System<T>) {
    && s.enqueued == s.dequeued + s.pool.tasks
    && multiset(s.dequeued) == multiset(s.executed) + InHand(s.pool.workers)
  }

  ghost predicate Inv<T>(s: System<T>) {
    Locks(s) && SleepCount(s) && NoLostWakeup(s) && Phases(s) && Logs(s)
  }

  // ---------------------------------------------------------------- sums over the workers

  lemma {:induction false} SumWakeAll<T>(workers: seq<Worker<T>>)
    ensures Sum(WakeAll(workers), Counted) == Sum(workers, Counted)
  {
    if workers != [] {
      assert WakeAll(workers)[1..] == WakeAll(workers[1..]);
      SumWakeAll(workers[1..]);
    }
  }

  lemma {:induction false} InHandWakeAll<T>(workers: seq<Worker<T>>)
    ensures InHand(WakeAll(workers)) == InHand(workers)
  {
    if workers != [] {
      assert WakeAll(workers)[1..] == WakeAll(workers[1..]);
      InHandWakeAll(workers[1..]);
    }
  }

  lemma Exchange<T>(b: multiset<T>, n: multiset<T>, o: multiset<T>, x: multiset<T>, r: multiset<T>)
    requires n + o == r + x
    ensures (b + n) + o == (b + r) + x
  {
    assert (b + n) + o == b + (n + o);
    assert (b + r) + x == b + (r + x);
  }

  lemma {:induction false} InHandUpdate<T>(workers: seq<Worker<T>>, w: nat, x: Worker<T>)
    requires w < |workers|
    ensures InHand(workers[w := x]) + Bag(workers[w].hand) == InHand(workers) + Bag(x.hand)
  {
    var updated, rest := workers[w := x], workers[1..];
    if w == 0 {
      assert updated[1..] == rest;
      assert InHand(updated) == Bag(x.hand) + InHand(rest);
    } else {
      assert updated[1..] == rest[w - 1 := x];
      InHandUpdate(rest, w - 1, x);
      Exchange(Bag(workers[0].hand), InHand(rest[w - 1 := x]), Bag(workers[w].hand), Bag(x.hand), InHand(rest));
    }
  }

  lemma InHandSame<T>(workers: seq<Worker<T>>, w: nat, x: Worker<T>)
    requires w < |workers| && x.hand == workers[w].hand
    ensures InHand(workers[w := x]) == InHand(workers)
  {
    InHandUpdate(workers, w, x);
    Cancel(InHand(workers[w := x]), InHand(workers), Bag(x.hand));
  }

  lemma Cancel<T>(a: multiset<T>, b: multiset<T>, c: multiset<T>)
    requires a + c == b + c
    ensures a == b
  {
    assert a == (a + c) - c;
    assert b == (b + c) - c;
  }

  lemma {:induction false} InHandNone<T>(workers: seq<Worker<T>>)
    requires forall w | 0 <= w < |workers| :: workers[w].hand == None
    ensures InHand(workers) == multiset{}
  {
    if workers != [] {
      InHandNone(workers[1..]);
    }
  }

  // ---------------------------------------------------------------- every step keeps the invariant

  lemma WorkerTable<T>(p: Pool<T>, w: nat)
    requires WorkerStep(p, w).Moved?
    ensures w < |p.workers| && |WorkerStep(p, w).next.workers| == |p.workers|
    ensures WorkerStep(p, w).next.workers == p.workers[w := WorkerStep(p, w).next.workers[w]]
    ensures WorkerStep(p, w).next.running == p.running
  {
  }

  lemma InitialInv<T>(s: System<T>)
    requires Initial(s)
    ensures Inv(s)
  {
    SumZero(s.pool.workers, Counted);
    InHandNone(s.pool.workers);
  }

  /** A worker's step changes the mutex only by taking it when free or giving back its own. */
  lemma WorkerMutex<T>(p: Pool<T>, w: nat)
    requires WorkerStep(p, w).Moved? && w < |p.workers|
    requires WorkerHolds(p.workers[w].at) <==> p.mutex == Some(WorkerThread(w))
    ensures var p' := WorkerStep(p, w).next;
            && w < |p'.workers|
            && p'.mutex == (if WorkerHolds(p'.workers[w].at) then Some(WorkerThread(w))
                            else if WorkerHolds(p.workers[w].at) then None else p.mutex)
            && (WorkerHolds(p'.workers[w].at) && !WorkerHolds(p.workers[w].at) ==> p.mutex == None)
  {
  }

  lemma WorkerLocks<T>(s: System<T>, w: nat)
    requires Locks(s) && Step(s, WorkerTurn(w)).Moved?
    ensures Locks(Step(s, WorkerTurn(w)).next)
  {
    WorkerTable(s.pool, w);
    WorkerMutex(s.pool, w);
  }

  /** A client's step leaves the running flag alone and changes workers only by waking them. */
  lemma ClientTable<T>(p: Pool<T>, c: nat, at: ClientAt, input: T, choice: nat)
    requires EnqueueStep(p, c, at, input, choice).Moved?
    ensures var p' := EnqueueStep(p, c, at, input, choice).next;
            && p'.running == p.running && |p'.workers| == |p.workers|
            && forall w | 0 <= w < |p.workers| ::
                 p'.workers[w] == p.workers[w]
                 || (p.workers[w].at == Waiting && p'.workers[w] == p.workers[w].(at := Woken))
    ensures var p' := EnqueueStep(p, c, at, input, choice).next;
            forall w | 0 <= w < |p.workers| :: WorkerHolds(p'.workers[w].at) == WorkerHolds(p.workers[w].at)
  {
  }

  lemma ClientLocks<T>(s: System<T>, c: nat, choice: nat)
    requires Locks(s) && Step(s, ClientTurn(c, choice)).Moved?
    ensures Locks(Step(s, ClientTurn(c, choice)).next)
  {
    hide WorkerHolds, MainHolds;
    ClientTable(s.pool, c, s.clients[c].at, s.clients[c].todo[0], choice);
  }

  lemma MainLocks<T>(s: System<T>)
    requires Locks(s) && Phases(s) && Step(s, MainTurn).Moved?
    ensures Locks(Step(s, MainTurn).next)
  {
  }

  lemma SpuriousLocks<T>(s: System<T>, w: nat)
    requires Locks(s) && Step(s, Spurious(w)).Moved?
    ensures Locks(Step(s, Spurious(w)).next)
  {
  }

  lemma WorkerShape<T>(s: System<T>, w: nat)
    requires Step(s, WorkerTurn(w)).Moved?
    ensures var s' := Step(s, WorkerTurn(w)).next;
            WorkerStep(s.pool, w) == Moved(s'.pool) && s'.main == s.main && s'.clients == s.clients
  {
  }

  /** The worker that moved. */
  lemma OwnPhase<T>(s: System<T>, s': System<T>, w: nat)
    requires w < |s.pool.workers| && WorkerPhase(s, s.pool.workers[w])
    requires s.pool.running <==> s.main != Start && !MainStopped(s.main)
    requires s.pool.workers[w].at == New <==> w >= CreatedUpTo(s)
    requires WorkerStep(s.pool, w) == Moved(s'.pool) && s'.main == s.main
    ensures w < |s'.pool.workers| && WorkerPhase(s', s'.pool.workers[w])
    ensures s.pool.workers[w].at != New && s.pool.workers[w].at != Done && s'.pool.workers[w].at != New
  {
  }

  /** The others: only a worker that holds the mutex changes the queue. */
  lemma OtherPhase<T>(s: System<T>, s': System<T>, w: nat, x: Worker<T>)
    requires w < |s.pool.workers| && WorkerPhase(s, x)
    requires !(WorkerHolds(x.at) && WorkerHolds(s.pool.workers[w].at))
    requires WorkerStep(s.pool, w) == Moved(s'.pool) && s'.main == s.main
    ensures WorkerPhase(s', x)
  {
  }

  lemma WorkerPhases<T>(s: System<T>, w: nat)
    requires Locks(s) && Phases(s) && Step(s, WorkerTurn(w)).Moved?
    ensures Phases(Step(s, WorkerTurn(w)).next)
  {
    hide Step, WorkerStep, WorkerPhase, WorkerHolds;
    var s' := Step(s, WorkerTurn(w)).next;
    WorkerShape(s, w);
    WorkerTable(s.pool, w);
    OwnPhase(s, s', w);
    forall v | 0 <= v < |s.pool.workers| && v != w
      ensures WorkerPhase(s', s.pool.workers[v])
    {
      OtherPhase(s, s', w, s.pool.workers[v]);
    }
  }

  lemma ClientPhases<T>(s: System<T>, c: nat, choice: nat)
    requires Locks(s) && Phases(s) && Step(s, ClientTurn(c, choice)).Moved?
    ensures Phases(Step(s, ClientTurn(c, choice)).next)
  {
    var s' := Step(s, ClientTurn(c, choice)).next;
    ClientTable(s.pool, c, s.clients[c].at, s.clients[c].todo[0], choice);
    forall w | 0 <= w < |s.pool.workers|
      ensures WorkerPhase(s', s'.pool.workers[w])
    {
      assert WorkerPhase(s, s.pool.workers[w]);
    }
  }

  lemma SpuriousPhases<T>(s: System<T>, w: nat)
    requires Phases(s) && Step(s, Spurious(w)).Moved?
    ensures Phases(Step(s, Spurious(w)).next)
  {
  }

  lemma CreatePhases<T>(s: System<T>)
    requires Phases(s) && s.main.Create?
    ensures Phases(Step(s, MainTurn).next)
  {
    var s' := Step(s, MainTurn).next;
    forall w | 0 <= w < |s'.pool.workers|
      ensures WorkerPhase(s', s'.pool.workers[w])
    {
      assert WorkerPhase(s, s.pool.workers[w]);
    }
  }

  lemma ClearPhases<T>(s: System<T>)
    requires Locks(s) && Phases(s) && s.main == StopClear
    ensures Phases(Step(s, MainTurn).next)
  {
    var s' := Step(s, MainTurn).next;
    forall w | 0 <= w < |s'.pool.workers|
      ensures WorkerPhase(s', s'.pool.workers[w])
    {
      assert WorkerPhase(s, s.pool.workers[w]);
      assert !WorkerHolds(s.pool.workers[w].at);
    }
  }

  /** Main's other statements change neither workers nor tasks nor the running flag after
      Start; they only move main on. */
  lemma QuietWorkerPhase<T>(s: System<T>, x: Worker<T>)
    requires Phases(s) && WorkerPhase(s, x) && Step(s, MainTurn).Moved?
    requires !s.main.Create? && s.main != StopClear && s.main != StopBroadcast
    requires s.main == Start ==> x.at == New
    ensures WorkerPhase(Step(s, MainTurn).next, x)
  {
  }

  lemma QuietPhases<T>(s: System<T>)
    requires Locks(s) && Phases(s) && Step(s, MainTurn).Moved?
    requires !s.main.Create? && s.main != StopClear && s.main != StopBroadcast
    ensures Phases(Step(s, MainTurn).next)
  {
    hide WorkerPhase, WorkerHolds;
    var s' := Step(s, MainTurn).next;
    MainKeepsWorkers(s.pool, s.main);
    forall w | 0 <= w < |s.pool.workers|
      ensures WorkerPhase(s', s.pool.workers[w])
    {
      assert WorkerPhase(s, s.pool.workers[w]);
      QuietWorkerPhase(s, s.pool.workers[w]);
    }
  }

  lemma MainPhases<T>(s: System<T>)
    requires Locks(s) && Phases(s) && SleepCount(s) && Step(s, MainTurn).Moved?
    ensures Phases(Step(s, MainTurn).next)
  {
    if s.main.Create? {
      CreatePhases(s);
    } else if s.main == StopClear {
      ClearPhases(s);
    } else if s.main == StopBroadcast {
      BroadcastPhases(s);
    } else {
      QuietPhases(s);
    }
  }

  lemma BroadcastPhases<T>(s: System<T>)
    requires Phases(s) && SleepCount(s) && s.main == StopBroadcast
    ensures Phases(Step(s, MainTurn).next)
  {
    var s' := Step(s, MainTurn).next;
    SumZero(s.pool.workers, Counted);
    forall w | 0 <= w < |s'.pool.workers|
      ensures WorkerPhase(s', s'.pool.workers[w])
    {
      var x := s.pool.workers[w];
      assert WorkerPhase(s, x);
      if s.pool.sleepers == 0 {
        assert Counted(x) == 0;
      }
    }
  }

  // ---------------------------------------------------------------- sleep counter and wakeups

  lemma WorkerCountStep<T>(p: Pool<T>, w: nat)
    requires WorkerStep(p, w).Moved?
    ensures var p' := WorkerStep(p, w).next;
            && w < |p.workers| && w < |p'.workers|
            && p'.sleepers - p.sleepers == Counted(p'.workers[w]) - Counted(p.workers[w])
  {
  }

  lemma WorkerCounts<T>(s: System<T>, w: nat)
    requires SleepCount(s) && Step(s, WorkerTurn(w)).Moved?
    ensures SleepCount(Step(s, WorkerTurn(w)).next)
  {
    var p' := Step(s, WorkerTurn(w)).next.pool;
    WorkerTable(s.pool, w);
    WorkerCountStep(s.pool, w);
    SumUpdate(s.pool.workers, w, p'.workers[w], Counted);
  }

  lemma WokenCounts<T>(p: Pool<T>, w: nat)
    requires SpuriousStep(p, w).Moved?
    ensures var p' := SpuriousStep(p, w).next;
            && Sum(p'.workers, Counted) == Sum(p.workers, Counted)
            && Sum(p'.workers, Rechecking) == Sum(p.workers, Rechecking) + 1
            && InHand(p'.workers) == InHand(p.workers)
  {
    var x := SpuriousStep(p, w).next.workers[w];
    SumUpdate(p.workers, w, x, Counted);
    SumUpdate(p.workers, w, x, Rechecking);
    InHandSame(p.workers, w, x);
  }

  lemma CreatedCounts<T>(p: Pool<T>, w: nat)
    requires w < |p.workers| && p.workers[w].at == New
    ensures var p' := MoveTo(p, w, Fetch);
            && Sum(p'.workers, Counted) == Sum(p.workers, Counted)
            && Sum(p'.workers, Rechecking) == Sum(p.workers, Rechecking)
            && InHand(p'.workers) == InHand(p.workers)
  {
    var x := MoveTo(p, w, Fetch).workers[w];
    SumUpdate(p.workers, w, x, Counted);
    SumUpdate(p.workers, w, x, Rechecking);
    InHandSame(p.workers, w, x);
  }

  lemma NobodyCounted<T>(s: System<T>)
    requires SleepCount(s) && s.pool.sleepers <= 0
    ensures !SomeoneWaits(s.pool)
  {
    SumZero(s.pool.workers, Counted);
    assert forall w | 0 <= w < |s.pool.workers| :: Counted(s.pool.workers[w]) == 0;
  }

  /** A worker's step takes a task only from among the rechecking workers, and a worker goes
      to sleep only on an empty queue. */
  lemma WorkerRecheckStep<T>(p: Pool<T>, w: nat)
    requires WorkerStep(p, w).Moved?
    requires w < |p.workers| && (p.workers[w].at == CountUp || p.workers[w].at == CondWait ==> p.tasks == [])
    ensures var p' := WorkerStep(p, w).next;
            && w < |p'.workers| && |p'.tasks| <= |p.tasks|
            && (p'.tasks != [] ==> |p'.tasks| - |p.tasks| <= Rechecking(p'.workers[w]) - Rechecking(p.workers[w]))
            && (p'.workers[w].at == Waiting ==> p'.tasks == [])
  {
  }

  lemma WorkerWakeups<T>(s: System<T>, w: nat)
    requires Locks(s) && Phases(s) && NoLostWakeup(s) && Step(s, WorkerTurn(w)).Moved?
    ensures NoLostWakeup(Step(s, WorkerTurn(w)).next)
  {
    var p, p' := s.pool, Step(s, WorkerTurn(w)).next.pool;
    assert WorkerPhase(s, p.workers[w]);
    WorkerTable(p, w);
    WorkerRecheckStep(p, w);
    SumUpdate(p.workers, w, p'.workers[w], Rechecking);
    WorkerSignalDue(s, w);
    if SomeoneWaits(p') && p'.tasks != [] {
      var v :| 0 <= v < |p'.workers| && p'.workers[v].at == Waiting;
      assert p.workers[v].at == Waiting;
    }
  }

  lemma WorkerSignalDue<T>(s: System<T>, w: nat)
    requires Locks(s) && Step(s, WorkerTurn(w)).Moved?
    ensures SignalDue(Step(s, WorkerTurn(w)).next) == SignalDue(s)
  {
  }

  lemma ClientWakeups<T>(s: System<T>, c: nat, choice: nat)
    requires Locks(s) && SleepCount(s) && NoLostWakeup(s) && Step(s, ClientTurn(c, choice)).Moved?
    ensures NoLostWakeup(Step(s, ClientTurn(c, choice)).next)
    ensures SleepCount(Step(s, ClientTurn(c, choice)).next)
  {
    var s' := Step(s, ClientTurn(c, choice)).next;
    if s.clients[c].at == Signal {
      if s.pool.sleepers > 0 && SomeoneWaits(s.pool) {
        WokenCounts(s.pool, choice);
      } else if s.pool.sleepers <= 0 {
        NobodyCounted(s);
      }
    }
  }

  lemma SpuriousWakeups<T>(s: System<T>, w: nat)
    requires SleepCount(s) && NoLostWakeup(s) && Step(s, Spurious(w)).Moved?
    ensures SleepCount(Step(s, Spurious(w)).next) && NoLostWakeup(Step(s, Spurious(w)).next)
  {
    WokenCounts(s.pool, w);
  }

  lemma CreateWakeups<T>(s: System<T>, i: nat)
    requires SleepCount(s) && NoLostWakeup(s)
    requires s.main == Create(i) && i < |s.pool.workers| && s.pool.workers[i].at == New
    ensures SleepCount(Step(s, MainTurn).next) && NoLostWakeup(Step(s, MainTurn).next)
  {
    CreatedCounts(s.pool, i);
  }

  lemma BroadcastWakeups<T>(s: System<T>)
    requires SleepCount(s) && NoLostWakeup(s) && s.main == StopBroadcast
    ensures SleepCount(Step(s, MainTurn).next) && NoLostWakeup(Step(s, MainTurn).next)
  {
    var s' := Step(s, MainTurn).next;
    if s.pool.sleepers > 0 {
      SumWakeAll(s.pool.workers);
      assert !SomeoneWaits(s'.pool);
    } else {
      assert s'.pool == s.pool;
    }
  }

  lemma MainWakeups<T>(s: System<T>)
    requires Locks(s) && Phases(s) && SleepCount(s) && NoLostWakeup(s) && Step(s, MainTurn).Moved?
    ensures SleepCount(Step(s, MainTurn).next) && NoLostWakeup(Step(s, MainTurn).next)
  {
    if s.main.Create? && s.main.next < |s.pool.workers| {
      CreateWakeups(s, s.main.next);
    } else if s.main == StopBroadcast {
      BroadcastWakeups(s);
    } else {
      QuietMainWakeups(s);
    }
  }

  lemma QuietMainWakeups<T>(s: System<T>)
    requires SleepCount(s) && NoLostWakeup(s) && Step(s, MainTurn).Moved?
    requires MainHolds(s.main) <==> s.pool.mutex == Some(MainThread)
    requires s.main != StopBroadcast && !(s.main.Create? && s.main.next < |s.pool.workers|)
    ensures SleepCount(Step(s, MainTurn).next) && NoLostWakeup(Step(s, MainTurn).next)
  {
    MainKeepsWorkers(s.pool, s.main);
    assert SignalDue(Step(s, MainTurn).next) == SignalDue(s);
  }

  lemma MainKeepsWorkers<T>(p: Pool<T>, at: MainAt)
    requires MainStep(p, at).Moved? && at != StopBroadcast && !(at.Create? && at.next < |p.workers|)
    ensures MainStep(p, at).next.0.workers == p.workers
    ensures MainStep(p, at).next.0.tasks == p.tasks && MainStep(p, at).next.0.sleepers == p.sleepers
  {
  }

  // ---------------------------------------------------------------- logs

  lemma MoveFront<T>(a: seq<T>, b: seq<T>)
    requires b != []
    ensures a + b == (a + [b[0]]) + b[1..]
    ensures multiset(a + [b[0]]) == multiset(a) + multiset{b[0]}
  {
  }

  lemma TakeBag<T>(d: multiset<T>, e: multiset<T>, h: multiset<T>, x: multiset<T>)
    requires d == e + h
    ensures d + x == e + (h + x)
  {
  }

  lemma TakeLogs<T>(s: System<T>, w: nat)
    requires w < |s.pool.workers| && WorkerPhase(s, s.pool.workers[w]) && s.pool.workers[w].at == Take
    requires Logs(s)
    ensures Logs(Step(s, WorkerTurn(w)).next)
  {
    var s', t := Step(s, WorkerTurn(w)).next, s.pool.tasks[0];
    assert s'.enqueued == s'.dequeued + s'.pool.tasks by {
      MoveFront(s.dequeued, s.pool.tasks);
    }
    assert multiset(s'.dequeued) == multiset(s'.executed) + InHand(s'.pool.workers) by {
      MoveFront(s.dequeued, s.pool.tasks);
      TakeHand(s.pool.workers, w, t);
      TakeBag(multiset(s.dequeued), multiset(s.executed), InHand(s.pool.workers), multiset{t});
    }
  }

  lemma TakeHand<T>(workers: seq<Worker<T>>, w: nat, t: T)
    requires w < |workers| && workers[w].hand == None
    ensures InHand(workers[w := Worker(Release, Some(t))]) == InHand(workers) + multiset{t}
  {
    InHandUpdate(workers, w, Worker(Release, Some(t)));
  }

  lemma WorkShape<T>(s: System<T>, w: nat)
    requires Step(s, WorkerTurn(w)).Moved? && w < |s.pool.workers| && s.pool.workers[w].at == Work
    requires s.pool.workers[w].hand.Some?
    ensures var s' := Step(s, WorkerTurn(w)).next;
            && s'.pool.workers == s.pool.workers[w := Worker(Fetch, None)] && s'.pool.tasks == s.pool.tasks
            && s'.enqueued == s.enqueued && s'.dequeued == s.dequeued
            && s'.executed == s.executed + [s.pool.workers[w].hand.value]
  {
  }

  /** What a worker had in hand is now executed. */
  lemma HandOver<T>(executed: seq<T>, x: T, hands: multiset<T>, rest: multiset<T>)
    requires rest + multiset{x} == hands + multiset{}
    ensures multiset(executed + [x]) + rest == multiset(executed) + hands
  {
    assert hands + multiset{} == hands;
  }

  lemma WorkLogs<T>(s: System<T>, w: nat)
    requires Phases(s) && Logs(s) && Step(s, WorkerTurn(w)).Moved?
    requires w < |s.pool.workers| && s.pool.workers[w].at == Work
    ensures Logs(Step(s, WorkerTurn(w)).next)
  {
    hide Step, InHand;
    var s', x := Step(s, WorkerTurn(w)).next, s.pool.workers[w];
    assert WorkerPhase(s, x);
    WorkShape(s, w);
    InHandUpdate(s.pool.workers, w, Worker(Fetch, None));
    HandOver(s.executed, x.hand.value, InHand(s.pool.workers), InHand(s'.pool.workers));
  }

  lemma WorkerLogs<T>(s: System<T>, w: nat)
    requires Phases(s) && Logs(s) && Step(s, WorkerTurn(w)).Moved?
    ensures Logs(Step(s, WorkerTurn(w)).next)
  {
    if s.pool.workers[w].at == Take {
      TakeLogs(s, w);
    } else if s.pool.workers[w].at == Work {
      WorkLogs(s, w);
    } else {
      QuietWorkerLogs(s, w);
    }
  }

  lemma QuietWorkerStep<T>(p: Pool<T>, w: nat)
    requires WorkerStep(p, w).Moved? && w < |p.workers| && p.workers[w].at != Take && p.workers[w].at != Work
    ensures var p' := WorkerStep(p, w).next;
            && w < |p'.workers| && p'.workers == p.workers[w := p'.workers[w]]
            && p'.workers[w].hand == p.workers[w].hand && p'.tasks == p.tasks
  {
  }

  lemma QuietWorkerLogs<T>(s: System<T>, w: nat)
    requires Logs(s) && Step(s, WorkerTurn(w)).Moved?
    requires w < |s.pool.workers| && s.pool.workers[w].at != Take && s.pool.workers[w].at != Work
    ensures Logs(Step(s, WorkerTurn(w)).next)
  {
    var s' := Step(s, WorkerTurn(w)).next;
    QuietWorkerStep(s.pool, w);
    InHandSame(s.pool.workers, w, s'.pool.workers[w]);
    SameLogs(s, s');
  }

  lemma ClientShape<T>(s: System<T>, c: nat, choice: nat)
    requires Step(s, ClientTurn(c, choice)).Moved?
    ensures var s' := Step(s, ClientTurn(c, choice)).next;
            && c < |s.clients| && s.clients[c].todo != []
            && EnqueueStep(s.pool, c, s.clients[c].at, s.clients[c].todo[0], choice) == Moved(s'.pool)
            && s'.dequeued == s.dequeued && s'.executed == s.executed
            && s'.enqueued == if s.clients[c].at == Push then s.enqueued + [s.clients[c].todo[0]] else s.enqueued
  {
  }

  lemma EnqueueHands<T>(p: Pool<T>, c: nat, at: ClientAt, input: T, choice: nat)
    requires EnqueueStep(p, c, at, input, choice).Moved?
    ensures var p' := EnqueueStep(p, c, at, input, choice).next;
            && p'.tasks == (if at == Push then p.tasks + [input] else p.tasks)
            && InHand(p'.workers) == InHand(p.workers)
  {
    hide InHand;
    if at == Signal && p.sleepers > 0 && SomeoneWaits(p) {
      WokenCounts(p, choice);
    }
  }

  lemma ClientLogs<T>(s: System<T>, c: nat, choice: nat)
    requires Logs(s) && Step(s, ClientTurn(c, choice)).Moved?
    ensures Logs(Step(s, ClientTurn(c, choice)).next)
  {
    hide Step, EnqueueStep, InHand;
    ClientShape(s, c, choice);
    var x := s.clients[c].todo[0];
    EnqueueHands(s.pool, c, s.clients[c].at, x, choice);
    assert s.dequeued + (s.pool.tasks + [x]) == s.dequeued + s.pool.tasks + [x];
  }

  lemma CreateShape<T>(s: System<T>, i: nat)
    requires s.main == Create(i) && i < |s.pool.workers|
    ensures Step(s, MainTurn).Moved?
    ensures var s' := Step(s, MainTurn).next;
            && s'.pool == MoveTo(s.pool, i, Fetch)
            && s'.enqueued == s.enqueued && s'.dequeued == s.dequeued && s'.executed == s.executed
  {
  }

  lemma CreateLogs<T>(s: System<T>, i: nat)
    requires Logs(s) && s.main == Create(i) && i < |s.pool.workers| && s.pool.workers[i].at == New
    ensures Logs(Step(s, MainTurn).next)
  {
    hide Step, InHand;
    CreateShape(s, i);
    CreatedCounts(s.pool, i);
    SameLogs(s, Step(s, MainTurn).next);
  }

  lemma SameLogs<T>(s: System<T>, s': System<T>)
    requires Logs(s)
    requires InHand(s'.pool.workers) == InHand(s.pool.workers) && s'.pool.tasks == s.pool.tasks
    requires s'.enqueued == s.enqueued && s'.dequeued == s.dequeued && s'.executed == s.executed
    ensures Logs(s')
  {
  }

  lemma BroadcastLogs<T>(s: System<T>)
    requires Logs(s) && s.main == StopBroadcast
    ensures Logs(Step(s, MainTurn).next)
  {
    var s' := Step(s, MainTurn).next;
    if s.pool.sleepers > 0 {
      assert s'.pool.workers == WakeAll(s.pool.workers);
      InHandWakeAll(s.pool.workers);
    } else {
      assert s'.pool == s.pool;
    }
    SameLogs(s, s');
  }

  lemma MainLogs<T>(s: System<T>)
    requires Logs(s) && Step(s, MainTurn).Moved?
    requires s.main.Create? && s.main.next < |s.pool.workers| ==> s.pool.workers[s.main.next].at == New
    ensures Logs(Step(s, MainTurn).next)
  {
    if s.main.Create? && s.main.next < |s.pool.workers| {
      CreateLogs(s, s.main.next);
    } else if s.main == StopBroadcast {
      BroadcastLogs(s);
    } else {
      MainKeepsWorkers(s.pool, s.main);
      SameLogs(s, Step(s, MainTurn).next);
    }
  }

  lemma SpuriousLogs<T>(s: System<T>, w: nat)
    requires Logs(s) && Step(s, Spurious(w)).Moved?
    ensures Logs(Step(s, Spurious(w)).next)
  {
    var p' := SpuriousStep(s.pool, w).next;
    assert Step(s, Spurious(w)).next == s.(pool := p');
    assert p'.workers == s.pool.workers[w := s.pool.workers[w].(at := Woken)];
    InHandSame(s.pool.workers, w, s.pool.workers[w].(at := Woken));
    SameLogs(s, s.(pool := p'));
  }

  lemma WorkerKeeps<T>(s: System<T>, w: nat)
    requires Inv(s) && Step(s, WorkerTurn(w)).Moved?
    ensures Inv(Step(s, WorkerTurn(w)).next)
  {
    WorkerLogs(s, w);
    WorkerLocks(s, w);
    WorkerPhases(s, w);
    WorkerCounts(s, w);
    WorkerWakeups(s, w);
  }

  lemma ClientKeeps<T>(s: System<T>, c: nat, choice: nat)
    requires Inv(s) && Step(s, ClientTurn(c, choice)).Moved?
    ensures Inv(Step(s, ClientTurn(c, choice)).next)
  {
    ClientLogs(s, c, choice);
    ClientLocks(s, c, choice);
    ClientPhases(s, c, choice);
    ClientWakeups(s, c, choice);
  }

  lemma MainKeeps<T>(s: System<T>)
    requires Inv(s) && Step(s, MainTurn).Moved?
    ensures Inv(Step(s, MainTurn).next)
  {
    MainLogs(s);
    MainLocks(s);
    MainPhases(s);
    MainWakeups(s);
  }

  lemma SpuriousKeeps<T>(s: System<T>, w: nat)
    requires Inv(s) && Step(s, Spurious(w)).Moved?
    ensures Inv(Step(s, Spurious(w)).next)
  {
    SpuriousLogs(s, w);
    SpuriousLocks(s, w);
    SpuriousPhases(s, w);
    SpuriousWakeups(s, w);
  }

  /** The queue is never popped while empty. */
  lemma NoCrash<T>(s: System<T>, a: Action)
    requires Phases(s)
    ensures Step(s, a) != Crash
  {
    if a.WorkerTurn? && a.w < |s.pool.workers| {
      assert WorkerPhase(s, s.pool.workers[a.w]);
    }
  }

  lemma StepKeeps<T>(s: System<T>, a: Action)
    requires Inv(s)
    ensures Step(s, a) != Crash
    ensures Step(s, a).Moved? ==> Inv(Step(s, a).next)
  {
    NoCrash(s, a);
    if Step(s, a).Moved? {
      match a
      case WorkerTurn(w) => WorkerKeeps(s, w);
      case ClientTurn(c, choice) => ClientKeeps(s, c, choice);
      case MainTurn => MainKeeps(s);
      case Spurious(w) => SpuriousKeeps(s, w);
    }
  }

  lemma {:induction false} ExecInv<T>(s: System<T>, schedule: seq<Action>)
    requires Initial(s)
    ensures Inv(Exec(s, schedule))
    decreases |schedule|
  {
    if schedule == [] {
      InitialInv(s);
    } else {
      var before := schedule[..|schedule| - 1];
      ExecInv(s, before);
      StepKeeps(Exec(s, before), schedule[|schedule| - 1]);
    }
  }
}
