/** What the pool promises over whole runs: no wakeup is lost, shutdown drains the queue,
    every task is executed once, and every run comes to an end. */
module PoolProgress {
  import opened Sync
  import opened Counting
  import opened ThreadPool
  import opened PoolProtocol

  // ---------------------------------------------------------------- wakeups

  /** Woken workers that have not yet re-acquired the mutex. */
  function IsWoken<T>(x: Worker<T>): nat { if x.at == Woken then 1 else 0 }

  lemma {:induction false} SumEqual<X>(xs: seq<X>, f: X -> nat, g: X -> nat)
    requires forall i | 0 <= i < |xs| :: f(xs[i]) == g(xs[i])
    ensures Sum(xs, f) == Sum(xs, g)
  {
    if xs != [] {
      SumEqual(xs[1..], f, g);
    }
  }

  /** In every interleaving, spurious wakeups included, whenever the mutex is free: while
      some worker sleeps on, each queued task has a woken worker of its own coming for it,
      and the sleep counter is the number of workers in the wait set or on their way out. */
  lemma NoWakeupIsLost<T>(s: System<T>, schedule: seq<Action>)
    requires Initial(s)
    ensures var r := Exec(s, schedule);
            && r.pool.sleepers == Sum(r.pool.workers, Counted)
            && (r.pool.mutex == None && SomeoneWaits(r.pool) ==>
                  |r.pool.tasks| <= Sum(r.pool.workers, IsWoken))
  {
    ExecInv(s, schedule);
    var r := Exec(s, schedule);
    if r.pool.mutex == None {
      forall w | 0 <= w < |r.pool.workers|
        ensures Rechecking(r.pool.workers[w]) == IsWoken(r.pool.workers[w])
      {
        assert !WorkerHolds(r.pool.workers[w].at);
      }
      SumEqual(r.pool.workers, Rechecking, IsWoken);
    }
  }

  lemma NeverCrashes<T>(s: System<T>, schedule: seq<Action>, a: Action)
    requires Initial(s)
    ensures Step(Exec(s, schedule), a) != Crash
  {
    ExecInv(s, schedule);
    StepKeeps(Exec(s, schedule), a);
  }

  // ---------------------------------------------------------------- shutdown

  predicate Leaving(at: WorkerAt) { at == Quit || at == Done }

  /** All workers have decided to exit. */
  ghost predicate AllLeaving<T>(s: System<T>) {
    forall w | 0 <= w < |s.pool.workers| :: Leaving(s.pool.workers[w].at)
  }

  /** Once main is past the broadcast of Stop the wait set is empty and stays empty, and a
      worker leaves only when it has seen the queue empty. */
  lemma ShutdownIsQuiet<T>(s: System<T>, schedule: seq<Action>, w: nat)
    requires Initial(s) && w < |Exec(s, schedule).pool.workers|
    ensures var r := Exec(s, schedule);
            && (MainBroadcast(r.main) ==> r.pool.workers[w].at != Waiting)
            && (r.pool.workers[w].at == Quit ==> r.pool.tasks == [] && !r.pool.running)
            && (Leaving(r.pool.workers[w].at) ==> MainStopped(r.main))
            && (r.main == Returned ==> r.pool.workers[w].at == Done)
  {
    ExecInv(s, schedule);
    var r := Exec(s, schedule);
    assert WorkerPhase(r, r.pool.workers[w]);
  }

  /** Logs only grow; nobody joins or leaves the thread tables. */
  lemma StepGrows<T>(s: System<T>, a: Action)
    requires Step(s, a).Moved?
    ensures var r := Step(s, a).next;
            && |r.pool.workers| == |s.pool.workers| && |r.clients| == |s.clients|
            && s.enqueued <= r.enqueued && s.dequeued <= r.dequeued
  {
    match a
    case WorkerTurn(w) => WorkerTable(s.pool, w);
    case _ =>
  }

  lemma OnlyDecidingLeaves<T>(s: System<T>, a: Action, w: nat)
    requires Step(s, a).Moved? && w < |s.pool.workers| && w < |Step(s, a).next.pool.workers|
    requires !Leaving(s.pool.workers[w].at) && Leaving(Step(s, a).next.pool.workers[w].at)
    ensures s.pool.workers[w].at == Decide && s.pool.tasks == [] && Step(s, a).next.dequeued == s.dequeued
  {
    if a.WorkerTurn? {
      WorkerTable(s.pool, a.w);
    }
  }

  /** One step towards: what was enqueued while a worker was still to leave gets dequeued. */
  lemma LeavingStep<T>(s: System<T>, a: Action, n: nat)
    requires Logs(s) && Step(s, a).Moved? && n <= |s.enqueued|
    requires AllLeaving(s) ==> n <= |s.dequeued|
    ensures var r := Step(s, a).next; n <= |r.enqueued| && (AllLeaving(r) ==> n <= |r.dequeued|)
  {
    var r := Step(s, a).next;
    StepGrows(s, a);
    if AllLeaving(r) && !AllLeaving(s) {
      var w :| 0 <= w < |s.pool.workers| && !Leaving(s.pool.workers[w].at);
      OnlyDecidingLeaves(s, a, w);
    }
  }

  lemma {:induction false} LeavingDrains<T>(s: System<T>, a: seq<Action>, b: seq<Action>)
    requires Initial(s) && !AllLeaving(Exec(s, a))
    ensures var n, r := |Exec(s, a).enqueued|, Exec(s, a + b);
            n <= |r.enqueued| && (AllLeaving(r) ==> n <= |r.dequeued|)
    decreases |b|
  {
    if b == [] {
      assert a + b == a;
    } else {
      var before, last := b[..|b| - 1], b[|b| - 1];
      assert (a + b)[..|a + b| - 1] == a + before;
      LeavingDrains(s, a, before);
      ExecInv(s, a + before);
      if Step(Exec(s, a + before), last).Moved? {
        LeavingStep(Exec(s, a + before), last, |Exec(s, a).enqueued|);
      }
    }
  }

  lemma {:induction false} LogsGrow<T>(s: System<T>, a: seq<Action>, b: seq<Action>)
    ensures Exec(s, a).enqueued <= Exec(s, a + b).enqueued
    decreases |b|
  {
    if b == [] {
      assert a + b == a;
    } else {
      assert (a + b)[..|a + b| - 1] == a + b[..|b| - 1];
      LogsGrow(s, a, b[..|b| - 1]);
      if Step(Exec(s, a + b[..|b| - 1]), b[|b| - 1]).Moved? {
        StepGrows(Exec(s, a + b[..|b| - 1]), b[|b| - 1]);
      }
    }
  }

  /** When Wait has returned nobody holds a task, so what was dequeued has been executed. */
  lemma ReturnedExecuted<T>(s: System<T>)
    requires Phases(s) && Logs(s) && s.main == Returned
    ensures AllLeaving(s) && multiset(s.executed) == multiset(s.dequeued)
  {
    forall w | 0 <= w < |s.pool.workers|
      ensures s.pool.workers[w].at == Done && s.pool.workers[w].hand == None
    {
      assert WorkerPhase(s, s.pool.workers[w]);
    }
    InHandNone(s.pool.workers);
  }

  lemma PrefixBag<T>(a: seq<T>, b: seq<T>, c: seq<T>)
    requires a <= c && b <= c && |a| <= |b|
    ensures multiset(a) <= multiset(b)
  {
    assert b == a + b[|a|..];
  }

  /** Wait returns only after every task that was in the queue, or had been through it, at
      any moment before the last worker decided to exit has been executed. */
  lemma WaitReturnsAfterAll<T>(s: System<T>, a: seq<Action>, b: seq<Action>)
    requires Initial(s) && !AllLeaving(Exec(s, a)) && Exec(s, a + b).main == Returned
    ensures multiset(Exec(s, a).enqueued) <= multiset(Exec(s, a + b).executed)
  {
    var m, r := Exec(s, a), Exec(s, a + b);
    ExecInv(s, a + b);
    ReturnedExecuted(r);
    LeavingDrains(s, a, b);
    LogsGrow(s, a, b);
    PrefixBag(m.enqueued, r.dequeued, r.enqueued);
  }

  /** In particular every task enqueued by the time Stop clears the running flag. */
  lemma StopDrains<T>(s: System<T>, a: seq<Action>, b: seq<Action>)
    requires Initial(s) && !MainStopped(Exec(s, a).main) && Exec(s, a + b).main == Returned
    ensures multiset(Exec(s, a).enqueued) <= multiset(Exec(s, a + b).executed)
  {
    ExecInv(s, a);
    ExecWorkers(s, a);
    var m := Exec(s, a);
    assert WorkerPhase(m, m.pool.workers[0]);
    assert !Leaving(m.pool.workers[0].at);
    WaitReturnsAfterAll(s, a, b);
  }

  lemma {:induction false} ExecWorkers<T>(s: System<T>, schedule: seq<Action>)
    ensures |Exec(s, schedule).pool.workers| == |s.pool.workers|
    ensures |Exec(s, schedule).clients| == |s.clients|
    decreases |schedule|
  {
    if schedule != [] {
      var before, last := schedule[..|schedule| - 1], schedule[|schedule| - 1];
      ExecWorkers(s, before);
      if Step(Exec(s, before), last).Moved? {
        StepGrows(Exec(s, before), last);
      }
    }
  }

  // ---------------------------------------------------------------- exactly once

  /** Tasks of a client that it has not pushed yet. */
  function Pending<T>(c: Client<T>): seq<T> {
    if (c.at == Signal || c.at == Unlock) && c.todo != [] then c.todo[1..] else c.todo
  }

  function AllPending<T>(clients: seq<Client<T>>): multiset<T> {
    if clients == [] then multiset{} else multiset(Pending(clients[0])) + AllPending(clients[1..])
  }

  lemma {:induction false} PendingUpdate<T>(clients: seq<Client<T>>, c: nat, x: Client<T>)
    requires c < |clients|
    ensures AllPending(clients[c := x]) + multiset(Pending(clients[c])) == AllPending(clients) + multiset(Pending(x))
  {
    var rest := clients[1..];
    if c == 0 {
      assert clients[c := x][1..] == rest;
    } else {
      assert clients[c := x][1..] == rest[c - 1 := x];
      PendingUpdate(rest, c - 1, x);
      Exchange(multiset(Pending(clients[0])), AllPending(rest[c - 1 := x]), multiset(Pending(clients[c])),
               multiset(Pending(x)), AllPending(rest));
    }
  }

  lemma HeadBag<T>(todo: seq<T>)
    requires todo != []
    ensures multiset(todo) == multiset{todo[0]} + multiset(todo[1..])
  {
    assert todo == [todo[0]] + todo[1..];
  }

  lemma PushPending<T>(clients: seq<Client<T>>, c: nat, log: seq<T>)
    requires c < |clients| && clients[c].at == Push && clients[c].todo != []
    ensures var x' := Client(Signal, clients[c].todo);
            multiset(log + [x'.todo[0]]) + AllPending(clients[c := x']) == multiset(log) + AllPending(clients)
  {
    var x, x' := clients[c], Client(Signal, clients[c].todo);
    PendingUpdate(clients, c, x');
    HeadBag(x.todo);
    MoveFront(log, x.todo);
    Shift(multiset(log), multiset{x.todo[0]}, multiset(x.todo[1..]), AllPending(clients), AllPending(clients[c := x']));
  }

  lemma SamePending<T>(clients: seq<Client<T>>, c: nat, x: Client<T>)
    requires c < |clients| && Pending(x) == Pending(clients[c])
    ensures AllPending(clients[c := x]) == AllPending(clients)
  {
    PendingUpdate(clients, c, x);
    Cancel(AllPending(clients[c := x]), AllPending(clients), multiset(Pending(x)));
  }

  lemma ClientTable<T>(s: System<T>, c: nat, choice: nat)
    requires Step(s, ClientTurn(c, choice)).Moved?
    ensures var r := Step(s, ClientTurn(c, choice)).next;
            && c < |s.clients| && s.clients[c].todo != [] && c < |r.clients|
            && r.clients == s.clients[c := r.clients[c]]
            && (if s.clients[c].at == Push
                then r.clients[c] == Client(Signal, s.clients[c].todo) && r.enqueued == s.enqueued + [s.clients[c].todo[0]]
                else Pending(r.clients[c]) == Pending(s.clients[c]) && r.enqueued == s.enqueued)
  {
  }

  lemma ClientConserves<T>(s: System<T>, c: nat, choice: nat)
    requires Step(s, ClientTurn(c, choice)).Moved?
    ensures var r := Step(s, ClientTurn(c, choice)).next;
            multiset(r.enqueued) + AllPending(r.clients) == multiset(s.enqueued) + AllPending(s.clients)
  {
    ClientTable(s, c, choice);
    if s.clients[c].at == Push {
      PushPending(s.clients, c, s.enqueued);
    } else {
      SamePending(s.clients, c, Step(s, ClientTurn(c, choice)).next.clients[c]);
    }
  }

  lemma PushConserves<T>(s: System<T>, a: Action)
    requires Step(s, a).Moved?
    ensures multiset(Step(s, a).next.enqueued) + AllPending(Step(s, a).next.clients)
            == multiset(s.enqueued) + AllPending(s.clients)
  {
    match a
    case ClientTurn(c, choice) => ClientConserves(s, c, choice);
    case _ =>
      assert Step(s, a).next.clients == s.clients;
  }

  lemma Shift<T>(e: multiset<T>, x: multiset<T>, p: multiset<T>, before: multiset<T>, after: multiset<T>)
    requires after + (x + p) == before + p
    ensures (e + x) + after == e + before
  {
    assert (after + x) + p == after + (x + p);
    Cancel(after + x, before, p);
    assert (e + x) + after == e + (after + x);
  }

  /** Conservation: in every interleaving each task of the scripts is in exactly one place:
      not yet pushed, queued, in the hand of a worker, or executed. */
  lemma {:induction false} TasksConserved<T>(s: System<T>, schedule: seq<Action>)
    requires Initial(s)
    ensures var r := Exec(s, schedule);
            && r.enqueued == r.dequeued + r.pool.tasks
            && multiset(r.executed) + InHand(r.pool.workers) + multiset(r.pool.tasks) + AllPending(r.clients)
               == AllPending(s.clients)
    decreases |schedule|
  {
    ExecInv(s, schedule);
    PushedConserved(s, schedule);
    var r := Exec(s, schedule);
    assert multiset(r.enqueued) == multiset(r.dequeued) + multiset(r.pool.tasks);
  }

  lemma {:induction false} PushedConserved<T>(s: System<T>, schedule: seq<Action>)
    requires s.enqueued == []
    ensures multiset(Exec(s, schedule).enqueued) + AllPending(Exec(s, schedule).clients) == AllPending(s.clients)
    decreases |schedule|
  {
    if schedule != [] {
      var before, last := schedule[..|schedule| - 1], schedule[|schedule| - 1];
      PushedConserved(s, before);
      if Step(Exec(s, before), last).Moved? {
        PushConserves(Exec(s, before), last);
      }
    }
  }

  // ---------------------------------------------------------------- every run ends

  /** Statements a worker can still execute before it is parked or done, given that queued
      tasks and pending wakeups are paid for elsewhere. */
  function WorkerRank<T>(x: Worker<T>): nat {
    match x.at
    case Done => 0
    case Waiting => 0
    case Quit => 1
    case Take => 1
    case CondWait => 1
    case CountUp => 2
    case Decide => 2
    case Test => 3
    case CountDown => 4
    case Fetch => 4
    case New => 4
    case Woken => 5
    case Work => 5
    case Release => 6
  }

  /** A call of Enqueue pays for itself, for the task it queues, and for one wakeup. */
  function ClientRank<T>(c: Client<T>): nat {
    if c.todo == [] then 0
    else
      16 * |c.todo| - match c.at
                      case Lock => 0
                      case Push => 1
                      case Signal => 8
                      case Unlock => 14
  }

  /** Main pays for waking every worker in its broadcast. */
  function MainRank(at: MainAt, n: nat): nat {
    match at
    case Returned => 0
    case Join(i) => if i <= n then n - i + 1 else 1
    case StopUnlock => n + 2
    case StopBroadcast => 6 * n + 3
    case StopClear => 6 * n + 4
    case StopLock => 6 * n + 5
    case Create(i) => 6 * n + 6 + (if i <= n then n - i else 0)
    case Start => 7 * n + 7
  }

  function Work<T>(s: System<T>): nat {
    Sum(s.pool.workers, WorkerRank) + 6 * |s.pool.tasks| + Sum(s.clients, ClientRank)
    + MainRank(s.main, |s.pool.workers|)
  }

  lemma {:induction false} WakeAllRank<T>(workers: seq<Worker<T>>)
    ensures Sum(WakeAll(workers), WorkerRank) <= Sum(workers, WorkerRank) + 5 * |workers|
  {
    if workers != [] {
      assert WakeAll(workers)[1..] == WakeAll(workers[1..]);
      WakeAllRank(workers[1..]);
    }
  }

  lemma WorkerRankStep<T>(p: Pool<T>, w: nat)
    requires WorkerStep(p, w).Moved?
    ensures var p' := WorkerStep(p, w).next;
            && w < |p.workers| && w < |p'.workers|
            && WorkerRank(p'.workers[w]) + 6 * |p'.tasks| < WorkerRank(p.workers[w]) + 6 * |p.tasks|
  {
  }

  lemma WorkerWork<T>(s: System<T>, w: nat)
    requires Step(s, WorkerTurn(w)).Moved?
    ensures Work(Step(s, WorkerTurn(w)).next) < Work(s)
  {
    var p' := Step(s, WorkerTurn(w)).next.pool;
    WorkerTable(s.pool, w);
    WorkerRankStep(s.pool, w);
    SumUpdate(s.pool.workers, w, p'.workers[w], WorkerRank);
  }

  lemma SpuriousRank<T>(p: Pool<T>, w: nat)
    requires SpuriousStep(p, w).Moved?
    ensures |SpuriousStep(p, w).next.workers| == |p.workers|
    ensures Sum(SpuriousStep(p, w).next.workers, WorkerRank) == Sum(p.workers, WorkerRank) + 5
  {
    SumUpdate(p.workers, w, SpuriousStep(p, w).next.workers[w], WorkerRank);
  }

  lemma ClientWork<T>(s: System<T>, c: nat, choice: nat)
    requires Step(s, ClientTurn(c, choice)).Moved?
    ensures Work(Step(s, ClientTurn(c, choice)).next) < Work(s)
  {
    var r := Step(s, ClientTurn(c, choice)).next;
    SumUpdate(s.clients, c, r.clients[c], ClientRank);
    if s.clients[c].at == Signal && s.pool.sleepers > 0 && SomeoneWaits(s.pool) {
      SpuriousRank(s.pool, choice);
    }
  }

  lemma CreateWork<T>(s: System<T>, i: nat)
    requires s.main == Create(i) && i < |s.pool.workers| && s.pool.workers[i].at == New
    ensures Work(Step(s, MainTurn).next) < Work(s)
  {
    SumUpdate(s.pool.workers, i, s.pool.workers[i].(at := Fetch), WorkerRank);
  }

  lemma BroadcastWork<T>(s: System<T>)
    requires s.main == StopBroadcast
    ensures Work(Step(s, MainTurn).next) < Work(s)
  {
    WakeAllRank(s.pool.workers);
  }

  lemma MainWork<T>(s: System<T>)
    requires Phases(s) && Step(s, MainTurn).Moved?
    ensures Work(Step(s, MainTurn).next) < Work(s)
  {
    if s.main.Create? && s.main.next < |s.pool.workers| {
      CreateWork(s, s.main.next);
    } else if s.main == StopBroadcast {
      BroadcastWork(s);
    } else {
      MainKeepsWorkers(s.pool, s.main);
    }
  }

  /** Numbers of proper moves and of spurious wakeups along a run. */
  function Moves<T>(s: System<T>, schedule: seq<Action>, spurious: bool): nat
    decreases |schedule|
  {
    if schedule == [] then 0
    else
      var before, last := schedule[..|schedule| - 1], schedule[|schedule| - 1];
      Moves(s, before, spurious)
      + if Step(Exec(s, before), last).Moved? && last.Spurious? == spurious then 1 else 0
  }

  /** Every proper move is paid for by the work there was at the start, or by a spurious
      wakeup. */
  lemma {:induction false} MovesArePaid<T>(s: System<T>, schedule: seq<Action>)
    requires Initial(s)
    ensures Moves(s, schedule, false) + Work(Exec(s, schedule)) <= Work(s) + 5 * Moves(s, schedule, true)
    decreases |schedule|
  {
    if schedule != [] {
      var before, last := schedule[..|schedule| - 1], schedule[|schedule| - 1];
      MovesArePaid(s, before);
      ExecInv(s, before);
      var b := Exec(s, before);
      if Step(b, last).Moved? {
        match last
        case WorkerTurn(w) => WorkerWork(b, w);
        case ClientTurn(c, choice) => ClientWork(b, c, choice);
        case MainTurn => MainWork(b);
        case Spurious(w) => SpuriousRank(b.pool, w);
      }
    }
  }

  lemma {:induction false} InitialWorkers<T>(workers: seq<Worker<T>>)
    requires forall w | 0 <= w < |workers| :: workers[w].at == New
    ensures Sum(workers, WorkerRank) == 4 * |workers|
  {
    if workers != [] {
      InitialWorkers(workers[1..]);
    }
  }

  lemma {:induction false} InitialClients<T>(clients: seq<Client<T>>)
    requires forall c | 0 <= c < |clients| :: clients[c].at == Lock
    ensures Sum(clients, ClientRank) == 16 * |AllPending(clients)|
  {
    if clients != [] {
      InitialClients(clients[1..]);
      assert Pending(clients[0]) == clients[0].todo;
    }
  }

  /** Every run is finite: n workers and k tasks allow at most 11n + 16k + 7 proper moves, and
      each spurious wakeup at most five more. */
  lemma RunsAreFinite<T>(s: System<T>, schedule: seq<Action>)
    requires Initial(s)
    ensures Moves(s, schedule, false) + Work(Exec(s, schedule))
            <= 11 * |s.pool.workers| + 16 * |AllPending(s.clients)| + 7 + 5 * Moves(s, schedule, true)
  {
    MovesArePaid(s, schedule);
    InitialWorkers(s.pool.workers);
    InitialClients(s.clients);
  }

  /** After the broadcast of Stop no wakeup is spurious any more, so what remains shrinks with
      every single move. */
  lemma AfterStopEveryMoveCounts<T>(s: System<T>, schedule: seq<Action>, a: Action)
    requires Initial(s) && MainBroadcast(Exec(s, schedule).main) && Step(Exec(s, schedule), a).Moved?
    ensures !a.Spurious? && Work(Step(Exec(s, schedule), a).next) < Work(Exec(s, schedule))
  {
    ExecInv(s, schedule);
    var r := Exec(s, schedule);
    NoSpuriousAfterStop(r, a);
    match a
    case WorkerTurn(w) => WorkerWork(r, w);
    case ClientTurn(c, choice) => ClientWork(r, c, choice);
    case MainTurn => MainWork(r);
    case Spurious(w) => assert false;
  }

  lemma NoSpuriousAfterStop<T>(s: System<T>, a: Action)
    requires Phases(s) && MainBroadcast(s.main) && Step(s, a).Moved?
    ensures !a.Spurious?
  {
    assert forall w | 0 <= w < |s.pool.workers| :: WorkerPhase(s, s.pool.workers[w]);
  }

  // ---------------------------------------------------------------- no run gets stuck

  ghost predicate Finished<T>(s: System<T>) {
    && s.main == Returned
    && (forall w | 0 <= w < |s.pool.workers| :: s.pool.workers[w].at == Done)
    && (forall c | 0 <= c < |s.clients| :: s.clients[c].todo == [])
  }

  /** Some thread can execute its next statement without any spurious wakeup. */
  ghost predicate CanMove<T>(s: System<T>) {
    exists a: Action :: !a.Spurious? && Step(s, a).Moved?
  }

  lemma HolderMoves<T>(s: System<T>)
    requires Locks(s) && Phases(s) && s.pool.mutex.Some?
    ensures CanMove(s)
  {
    match s.pool.mutex.value
    case MainThread => assert Step(s, MainTurn).Moved?;
    case WorkerThread(w) =>
      assert WorkerPhase(s, s.pool.workers[w]);
      assert Step(s, WorkerTurn(w)).Moved?;
    case ClientThread(c) =>
      if w :| 0 <= w < |s.pool.workers| && s.pool.workers[w].at == Waiting {
        assert Step(s, ClientTurn(c, w)).Moved?;
      } else {
        assert Step(s, ClientTurn(c, 0)).Moved?;
      }
  }

  lemma FreeMoves<T>(s: System<T>)
    requires Locks(s) && Phases(s) && s.pool.mutex == None && !Finished(s)
    ensures CanMove(s)
  {
    if c :| 0 <= c < |s.clients| && s.clients[c].todo != [] {
      assert Step(s, ClientTurn(c, 0)).Moved?;
    } else if s.main.Join? && s.main.next < |s.pool.workers| && s.pool.workers[s.main.next].at != Done {
      var w := s.main.next;
      assert WorkerPhase(s, s.pool.workers[w]);
      assert !WorkerHolds(s.pool.workers[w].at);
      assert Step(s, WorkerTurn(w)).Moved?;
    } else {
      assert s.main != Returned;
      assert Step(s, MainTurn).Moved?;
    }
  }

  /** From every reachable state the program can go on until everything is done: main has
      returned from Wait, every worker has exited and every client call has returned. */
  lemma NeverStuck<T>(s: System<T>, schedule: seq<Action>)
    requires Initial(s) && !Finished(Exec(s, schedule))
    ensures CanMove(Exec(s, schedule))
  {
    ExecInv(s, schedule);
    var r := Exec(s, schedule);
    if r.pool.mutex.Some? {
      HolderMoves(r);
    } else {
      FreeMoves(r);
    }
  }

  // ---------------------------------------------------------------- what a finished run has executed

  lemma LeavingIsStopped<T>(s: System<T>)
    requires Phases(s) && AllLeaving(s) && |s.pool.workers| >= 1
    ensures MainStopped(s.main)
  {
    assert WorkerPhase(s, s.pool.workers[0]);
  }

  lemma LeftStep<T>(s: System<T>, a: Action)
    requires AllLeaving(s) && Step(s, a).Moved? && MainStopped(s.main)
    ensures AllLeaving(Step(s, a).next) && Step(s, a).next.dequeued == s.dequeued
  {
  }

  lemma {:induction false} LeavingStays<T>(s: System<T>, a: seq<Action>, b: seq<Action>)
    requires Initial(s) && AllLeaving(Exec(s, a))
    ensures AllLeaving(Exec(s, a + b)) && Exec(s, a + b).dequeued == Exec(s, a).dequeued
    decreases |b|
  {
    if b == [] {
      assert a + b == a;
    } else {
      var before, last := b[..|b| - 1], b[|b| - 1];
      assert (a + b)[..|a + b| - 1] == a + before;
      LeavingStays(s, a, before);
      ExecInv(s, a + before);
      ExecWorkers(s, a + before);
      LeavingIsStopped(Exec(s, a + before));
      if Step(Exec(s, a + before), last).Moved? {
        LeftStep(Exec(s, a + before), last);
      }
    }
  }

  /** The turn at which the last worker decides to leave. */
  lemma {:induction false} LastToLeave<T>(s: System<T>, schedule: seq<Action>) returns (k: nat)
    requires Initial(s) && AllLeaving(Exec(s, schedule))
    ensures k < |schedule|
    ensures !AllLeaving(Exec(s, schedule[..k])) && AllLeaving(Exec(s, schedule[..k + 1]))
    decreases |schedule|
  {
    assert !AllLeaving(s) by {
      assert !Leaving(s.pool.workers[0].at);
    }
    if schedule == [] {
      assert false;
    } else {
      var n := |schedule| - 1;
      assert schedule[..n + 1] == schedule;
      if AllLeaving(Exec(s, schedule[..n])) {
        k := LastToLeave(s, schedule[..n]);
        assert schedule[..n][..k] == schedule[..k] && schedule[..n][..k + 1] == schedule[..k + 1];
      } else {
        k := n;
      }
    }
  }

  lemma LeavingEnqueuesNothing<T>(s: System<T>, a: Action)
    requires Step(s, a).Moved? && !AllLeaving(s) && AllLeaving(Step(s, a).next)
    ensures Step(s, a).next.enqueued == s.enqueued
  {
    StepGrows(s, a);
    var w :| 0 <= w < |s.pool.workers| && !Leaving(s.pool.workers[w].at);
    OnlyDecidingLeaves(s, a, w);
  }

  /** When the program has finished, every task of every script has been executed exactly once
      if and only if no task was enqueued after the last worker had decided to exit. */
  lemma ExactlyOnceIff<T>(s: System<T>, schedule: seq<Action>)
    requires Initial(s) && Finished(Exec(s, schedule))
    ensures var r := Exec(s, schedule);
            multiset(r.executed) == AllPending(s.clients) <==>
            forall k | 0 <= k <= |schedule| && AllLeaving(Exec(s, schedule[..k])) ::
              Exec(s, schedule[..k]).enqueued == r.enqueued
  {
    var r := Exec(s, schedule);
    ExecInv(s, schedule);
    ReturnedExecuted(r);
    FinishedRunsExecute(s, schedule);
    if r.pool.tasks == [] {
      forall k | 0 <= k <= |schedule| && AllLeaving(Exec(s, schedule[..k]))
        ensures Exec(s, schedule[..k]).enqueued == r.enqueued
      {
        NothingLate(s, schedule, k);
      }
    } else {
      var k := LastToLeave(s, schedule);
      SomethingLate(s, schedule, k);
    }
  }

  lemma NothingLate<T>(s: System<T>, schedule: seq<Action>, k: nat)
    requires Initial(s) && k <= |schedule| && AllLeaving(Exec(s, schedule[..k]))
    requires Exec(s, schedule).pool.tasks == [] && Logs(Exec(s, schedule))
    ensures Exec(s, schedule[..k]).enqueued == Exec(s, schedule).enqueued
  {
    hide Exec, Locks, SleepCount, NoLostWakeup, Phases, AllLeaving;
    var a, b := schedule[..k], schedule[k..];
    assert a + b == schedule;
    LeavingStays(s, a, b);
    LogsGrow(s, a, b);
    ExecInv(s, a);
    DrainedLogs(Exec(s, a), Exec(s, schedule));
  }

  lemma DrainedLogs<T>(m: System<T>, r: System<T>)
    requires Logs(m) && Logs(r) && r.pool.tasks == []
    requires m.dequeued == r.dequeued && m.enqueued <= r.enqueued
    ensures m.enqueued == r.enqueued
  {
    assert |r.enqueued| == |r.dequeued| <= |m.enqueued|;
  }

  lemma LeaverEnqueuesNothing<T>(s: System<T>, schedule: seq<Action>, k: nat)
    requires k < |schedule| && !AllLeaving(Exec(s, schedule[..k])) && AllLeaving(Exec(s, schedule[..k + 1]))
    ensures Exec(s, schedule[..k + 1]).enqueued == Exec(s, schedule[..k]).enqueued
  {
    assert schedule[..k + 1][..k] == schedule[..k];
    if Step(Exec(s, schedule[..k]), schedule[k]).Moved? {
      LeavingEnqueuesNothing(Exec(s, schedule[..k]), schedule[k]);
    }
  }

  lemma SomethingLate<T>(s: System<T>, schedule: seq<Action>, k: nat)
    requires Initial(s) && k < |schedule| && !AllLeaving(Exec(s, schedule[..k])) && AllLeaving(Exec(s, schedule[..k + 1]))
    requires AllLeaving(Exec(s, schedule)) && Exec(s, schedule).pool.tasks != [] && Logs(Exec(s, schedule))
    ensures Exec(s, schedule[..k + 1]).enqueued != Exec(s, schedule).enqueued
  {
    LeaverEnqueuesNothing(s, schedule, k);
    assert schedule[..k] + schedule[k..] == schedule;
    LeavingDrains(s, schedule[..k], schedule[k..]);
    var r := Exec(s, schedule);
    assert |r.enqueued| == |r.dequeued| + |r.pool.tasks|;
  }

  lemma FinishedRunsExecute<T>(s: System<T>, schedule: seq<Action>)
    requires Initial(s) && Finished(Exec(s, schedule))
    ensures var r := Exec(s, schedule);
            multiset(r.executed) == AllPending(s.clients) <==> r.pool.tasks == []
  {
    var r := Exec(s, schedule);
    ExecInv(s, schedule);
    TasksConserved(s, schedule);
    assert forall w | 0 <= w < |r.pool.workers| :: WorkerPhase(r, r.pool.workers[w]);
    InHandNone(r.pool.workers);
    NothingPending(r.clients);
    NothingLeft(multiset(r.executed), r.pool.tasks, AllPending(s.clients));
  }

  lemma NothingLeft<T>(done: multiset<T>, left: seq<T>, all: multiset<T>)
    requires done + multiset{} + multiset(left) + multiset{} == all
    ensures done == all <==> left == []
  {
    assert all == done + multiset(left);
    assert |all| == |done| + |left|;
  }

  lemma {:induction false} NothingPending<T>(clients: seq<Client<T>>)
    requires forall c | 0 <= c < |clients| :: clients[c].todo == []
    ensures AllPending(clients) == multiset{}
  {
    if clients != [] {
      NothingPending(clients[1..]);
    }
  }
}
