/** What callers of the pool have to see to: a task enqueued too late is never executed, and
    tasks enqueued before Stop always are. */
module PoolLimits {
  import opened Sync
  import opened ThreadPool
  import opened PoolProtocol
  import opened PoolProgress

  // ---------------------------------------------------------------- in time

  lemma {:induction false} AllPushed<T>(clients: seq<Client<T>>)
    requires forall c | 0 <= c < |clients| :: Pending(clients[c]) == []
    ensures AllPending(clients) == multiset{}
  {
    if clients != [] {
      AllPushed(clients[1..]);
    }
  }

  /** If every client has pushed all its tasks before Stop clears the running flag, then when
      Wait returns every task has been executed exactly once. */
  lemma PushedInTimeExecutes<T>(s: System<T>, a: seq<Action>, b: seq<Action>)
    requires Initial(s) && !MainStopped(Exec(s, a).main) && Exec(s, a + b).main == Returned
    requires forall c | 0 <= c < |Exec(s, a).clients| :: Pending(Exec(s, a).clients[c]) == []
    ensures multiset(Exec(s, a + b).executed) == AllPending(s.clients)
  {
    hide Initial, Exec, AllPending, InHand;
    AllPushed(Exec(s, a).clients);
    EnqueuedByThen(s, a);
    StopDrains(s, a, b);
    TasksConserved(s, a + b);
    var r := Exec(s, a + b);
    Within(multiset(r.executed), InHand(r.pool.workers) + multiset(r.pool.tasks) + AllPending(r.clients), AllPending(s.clients));
  }

  lemma EnqueuedByThen<T>(s: System<T>, a: seq<Action>)
    requires Initial(s) && AllPending(Exec(s, a).clients) == multiset{}
    ensures multiset(Exec(s, a).enqueued) == AllPending(s.clients)
  {
    PushedConserved(s, a);
  }

  lemma Within<T>(done: multiset<T>, elsewhere: multiset<T>, all: multiset<T>)
    requires all <= done && done + elsewhere == all
    ensures done == all
  {
  }

  // ---------------------------------------------------------------- too late

  /** A finished program stays as it is. */
  lemma FinishedStays<T>(s: System<T>, a: Action)
    requires Finished(s)
    ensures Step(s, a) == Blocked
  {
  }

  lemma Next<T>(s: System<T>, before: seq<Action>, a: Action) returns (schedule: seq<Action>)
    requires Step(Exec(s, before), a).Moved?
    ensures Exec(s, schedule) == Step(Exec(s, before), a).next
  {
    schedule := before + [a];
    assert schedule[..|before|] == before;
  }

  /** One worker, one client with one task, and where main and the worker are. */
  function Small<T>(x: T, running: bool, mutex: Option<Who>, at: WorkerAt, main: MainAt): System<T> {
    System(Pool([], running, 0, mutex, [Worker(at, None)]), main, [Client(Lock, [x])], [], [], [])
  }

  /** Start and Stop, before the worker gets a turn. */
  lemma MainStops<T>(x: T) returns (schedule: seq<Action>)
    ensures Exec(Small(x, false, None, New, Start), schedule) == Small(x, false, None, Fetch, Join(0))
  {
    hide Exec;
    var s := Small(x, false, None, New, Start);
    schedule := [];
    assert Exec(s, schedule) == s by {
      NoTurns(s);
    }
    schedule := Next(s, schedule, MainTurn);
    schedule := Next(s, schedule, MainTurn);
    assert Exec(s, schedule) == Small(x, true, None, Fetch, Create(1));
    schedule := Next(s, schedule, MainTurn);
    schedule := Next(s, schedule, MainTurn);
    assert Exec(s, schedule) == Small(x, true, Some(MainThread), Fetch, StopClear);
    schedule := Next(s, schedule, MainTurn);
    schedule := Next(s, schedule, MainTurn);
    schedule := Next(s, schedule, MainTurn);
  }

  lemma NoTurns<T>(s: System<T>)
    ensures Exec(s, []) == s
  {
  }

  /** The worker sees the empty, stopped pool and exits; Wait returns. */
  lemma WorkerQuits<T>(x: T, s: System<T>, before: seq<Action>) returns (schedule: seq<Action>)
    requires Exec(s, before) == Small(x, false, None, Fetch, Join(0))
    ensures Exec(s, schedule) == Small(x, false, None, Done, Returned)
  {
    hide Exec;
    schedule := Next(s, before, WorkerTurn(0));
    assert Exec(s, schedule) == Small(x, false, Some(WorkerThread(0)), Test, Join(0));
    schedule := Next(s, schedule, WorkerTurn(0));
    schedule := Next(s, schedule, WorkerTurn(0));
    assert Exec(s, schedule) == Small(x, false, Some(WorkerThread(0)), Quit, Join(0));
    schedule := Next(s, schedule, WorkerTurn(0));
    assert Exec(s, schedule) == Small(x, false, None, Done, Join(0));
    schedule := Next(s, schedule, MainTurn);
    schedule := Next(s, schedule, MainTurn);
  }

  /** Enqueue on a pool whose worker has left. */
  lemma ClientPushes<T>(x: T, s: System<T>, before: seq<Action>) returns (schedule: seq<Action>)
    requires Exec(s, before) == Small(x, false, None, Done, Returned)
    ensures Exec(s, schedule)
            == System(Pool([x], false, 0, None, [Worker(Done, None)]), Returned, [Client(Lock, [])], [x], [], [])
  {
    hide Exec;
    schedule := Next(s, before, ClientTurn(0, 0));
    schedule := Next(s, schedule, ClientTurn(0, 0));
    assert Exec(s, schedule).pool == Pool([x], false, 0, Some(ClientThread(0)), [Worker(Done, None)]);
    assert Exec(s, schedule).clients == [Client(Signal, [x])];
    schedule := Next(s, schedule, ClientTurn(0, 0));
    schedule := Next(s, schedule, ClientTurn(0, 0));
    assert [x][1..] == [];
    assert Exec(s, schedule).clients == [Client(Lock, [])];
  }

  /** So a task enqueued after the last worker has left stays in the queue for ever: the
      program has finished, nothing in it can move, and the task has not been executed. */
  lemma LateTaskStays<T>(x: T) returns (s: System<T>, schedule: seq<Action>)
    ensures Initial(s) && |s.pool.workers| == 1 && s.clients == [Client(Lock, [x])]
    ensures var r := Exec(s, schedule);
            && Finished(r) && r.pool.tasks == [x] && r.executed == []
            && forall a: Action :: Step(r, a) == Blocked
  {
    hide Exec;
    s := Small(x, false, None, New, Start);
    schedule := MainStops(x);
    schedule := WorkerQuits(x, s, schedule);
    schedule := ClientPushes(x, s, schedule);
    forall a: Action
      ensures Step(Exec(s, schedule), a) == Blocked
    {
      FinishedStays(Exec(s, schedule), a);
    }
  }
}
