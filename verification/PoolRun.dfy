/** The pool object of ThreadPool driven by interleaved threads. */
module PoolRun {
  import opened Sync
  import opened ThreadPool
  import opened PoolProtocol
  import opened PoolProgress

  class Run<T> {
    const pool: ThreadPool<T>
    const clients: array<Client<T>>
    var main: MainAt
    ghost var enqueued: seq<T>
    ghost var dequeued: seq<T>
    ghost var executed: seq<T>

    ghost const Repr: set<object> := {this, clients} + pool.Repr

    ghost predicate Valid()
      reads Repr
    {
      clients !in pool.Repr && this !in pool.Repr
    }

    ghost function View(): System<T>
      reads Repr
    {
      System(pool.View(), main, clients[..], enqueued, dequeued, executed)
    }

    constructor (slaverNum: nat, scripts: seq<seq<T>>)
      requires slaverNum >= 1
      ensures Valid() && fresh(Repr) && Initial(View())
      ensures |View().pool.workers| == slaverNum
      ensures View().clients == seq(|scripts|, c requires 0 <= c < |scripts| => Client(Lock, scripts[c]))
    {
      pool := new ThreadPool(slaverNum);
      clients := new Client<T>[|scripts|](c requires 0 <= c < |scripts| => Client(Lock, scripts[c]));
      main := Start;
      enqueued, dequeued, executed := [], [], [];
      new;
      assert clients[..] == seq(|scripts|, c requires 0 <= c < |scripts| => Client(Lock, scripts[c]));
    }

    /** One action of the scheduler. */
    method Turn(a: Action)
      requires Valid() && Step(View(), a) != Crash
      modifies Repr
      ensures Valid()
      ensures View() == match Step(old(View()), a)
                        case Moved(s) => s
                        case _ => old(View())
    {
      match a
      case WorkerTurn(w) => WorkerTurns(w);
      case ClientTurn(c, choice) =>
        if c < clients.Length && clients[c].todo != [] {
          var Client(at, todo) := clients[c];
          var passed := pool.EnqueueAt(c, at, todo[0], choice);
          if passed {
            clients[c] := Client(Following(at), if at == Unlock then todo[1..] else todo);
            if at == Push {
              enqueued := enqueued + [todo[0]];
            }
          }
        }
      case MainTurn =>
        var passed, next := pool.StartStopWaitAt(main);
        if passed {
          main := next;
        }
      case Spurious(w) =>
        var _ := pool.WakeSpuriously(w);
    }

    method WorkerTurns(w: nat)
      requires Valid() && Step(View(), WorkerTurn(w)) != Crash
      modifies Repr
      ensures Valid()
      ensures View() == match Step(old(View()), WorkerTurn(w))
                        case Moved(s) => s
                        case _ => old(View())
    {
      ghost var before := pool.View();
      var passed := pool.HandlerTaskAt(w);
      if passed {
        ghost var x := before.workers[w];
        dequeued := if x.at == Take then dequeued + [before.tasks[0]] else dequeued;
        executed := if x.at == Work && x.hand.Some? then executed + [x.hand.value] else executed;
      }
    }

    /** A whole interleaving, in place; if it takes main past Wait, every task that any client
        had enqueued in the first `stop` turns, while the pool was still running, is done. */
    method Interleave(schedule: seq<Action>, ghost stop: nat)
      requires Valid() && Initial(View()) && stop <= |schedule|
      modifies Repr
      ensures Valid()
      ensures View() == Exec(old(View()), schedule)
      ensures !MainStopped(Exec(old(View()), schedule[..stop]).main) && main == Returned ==>
                multiset(Exec(old(View()), schedule[..stop]).enqueued) <= multiset(executed)
    {
      ghost var start := View();
      for i := 0 to |schedule|
        invariant Valid()
        invariant View() == Exec(start, schedule[..i])
      {
        NeverCrashes(start, schedule[..i], schedule[i]);
        assert schedule[..i + 1][..i] == schedule[..i];
        Turn(schedule[i]);
      }
      assert schedule[..|schedule|] == schedule;
      assert schedule[..stop] + schedule[stop..] == schedule;
      if !MainStopped(Exec(start, schedule[..stop]).main) && main == Returned {
        StopDrains(start, schedule[..stop], schedule[stop..]);
      }
    }
  }
}
