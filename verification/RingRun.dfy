/** The queue object of RingQueue, with its real vector, driven by interleaved threads. */
module RingRun {
  import opened Sync
  import opened RingQueue
  import opened RingProtocol

  class Run<T> {
    const ring: RingQueue<T>
    const threads: array<Thread<T>>
    ghost var written: seq<Entry<T>>
    ghost var popped: seq<Entry<T>>

    ghost const Repr: set<object> := {this, threads} + ring.Repr

    ghost predicate Valid()
      reads Repr
    {
      ring.Valid() && threads !in ring.Repr && this !in ring.Repr
    }

    ghost function View(): System<T>
      reads Repr
    {
      System(ring.View(), threads[..], written, popped)
    }

    /** `calls` says, for each thread, which operation it repeats and how often. */
    constructor (cap: nat, fill: T, calls: seq<Thread<T>>)
      requires cap >= 1
      requires forall t | 0 <= t < |calls| :: calls[t].at == Lock
      ensures Valid() && fresh(Repr) && Initial(View())
      ensures View().threads == calls && |View().ring.buf| == cap
    {
      ring := new RingQueue(cap, fill);
      threads := new Thread<T>[|calls|](i requires 0 <= i < |calls| => calls[i]);
      written, popped := [], [];
      new;
      assert threads[..] == calls;
    }

    /** One turn of thread `t`. */
    method Turn(t: Tid)
      requires Valid() && Step(View(), t) != Crash
      modifies Repr
      ensures Valid()
      ensures View() == After(old(View()), t)
    {
      if t < threads.Length {
        match threads[t] {
          case Producer(at, todo) =>
            if todo != [] {
              var passed := ring.EnqueueAt(t, at, todo[0]);
              if passed {
                threads[t] := Producer(Following(at), if at == Unlock then todo[1..] else todo);
                if at == Copy {
                  written := written + [Entry(t, todo[0])];
                }
              }
            }
          case Consumer(at, pops) =>
            if pops > 0 {
              var passed, out := ring.PopAt(t, at);
              if passed {
                threads[t] := Consumer(Following(at), if at == Unlock then pops - 1 else pops);
                if at == Copy {
                  popped := popped + [Entry(t, out.value)];
                }
              }
            }
        }
      }
    }

    /** A whole interleaving, in place. Whatever the schedule, it computes the state the
        lemmas about `Exec` speak of, and what came out is a prefix of what went in. */
    method Interleave(schedule: seq<Tid>)
      requires Valid() && Initial(View())
      modifies Repr
      ensures Valid()
      ensures View() == Exec(old(View()), schedule)
      ensures Values(popped) <= Values(written)
    {
      ghost var start := View();
      for i := 0 to |schedule|
        invariant Valid()
        invariant View() == Exec(start, schedule[..i])
      {
        NeverCrashes(start, schedule[..i], schedule[i]);
        assert schedule[..i + 1][..i] == schedule[..i];
        Turn(schedule[i]);
      }
      assert schedule[..|schedule|] == schedule;
      PoppedIsPrefix(start, schedule);
    }
  }
}
