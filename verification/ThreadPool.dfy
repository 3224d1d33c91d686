/** thread5/ThreadPool.hpp with thread5/Cond.hpp, thread5/Mutex.hpp and thread5/Thread.hpp:
    the pool object, one atomic statement at a time. The condition variable behaves as
    POSIX.1-2017 describes pthread_cond_wait: releasing the mutex and joining the wait set
    is one step, a woken thread competes for the mutex again, and a thread may wake without
    having been signalled. */
module ThreadPool {
  import opened Sync

  datatype Who = MainThread | WorkerThread(w: nat) | ClientThread(c: nat)

  /** The statement of HandlerTask a worker is about to execute. `Waiting` is the wait set
      of the condition variable; `Woken` is out of it but has not re-acquired the mutex. */
  datatype WorkerAt =
    | New | Fetch | Test | CountUp | CondWait | Waiting | Woken | CountDown
    | Decide | Take | Release | Work | Quit | Done

  datatype Worker<T> = Worker(at: WorkerAt, hand: Option<T>)

  datatype ClientAt = Lock | Push | Signal | Unlock

  /** Main calls Start (which creates the workers in turn), Stop, and Wait (which joins them
      in turn). */
  datatype MainAt =
    | Start | Create(next: nat) | StopLock | StopClear | StopBroadcast | StopUnlock
    | Join(next: nat) | Returned

  datatype Pool<T> = Pool(
    tasks: seq<T>,
    running: bool,
    sleepers: int,
    mutex: Option<Who>,
    workers: seq<Worker<T>>)

  function MoveTo<T>(p: Pool<T>, w: nat, at: WorkerAt): Pool<T>
    requires w < |p.workers|
  {
    p.(workers := p.workers[w := p.workers[w].(at := at)])
  }

  function WorkerStep<T>(p: Pool<T>, w: nat): Outcome<Pool<T>> {
    if w >= |p.workers| then Blocked
    else
      var me := Some(WorkerThread(w));
      match p.workers[w].at
      case New => Blocked
      case Fetch => if p.mutex == None then Moved(MoveTo(p.(mutex := me), w, Test)) else Blocked
      case Test => Moved(MoveTo(p, w, if p.tasks == [] && p.running then CountUp else Decide))
      case CountUp => Moved(MoveTo(p.(sleepers := p.sleepers + 1), w, CondWait))
      case CondWait => Moved(MoveTo(p.(mutex := None), w, Waiting))
      case Waiting => Blocked
      case Woken => if p.mutex == None then Moved(MoveTo(p.(mutex := me), w, CountDown)) else Blocked
      case CountDown => Moved(MoveTo(p.(sleepers := p.sleepers - 1), w, Test))
      case Decide => Moved(MoveTo(p, w, if !p.running && p.tasks == [] then Quit else Take))
      case Take =>
        if p.tasks == [] then Crash
        else Moved(p.(tasks := p.tasks[1..], workers := p.workers[w := Worker(Release, Some(p.tasks[0]))]))
      case Release => Moved(MoveTo(p.(mutex := None), w, Work))
      case Work => Moved(p.(workers := p.workers[w := Worker(Fetch, None)]))
      case Quit => Moved(MoveTo(p.(mutex := None), w, Done))
      case Done => Blocked
  }

  /** A worker leaves the wait set although nobody signalled. */
  function SpuriousStep<T>(p: Pool<T>, w: nat): Outcome<Pool<T>> {
    if w < |p.workers| && p.workers[w].at == Waiting then Moved(MoveTo(p, w, Woken)) else Blocked
  }

  predicate SomeoneWaits<T>(p: Pool<T>) {
    exists w | 0 <= w < |p.workers| :: p.workers[w].at == Waiting
  }

  /** pthread_cond_signal: no effect on an empty wait set, otherwise it wakes a waiter; which
      one is not up to the caller, so the scheduler names it. */
  function SignalStep<T>(p: Pool<T>, choice: nat): Outcome<Pool<T>> {
    if !SomeoneWaits(p) then Moved(p) else SpuriousStep(p, choice)
  }

  function Wake<T>(x: Worker<T>): Worker<T> {
    if x.at == Waiting then x.(at := Woken) else x
  }

  /** pthread_cond_broadcast. */
  function WakeAll<T>(workers: seq<Worker<T>>): (r: seq<Worker<T>>)
    ensures |r| == |workers|
    ensures forall w | 0 <= w < |workers| :: r[w] == Wake(workers[w])
  {
    seq(|workers|, w requires 0 <= w < |workers| => Wake(workers[w]))
  }

  /** Enqueue(input) called by client `c`. */
  function EnqueueStep<T>(p: Pool<T>, c: nat, at: ClientAt, input: T, choice: nat): Outcome<Pool<T>> {
    match at
    case Lock => if p.mutex == None then Moved(p.(mutex := Some(ClientThread(c)))) else Blocked
    case Push => Moved(p.(tasks := p.tasks + [input]))
    case Signal => if p.sleepers > 0 then SignalStep(p, choice) else Moved(p)
    case Unlock => Moved(p.(mutex := None))
  }

  function Following(at: ClientAt): ClientAt {
    match at
    case Lock => Push
    case Push => Signal
    case Signal => Unlock
    case Unlock => Lock
  }

  /** Start, Stop and Wait. */
  function MainStep<T>(p: Pool<T>, at: MainAt): Outcome<(Pool<T>, MainAt)> {
    match at
    case Start => Moved(if p.running then (p, StopLock) else (p.(running := true), Create(0)))
    case Create(i) =>
      if i < |p.workers| then Moved((MoveTo(p, i, Fetch), Create(i + 1))) else Moved((p, StopLock))
    case StopLock => if p.mutex == None then Moved((p.(mutex := Some(MainThread)), StopClear)) else Blocked
    case StopClear => Moved((p.(running := false), StopBroadcast))
    case StopBroadcast =>
      Moved((if p.sleepers > 0 then p.(workers := WakeAll(p.workers)) else p, StopUnlock))
    case StopUnlock => Moved((p.(mutex := None), Join(0)))
    case Join(i) =>
      if i >= |p.workers| then Moved((p, Returned))
      else if p.workers[i].at == Done then Moved((p, Join(i + 1)))
      else Blocked
    case Returned => Blocked
  }

  class Mutex {
    var owner: Option<Who>

    constructor ()
      ensures owner == None
    {
      owner := None;
    }

    method Lock(me: Who) returns (passed: bool)
      modifies this
      ensures passed == (old(owner) == None)
      ensures owner == if passed then Some(me) else old(owner)
    {
      passed := owner == None;
      if passed {
        owner := Some(me);
      }
    }

    method Unlock()
      modifies this
      ensures owner == None
    {
      owner := None;
    }
  }

  /** The condition variable of the pool. Its wait set is the set of workers standing at
      `Waiting` in the table it is given. */
  class Cond {
    constructor () {}

    method Wait<T>(slavers: array<Worker<T>>, w: nat, mutex: Mutex)
      requires w < slavers.Length
      modifies slavers, mutex
      ensures mutex.owner == None
      ensures slavers[..] == old(slavers[..])[w := old(slavers[w]).(at := Waiting)]
    {
      mutex.Unlock();
      slavers[w] := slavers[w].(at := Waiting);
    }

    method Signal<T>(slavers: array<Worker<T>>, choice: nat) returns (passed: bool)
      modifies slavers
      ensures var waits := exists w | 0 <= w < slavers.Length :: old(slavers[..])[w].at == Waiting;
              && passed == (waits ==> choice < slavers.Length && old(slavers[..])[choice].at == Waiting)
              && slavers[..] == if waits && passed
                                then old(slavers[..])[choice := old(slavers[..])[choice].(at := Woken)]
                                else old(slavers[..])
    {
      ghost var before := slavers[..];
      assert forall w | 0 <= w < slavers.Length :: before[w] == slavers[w];
      passed := true;
      if exists w | 0 <= w < slavers.Length :: slavers[w].at == Waiting {
        var w :| 0 <= w < slavers.Length && slavers[w].at == Waiting;
        assert before[w].at == Waiting;
        passed := choice < slavers.Length && slavers[choice].at == Waiting;
        if passed {
          slavers[choice] := slavers[choice].(at := Woken);
          assert slavers[..] == before[choice := before[choice].(at := Woken)];
        }
      }
    }

    method Broadcast<T>(slavers: array<Worker<T>>)
      modifies slavers
      ensures slavers[..] == WakeAll(old(slavers[..]))
    {
      for w := 0 to slavers.Length
        invariant forall i | 0 <= i < w :: slavers[i] == Wake(old(slavers[..])[i])
        invariant forall i | w <= i < slavers.Length :: slavers[i] == old(slavers[..])[i]
      {
        if slavers[w].at == Waiting {
          slavers[w] := slavers[w].(at := Woken);
        }
      }
    }
  }

  /** The pool object. Each method executes one statement of the source on behalf of a
      thread; it reports whether the thread got past it. */
  class ThreadPool<T> {
    var isrunning: bool
    const slavers: array<Worker<T>>
    var tasks: seq<T>
    const mutex: Mutex
    const cond: Cond
    var slaversSleepCount: int

    ghost const Repr: set<object> := {this, slavers, mutex, cond}

    ghost function View(): Pool<T>
      reads this, slavers, mutex
    {
      Pool(tasks, isrunning, slaversSleepCount, mutex.owner, slavers[..])
    }

    constructor (slaverNum: nat)
      ensures fresh(Repr)
      ensures View() == Pool([], false, 0, None, seq(slaverNum, _ => Worker(New, None)))
    {
      isrunning := false;
      slaversSleepCount := 0;
      tasks := [];
      slavers := new Worker<T>[slaverNum](_ => Worker(New, None));
      mutex := new Mutex();
      cond := new Cond();
      new;
      assert slavers[..] == seq(slaverNum, _ => Worker(New, None));
    }

    method HandlerTaskAt(w: nat) returns (passed: bool)
      requires WorkerStep(View(), w) != Crash
      modifies Repr
      ensures passed == WorkerStep(old(View()), w).Moved?
      ensures passed ==> WorkerStep(old(View()), w) == Moved(View())
      ensures !passed ==> View() == old(View())
    {
      passed := false;
      if w < slavers.Length {
        var x := slavers[w];
        match x.at {
          case New =>
          case Fetch =>
            passed := mutex.Lock(WorkerThread(w));
            if passed {
              slavers[w] := x.(at := Test);
            }
          case Test =>
            passed := true;
            slavers[w] := x.(at := if tasks == [] && isrunning then CountUp else Decide);
          case CountUp =>
            passed := true;
            slaversSleepCount := slaversSleepCount + 1;
            slavers[w] := x.(at := CondWait);
          case CondWait =>
            passed := true;
            cond.Wait(slavers, w, mutex);
          case Waiting =>
          case Woken =>
            passed := mutex.Lock(WorkerThread(w));
            if passed {
              slavers[w] := x.(at := CountDown);
            }
          case CountDown =>
            passed := true;
            slaversSleepCount := slaversSleepCount - 1;
            slavers[w] := x.(at := Test);
          case Decide =>
            passed := true;
            slavers[w] := x.(at := if !isrunning && tasks == [] then Quit else Take);
          case Take =>
            passed := true;
            slavers[w] := Worker(Release, Some(tasks[0]));
            tasks := tasks[1..];
          case Release =>
            passed := true;
            mutex.Unlock();
            slavers[w] := x.(at := Work);
          case Work =>
            passed := true;
            slavers[w] := Worker(Fetch, None);
          case Quit =>
            passed := true;
            mutex.Unlock();
            slavers[w] := x.(at := Done);
          case Done =>
        }
      }
    }

    method WakeSpuriously(w: nat) returns (passed: bool)
      modifies Repr
      ensures passed == SpuriousStep(old(View()), w).Moved?
      ensures passed ==> SpuriousStep(old(View()), w) == Moved(View())
      ensures !passed ==> View() == old(View())
    {
      passed := w < slavers.Length && slavers[w].at == Waiting;
      if passed {
        slavers[w] := slavers[w].(at := Woken);
      }
    }

    method EnqueueAt(c: nat, at: ClientAt, input: T, choice: nat) returns (passed: bool)
      modifies Repr
      ensures passed == EnqueueStep(old(View()), c, at, input, choice).Moved?
      ensures passed ==> EnqueueStep(old(View()), c, at, input, choice) == Moved(View())
      ensures !passed ==> View() == old(View())
    {
      passed := true;
      match at
      case Lock => passed := mutex.Lock(ClientThread(c));
      case Push => tasks := tasks + [input];
      case Signal =>
        if slaversSleepCount > 0 {
          assert SomeoneWaits(View()) <==> exists w | 0 <= w < slavers.Length :: old(slavers[..])[w].at == Waiting;
          passed := cond.Signal(slavers, choice);
        }
      case Unlock => mutex.Unlock();
    }

    method StartStopWaitAt(at: MainAt) returns (passed: bool, next: MainAt)
      modifies Repr
      ensures passed == MainStep(old(View()), at).Moved?
      ensures passed ==> MainStep(old(View()), at) == Moved((View(), next))
      ensures !passed ==> View() == old(View())
      ensures at == Start && old(isrunning) ==> passed && View() == old(View())
    {
      passed, next := true, at;
      match at
      case Start =>
        if isrunning {
          next := StopLock;
        } else {
          isrunning := true;
          next := Create(0);
        }
      case Create(i) =>
        if i < slavers.Length {
          slavers[i] := slavers[i].(at := Fetch);
          next := Create(i + 1);
        } else {
          next := StopLock;
        }
      case StopLock =>
        passed := mutex.Lock(MainThread);
        next := StopClear;
      case StopClear =>
        isrunning := false;
        next := StopBroadcast;
      case StopBroadcast =>
        if slaversSleepCount > 0 {
          cond.Broadcast(slavers);
        }
        next := StopUnlock;
      case StopUnlock =>
        mutex.Unlock();
        next := Join(0);
      case Join(i) =>
        if i >= slavers.Length {
          next := Returned;
        } else if slavers[i].at == Done {
          next := Join(i + 1);
        } else {
          passed := false;
        }
      case Returned => passed := false;
    }
  }
}
