/** thread3/BlockQueue.hpp: the shared object, one atomic statement at a time. Both waits are
    guarded by `if`, not `while`. */
module BlockQueue {
  import opened Sync

  datatype Who = Productor(p: nat) | Consumer(c: nat)

  /** The statement of Enqueue or pop a thread is about to execute. `Asleep` lasts until the
      thread has left the wait set and re-acquired the mutex. */
  datatype At = Lock | Test | CountUp | Wait | Asleep | CountDown | Move | Signal | Unlock

  datatype Queue<T> = Queue(
    cap: nat,
    dp: seq<T>,
    mutex: Option<Who>,
    consumerCond: set<nat>,
    productorCond: set<nat>,
    sleepConsumerNum: int,
    sleepProductorNum: int)

  /** The wait set after pthread_cond_signal; None when `choice` is not a waiter. */
  function Signalled(waiters: set<nat>, choice: nat): Option<set<nat>> {
    if waiters == {} then Some({})
    else if choice in waiters then Some(waiters - {choice})
    else None
  }

  function EnqueueStep<T>(q: Queue<T>, p: nat, at: At, input: T, choice: nat): Outcome<(Queue<T>, At)> {
    var me := Some(Productor(p));
    match at
    case Lock => if q.mutex == None then Moved((q.(mutex := me), Test)) else Blocked
    case Test => Moved((q, if |q.dp| == q.cap then CountUp else Move))
    case CountUp => Moved((q.(sleepProductorNum := q.sleepProductorNum + 1), Wait))
    case Wait => Moved((q.(mutex := None, productorCond := q.productorCond + {p}), Asleep))
    case Asleep =>
      if p !in q.productorCond && q.mutex == None then Moved((q.(mutex := me), CountDown)) else Blocked
    case CountDown => Moved((q.(sleepProductorNum := q.sleepProductorNum - 1), Move))
    case Move => Moved((q.(dp := q.dp + [input]), Signal))
    case Signal =>
      if q.sleepConsumerNum > 0 then
        match Signalled(q.consumerCond, choice)
        case None => Blocked
        case Some(w) => Moved((q.(consumerCond := w), Unlock))
      else Moved((q, Unlock))
    case Unlock => Moved((q.(mutex := None), Lock))
  }

  /** front() and pop() of an empty std::queue are undefined. */
  function PopStep<T>(q: Queue<T>, c: nat, at: At, choice: nat): Outcome<(Queue<T>, At)> {
    var me := Some(Consumer(c));
    match at
    case Lock => if q.mutex == None then Moved((q.(mutex := me), Test)) else Blocked
    case Test => Moved((q, if q.dp == [] then CountUp else Move))
    case CountUp => Moved((q.(sleepConsumerNum := q.sleepConsumerNum + 1), Wait))
    case Wait => Moved((q.(mutex := None, consumerCond := q.consumerCond + {c}), Asleep))
    case Asleep =>
      if c !in q.consumerCond && q.mutex == None then Moved((q.(mutex := me), CountDown)) else Blocked
    case CountDown => Moved((q.(sleepConsumerNum := q.sleepConsumerNum - 1), Move))
    case Move => if q.dp == [] then Crash else Moved((q.(dp := q.dp[1..]), Signal))
    case Signal =>
      if q.sleepProductorNum > 0 then
        match Signalled(q.productorCond, choice)
        case None => Blocked
        case Some(w) => Moved((q.(productorCond := w), Unlock))
      else Moved((q, Unlock))
    case Unlock => Moved((q.(mutex := None), Lock))
  }

  /** A pthread condition variable. */
  class Cond {
    var waiters: set<nat>

    constructor ()
      ensures waiters == {}
    {
      waiters := {};
    }

    method Wait(me: nat)
      modifies this
      ensures waiters == old(waiters) + {me}
    {
      waiters := waiters + {me};
    }

    method Signal(choice: nat) returns (passed: bool)
      modifies this
      ensures passed == Signalled(old(waiters), choice).Some?
      ensures waiters == if passed then Signalled(old(waiters), choice).value else old(waiters)
    {
      passed := waiters == {} || choice in waiters;
      if passed {
        waiters := waiters - {choice};
      }
    }
  }

  class BlockQueue<T> {
    const cap: nat
    var dp: seq<T>
    var mutex: Option<Who>
    const consumerCond: Cond
    const productorCond: Cond
    var sleepConsumerNum: int
    var sleepProductorNum: int

    ghost const Repr: set<object> := {this, consumerCond, productorCond}

    ghost predicate Valid() { consumerCond != productorCond }

    ghost function View(): Queue<T>
      reads this, consumerCond, productorCond
    {
      Queue(cap, dp, mutex, consumerCond.waiters, productorCond.waiters, sleepConsumerNum, sleepProductorNum)
    }

    constructor (cap: nat)
      ensures Valid() && fresh(Repr)
      ensures View() == Queue(cap, [], None, {}, {}, 0, 0)
    {
      this.cap := cap;
      dp := [];
      mutex := None;
      consumerCond := new Cond();
      productorCond := new Cond();
      sleepConsumerNum, sleepProductorNum := 0, 0;
    }

    /** One statement of Enqueue. */
    method EnqueueAt(p: nat, at: At, input: T, choice: nat) returns (passed: bool, next: At)
      requires Valid()
      modifies Repr
      ensures passed == EnqueueStep(old(View()), p, at, input, choice).Moved?
      ensures passed ==> EnqueueStep(old(View()), p, at, input, choice) == Moved((View(), next))
      ensures !passed ==> View() == old(View())
    {
      passed := true;
      match at
      case Lock =>
        passed, next := mutex == None, Test;
        if passed {
          mutex := Some(Productor(p));
        }
      case Test => next := if |dp| == cap then CountUp else Move;
      case CountUp =>
        sleepProductorNum := sleepProductorNum + 1;
        next := Wait;
      case Wait =>
        productorCond.Wait(p);
        mutex := None;
        next := Asleep;
      case Asleep =>
        passed, next := p !in productorCond.waiters && mutex == None, CountDown;
        if passed {
          mutex := Some(Productor(p));
        }
      case CountDown =>
        sleepProductorNum := sleepProductorNum - 1;
        next := Move;
      case Move =>
        dp := dp + [input];
        next := Signal;
      case Signal =>
        if sleepConsumerNum > 0 {
          passed := consumerCond.Signal(choice);
        }
        next := Unlock;
      case Unlock =>
        mutex := None;
        next := Lock;
    }

    /** One statement of pop. */
    method PopAt(c: nat, at: At, choice: nat) returns (passed: bool, next: At, out: Option<T>)
      requires Valid() && PopStep(View(), c, at, choice) != Crash
      modifies Repr
      ensures passed == PopStep(old(View()), c, at, choice).Moved?
      ensures passed ==> PopStep(old(View()), c, at, choice) == Moved((View(), next))
      ensures !passed ==> View() == old(View())
      ensures out == if at == Move then Some(old(dp)[0]) else None
    {
      passed, out := true, None;
      match at
      case Lock =>
        passed, next := mutex == None, Test;
        if passed {
          mutex := Some(Consumer(c));
        }
      case Test => next := if dp == [] then CountUp else Move;
      case CountUp =>
        sleepConsumerNum := sleepConsumerNum + 1;
        next := Wait;
      case Wait =>
        consumerCond.Wait(c);
        mutex := None;
        next := Asleep;
      case Asleep =>
        passed, next := c !in consumerCond.waiters && mutex == None, CountDown;
        if passed {
          mutex := Some(Consumer(c));
        }
      case CountDown =>
        sleepConsumerNum := sleepConsumerNum - 1;
        next := Move;
      case Move =>
        out := Some(dp[0]);
        dp := dp[1..];
        next := Signal;
      case Signal =>
        if sleepProductorNum > 0 {
          passed := productorCond.Signal(choice);
        }
        next := Unlock;
      case Unlock =>
        mutex := None;
        next := Lock;
    }
  }
}
