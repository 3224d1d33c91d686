/** thread4/RingQueue.hpp, thread4/Sem.hpp and thread4/Mutex.hpp: the shared object, one
    atomic statement at a time. */
module RingQueue {
  import opened Sync

  /** The statement of Enqueue or Pop a thread is about to execute. `Lock` doubles as
      "not inside the operation". */
  datatype At = Lock | P | Copy | Wrap | V | Unlock

  function Following(at: At): At {
    match at
    case Lock => P
    case P => Copy
    case Copy => Wrap
    case Wrap => V
    case V => Unlock
    case Unlock => Lock
  }

  /** The value of the queue object. */
  datatype Ring<T> = Ring(
    buf: seq<T>,
    productorStep: nat,
    consumerStep: nat,
    blank: nat,
    data: nat,
    pmutex: Option<Tid>,
    cmutex: Option<Tid>)

  /** What the statement of Enqueue at `at` does when thread `me` executes it with argument
      `input`. Storing outside the vector is undefined behaviour. */
  function EnqueueStep<T>(r: Ring<T>, me: Tid, at: At, input: T): Outcome<Ring<T>> {
    match at
    case Lock => if r.pmutex == None then Moved(r.(pmutex := Some(me))) else Blocked
    case P => if r.blank > 0 then Moved(r.(blank := r.blank - 1)) else Blocked
    case Copy =>
      if r.productorStep < |r.buf| then
        Moved(r.(buf := r.buf[r.productorStep := input], productorStep := r.productorStep + 1))
      else Crash
    case Wrap => if |r.buf| == 0 then Crash else Moved(r.(productorStep := r.productorStep % |r.buf|))
    case V => Moved(r.(data := r.data + 1))
    case Unlock => Moved(r.(pmutex := None))
  }

  /** The same for Pop; the value copied out is `Front(r)` at the statement `Copy`. */
  function PopStep<T>(r: Ring<T>, me: Tid, at: At): Outcome<Ring<T>> {
    match at
    case Lock => if r.cmutex == None then Moved(r.(cmutex := Some(me))) else Blocked
    case P => if r.data > 0 then Moved(r.(data := r.data - 1)) else Blocked
    case Copy =>
      if r.consumerStep < |r.buf| then Moved(r.(consumerStep := r.consumerStep + 1)) else Crash
    case Wrap => if |r.buf| == 0 then Crash else Moved(r.(consumerStep := r.consumerStep % |r.buf|))
    case V => Moved(r.(blank := r.blank + 1))
    case Unlock => Moved(r.(cmutex := None))
  }

  function Front<T>(r: Ring<T>): T
    requires r.consumerStep < |r.buf|
  {
    r.buf[r.consumerStep]
  }

  /** A counting semaphore. `P` reports whether the caller got past sem_wait; a caller that
      did not stays at the same statement. */
  class Sem {
    var count: nat

    constructor (initial: nat)
      ensures count == initial
    {
      count := initial;
    }

    method P() returns (passed: bool)
      modifies this
      ensures passed == (old(count) > 0)
      ensures count == if passed then old(count) - 1 else old(count)
    {
      passed := count > 0;
      if passed {
        count := count - 1;
      }
    }

    method V()
      modifies this
      ensures count == old(count) + 1
    {
      count := count + 1;
    }
  }

  class Mutex {
    var owner: Option<Tid>

    constructor ()
      ensures owner == None
    {
      owner := None;
    }

    method Lock(me: Tid) returns (passed: bool)
      modifies this
      ensures passed == (old(owner) == None)
      ensures owner == if passed then Some(me) else old(owner)
    {
      passed := owner == None;
      if passed {
        owner := Some(me);
      }
    }

    method Unlock()
      modifies this
      ensures owner == None
    {
      owner := None;
    }
  }

  /** The queue object itself, with its storage vector. `EnqueueAt` and `PopAt` execute one
      statement on behalf of a thread, so that calls of several threads can be interleaved. */
  class RingQueue<T> {
    const cap: nat
    const rq: array<T>
    var consumerStep: nat
    var productorStep: nat
    const blankSem: Sem
    const dataSem: Sem
    const cmutex: Mutex
    const pmutex: Mutex

    ghost predicate Valid()
      reads this
    {
      rq.Length == cap && blankSem != dataSem && cmutex != pmutex
    }

    ghost const Repr: set<object> := {this, rq, blankSem, dataSem, cmutex, pmutex}

    ghost function View(): Ring<T>
      reads this, rq, blankSem, dataSem, cmutex, pmutex
    {
      Ring(rq[..], productorStep, consumerStep, blankSem.count, dataSem.count, pmutex.owner, cmutex.owner)
    }

    /** `fill` stands for the value-initialised elements of the vector. */
    constructor (cap: nat, fill: T)
      ensures Valid() && fresh(Repr) && this.cap == cap
      ensures View() == Ring(seq(cap, _ => fill), 0, 0, cap, 0, None, None)
    {
      this.cap := cap;
      rq := new T[cap](_ => fill);
      consumerStep, productorStep := 0, 0;
      blankSem := new Sem(cap);
      dataSem := new Sem(0);
      cmutex := new Mutex();
      pmutex := new Mutex();
      new;
      assert rq[..] == seq(cap, _ => fill);
    }

    method EnqueueAt(me: Tid, at: At, input: T) returns (passed: bool)
      requires Valid()
      requires EnqueueStep(View(), me, at, input) != Crash
      modifies Repr
      ensures Valid()
      ensures passed == EnqueueStep(old(View()), me, at, input).Moved?
      ensures passed ==> EnqueueStep(old(View()), me, at, input) == Moved(View())
      ensures !passed ==> View() == old(View())
    {
      passed := true;
      match at
      case Lock => passed := pmutex.Lock(me);
      case P => passed := blankSem.P();
      case Copy =>
        rq[productorStep] := input;
        productorStep := productorStep + 1;
      case Wrap => productorStep := productorStep % cap;
      case V => dataSem.V();
      case Unlock => pmutex.Unlock();
    }

    method PopAt(me: Tid, at: At) returns (passed: bool, out: Option<T>)
      requires Valid()
      requires PopStep(View(), me, at) != Crash
      modifies Repr
      ensures Valid()
      ensures passed == PopStep(old(View()), me, at).Moved?
      ensures passed ==> PopStep(old(View()), me, at) == Moved(View())
      ensures !passed ==> View() == old(View())
      ensures out == if at == Copy then Some(Front(old(View()))) else None
    {
      passed, out := true, None;
      match at
      case Lock => passed := cmutex.Lock(me);
      case P => passed := dataSem.P();
      case Copy =>
        out := Some(rq[consumerStep]);
        consumerStep := consumerStep + 1;
      case Wrap => consumerStep := consumerStep % cap;
      case V => blankSem.V();
      case Unlock => cmutex.Unlock();
    }
  }
}
