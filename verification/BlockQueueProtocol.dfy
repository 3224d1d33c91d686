/** Producer and consumer threads that call Enqueue and pop of thread3/BlockQueue.hpp for
    ever, in any interleaving. */
module BlockQueueProtocol {
  import opened Sync
  import opened BoundedFifo
  import opened BlockQueue

  datatype Producer<T> = Producer(at: At, item: T)

  /** `pushed` and `popped` record the values that went through the queue. */
  datatype System<T> = System(
    q: Queue<T>,
    producers: seq<Producer<T>>,
    consumers: seq<At>,
    pushed: seq<T>,
    popped: seq<T>)

  /** A turn of a thread: a producer outside Enqueue calls it with `item`; `choice` is the
      waiter a signal picks. The last two are spurious wakeups. */
  datatype Action<T> =
    | ProducerTurn(p: nat, item: T, choice: nat)
    | ConsumerTurn(c: nat, choice: nat)
    | WakeProducer(p: nat)
    | WakeConsumer(c: nat)

  predicate IsSpurious<T>(a: Action<T>) { a.WakeProducer? || a.WakeConsumer? }

  ghost predicate Initial<T>(s: System<T>) {
    && s.q.cap >= 1
    && s.q == Queue(s.q.cap, [], None, {}, {}, 0, 0)
    && (forall p | 0 <= p < |s.producers| :: s.producers[p].at == Lock)
    && (forall c | 0 <= c < |s.consumers| :: s.consumers[c] == Lock)
    && s.pushed == [] && s.popped == []
  }

  function Step<T>(s: System<T>, a: Action<T>): Outcome<System<T>> {
    match a
    case ProducerTurn(p, item, choice) =>
      if p >= |s.producers| then Blocked
      else
        var at := s.producers[p].at;
        var input := if at == Lock then item else s.producers[p].item;
        (match EnqueueStep(s.q, p, at, input, choice)
         case Blocked => Blocked
         case Crash => Crash
         case Moved((q, next)) =>
           Moved(s.(q := q,
                    producers := s.producers[p := Producer(next, input)],
                    pushed := if at == Move then s.pushed + [input] else s.pushed)))
    case ConsumerTurn(c, choice) =>
      if c >= |s.consumers| then Blocked
      else
        var at := s.consumers[c];
        (match PopStep(s.q, c, at, choice)
         case Blocked => Blocked
         case Crash => Crash
         case Moved((q, next)) =>
           Moved(s.(q := q,
                    consumers := s.consumers[c := next],
                    popped := if at == Move then s.popped + [s.q.dp[0]] else s.popped)))
    case WakeProducer(p) =>
      if p in s.q.productorCond then Moved(s.(q := s.q.(productorCond := s.q.productorCond - {p}))) else Blocked
    case WakeConsumer(c) =>
      if c in s.q.consumerCond then Moved(s.(q := s.q.(consumerCond := s.q.consumerCond - {c}))) else Blocked
  }

  function Exec<T>(s: System<T>, schedule: seq<Action<T>>): System<T>
    decreases |schedule|
  {
    if schedule == [] then s
    else
      var s' := Exec(s, schedule[..|schedule| - 1]);
      match Step(s', schedule[|schedule| - 1])
      case Moved(s'') => s''
      case _ => s'
  }

  /** No spurious wakeup, unless they are allowed. */
  predicate Allowed<T>(schedule: seq<Action<T>>, spurious: bool) {
    spurious || forall i | 0 <= i < |schedule| :: !IsSpurious(schedule[i])
  }

  // ---------------------------------------------------------------- one producer, one consumer

  predicate Holds(at: At) {
    at == Test || at == CountUp || at == Wait || at == CountDown || at == Move || at == Signal || at == Unlock
  }

  /** Counted in the sleeper number of its side. */
  function Counted(at: At): int {
    if at == Wait || at == Asleep || at == CountDown then 1 else 0
  }

  ghost predicate PairInv<T>(s: System<T>) {
    && |s.producers| == 1 && |s.consumers| == 1
    && s.q.cap >= 1 && |s.q.dp| <= s.q.cap
    && (Holds(s.producers[0].at) <==> s.q.mutex == Some(Productor(0)))
    && (Holds(s.consumers[0]) <==> s.q.mutex == Some(Consumer(0)))
    && (s.q.mutex.Some? ==> s.q.mutex.value == Productor(0) || s.q.mutex.value == Consumer(0))
    && s.q.sleepProductorNum == Counted(s.producers[0].at)
    && s.q.sleepConsumerNum == Counted(s.consumers[0])
    && s.q.productorCond <= {0} && s.q.consumerCond <= {0}
    && (0 in s.q.productorCond ==> s.producers[0].at == Asleep)
    && (0 in s.q.consumerCond ==> s.consumers[0] == Asleep)
    && ProducerPhase(s, s.producers[0].at) && ConsumerPhase(s, s.consumers[0])
  }

  /** What the producer may rely on; while it sleeps unsignalled on a queue that is no longer
      full, the consumer is just about to signal. */
  ghost predicate ProducerPhase<T>(s: System<T>, at: At)
    requires |s.consumers| == 1
  {
    && (at == CountUp || at == Wait ==> |s.q.dp| == s.q.cap)
    && (at == Move || at == CountDown ==> |s.q.dp| < s.q.cap)
    && (at == Signal ==> s.q.dp != [])
    && (at == Asleep ==> if 0 in s.q.productorCond then |s.q.dp| == s.q.cap || s.consumers[0] == Signal
                         else |s.q.dp| < s.q.cap)
  }

  ghost predicate ConsumerPhase<T>(s: System<T>, at: At)
    requires |s.producers| == 1
  {
    && (at == CountUp || at == Wait ==> s.q.dp == [])
    && (at == Move || at == CountDown ==> s.q.dp != [])
    && (at == Signal ==> |s.q.dp| < s.q.cap)
    && (at == Asleep ==> if 0 in s.q.consumerCond then s.q.dp == [] || s.producers[0].at == Signal
                         else s.q.dp != [])
  }

  lemma PairProducerKeeps<T>(s: System<T>, a: Action<T>)
    requires PairInv(s) && a.ProducerTurn? && Step(s, a).Moved?
    ensures PairInv(Step(s, a).next)
  {
  }

  lemma PairConsumerKeeps<T>(s: System<T>, a: Action<T>)
    requires PairInv(s) && a.ConsumerTurn? && Step(s, a).Moved?
    ensures PairInv(Step(s, a).next)
  {
  }

  lemma {:induction false} PairExec<T>(s: System<T>, schedule: seq<Action<T>>)
    requires Initial(s) && |s.producers| == 1 && |s.consumers| == 1 && Allowed(schedule, false)
    ensures PairInv(Exec(s, schedule))
    decreases |schedule|
  {
    if schedule != [] {
      var before, a := schedule[..|schedule| - 1], schedule[|schedule| - 1];
      PairExec(s, before);
      assert !IsSpurious(a);
      if Step(Exec(s, before), a).Moved? {
        if a.ProducerTurn? {
          PairProducerKeeps(Exec(s, before), a);
        } else {
          PairConsumerKeeps(Exec(s, before), a);
        }
      }
    }
  }

  /** The effect of a turn on the abstract queue. */
  function Effect<T>(s: System<T>, a: Action<T>): Option<Event<T>> {
    if !Step(s, a).Moved? then None
    else
      match a
      case ProducerTurn(p, _, _) => if s.producers[p].at == Move then Some(Enq(s.producers[p].item)) else None
      case ConsumerTurn(c, _) => if s.consumers[c] == Move then Some(Deq(s.q.dp[0])) else None
      case _ => None
  }

  function History<T>(s: System<T>, schedule: seq<Action<T>>): seq<Event<T>>
    decreases |schedule|
  {
    if schedule == [] then []
    else
      var before := schedule[..|schedule| - 1];
      Record(History(s, before), Effect(Exec(s, before), schedule[|schedule| - 1]))
  }

  ghost function Abs<T>(s: System<T>): Fifo<T> { Fifo(s.q.cap, s.q.dp) }

  ghost function After<T>(s: System<T>, a: Action<T>): System<T> {
    match Step(s, a)
    case Moved(s') => s'
    case _ => s
  }

  lemma PairStepRefines<T>(s: System<T>, a: Action<T>)
    requires PairInv(s)
    ensures match Effect(s, a)
            case None => Abs(After(s, a)) == Abs(s)
            case Some(e) => Apply(Abs(s), e) == Some(Abs(After(s, a)))
  {
  }

  /** With one producer, one consumer and no spurious wakeup the blocking queue refines the
      same bounded FIFO as the ring. */
  lemma {:induction false} PairRefinesFifo<T>(s: System<T>, schedule: seq<Action<T>>)
    requires Initial(s) && |s.producers| == 1 && |s.consumers| == 1 && Allowed(schedule, false)
    ensures Replay(Empty(s.q.cap), History(s, schedule)) == Some(Abs(Exec(s, schedule)))
    decreases |schedule|
  {
    if schedule != [] {
      var before, a := schedule[..|schedule| - 1], schedule[|schedule| - 1];
      PairRefinesFifo(s, before);
      PairExec(s, before);
      PairStepRefines(Exec(s, before), a);
      assert Exec(s, schedule) == After(Exec(s, before), a);
      ReplayRecord(s.q.cap, History(s, before), Effect(Exec(s, before), a), Abs(Exec(s, before)), Abs(Exec(s, schedule)));
    }
  }

  lemma StepCapacity<T>(s: System<T>, a: Action<T>)
    requires Step(s, a).Moved?
    ensures Step(s, a).next.q.cap == s.q.cap
  {
  }

  lemma {:induction false} ExecCapacity<T>(s: System<T>, schedule: seq<Action<T>>)
    ensures Exec(s, schedule).q.cap == s.q.cap
    decreases |schedule|
  {
    if schedule != [] {
      var before, a := schedule[..|schedule| - 1], schedule[|schedule| - 1];
      ExecCapacity(s, before);
      if Step(Exec(s, before), a).Moved? {
        StepCapacity(Exec(s, before), a);
      }
    }
  }

  lemma PairNotBothAsleep<T>(s: System<T>)
    requires PairInv(s)
    ensures s.q.productorCond == {} || s.q.consumerCond == {}
  {
    assert s.q.productorCond == {} || 0 in s.q.productorCond;
    assert s.q.consumerCond == {} || 0 in s.q.consumerCond;
  }

  lemma PairNoCrash<T>(s: System<T>, a: Action<T>)
    requires PairInv(s)
    ensures Step(s, a) != Crash
  {
  }

  lemma PairMoves<T>(s: System<T>, item: T)
    requires PairInv(s)
    ensures Step(s, ProducerTurn(0, item, 0)).Moved? || Step(s, ConsumerTurn(0, 0)).Moved?
  {
    PairNotBothAsleep(s);
    assert s.q.productorCond == {} || s.q.productorCond == {0};
    assert s.q.consumerCond == {} || s.q.consumerCond == {0};
  }

  /** The size stays within the capacity, pop never reads an empty queue, the two threads are
      never in their wait sets together, and one of them can always move. */
  lemma PairIsSafeAndLive<T>(s: System<T>, schedule: seq<Action<T>>, a: Action<T>, item: T)
    requires Initial(s) && |s.producers| == 1 && |s.consumers| == 1 && Allowed(schedule, false)
    ensures var r := Exec(s, schedule);
            && |r.q.dp| <= s.q.cap
            && Step(r, a) != Crash
            && (r.q.productorCond == {} || r.q.consumerCond == {})
            && (Step(r, ProducerTurn(0, item, 0)).Moved? || Step(r, ConsumerTurn(0, 0)).Moved?)
  {
    PairExec(s, schedule);
    ExecCapacity(s, schedule);
    var r := Exec(s, schedule);
    PairNotBothAsleep(r);
    PairNoCrash(r, a);
    PairMoves(r, item);
  }

  // ---------------------------------------------------------------- any number of threads

  lemma StepKeepsOrder<T>(s: System<T>, a: Action<T>)
    requires s.pushed == s.popped + s.q.dp && Step(s, a).Moved?
    ensures var r := Step(s, a).next; r.pushed == r.popped + r.q.dp
  {
    if a.ConsumerTurn? && s.consumers[a.c] == Move {
      assert s.q.dp == [s.q.dp[0]] + s.q.dp[1..];
    }
  }

  /** FIFO order survives whatever the numbers and wakeups: what was pushed is what was popped
      followed by what is queued. */
  lemma {:induction false} OrderAlwaysKept<T>(s: System<T>, schedule: seq<Action<T>>)
    requires Initial(s)
    ensures var r := Exec(s, schedule); r.pushed == r.popped + r.q.dp
    decreases |schedule|
  {
    if schedule != [] {
      var before, a := schedule[..|schedule| - 1], schedule[|schedule| - 1];
      OrderAlwaysKept(s, before);
      if Step(Exec(s, before), a).Moved? {
        StepKeepsOrder(Exec(s, before), a);
      }
    }
  }
}
