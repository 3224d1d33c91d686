/** For which numbers of threads the `if`-guarded waits of thread3/BlockQueue.hpp are enough.
    thread3/Main.cc starts two consumers and three producers. */
module BlockQueueLimits {
  import opened Sync
  import opened BlockQueue
  import opened BlockQueueProtocol

  /** After this schedule the size is within the capacity, and action `a` does not read an
      empty queue. */
  ghost predicate SafeAfter<T>(s: System<T>, schedule: seq<Action<T>>, a: Action<T>) {
    |Exec(s, schedule).q.dp| <= s.q.cap && Step(Exec(s, schedule), a) != Crash
  }

  /** So it is in every allowed interleaving. */
  ghost predicate Safe<T(!new)>(s: System<T>, spurious: bool) {
    forall schedule: seq<Action<T>>, a: Action<T> | Allowed(schedule, spurious) :: SafeAfter(s, schedule, a)
  }

  predicate Fits(productors: nat, consumers: nat, spurious: bool) {
    if spurious then productors == 0 && consumers == 0
    else productors == 0 || consumers == 0 || (productors == 1 && consumers == 1)
  }

  // ---------------------------------------------------------------- the configurations that fit

  ghost predicate NoProducers<T>(s: System<T>) {
    && |s.producers| == 0 && s.q.dp == [] && s.q.productorCond == {}
    && forall c | 0 <= c < |s.consumers| ::
         && (s.consumers[c] == Lock || s.consumers[c] == Test || s.consumers[c] == CountUp
             || s.consumers[c] == Wait || s.consumers[c] == Asleep)
         && (s.consumers[c] == Asleep ==> c in s.q.consumerCond)
  }

  lemma {:induction false} NoProducersExec<T>(s: System<T>, schedule: seq<Action<T>>)
    requires Initial(s) && |s.producers| == 0 && Allowed(schedule, false)
    ensures NoProducers(Exec(s, schedule))
    decreases |schedule|
  {
    if schedule != [] {
      assert !IsSpurious(schedule[|schedule| - 1]);
      NoProducersExec(s, schedule[..|schedule| - 1]);
    }
  }

  ghost predicate NoConsumers<T>(s: System<T>) {
    && |s.consumers| == 0 && s.q.consumerCond == {} && |s.q.dp| <= s.q.cap
    && forall p | 0 <= p < |s.producers| ::
         && s.producers[p].at != CountDown
         && (s.producers[p].at == Asleep ==> p in s.q.productorCond)
         && (Holds(s.producers[p].at) <==> s.q.mutex == Some(Productor(p)))
         && (s.producers[p].at == Move ==> |s.q.dp| < s.q.cap)
  }

  lemma NoConsumersStep<T>(s: System<T>, a: Action<T>)
    requires NoConsumers(s) && !IsSpurious(a) && Step(s, a).Moved?
    ensures NoConsumers(Step(s, a).next) && Step(s, a).next.q.cap == s.q.cap
  {
  }

  lemma {:induction false} NoConsumersExec<T>(s: System<T>, schedule: seq<Action<T>>)
    requires Initial(s) && |s.consumers| == 0 && Allowed(schedule, false)
    ensures NoConsumers(Exec(s, schedule)) && Exec(s, schedule).q.cap == s.q.cap
    decreases |schedule|
  {
    if schedule != [] {
      var before, a := schedule[..|schedule| - 1], schedule[|schedule| - 1];
      assert !IsSpurious(a);
      NoConsumersExec(s, before);
      if Step(Exec(s, before), a).Moved? {
        NoConsumersStep(Exec(s, before), a);
      }
    }
  }

  lemma {:induction false} NobodyMoves<T>(s: System<T>, schedule: seq<Action<T>>)
    requires Initial(s) && |s.producers| == 0 && |s.consumers| == 0
    ensures Exec(s, schedule) == s
    decreases |schedule|
  {
    if schedule != [] {
      NobodyMoves(s, schedule[..|schedule| - 1]);
    }
  }

  lemma FitsIsSafe<T>(s: System<T>, spurious: bool, schedule: seq<Action<T>>, a: Action<T>, item: T)
    requires Initial(s) && Fits(|s.producers|, |s.consumers|, spurious) && Allowed(schedule, spurious)
    ensures SafeAfter(s, schedule, a)
  {
    if spurious {
      NobodyMoves(s, schedule);
    } else if |s.producers| == 0 {
      NoProducersExec(s, schedule);
    } else if |s.consumers| == 0 {
      NoConsumersExec(s, schedule);
    } else {
      PairIsSafeAndLive(s, schedule, a, item);
    }
  }

  // ---------------------------------------------------------------- building runs

  ghost predicate Reachable<T(!new)>(s0: System<T>, spurious: bool, s: System<T>) {
    exists schedule :: Allowed(schedule, spurious) && Exec(s0, schedule) == s
  }

  lemma Start<T(!new)>(s0: System<T>, spurious: bool)
    ensures Reachable(s0, spurious, s0)
  {
    var none: seq<Action<T>> := [];
    assert Allowed(none, spurious) && Exec(s0, none) == s0;
  }

  lemma Go<T(!new)>(s0: System<T>, spurious: bool, s: System<T>, a: Action<T>) returns (r: System<T>)
    requires Reachable(s0, spurious, s) && Step(s, a).Moved? && (spurious || !IsSpurious(a))
    ensures r == Step(s, a).next && Reachable(s0, spurious, r)
  {
    var schedule :| Allowed(schedule, spurious) && Exec(s0, schedule) == s;
    var more := schedule + [a];
    assert more[..|more| - 1] == schedule;
    r := Step(s, a).next;
    assert Allowed(more, spurious) && Exec(s0, more) == r;
  }

  /** A consumer finds the queue empty and goes to sleep. */
  lemma ConsumerParks<T(!new)>(s0: System<T>, spurious: bool, s: System<T>, c: nat) returns (r: System<T>)
    requires Reachable(s0, spurious, s)
    requires c < |s.consumers| && s.consumers[c] == Lock && s.q.mutex == None && s.q.dp == []
    ensures Reachable(s0, spurious, r)
    ensures r == s.(consumers := s.consumers[c := Asleep],
                    q := s.q.(sleepConsumerNum := s.q.sleepConsumerNum + 1, consumerCond := s.q.consumerCond + {c}))
  {
    hide Reachable, Exec, Allowed;
    r := Go(s0, spurious, s, ConsumerTurn(c, 0));
    r := Go(s0, spurious, r, ConsumerTurn(c, 0));
    r := Go(s0, spurious, r, ConsumerTurn(c, 0));
    r := Go(s0, spurious, r, ConsumerTurn(c, 0));
    assert r.consumers == s.consumers[c := Asleep];
  }

  /** A producer finds the queue full and goes to sleep. */
  lemma ProducerParks<T(!new)>(s0: System<T>, spurious: bool, s: System<T>, p: nat, item: T) returns (r: System<T>)
    requires Reachable(s0, spurious, s)
    requires p < |s.producers| && s.producers[p].at == Lock && s.q.mutex == None && |s.q.dp| == s.q.cap
    ensures Reachable(s0, spurious, r)
    ensures r == s.(producers := s.producers[p := Producer(Asleep, item)],
                    q := s.q.(sleepProductorNum := s.q.sleepProductorNum + 1, productorCond := s.q.productorCond + {p}))
  {
    hide Reachable, Exec, Allowed;
    r := Go(s0, spurious, s, ProducerTurn(p, item, 0));
    r := Go(s0, spurious, r, ProducerTurn(p, item, 0));
    r := Go(s0, spurious, r, ProducerTurn(p, item, 0));
    r := Go(s0, spurious, r, ProducerTurn(p, item, 0));
    assert r.producers == s.producers[p := Producer(Asleep, item)];
  }

  /** What is left of a wait set after a signal that is sent only if `sleepers` says so. */
  function Left(waiters: set<nat>, sleepers: int, choice: nat): set<nat> {
    if sleepers > 0 then waiters - {choice} else waiters
  }

  /** A whole call of Enqueue without waiting. */
  lemma ProducerPushes<T(!new)>(s0: System<T>, spurious: bool, s: System<T>, p: nat, item: T, choice: nat) returns (r: System<T>)
    requires Reachable(s0, spurious, s)
    requires p < |s.producers| && s.producers[p].at == Lock && s.q.mutex == None && |s.q.dp| != s.q.cap
    requires s.q.consumerCond == {} || choice in s.q.consumerCond
    ensures Reachable(s0, spurious, r)
    ensures r == s.(producers := s.producers[p := Producer(Lock, item)],
                    q := s.q.(dp := s.q.dp + [item], consumerCond := Left(s.q.consumerCond, s.q.sleepConsumerNum, choice)),
                    pushed := s.pushed + [item])
  {
    hide Reachable, Exec, Allowed;
    r := Go(s0, spurious, s, ProducerTurn(p, item, choice));
    r := Go(s0, spurious, r, ProducerTurn(p, item, choice));
    r := Go(s0, spurious, r, ProducerTurn(p, item, choice));
    r := Go(s0, spurious, r, ProducerTurn(p, item, choice));
    r := Go(s0, spurious, r, ProducerTurn(p, item, choice));
    assert r.producers == s.producers[p := Producer(Lock, item)];
  }

  lemma ConsumerTakes<T(!new)>(s0: System<T>, spurious: bool, s: System<T>, c: nat) returns (r: System<T>)
    requires Reachable(s0, spurious, s)
    requires c < |s.consumers| && s.consumers[c] == Lock && s.q.mutex == None && s.q.dp != []
    ensures Reachable(s0, spurious, r)
    ensures r == s.(consumers := s.consumers[c := Signal], q := s.q.(dp := s.q.dp[1..], mutex := Some(Consumer(c))),
                    popped := s.popped + [s.q.dp[0]])
  {
    hide Reachable, Exec, Allowed;
    r := Go(s0, spurious, s, ConsumerTurn(c, 0));
    r := Go(s0, spurious, r, ConsumerTurn(c, 0));
    r := Go(s0, spurious, r, ConsumerTurn(c, 0));
    assert r.consumers == s.consumers[c := Signal];
  }

  lemma ConsumerSignals<T(!new)>(s0: System<T>, spurious: bool, s: System<T>, c: nat, choice: nat) returns (r: System<T>)
    requires Reachable(s0, spurious, s) && c < |s.consumers| && s.consumers[c] == Signal
    requires s.q.productorCond == {} || choice in s.q.productorCond
    ensures Reachable(s0, spurious, r)
    ensures r == s.(consumers := s.consumers[c := Lock],
                    q := s.q.(productorCond := Left(s.q.productorCond, s.q.sleepProductorNum, choice), mutex := None))
  {
    hide Reachable, Exec, Allowed;
    assert s.q.productorCond == {} ==> Left(s.q.productorCond, s.q.sleepProductorNum, choice) == {};
    r := Go(s0, spurious, s, ConsumerTurn(c, choice));
    r := Go(s0, spurious, r, ConsumerTurn(c, choice));
    assert r.consumers == s.consumers[c := Lock];
  }

  /** A whole call of pop without waiting. */
  lemma ConsumerPops<T(!new)>(s0: System<T>, spurious: bool, s: System<T>, c: nat, choice: nat) returns (r: System<T>)
    requires Reachable(s0, spurious, s)
    requires c < |s.consumers| && s.consumers[c] == Lock && s.q.mutex == None && s.q.dp != []
    requires s.q.productorCond == {} || choice in s.q.productorCond
    ensures Reachable(s0, spurious, r)
    ensures r == s.(q := s.q.(dp := s.q.dp[1..], productorCond := Left(s.q.productorCond, s.q.sleepProductorNum, choice)),
                    popped := s.popped + [s.q.dp[0]])
  {
    hide Reachable, Exec, Allowed;
    r := ConsumerTakes(s0, spurious, s, c);
    r := ConsumerSignals(s0, spurious, r, c, choice);
    assert r.consumers == s.consumers;
  }

  /** A consumer that has been woken on an empty queue pops it all the same. */
  lemma WokenConsumerCrashes<T(!new)>(s0: System<T>, spurious: bool, s: System<T>, c: nat) returns (r: System<T>)
    requires Reachable(s0, spurious, s)
    requires c < |s.consumers| && s.consumers[c] == Asleep && c !in s.q.consumerCond
    requires s.q.mutex == None && s.q.dp == []
    ensures Reachable(s0, spurious, r) && Step(r, ConsumerTurn(c, 0)) == Crash
  {
    hide Reachable, Exec, Allowed;
    r := Go(s0, spurious, s, ConsumerTurn(c, 0));
    r := Go(s0, spurious, r, ConsumerTurn(c, 0));
  }

  /** A producer that has been woken on a full queue pushes all the same. */
  lemma WokenProducerOverfills<T(!new)>(s0: System<T>, spurious: bool, s: System<T>, p: nat) returns (r: System<T>)
    requires Reachable(s0, spurious, s)
    requires p < |s.producers| && s.producers[p].at == Asleep && p !in s.q.productorCond
    requires s.q.mutex == None && |s.q.dp| == s.q.cap
    ensures Reachable(s0, spurious, r) && |r.q.dp| == s.q.cap + 1 && r.q.cap == s.q.cap
    ensures r.q.consumerCond == s.q.consumerCond
    ensures |r.producers| == |s.producers| && r.producers[p].at == Signal
    ensures forall o | 0 <= o < |s.producers| && o != p :: r.producers[o] == s.producers[o]
  {
    hide Reachable, Exec, Allowed;
    var item := s.producers[p].item;
    r := Go(s0, spurious, s, ProducerTurn(p, item, 0));
    r := Go(s0, spurious, r, ProducerTurn(p, item, 0));
    r := Go(s0, spurious, r, ProducerTurn(p, item, 0));
  }

  /** Producer 0 fills the queue. */
  lemma {:induction false} Fill<T(!new)>(s0: System<T>, spurious: bool, s: System<T>, item: T) returns (r: System<T>)
    requires Reachable(s0, spurious, s)
    requires |s.producers| >= 1 && s.producers[0].at == Lock && s.q.mutex == None && |s.q.dp| <= s.q.cap
    requires s.q.consumerCond == {}
    ensures Reachable(s0, spurious, r)
    ensures |r.q.dp| == s.q.cap && r.q == s.q.(dp := r.q.dp) && r.consumers == s.consumers
    ensures |r.producers| == |s.producers| && r.producers[0].at == Lock
    ensures forall p | 0 < p < |s.producers| :: r.producers[p] == s.producers[p]
    decreases s.q.cap - |s.q.dp|
  {
    if |s.q.dp| == s.q.cap {
      r := s;
    } else {
      r := ProducerPushes(s0, spurious, s, 0, item, 0);
      assert r.q == s.q.(dp := r.q.dp);
      r := Fill(s0, spurious, r, item);
    }
  }

  // ---------------------------------------------------------------- the configurations that do not

  /** Two consumers: one sleeps, an item arrives and wakes it, the other takes the item first. */
  lemma TwoConsumersUnderflow<T(!new)>(s0: System<T>, item: T) returns (r: System<T>)
    requires Initial(s0) && |s0.producers| >= 1 && |s0.consumers| >= 2
    ensures Reachable(s0, false, r) && Step(r, ConsumerTurn(0, 0)) == Crash
  {
    Start(s0, false);
    r := ConsumerParks(s0, false, s0, 0);
    assert 0 in r.q.consumerCond;
    r := ProducerPushes(s0, false, r, 0, item, 0);
    r := ConsumerPops(s0, false, r, 1, 0);
    r := WokenConsumerCrashes(s0, false, r, 0);
  }

  /** Two producers: one sleeps on the full queue, a pop wakes it, the other refills first. */
  lemma TwoProducersOverflow<T(!new)>(s0: System<T>, item: T) returns (r: System<T>)
    requires Initial(s0) && |s0.producers| >= 2 && |s0.consumers| >= 1
    ensures Reachable(s0, false, r) && |r.q.dp| == s0.q.cap + 1 && r.q.cap == s0.q.cap
    ensures |r.producers| == |s0.producers| && r.producers[0].at == Signal && r.q.consumerCond == {}
  {
    Start(s0, false);
    r := Fill(s0, false, s0, item);
    r := ProducerParks(s0, false, r, 0, item);
    assert 0 in r.q.productorCond;
    r := ConsumerPops(s0, false, r, 0, 0);
    r := ProducerPushes(s0, false, r, 1, item, 0);
    r := WokenProducerOverfills(s0, false, r, 0);
  }

  lemma ProducerReturns<T(!new)>(s0: System<T>, spurious: bool, s: System<T>, p: nat) returns (r: System<T>)
    requires Reachable(s0, spurious, s)
    requires p < |s.producers| && s.producers[p].at == Signal && s.q.consumerCond == {}
    ensures Reachable(s0, spurious, r)
    ensures r.q.dp == s.q.dp && r.q.cap == s.q.cap && r.q.mutex == None && r.q.consumerCond == {}
    ensures |r.producers| == |s.producers| && r.producers[p].at == Lock
  {
    hide Reachable, Exec, Allowed;
    var item := s.producers[p].item;
    r := Go(s0, spurious, s, ProducerTurn(p, item, 0));
    r := Go(s0, spurious, r, ProducerTurn(p, item, 0));
  }

  /** The guard compares with ==, so past the capacity no producer waits any more. */
  lemma {:induction false} PastTheGuard<T(!new)>(s0: System<T>, spurious: bool, s: System<T>, p: nat, item: T, n: nat)
    returns (r: System<T>)
    requires Reachable(s0, spurious, s) && s.q.cap < |s.q.dp| <= n
    requires p < |s.producers| && s.producers[p].at == Lock && s.q.mutex == None && s.q.consumerCond == {}
    ensures Reachable(s0, spurious, r) && |r.q.dp| == n
    decreases n - |s.q.dp|
  {
    hide Reachable, Exec, Allowed;
    if |s.q.dp| == n {
      r := s;
    } else {
      r := ProducerPushes(s0, spurious, s, p, item, 0);
      r := PastTheGuard(s0, spurious, r, p, item, n);
    }
  }

  /** With two producers the queue can grow to any size. */
  lemma TwoProducersGrow<T(!new)>(s0: System<T>, item: T, n: nat) returns (r: System<T>)
    requires Initial(s0) && |s0.producers| >= 2 && |s0.consumers| >= 1 && n > s0.q.cap
    ensures Reachable(s0, false, r) && |r.q.dp| == n
  {
    hide Reachable, Exec, Allowed;
    r := TwoProducersOverflow(s0, item);
    r := ProducerReturns(s0, false, r, 0);
    r := PastTheGuard(s0, false, r, 0, item, n);
  }

  /** So can a spurious wakeup make it, with one producer. */
  lemma SpuriousGrow<T(!new)>(s0: System<T>, item: T, n: nat) returns (r: System<T>)
    requires Initial(s0) && |s0.producers| >= 1 && n > s0.q.cap
    ensures Reachable(s0, true, r) && |r.q.dp| == n
  {
    hide Reachable, Exec, Allowed;
    r := SpuriousOverflow(s0, item);
    r := ProducerReturns(s0, true, r, 0);
    r := PastTheGuard(s0, true, r, 0, item, n);
  }

  lemma SpuriousUnderflow<T(!new)>(s0: System<T>) returns (r: System<T>)
    requires Initial(s0) && |s0.consumers| >= 1
    ensures Reachable(s0, true, r) && Step(r, ConsumerTurn(0, 0)) == Crash
  {
    Start(s0, true);
    r := ConsumerParks(s0, true, s0, 0);
    assert 0 in r.q.consumerCond;
    r := Go(s0, true, r, WakeConsumer(0));
    r := WokenConsumerCrashes(s0, true, r, 0);
  }

  lemma SpuriousOverflow<T(!new)>(s0: System<T>, item: T) returns (r: System<T>)
    requires Initial(s0) && |s0.producers| >= 1
    ensures Reachable(s0, true, r) && |r.q.dp| == s0.q.cap + 1 && r.q.cap == s0.q.cap
    ensures |r.producers| == |s0.producers| && r.producers[0].at == Signal && r.q.consumerCond == {}
  {
    Start(s0, true);
    r := Fill(s0, true, s0, item);
    r := ProducerParks(s0, true, r, 0, item);
    assert 0 in r.q.productorCond;
    r := Go(s0, true, r, WakeProducer(0));
    r := WokenProducerOverfills(s0, true, r, 0);
  }

  lemma ReachableIsUnsafe<T(!new)>(s0: System<T>, spurious: bool, r: System<T>, a: Action<T>)
    requires Reachable(s0, spurious, r)
    requires |r.q.dp| > s0.q.cap || Step(r, a) == Crash
    ensures !Safe(s0, spurious)
  {
    var schedule :| Allowed(schedule, spurious) && Exec(s0, schedule) == r;
    assert !SafeAfter(s0, schedule, a);
  }

  /** The queue is safe exactly when there is at most one thread on each side, or no threads on
      one side at all; if spurious wakeups can happen, only when nobody uses it. */
  lemma SafeIff<T(!new)>(s: System<T>, spurious: bool, item: T)
    requires Initial(s)
    ensures Safe(s, spurious) <==> Fits(|s.producers|, |s.consumers|, spurious)
  {
    if Fits(|s.producers|, |s.consumers|, spurious) {
      forall schedule: seq<Action<T>>, a: Action<T> | Allowed(schedule, spurious)
        ensures SafeAfter(s, schedule, a)
      {
        FitsIsSafe(s, spurious, schedule, a, item);
      }
    } else if spurious && |s.consumers| >= 1 {
      var r := SpuriousUnderflow(s);
      ReachableIsUnsafe(s, spurious, r, ConsumerTurn(0, 0));
    } else if spurious {
      var r := SpuriousOverflow(s, item);
      ReachableIsUnsafe(s, spurious, r, ConsumerTurn(0, 0));
    } else if |s.consumers| >= 2 {
      var r := TwoConsumersUnderflow(s, item);
      ReachableIsUnsafe(s, spurious, r, ConsumerTurn(0, 0));
    } else {
      var r := TwoProducersOverflow(s, item);
      ReachableIsUnsafe(s, spurious, r, ConsumerTurn(0, 0));
    }
  }
}
