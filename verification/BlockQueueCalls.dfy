/** What every single call of Enqueue and pop of thread3/BlockQueue.hpp does, for any numbers of
    threads, any schedule and any wakeups: a call that has returned has stored its item, or
    taken one value, whether it had to wait or not. */
module BlockQueueCalls {
  import opened Sync
  import opened BlockQueue
  import opened BlockQueueProtocol

  // ---------------------------------------------------------------- what a turn does to the queue

  /** What was put at the back of the queue between two states. */
  function Added<T(==)>(before: seq<T>, after: seq<T>): seq<T> {
    if before <= after then after[|before|..] else []
  }

  /** What was taken from the front of the queue between two states. */
  function Removed<T>(before: seq<T>, after: seq<T>): seq<T> {
    if |after| <= |before| then before[..|before| - |after|] else []
  }

  function IsProducer<T>(a: Action<T>, p: nat): bool { a.ProducerTurn? && a.p == p }

  function IsConsumer<T>(a: Action<T>, c: nat): bool { a.ConsumerTurn? && a.c == c }

  /** The items producer `p` has called Enqueue with, in order. */
  function Entered<T>(s: System<T>, schedule: seq<Action<T>>, p: nat): seq<T>
    decreases |schedule|
  {
    if schedule == [] then []
    else
      var before, a := schedule[..|schedule| - 1], schedule[|schedule| - 1];
      var m := Exec(s, before);
      Entered(s, before, p)
      + if IsProducer(a, p) && Step(m, a).Moved? && m.producers[p].at == Lock then [a.item] else []
  }

  /** The items that the turns of producer `p` have added to the queue, in order. */
  function Stored<T(==)>(s: System<T>, schedule: seq<Action<T>>, p: nat): seq<T>
    decreases |schedule|
  {
    if schedule == [] then []
    else
      var before, a := schedule[..|schedule| - 1], schedule[|schedule| - 1];
      Stored(s, before, p)
      + if IsProducer(a, p) then Added(Exec(s, before).q.dp, Exec(s, schedule).q.dp) else []
  }

  /** How many calls of pop consumer `c` has begun. */
  function Begun<T>(s: System<T>, schedule: seq<Action<T>>, c: nat): nat
    decreases |schedule|
  {
    if schedule == [] then 0
    else
      var before, a := schedule[..|schedule| - 1], schedule[|schedule| - 1];
      var m := Exec(s, before);
      Begun(s, before, c) + if IsConsumer(a, c) && Step(m, a).Moved? && m.consumers[c] == Lock then 1 else 0
  }

  /** The values that the turns of consumer `c` have taken from the queue, in order. */
  function Taken<T>(s: System<T>, schedule: seq<Action<T>>, c: nat): seq<T>
    decreases |schedule|
  {
    if schedule == [] then []
    else
      var before, a := schedule[..|schedule| - 1], schedule[|schedule| - 1];
      Taken(s, before, c)
      + if IsConsumer(a, c) then Removed(Exec(s, before).q.dp, Exec(s, schedule).q.dp) else []
  }

  /** Inside a call that has not yet reached the queue. */
  predicate Underway(at: At) {
    at == Test || at == CountUp || at == Wait || at == Asleep || at == CountDown || at == Move
  }

  // ---------------------------------------------------------------- one turn

  function Due<T>(x: Producer<T>): seq<T> { if Underway(x.at) then [x.item] else [] }

  lemma EnqueueTurn<T>(s: System<T>, a: Action<T>, p: nat)
    requires IsProducer(a, p) && Step(s, a).Moved?
    ensures var r := Step(s, a).next;
            && p < |s.producers| && |r.producers| == |s.producers|
            && Added(s.q.dp, r.q.dp) + Due(r.producers[p])
               == Due(s.producers[p]) + (if s.producers[p].at == Lock then [a.item] else [])
  {
    var r := Step(s, a).next;
    if s.producers[p].at == Move {
      assert r.q.dp == s.q.dp + [s.producers[p].item];
      assert s.q.dp <= r.q.dp;
    } else {
      assert r.q.dp == s.q.dp;
    }
  }

  lemma OtherProducer<T>(s: System<T>, a: Action<T>, p: nat)
    requires !IsProducer(a, p) && Step(s, a).Moved? && p < |s.producers|
    ensures p < |Step(s, a).next.producers| && Step(s, a).next.producers[p] == s.producers[p]
  {
  }

  lemma PopTurn<T>(s: System<T>, a: Action<T>, c: nat)
    requires IsConsumer(a, c) && Step(s, a).Moved?
    ensures var r := Step(s, a).next;
            && c < |s.consumers| && |r.consumers| == |s.consumers|
            && |Removed(s.q.dp, r.q.dp)| + (if Underway(r.consumers[c]) then 1 else 0)
               == (if Underway(s.consumers[c]) then 1 else 0) + (if s.consumers[c] == Lock then 1 else 0)
  {
  }

  lemma OtherConsumer<T>(s: System<T>, a: Action<T>, c: nat)
    requires !IsConsumer(a, c) && Step(s, a).Moved? && c < |s.consumers|
    ensures c < |Step(s, a).next.consumers| && Step(s, a).next.consumers[c] == s.consumers[c]
  {
  }

  lemma NothingAdded<T>(q: seq<T>)
    ensures Added(q, q) == [] && Removed(q, q) == []
  {
  }

  // ---------------------------------------------------------------- whole runs

  lemma Regroup<T>(entered: seq<T>, stored: seq<T>, due: seq<T>, added: seq<T>, due': seq<T>, call: seq<T>)
    requires entered == stored + due && added + due' == due + call
    ensures entered + call == (stored + added) + due'
  {
    assert entered + call == stored + (due + call);
    assert stored + (added + due') == (stored + added) + due';
  }

  /** Whatever the other threads do and however often it has to wait: what a producer has added
      to the queue is, in order, the items it has called Enqueue with, less the one whose call
      has not reached the queue yet. So every call that has returned has stored its item. */
  lemma {:induction false} EveryEnqueueStores<T>(s: System<T>, schedule: seq<Action<T>>, p: nat)
    requires Initial(s) && p < |s.producers|
    ensures var r := Exec(s, schedule);
            && |r.producers| == |s.producers|
            && Entered(s, schedule, p)
               == Stored(s, schedule, p) + (if Underway(r.producers[p].at) then [r.producers[p].item] else [])
    decreases |schedule|
  {
    hide Step, Added;
    if schedule != [] {
      var before, a := schedule[..|schedule| - 1], schedule[|schedule| - 1];
      var m, r := Exec(s, before), Exec(s, schedule);
      EveryEnqueueStores(s, before, p);
      NothingAdded(m.q.dp);
      if Step(m, a).Moved? {
        SameNumbers(m, a);
        if IsProducer(a, p) {
          EnqueueTurn(m, a, p);
          Regroup(Entered(s, before, p), Stored(s, before, p), Due(m.producers[p]), Added(m.q.dp, r.q.dp),
                  Due(r.producers[p]), if m.producers[p].at == Lock then [a.item] else []);
        } else {
          OtherProducer(m, a, p);
        }
      }
    }
  }

  lemma SameNumbers<T>(s: System<T>, a: Action<T>)
    requires Step(s, a).Moved?
    ensures |Step(s, a).next.producers| == |s.producers| && |Step(s, a).next.consumers| == |s.consumers|
  {
  }

  /** And every call of pop that has returned has taken exactly one value. */
  lemma {:induction false} EveryPopTakes<T>(s: System<T>, schedule: seq<Action<T>>, c: nat)
    requires Initial(s) && c < |s.consumers|
    ensures var r := Exec(s, schedule);
            && |r.consumers| == |s.consumers|
            && Begun(s, schedule, c) == |Taken(s, schedule, c)| + (if Underway(r.consumers[c]) then 1 else 0)
    decreases |schedule|
  {
    hide Step, Removed;
    if schedule != [] {
      var before, a := schedule[..|schedule| - 1], schedule[|schedule| - 1];
      var m := Exec(s, before);
      EveryPopTakes(s, before, c);
      NothingAdded(m.q.dp);
      if Step(m, a).Moved? {
        SameNumbers(m, a);
        if IsConsumer(a, c) {
          PopTurn(m, a, c);
        } else {
          OtherConsumer(m, a, c);
        }
      }
    }
  }
}
