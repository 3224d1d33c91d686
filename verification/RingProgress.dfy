/** Progress of the ring protocol: every run is finite, and which runs get stuck. */
module RingProgress {
  import opened Sync
  import opened Counting
  import opened RingQueue
  import opened RingProtocol

  function Rank(at: At): nat {
    match at
    case Lock => 0
    case P => 1
    case Copy => 2
    case Wrap => 3
    case V => 4
    case Unlock => 5
  }

  /** Statements a thread still has to execute: six for each call. */
  function Left<T>(th: Thread<T>): nat {
    match th
    case Producer(at, todo) => if todo == [] then 0 else 6 * |todo| - Rank(at)
    case Consumer(at, pops) => if pops == 0 then 0 else 6 * pops - Rank(at)
  }

  /** Calls a thread has not returned from. */
  function Enqueues<T>(th: Thread<T>): nat { if th.Producer? then |th.todo| else 0 }

  function Pops<T>(th: Thread<T>): nat { if th.Consumer? then th.pops else 0 }

  /** Values a thread has still to store, and to read. */
  function ToStore<T>(th: Thread<T>): nat { |Unwritten(th)| }

  function ToRead<T>(th: Thread<T>): nat {
    match th
    case Producer(_, _) => 0
    case Consumer(at, pops) => if (Copied(at) == 1 || at == Unlock) && pops > 0 then pops - 1 else pops
  }

  ghost predicate Finished<T>(s: System<T>) {
    forall t | 0 <= t < |s.threads| :: Enqueues(s.threads[t]) == 0 && Pops(s.threads[t]) == 0
  }

  ghost predicate Stuck<T>(s: System<T>) {
    forall t | 0 <= t < |s.threads| :: Step(s, t) == Blocked
  }

  /** How many turns of the schedule moved a thread. */
  function Moves<T>(s: System<T>, schedule: seq<Tid>): nat
    decreases |schedule|
  {
    if schedule == [] then 0
    else
      var before := schedule[..|schedule| - 1];
      Moves(s, before) + if Step(Exec(s, before), schedule[|schedule| - 1]).Moved? then 1 else 0
  }

  // ---------------------------------------------------------------- finiteness

  lemma MoveLeft<T>(s: System<T>, t: Tid)
    requires Step(s, t).Moved?
    ensures var r := Step(s, t).next;
            && t < |s.threads| && |r.threads| == |s.threads| && r.threads == s.threads[t := r.threads[t]]
            && Left(r.threads[t]) + 1 == Left(s.threads[t])
  {
  }

  lemma MoveCosts<T>(s: System<T>, t: Tid)
    requires Step(s, t).Moved?
    ensures Sum(Step(s, t).next.threads, Left) + 1 == Sum(s.threads, Left)
  {
    hide Step, Left;
    MoveLeft(s, t);
    SumUpdate(s.threads, t, Step(s, t).next.threads[t], Left);
  }

  /** The moves of a run and the statements left at its end always add up to the statements
      of the program, so no run moves more often than that. */
  lemma {:induction false} RunsAreFinite<T>(s: System<T>, schedule: seq<Tid>)
    ensures Moves(s, schedule) + Sum(Exec(s, schedule).threads, Left) == Sum(s.threads, Left)
    decreases |schedule|
  {
    if schedule != [] {
      var before, t := schedule[..|schedule| - 1], schedule[|schedule| - 1];
      RunsAreFinite(s, before);
      if Step(Exec(s, before), t).Moved? {
        MoveCosts(Exec(s, before), t);
      }
    }
  }

  lemma {:induction false} SixPerCall<T>(threads: seq<Thread<T>>)
    requires forall t | 0 <= t < |threads| :: threads[t].at == Lock
    ensures Sum(threads, Left) == 6 * (Sum(threads, Enqueues) + Sum(threads, Pops))
  {
    if threads != [] {
      SixPerCall(threads[1..]);
    }
  }

  // ---------------------------------------------------------------- stuck states

  lemma StepTotals<T>(s: System<T>, t: Tid)
    requires Step(s, t).Moved?
    ensures var r := Step(s, t).next;
            && t < |s.threads| && |r.threads| == |s.threads| && r.threads == s.threads[t := r.threads[t]]
            && |r.written| + ToStore(r.threads[t]) == |s.written| + ToStore(s.threads[t])
            && |r.popped| + ToRead(r.threads[t]) == |s.popped| + ToRead(s.threads[t])
  {
  }

  lemma StepKeepsTotals<T>(s: System<T>, t: Tid)
    requires Holders(s) && Step(s, t).Moved?
    ensures var r := Step(s, t).next;
            && |r.written| + Sum(r.threads, ToStore) == |s.written| + Sum(s.threads, ToStore)
            && |r.popped| + Sum(r.threads, ToRead) == |s.popped| + Sum(s.threads, ToRead)
  {
    hide Step, ToStore, ToRead;
    StepTotals(s, t);
    var th := Step(s, t).next.threads[t];
    SumUpdate(s.threads, t, th, ToStore);
    SumUpdate(s.threads, t, th, ToRead);
  }

  lemma {:induction false} Totals<T>(s: System<T>, schedule: seq<Tid>)
    requires Initial(s)
    ensures var r := Exec(s, schedule);
            && |r.written| + Sum(r.threads, ToStore) == Sum(s.threads, Enqueues)
            && |r.popped| + Sum(r.threads, ToRead) == Sum(s.threads, Pops)
    decreases |schedule|
  {
    if schedule == [] {
      SumsAtStart(s.threads);
    } else {
      var before, t := schedule[..|schedule| - 1], schedule[|schedule| - 1];
      Totals(s, before);
      ExecInv(s, before);
      if Step(Exec(s, before), t).Moved? {
        StepKeepsTotals(Exec(s, before), t);
      }
    }
  }

  lemma {:induction false} SumsAtStart<T>(threads: seq<Thread<T>>)
    requires forall t | 0 <= t < |threads| :: threads[t].at == Lock
    ensures Sum(threads, ToStore) == Sum(threads, Enqueues)
    ensures Sum(threads, ToRead) == Sum(threads, Pops)
  {
    if threads != [] {
      SumsAtStart(threads[1..]);
    }
  }

  /** A stuck state with an unfinished producer: the holder of the producer mutex sits at P
      on an empty semaphore. */
  lemma StuckProducers<T>(s: System<T>)
    requires Inv(s) && Stuck(s)
    ensures ProducerAt(s) == if Sum(s.threads, Enqueues) == 0 then Lock else P
    ensures Sum(s.threads, Enqueues) > 0 ==> s.ring.blank == 0 && Sum(s.threads, ToStore) > 0
    ensures Sum(s.threads, Enqueues) == 0 ==> Sum(s.threads, ToStore) == 0
  {
    SumZero(s.threads, Enqueues);
    SumZero(s.threads, ToStore);
    if t :| 0 <= t < |s.threads| && Enqueues(s.threads[t]) > 0 {
      assert Step(s, t) == Blocked;
      assert s.ring.pmutex.Some?;
      var o := s.ring.pmutex.value;
      assert Step(s, o) == Blocked;
      assert s.threads[o].at == P && s.ring.blank == 0;
      assert ToStore(s.threads[o]) > 0;
    } else {
      forall t | 0 <= t < |s.threads|
        ensures Enqueues(s.threads[t]) == 0 && ToStore(s.threads[t]) == 0
      {
      }
    }
  }

  lemma StuckConsumers<T>(s: System<T>)
    requires Inv(s) && Stuck(s)
    ensures ConsumerAt(s) == if Sum(s.threads, Pops) == 0 then Lock else P
    ensures Sum(s.threads, Pops) > 0 ==> s.ring.data == 0 && Sum(s.threads, ToRead) > 0
    ensures Sum(s.threads, Pops) == 0 ==> Sum(s.threads, ToRead) == 0
  {
    SumZero(s.threads, Pops);
    SumZero(s.threads, ToRead);
    if t :| 0 <= t < |s.threads| && Pops(s.threads[t]) > 0 {
      assert Step(s, t) == Blocked;
      assert s.ring.cmutex.Some?;
      var o := s.ring.cmutex.value;
      assert Step(s, o) == Blocked;
      assert s.threads[o].at == P && s.ring.data == 0;
      assert ToRead(s.threads[o]) > 0;
    } else {
      forall t | 0 <= t < |s.threads|
        ensures Pops(s.threads[t]) == 0 && ToRead(s.threads[t]) == 0
      {
      }
    }
  }

  lemma FinishedSums<T>(s: System<T>)
    ensures Finished(s) <==> Sum(s.threads, Enqueues) == 0 && Sum(s.threads, Pops) == 0
  {
    SumZero(s.threads, Enqueues);
    SumZero(s.threads, Pops);
  }

  /** With k Enqueue calls and m Pop calls, however they are split among the threads, a run
      that can go no further has completed every call exactly when m <= k <= m + cap. */
  lemma CompletesIff<T>(s: System<T>, schedule: seq<Tid>)
    requires Initial(s) && Stuck(Exec(s, schedule))
    ensures var k, m := Sum(s.threads, Enqueues), Sum(s.threads, Pops);
            Finished(Exec(s, schedule)) <==> m <= k <= m + |s.ring.buf|
  {
    var r := Exec(s, schedule);
    ExecInv(s, schedule);
    ExecCapacity(s, schedule);
    Totals(s, schedule);
    StuckProducers(r);
    StuckConsumers(r);
    FinishedSums(r);
  }

  lemma NothingLeft<T>(s: System<T>)
    requires Holders(s)
    ensures Finished(s) <==> Sum(s.threads, Left) == 0
  {
    SumZero(s.threads, Left);
    assert forall t | 0 <= t < |s.threads| ::
        Left(s.threads[t]) == 0 <==> Enqueues(s.threads[t]) == 0 && Pops(s.threads[t]) == 0;
  }

  lemma SomeoneMoves<T>(s: System<T>)
    requires Inv(s) && !Stuck(s)
    ensures exists t :: Step(s, t).Moved?
  {
    var t :| 0 <= t < |s.threads| && Step(s, t) != Blocked;
    StepKeeps(s, t);
    assert Step(s, t).Moved?;
  }

  /** So for such a split some thread can always move until all calls have returned, and
      they have returned after exactly 6(k + m) moves, even though a producer may block on
      the semaphore while it holds its mutex. */
  lemma Progress<T>(s: System<T>, schedule: seq<Tid>)
    requires Initial(s)
    requires Sum(s.threads, Pops) <= Sum(s.threads, Enqueues) <= Sum(s.threads, Pops) + |s.ring.buf|
    ensures var r := Exec(s, schedule);
            && (!Finished(r) ==> exists t :: Step(r, t).Moved?)
            && (Finished(r) <==> Moves(s, schedule) == 6 * (Sum(s.threads, Enqueues) + Sum(s.threads, Pops)))
  {
    var r := Exec(s, schedule);
    RunsAreFinite(s, schedule);
    SixPerCall(s.threads);
    ExecInv(s, schedule);
    NothingLeft(r);
    if Stuck(r) {
      CompletesIff(s, schedule);
    } else {
      SomeoneMoves(r);
    }
  }
}
