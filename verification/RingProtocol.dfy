/** Any number of producer and consumer threads running the statements of
    thread4/RingQueue.hpp in any interleaving. A producer calls Enqueue once for each value
    of `todo`; a consumer calls Pop `pops` times. */
module RingProtocol {
  import opened Sync
  import opened Counting
  import opened BoundedFifo
  import opened RingQueue

  datatype Thread<T> =
    | Producer(at: At, todo: seq<T>)
    | Consumer(at: At, pops: nat)

  datatype Entry<T> = Entry(thread: Tid, value: T)

  /** `written` and `popped` record, in order, every store into the vector and every value
      copied out of it. No statement reads them. */
  datatype System<T> = System(
    ring: Ring<T>,
    threads: seq<Thread<T>>,
    written: seq<Entry<T>>,
    popped: seq<Entry<T>>)

  ghost predicate Initial<T>(s: System<T>) {
    && |s.ring.buf| >= 1
    && s.ring == Ring(s.ring.buf, 0, 0, |s.ring.buf|, 0, None, None)
    && (forall t | 0 <= t < |s.threads| :: s.threads[t].at == Lock)
    && s.written == [] && s.popped == []
  }

  /** Thread `t` attempts its next statement. */
  function Step<T>(s: System<T>, t: Tid): Outcome<System<T>> {
    if t >= |s.threads| then Blocked
    else
      match s.threads[t]
      case Producer(at, todo) =>
        if todo == [] then Blocked
        else (
          match EnqueueStep(s.ring, t, at, todo[0])
          case Blocked => Blocked
          case Crash => Crash
          case Moved(r) =>
            Moved(s.(ring := r,
                     threads := s.threads[t := Producer(Following(at), if at == Unlock then todo[1..] else todo)],
                     written := if at == Copy then s.written + [Entry(t, todo[0])] else s.written)))
      case Consumer(at, pops) =>
        if pops == 0 then Blocked
        else (
          match PopStep(s.ring, t, at)
          case Blocked => Blocked
          case Crash => Crash
          case Moved(r) =>
            Moved(s.(ring := r,
                     threads := s.threads[t := Consumer(Following(at), if at == Unlock then pops - 1 else pops)],
                     popped := if at == Copy then s.popped + [Entry(t, Front(s.ring))] else s.popped)))
  }

  /** The state after the threads named in `schedule` have been given their turns. Every
      interleaving is some schedule; a blocked thread's turn changes nothing. */
  function Exec<T>(s: System<T>, schedule: seq<Tid>): System<T>
    decreases |schedule|
  {
    if schedule == [] then s
    else
      var s' := Exec(s, schedule[..|schedule| - 1]);
      match Step(s', schedule[|schedule| - 1])
      case Moved(s'') => s''
      case _ => s'
  }

  // ---------------------------------------------------------------- invariant

  /** Where the holder of each mutex stands; Lock when nobody holds it. */
  function ProducerAt<T>(s: System<T>): At {
    match s.ring.pmutex
    case Some(t) => if t < |s.threads| then s.threads[t].at else Lock
    case None => Lock
  }

  function ConsumerAt<T>(s: System<T>): At {
    match s.ring.cmutex
    case Some(t) => if t < |s.threads| then s.threads[t].at else Lock
    case None => Lock
  }

  /** 1 for a thread that has passed P and has not yet done V. */
  function InFlight(at: At): nat {
    if at == Copy || at == Wrap || at == V then 1 else 0
  }

  /** 1 for a thread that has copied its value and has not yet done V. */
  function Copied(at: At): nat {
    if at == Wrap || at == V then 1 else 0
  }

  ghost predicate Holders<T>(s: System<T>) {
    && (forall t | 0 <= t < |s.threads| && s.threads[t].Producer? ::
          && (s.threads[t].at != Lock <==> s.ring.pmutex == Some(t))
          && (s.threads[t].at != Lock ==> s.threads[t].todo != []))
    && (forall t | 0 <= t < |s.threads| && s.threads[t].Consumer? ::
          && (s.threads[t].at != Lock <==> s.ring.cmutex == Some(t))
          && (s.threads[t].at != Lock ==> s.threads[t].pops > 0))
    && (s.ring.pmutex.Some? ==> s.ring.pmutex.value < |s.threads| && s.threads[s.ring.pmutex.value].Producer?)
    && (s.ring.cmutex.Some? ==> s.ring.cmutex.value < |s.threads| && s.threads[s.ring.cmutex.value].Consumer?)
  }

  predicate Tokens<T>(s: System<T>) {
    && s.ring.blank + s.ring.data + InFlight(ProducerAt(s)) + InFlight(ConsumerAt(s)) == |s.ring.buf|
    && |s.written| + Copied(ConsumerAt(s)) + s.ring.blank + InFlight(ProducerAt(s))
       == |s.popped| + |s.ring.buf| + Copied(ProducerAt(s))
  }

  /** A step counter that has been incremented but not yet reduced modulo the capacity. */
  function StepAfter(n: nat, cap: nat, at: At): nat
    requires cap >= 1
  {
    if at == Wrap && n >= 1 then (n - 1) % cap + 1 else n % cap
  }

  predicate Indices<T>(s: System<T>) {
    && |s.ring.buf| >= 1
    && s.ring.productorStep == StepAfter(|s.written|, |s.ring.buf|, ProducerAt(s))
    && s.ring.consumerStep == StepAfter(|s.popped|, |s.ring.buf|, ConsumerAt(s))
    && (Copied(ProducerAt(s)) == 1 ==> |s.written| >= 1)
    && (Copied(ConsumerAt(s)) == 1 ==> |s.popped| >= 1)
  }

  /** Entry i of the write log, while unread, is stored at physical slot i modulo the
      capacity. */
  ghost predicate Contents<T>(s: System<T>)
    requires |s.ring.buf| >= 1
  {
    && |s.popped| <= |s.written| <= |s.popped| + |s.ring.buf|
    && (forall i | |s.popped| <= i < |s.written| :: s.ring.buf[i % |s.ring.buf|] == s.written[i].value)
    && (forall i | 0 <= i < |s.popped| :: s.popped[i].value == s.written[i].value)
  }

  ghost predicate Inv<T>(s: System<T>) {
    Holders(s) && Tokens(s) && Indices(s) && Contents(s)
  }

  // ---------------------------------------------------------------- modular arithmetic

  lemma ModDistinct(i: nat, j: nat, cap: nat)
    requires cap >= 1 && i < j < i + cap
    ensures i % cap != j % cap
  {
    var qi, qj := i / cap, j / cap;
    assert j - i == cap * (qj - qi) + (j % cap - i % cap);
    MultipleBetween(qj - qi, cap, j - i);
  }

  /** No multiple of cap lies strictly between 0 and cap. */
  lemma MultipleBetween(q: int, cap: nat, n: nat)
    requires 0 < n < cap
    ensures cap * q != n
  {
    if q >= 1 {
      assert cap * q >= cap;
    } else {
      assert cap * q <= 0;
    }
  }

  lemma ModSuccessor(i: nat, cap: nat)
    requires cap >= 1
    ensures (i % cap + 1) % cap == (i + 1) % cap
  {
    var q, r := i / cap, i % cap;
    if r + 1 < cap {
      ModUnique(i + 1, cap, q, r + 1);
      ModUnique(r + 1, cap, 0, r + 1);
    } else {
      assert cap * q + cap == cap * (q + 1);
      ModUnique(i + 1, cap, q + 1, 0);
      ModUnique(r + 1, cap, 1, 0);
    }
  }

  lemma ModUnique(n: nat, cap: nat, q: nat, r: nat)
    requires cap >= 1 && n == cap * q + r && r < cap
    ensures n % cap == r
  {
    var q', r' := n / cap, n % cap;
    assert n == cap * q' + r';
    Distribute(cap, q, q');
    if r' > r {
      MultipleBetween(q - q', cap, r' - r);
    } else if r > r' {
      MultipleBetween(q' - q, cap, r - r');
    }
  }

  lemma Distribute(c: int, x: int, y: int)
    ensures c * (x - y) == c * x - c * y
    ensures c * (y - x) == c * y - c * x
  {
  }

  // ---------------------------------------------------------------- every step keeps the invariant

  lemma InitialInv<T>(s: System<T>)
    requires Initial(s)
    ensures Inv(s)
  {
  }

  lemma ProducerHolders<T>(s: System<T>, t: Tid)
    requires Holders(s) && Step(s, t).Moved? && s.threads[t].Producer?
    ensures Holders(Step(s, t).next)
  {
    var s' := Step(s, t).next;
    var at, todo := s.threads[t].at, s.threads[t].todo;
    assert EnqueueStep(s.ring, t, at, todo[0]) == Moved(s'.ring);
    assert s'.ring.cmutex == s.ring.cmutex;
    assert s'.threads == s.threads[t := s'.threads[t]];
  }

  lemma ConsumerHolders<T>(s: System<T>, t: Tid)
    requires Holders(s) && Step(s, t).Moved? && s.threads[t].Consumer?
    ensures Holders(Step(s, t).next)
  {
    var s' := Step(s, t).next;
    assert PopStep(s.ring, t, s.threads[t].at) == Moved(s'.ring);
    assert s'.ring.pmutex == s.ring.pmutex;
    assert s'.threads == s.threads[t := s'.threads[t]];
  }

  lemma HoldersKept<T>(s: System<T>, t: Tid)
    requires Holders(s) && Step(s, t).Moved?
    ensures Holders(Step(s, t).next)
  {
    if s.threads[t].Producer? {
      ProducerHolders(s, t);
    } else {
      ConsumerHolders(s, t);
    }
  }

  /** What a producer's statement touches. */
  lemma ProducerShape<T>(s: System<T>, t: Tid)
    requires Holders(s) && Step(s, t).Moved? && s.threads[t].Producer?
    ensures var r, at := Step(s, t).next, s.threads[t].at;
            && ProducerAt(s) == at && ProducerAt(r) == Following(at) && ConsumerAt(r) == ConsumerAt(s)
            && |r.written| == |s.written| + (if at == Copy then 1 else 0) && r.popped == s.popped
            && |r.ring.buf| == |s.ring.buf| && r.ring.consumerStep == s.ring.consumerStep
            && s.threads[t].todo != [] && EnqueueStep(s.ring, t, at, s.threads[t].todo[0]) == Moved(r.ring)
  {
  }

  lemma ConsumerShape<T>(s: System<T>, t: Tid)
    requires Holders(s) && Step(s, t).Moved? && s.threads[t].Consumer?
    ensures var r, at := Step(s, t).next, s.threads[t].at;
            && ConsumerAt(s) == at && ConsumerAt(r) == Following(at) && ProducerAt(r) == ProducerAt(s)
            && |r.popped| == |s.popped| + (if at == Copy then 1 else 0) && r.written == s.written
            && r.ring.buf == s.ring.buf && r.ring.productorStep == s.ring.productorStep
            && PopStep(s.ring, t, at) == Moved(r.ring)
  {
  }

  lemma TokensKept<T>(s: System<T>, t: Tid)
    requires Holders(s) && Tokens(s) && Step(s, t).Moved?
    ensures Tokens(Step(s, t).next)
  {
    if s.threads[t].Producer? {
      ProducerShape(s, t);
    } else {
      ConsumerShape(s, t);
    }
  }

  /** Moving a step counter on: after Copy it is one past the previous slot, after Wrap it is
      the next slot again. */
  lemma StepAfterMoves(n: nat, cap: nat)
    requires cap >= 1
    ensures StepAfter(n + 1, cap, Wrap) == StepAfter(n, cap, Copy) + 1
    ensures n >= 1 ==> StepAfter(n, cap, Wrap) % cap == StepAfter(n, cap, V)
  {
    if n >= 1 {
      ModSuccessor(n - 1, cap);
    }
  }

  lemma IndicesKept<T>(s: System<T>, t: Tid)
    requires Holders(s) && Indices(s) && Step(s, t).Moved?
    ensures Indices(Step(s, t).next)
  {
    StepAfterMoves(|s.written|, |s.ring.buf|);
    StepAfterMoves(|s.popped|, |s.ring.buf|);
    if s.threads[t].Producer? {
      ProducerShape(s, t);
    } else {
      ConsumerShape(s, t);
    }
  }

  lemma StoreContents<T>(s: System<T>, t: Tid)
    requires Inv(s) && Step(s, t).Moved? && s.threads[t].Producer? && s.threads[t].at == Copy
    ensures |Step(s, t).next.ring.buf| == |s.ring.buf| && Contents(Step(s, t).next)
  {
    var cap, w, s' := |s.ring.buf|, |s.written|, Step(s, t).next;
    assert ProducerAt(s) == Copy;
    assert s'.ring.buf == s.ring.buf[w % cap := s.threads[t].todo[0]];
    assert w < |s.popped| + cap;
    forall i | |s.popped| <= i < w + 1
      ensures s'.ring.buf[i % cap] == s'.written[i].value
    {
      if i < w {
        ModDistinct(i, w, cap);
      }
    }
  }

  lemma ReadContents<T>(s: System<T>, t: Tid)
    requires Inv(s) && Step(s, t).Moved? && s.threads[t].Consumer? && s.threads[t].at == Copy
    ensures |Step(s, t).next.ring.buf| == |s.ring.buf| && Contents(Step(s, t).next)
  {
    assert ConsumerAt(s) == Copy;
    assert |s.popped| < |s.written|;
    assert Front(s.ring) == s.written[|s.popped|].value;
  }

  lemma ContentsKept<T>(s: System<T>, t: Tid)
    requires Inv(s) && Step(s, t).Moved?
    ensures |Step(s, t).next.ring.buf| == |s.ring.buf| && Contents(Step(s, t).next)
  {
    if s.threads[t].at == Copy {
      if s.threads[t].Producer? {
        StoreContents(s, t);
      } else {
        ReadContents(s, t);
      }
    } else {
      assert Step(s, t).next.ring.buf == s.ring.buf;
    }
  }

  lemma StepKeeps<T>(s: System<T>, t: Tid)
    requires Inv(s)
    ensures Step(s, t) != Crash
    ensures Step(s, t).Moved? ==> Inv(Step(s, t).next)
  {
    if Step(s, t).Moved? {
      HoldersKept(s, t);
      TokensKept(s, t);
      IndicesKept(s, t);
      ContentsKept(s, t);
    }
  }

  lemma {:induction false} ExecInv<T>(s: System<T>, schedule: seq<Tid>)
    requires Initial(s)
    ensures Inv(Exec(s, schedule))
    decreases |schedule|
  {
    if schedule == [] {
      InitialInv(s);
    } else {
      var before := schedule[..|schedule| - 1];
      ExecInv(s, before);
      StepKeeps(Exec(s, before), schedule[|schedule| - 1]);
    }
  }

  /** No interleaving stores or reads outside the vector. */
  lemma NeverCrashes<T>(s: System<T>, schedule: seq<Tid>, t: Tid)
    requires Initial(s)
    ensures Step(Exec(s, schedule), t) != Crash
  {
    ExecInv(s, schedule);
    StepKeeps(Exec(s, schedule), t);
  }

  // ---------------------------------------------------------------- tokens and slots

  /** The logical index a thread between P and V is working on. */
  function InFlightIndex(logLength: nat, at: At): int {
    if Copied(at) == 1 then logLength - 1 else logLength
  }

  /** In every interleaving each unit of capacity is exactly one of: a blank token, a data
      token, a slot a producer is working on, a slot a consumer is working on. */
  lemma TokensConserved<T>(s: System<T>, schedule: seq<Tid>)
    requires Initial(s)
    ensures var r := Exec(s, schedule);
            && |r.ring.buf| == |s.ring.buf|
            && r.ring.blank + r.ring.data + InFlight(ProducerAt(r)) + InFlight(ConsumerAt(r)) == |s.ring.buf|
  {
    ExecInv(s, schedule);
    ExecCapacity(s, schedule);
  }

  lemma StepCapacity<T>(s: System<T>, t: Tid)
    requires Step(s, t).Moved?
    ensures |Step(s, t).next.ring.buf| == |s.ring.buf| && |Step(s, t).next.threads| == |s.threads|
  {
  }

  lemma {:induction false} ExecCapacity<T>(s: System<T>, schedule: seq<Tid>)
    ensures |Exec(s, schedule).ring.buf| == |s.ring.buf|
    ensures |Exec(s, schedule).threads| == |s.threads|
    decreases |schedule|
  {
    if schedule != [] {
      var before, t := schedule[..|schedule| - 1], schedule[|schedule| - 1];
      ExecCapacity(s, before);
      if Step(Exec(s, before), t).Moved? {
        StepCapacity(Exec(s, before), t);
      }
    }
  }

  /** A producer and a consumer that are both between P and V hold different mutexes and may
      touch the vector at the same moment; they are never at the same slot. */
  lemma SlotsExclusive<T>(s: System<T>, schedule: seq<Tid>, p: Tid, c: Tid)
    requires Initial(s)
    requires var r := Exec(s, schedule);
             && p < |r.threads| && r.threads[p].Producer? && InFlight(r.threads[p].at) == 1
             && c < |r.threads| && r.threads[c].Consumer? && InFlight(r.threads[c].at) == 1
    ensures var r := Exec(s, schedule);
            var e, d := InFlightIndex(|r.written|, r.threads[p].at), InFlightIndex(|r.popped|, r.threads[c].at);
            && 0 <= d < e < d + |r.ring.buf|
            && e % |r.ring.buf| != d % |r.ring.buf|
            && (r.threads[p].at == Copy ==> r.ring.productorStep == e % |r.ring.buf|)
            && (r.threads[c].at == Copy ==> r.ring.consumerStep == d % |r.ring.buf|)
  {
    ExecInv(s, schedule);
    var r := Exec(s, schedule);
    var e, d := InFlightIndex(|r.written|, r.threads[p].at), InFlightIndex(|r.popped|, r.threads[c].at);
    assert ProducerAt(r) == r.threads[p].at && ConsumerAt(r) == r.threads[c].at;
    ModDistinct(d, e, |r.ring.buf|);
  }

  // ---------------------------------------------------------------- refinement

  function Values<T>(log: seq<Entry<T>>): (vs: seq<T>)
    ensures |vs| == |log|
    ensures forall i | 0 <= i < |log| :: vs[i] == log[i].value
  {
    seq(|log|, i requires 0 <= i < |log| => log[i].value)
  }

  /** The abstract queue: what has been written and not yet popped. */
  ghost function Abs<T>(s: System<T>): Fifo<T>
    requires |s.popped| <= |s.written|
  {
    Fifo(|s.ring.buf|, Values(s.written)[|s.popped|..])
  }

  /** Enqueue takes effect when the value is stored, Pop when it is copied out; the event
      carries the value the thread really stores or really reads. */
  function Effect<T>(s: System<T>, t: Tid): Option<Event<T>> {
    if Step(s, t).Moved? && s.threads[t].at == Copy then
      Some(if s.threads[t].Producer? then Enq(s.threads[t].todo[0]) else Deq(Front(s.ring)))
    else None
  }

  function History<T>(s: System<T>, schedule: seq<Tid>): seq<Event<T>>
    decreases |schedule|
  {
    if schedule == [] then []
    else
      var before := schedule[..|schedule| - 1];
      Record(History(s, before), Effect(Exec(s, before), schedule[|schedule| - 1]))
  }

  ghost function After<T>(s: System<T>, t: Tid): System<T> {
    match Step(s, t)
    case Moved(s') => s'
    case _ => s
  }

  lemma StoreRefines<T>(s: System<T>, t: Tid)
    requires Inv(s) && Step(s, t).Moved? && s.threads[t].at == Copy && s.threads[t].Producer?
    requires Inv(Step(s, t).next)
    ensures Apply(Abs(s), Enq(s.threads[t].todo[0])) == Some(Abs(Step(s, t).next))
  {
    var s' := Step(s, t).next;
    assert ProducerAt(s) == Copy;
    assert |s.written| - |s.popped| < |s.ring.buf|;
    assert Values(s'.written)[|s.popped|..] == Values(s.written)[|s.popped|..] + [s.threads[t].todo[0]];
  }

  lemma ReadRefines<T>(s: System<T>, t: Tid)
    requires Inv(s) && Step(s, t).Moved? && s.threads[t].at == Copy && s.threads[t].Consumer?
    requires Inv(Step(s, t).next)
    ensures Apply(Abs(s), Deq(Front(s.ring))) == Some(Abs(Step(s, t).next))
  {
    assert ConsumerAt(s) == Copy;
    assert |s.popped| < |s.written|;
    assert Front(s.ring) == s.written[|s.popped|].value;
  }

  lemma StepRefines<T>(s: System<T>, t: Tid)
    requires Inv(s) && Inv(After(s, t))
    ensures match Effect(s, t)
            case None => Abs(After(s, t)) == Abs(s)
            case Some(e) => Apply(Abs(s), e) == Some(Abs(After(s, t)))
  {
    if Step(s, t).Moved? && s.threads[t].at == Copy {
      if s.threads[t].Producer? {
        StoreRefines(s, t);
      } else {
        ReadRefines(s, t);
      }
    }
  }

  /** Linearizability: whatever the interleaving, the effects it produces are a legal history
      of the bounded FIFO, and the FIFO they lead to is what the ring then holds. */
  lemma {:induction false} RingRefinesFifo<T>(s: System<T>, schedule: seq<Tid>)
    requires Initial(s)
    ensures Inv(Exec(s, schedule))
    ensures Replay(Empty(|s.ring.buf|), History(s, schedule)) == Some(Abs(Exec(s, schedule)))
    decreases |schedule|
  {
    ExecInv(s, schedule);
    if schedule != [] {
      var before, t := schedule[..|schedule| - 1], schedule[|schedule| - 1];
      RingRefinesFifo(s, before);
      ExecCapacity(s, before);
      StepRefines(Exec(s, before), t);
      assert Exec(s, schedule) == After(Exec(s, before), t);
      ReplayRecord(|s.ring.buf|, History(s, before), Effect(Exec(s, before), t),
                   Abs(Exec(s, before)), Abs(Exec(s, schedule)));
    }
  }

  /** The values consumers receive are, in order, a prefix of the values producers stored, and
      what is still unread sits in the vector at the index modulo the capacity. */
  lemma PoppedIsPrefix<T>(s: System<T>, schedule: seq<Tid>)
    requires Initial(s)
    ensures var r := Exec(s, schedule);
            && Values(r.popped) <= Values(r.written)
            && |r.written| - |r.popped| <= |r.ring.buf|
            && forall i | |r.popped| <= i < |r.written| ::
                 |r.ring.buf| > 0 && r.ring.buf[i % |r.ring.buf|] == r.written[i].value
  {
    ExecInv(s, schedule);
  }

  // ---------------------------------------------------------------- order per producer

  /** The values of a log that thread `t` put there. */
  function StoredBy<T>(log: seq<Entry<T>>, t: Tid): seq<T>
    decreases |log|
  {
    if log == [] then []
    else
      var last := log[|log| - 1];
      StoredBy(log[..|log| - 1], t) + if last.thread == t then [last.value] else []
  }

  /** The values consumers have read, in the order they read them, that came from producer
      `t`: entry i of the pop log was stored by the thread of entry i of the write log. */
  function ReceivedFrom<T>(popped: seq<Entry<T>>, written: seq<Entry<T>>, t: Tid): seq<T>
    requires |popped| <= |written|
    decreases |popped|
  {
    if popped == [] then []
    else
      var n := |popped| - 1;
      ReceivedFrom(popped[..n], written, t) + if written[n].thread == t then [popped[n].value] else []
  }

  function Unwritten<T>(th: Thread<T>): seq<T> {
    match th
    case Producer(at, todo) => if (Copied(at) == 1 || at == Unlock) && todo != [] then todo[1..] else todo
    case Consumer(_, _) => []
  }

  lemma StoredByMore<T>(log: seq<Entry<T>>, e: Entry<T>, t: Tid)
    ensures StoredBy(log + [e], t) == StoredBy(log, t) + if e.thread == t then [e.value] else []
  {
    assert (log + [e])[..|log|] == log;
  }

  /** What a statement adds to the write log is what its thread has one less to write. */
  lemma StepWrites<T>(s: System<T>, u: Tid)
    requires Step(s, u).Moved?
    ensures var r := Step(s, u).next;
            && u < |s.threads| && |r.threads| == |s.threads| && r.threads == s.threads[u := r.threads[u]]
            && if s.threads[u].at == Copy && s.threads[u].Producer? then
                 && s.threads[u].todo != []
                 && r.written == s.written + [Entry(u, s.threads[u].todo[0])]
                 && Unwritten(s.threads[u]) == [s.threads[u].todo[0]] + Unwritten(r.threads[u])
               else r.written == s.written && Unwritten(r.threads[u]) == Unwritten(s.threads[u])
  {
  }

  lemma StepStoresInOrder<T>(s: System<T>, u: Tid, t: Tid)
    requires Step(s, u).Moved? && t < |s.threads|
    ensures var r := Step(s, u).next;
            && t < |r.threads|
            && StoredBy(r.written, t) + Unwritten(r.threads[t]) == StoredBy(s.written, t) + Unwritten(s.threads[t])
  {
    hide Step, StoredBy, Unwritten;
    StepWrites(s, u);
    if s.threads[u].at == Copy && s.threads[u].Producer? {
      var x, r := s.threads[u].todo[0], Step(s, u).next;
      StoredByMore(s.written, Entry(u, x), t);
      if u == t {
        var stored, left := StoredBy(s.written, t), Unwritten(r.threads[t]);
        assert stored + [x] + left == stored + ([x] + left);
      }
    }
  }

  lemma {:induction false} StoresInOrder<T>(s: System<T>, schedule: seq<Tid>, t: Tid)
    requires Initial(s) && t < |s.threads|
    ensures var r := Exec(s, schedule);
            |r.threads| == |s.threads| && StoredBy(r.written, t) + Unwritten(r.threads[t]) == Unwritten(s.threads[t])
    decreases |schedule|
  {
    ExecCapacity(s, schedule);
    if schedule != [] {
      var before, u := schedule[..|schedule| - 1], schedule[|schedule| - 1];
      StoresInOrder(s, before, t);
      ExecInv(s, before);
      if Step(Exec(s, before), u).Moved? {
        StepStoresInOrder(Exec(s, before), u, t);
      }
    }
  }

  lemma {:induction false} StoredByPrefix<T>(log: seq<Entry<T>>, n: nat, t: Tid)
    requires n <= |log|
    ensures StoredBy(log[..n], t) <= StoredBy(log, t)
    decreases |log|
  {
    if n == |log| {
      assert log[..n] == log;
    } else {
      assert log[..|log| - 1][..n] == log[..n];
      StoredByPrefix(log[..|log| - 1], n, t);
    }
  }

  lemma {:induction false} ReceivedIsStored<T>(popped: seq<Entry<T>>, written: seq<Entry<T>>, t: Tid)
    requires |popped| <= |written|
    requires forall i | 0 <= i < |popped| :: popped[i].value == written[i].value
    ensures ReceivedFrom(popped, written, t) == StoredBy(written[..|popped|], t)
    decreases |popped|
  {
    if popped != [] {
      var n := |popped| - 1;
      assert written[..n + 1][..n] == written[..n];
      ReceivedIsStored(popped[..n], written, t);
    }
  }

  /** However many producers and consumers share the ring, the values that have come out of
      it from one producer are a gap-free prefix of the values that producer sends. */
  lemma PerProducerOrder<T>(s: System<T>, schedule: seq<Tid>, t: Tid)
    requires Initial(s) && t < |s.threads| && s.threads[t].Producer?
    ensures var r := Exec(s, schedule);
            |r.popped| <= |r.written| && ReceivedFrom(r.popped, r.written, t) <= s.threads[t].todo
  {
    ExecInv(s, schedule);
    StoresInOrder(s, schedule, t);
    var r := Exec(s, schedule);
    ReceivedIsStored(r.popped, r.written, t);
    StoredByPrefix(r.written, |r.popped|, t);
  }
}
