/** The sequential object that both queues promise to be: a first-in first-out queue that
    never holds more than `cap` items. */
module BoundedFifo {
  import opened Sync

  datatype Fifo<T> = Fifo(cap: nat, items: seq<T>)

  datatype Event<T> = Enq(item: T) | Deq(item: T)

  function Empty<T>(cap: nat): Fifo<T> { Fifo(cap, []) }

  /** One operation; None when the object does not allow it, or would answer otherwise. */
  function Apply<T(==)>(q: Fifo<T>, e: Event<T>): Option<Fifo<T>> {
    match e
    case Enq(x) =>
      if |q.items| < q.cap then Some(q.(items := q.items + [x])) else None
    case Deq(x) =>
      if q.items != [] && q.items[0] == x then Some(q.(items := q.items[1..])) else None
  }

  /** A history is legal when every operation in it is allowed in turn. */
  function Replay<T(==)>(q: Fifo<T>, history: seq<Event<T>>): Option<Fifo<T>>
    decreases |history|
  {
    if history == [] then Some(q)
    else
      match Replay(q, history[..|history| - 1])
      case None => None
      case Some(q') => Apply(q', history[|history| - 1])
  }

  /** A history with one more operation, if there was one. */
  function Record<T>(history: seq<Event<T>>, effect: Option<Event<T>>): seq<Event<T>> {
    match effect
    case None => history
    case Some(e) => history + [e]
  }

  lemma ReplayRecord<T>(cap: nat, history: seq<Event<T>>, effect: Option<Event<T>>, q: Fifo<T>, q': Fifo<T>)
    requires Replay(Empty(cap), history) == Some(q)
    requires match effect
             case None => q' == q
             case Some(e) => Apply(q, e) == Some(q')
    ensures Replay(Empty(cap), Record(history, effect)) == Some(q')
  {
    if effect.Some? {
      assert (history + [effect.value])[..|history|] == history;
    }
  }
}
