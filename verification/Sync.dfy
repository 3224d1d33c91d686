/** Vocabulary shared by the concurrent models. */
module Sync {

  datatype Option<+T> = None | Some(value: T)

  /** What happens when a thread attempts its next statement: it may have to stay where it
      is (a taken mutex, an empty semaphore), it may do something the language leaves
      undefined, or it may move on. */
  datatype Outcome<+S> = Blocked | Crash | Moved(next: S)

  /** A thread is named by its index in the thread table. */
  type Tid = nat
}
