/** How a Python call of the measurement rig ends: it returns a value, or it
    stops the program (an uncaught exception, `exit()`), or, for the
    unbounded motion-done poll, it is still waiting when the scripted replies
    of the environment run out. */
module Outcomes {

  datatype Option<+T> = None | Some(value: T)

  /** The ways a call can fail to return. */
  datatype Abort =
    | IndexError          // a list or byte-string index out of range
    | UnboundLocalError   // a local variable read before it was assigned
    | SystemExit          // an explicit `exit()`
    | Unfinished          // a `while True` poll that had not terminated when the replies ran out

  /** Failure-compatible, so that `:-` propagates an abort the way Python
      propagates an exception. */
  datatype Outcome<+T> = Returned(value: T) | Aborted(reason: Abort) {

    predicate IsFailure() {
      Aborted?
    }

    function PropagateFailure<U>(): Outcome<U>
      requires Aborted?
    {
      Aborted(reason)
    }

    function Extract(): T
      requires Returned?
    {
      value
    }
  }
}
