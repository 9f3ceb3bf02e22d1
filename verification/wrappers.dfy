/** The optional value used throughout the model: Python's `None` versus a value,
    a regex that did not match versus its groups, a queue read that timed out
    versus a line. */
module Wrappers {

  datatype Option<+T> = None | Some(value: T) {

    /** Lets `:-` propagate a `None`. */
    predicate IsFailure() {
      None?
    }

    function PropagateFailure<U>(): Option<U>
      requires None?
    {
      None
    }

    function Extract(): T
      requires Some?
    {
      value
    }

    /** The value, or `default` when there is none. */
    function Or(default: T): T {
      if Some? then value else default
    }
  }
}
