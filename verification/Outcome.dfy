/** Failure-compatible results: a value, or the reason the simulator stops. */
module Outcomes {

  datatype Option<+T> = None | Some(value: T)

  datatype Outcome<+T, +E> = Ok(value: T) | Panic(why: E) {
    predicate IsFailure() {
      Panic?
    }

    function PropagateFailure<U>(): Outcome<U, E>
      requires Panic?
    {
      Panic(why)
    }

    function Extract(): T
      requires Ok?
    {
      value
    }
  }
}
