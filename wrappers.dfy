/** Failure-carrying datatypes shared by the whole model. */
module Wrappers {

  /** Python's optional value: `None` or a value. */
  datatype Option<+T> = None | Some(value: T) {
    /** `self` when it holds a value, otherwise `other` (first success wins). */
    function OrElse(other: Option<T>): Option<T> {
      if Some? then this else other
    }
  }

  /** A value or the exception the source raises instead. */
  datatype Result<+T, +E> = Ok(value: T) | Err(error: E)

  /** The outcome of a computation that may recurse without bound: Python
      gives up with a `RecursionError`, which nothing in the core catches. */
  datatype Outcome<+T> = Done(value: T) | Diverges
}
