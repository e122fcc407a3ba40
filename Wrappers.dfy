/** Option, Result and Outcome: the error paths of the writers (the exceptions the
    Python code raises) are modelled as values of these types. */
module Wrappers {

  datatype Option<+T> = None | Some(value: T)

  datatype Result<+R, +E> = Success(value: R) | Failure(error: E)

  /** The outcome of a callback that returns nothing but may raise. */
  datatype Outcome<+E> = Pass | Fail(error: E)
}
