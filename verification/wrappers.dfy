/** Failure-carrying datatypes used to model the exceptions and out-parameters
    of the dictionary's API without preconditions that forbid the failing inputs. */
module Wrappers {

  /** A value that may be absent; models `TryGetValue`'s found flag, with the
      out value only when the key was found. */
  datatype Option<+T> = None | Some(value: T)

  /** A call that returns a value or throws. */
  datatype Result<+R, +E> = Success(value: R) | Failure(error: E)

  /** A call that returns nothing or throws. */
  datatype Outcome<+E> = Pass | Fail(error: E)
}
