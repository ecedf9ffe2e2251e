/** Option and Result, the failure-compatible wrappers used throughout the model. */
module Wrappers {

  datatype Option<+T> = None | Some(value: T)

  datatype Result<+T, +E> = Success(value: T) | Failure(error: E) {

    predicate IsFailure() {
      Failure?
    }

    function PropagateFailure<U>(): Result<U, E>
      requires Failure?
    {
      Failure(error)
    }

    function Extract(): T
      requires Success?
    {
      value
    }
  }
}

/** The Python exceptions that the modelled code can raise. */
module Failures {

  datatype Error =
    | StopIteration        // next(iter(d)) on an empty chapter mapping
    | KeyError(key: string) // lookup of a key a dict does not hold
    | ZeroDivisionError    // division by a zero count
    | ValueError           // int() of a text that is not a decimal integer
    | IndexError           // list index out of range
    | FileNotFoundError    // open() of a path nothing was written to
}
