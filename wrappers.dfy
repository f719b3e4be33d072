/** Failure-compatible wrappers shared by every module of the model, and the
    Python exceptions the modelled code can raise. */
module Wrappers {

  datatype Option<+T> = None | Some(value: T)

  datatype Result<+R, +E> = Success(value: R) | Failure(error: E) {
    predicate IsFailure() { Failure? }

    function PropagateFailure<U>(): Result<U, E>
      requires Failure?
    {
      Failure(error)
    }

    function Extract(): R
      requires Success?
    {
      value
    }
  }

  /** The built-in Python exceptions that the modelled functions raise or catch. */
  datatype PyException =
    | KeyError        // a missing dictionary key
    | IndexError      // a sequence index out of range
    | TypeError       // an operation applied to a value of the wrong kind
    | ValueError      // a value of the right kind but the wrong content
    | AttributeError  // an attribute looked up on None

  /** np.nan as a field value: `Missing` is the marker the scraper stores
      for a detail field the page does not carry. */
  datatype Field<+T> = Present(value: T) | Missing
}
