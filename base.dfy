/** Shared result types for the movie ranking service. */
module Base {

  /** A value that may be absent, as a field read with `dict.get` may be. */
  datatype Option<+T> = None | Some(value: T)

  /** The ways a request can fail. `QueryMissing` is the service's own 400 reply;
      every other case is an exception raised while handling the request, which the
      web framework turns into a 500 reply. */
  datatype Error =
    | QueryMissing     // `query` parameter absent or empty
    | BadTitle         // a `title` field that is not a string
    | BadRating        // a `rating` field that cannot be divided by 10
    | MissingId        // a document without `_id` (a `KeyError`)
    | IdNotRendered    // an `_id` whose `str()` is Python's container or float formatting

  /** Success with a value, or the first error met. Failure-compatible, so it can be used with `:-`. */
  datatype Result<+T> = Ok(value: T) | Err(error: Error) {
    predicate IsFailure() {
      Err?
    }

    function PropagateFailure<U>(): Result<U>
      requires Err?
    {
      Err(error)
    }

    function Extract(): T
      requires Ok?
    {
      value
    }
  }

  function Min(a: int, b: int): int {
    if a <= b then a else b
  }

  function Max(a: int, b: int): int {
    if a >= b then a else b
  }
}
