/** Failure-carrying values shared by every module of the engine model. */
module Results {

  /** The value an operation computes, or the error that ended it. A failing
      Java `assert` and an array index out of bounds both end as `Err`. */
  datatype Result<+T, +E> = Ok(value: T) | Err(error: E) {
    predicate IsFailure() { Err? }

    function PropagateFailure<U>(): Result<U, E>
      requires Err?
    {
      Err(error)
    }

    function Extract(): T
      requires Ok?
    {
      value
    }
  }

  /** A possibly missing value; Java's `null` reference. */
  datatype Option<+T> = None | Some(value: T)
}
