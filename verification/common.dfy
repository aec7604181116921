/** Failure-carrying datatypes shared by every module of the model. */
module Common {

  /** A value that may be absent (Python's `None`, a dictionary `.get` miss, `.first()` on an empty query). */
  datatype Option<+T> = None | Some(value: T)

  /** The outcome of a step that can fail: the value, or why it failed. */
  datatype Result<+T, +E> = Ok(value: T) | Err(error: E)
  {
    predicate IsFailure()
    {
      Err?
    }

    function PropagateFailure<U>(): Result<U, E>
      requires Err?
    {
      Err(error)
    }

    function Extract(): T
      requires Ok?
    {
      value
    }
  }

  /** True iff `xs` holds no element twice. */
  predicate Distinct<T(==)>(xs: seq<T>)
  {
    forall i, j :: 0 <= i < j < |xs| ==> xs[i] != xs[j]
  }
}
