/** Results of calls that may raise. */
module Results {
  /** The exceptions of the modelled code. */
  datatype Error = ValueError | OverflowError | MemoryError | IndexError | LookupError | KeyError | BrokenPipeError

  datatype Result<+T> = Ok(value: T) | Err(error: Error) {
    predicate IsFailure() {
      Err?
    }

    function PropagateFailure<U>(): Result<U>
      requires Err?
    {
      Err(error)
    }

    function Extract(): T
      requires Ok?
    {
      value
    }
  }

  datatype Option<+T> = None | Some(value: T)
}
