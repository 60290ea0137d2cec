/** The two kinds of Python exception the Roman-numeral codec can raise, and a
    failure-compatible result type that carries either a value or one of them. */
module Results {

  /** `ValueError`: a digit outside 0..9, or a sign character where a decimal
      digit was expected. `KeyError`: a value or a letter missing from the
      symbol table. */
  datatype Error = ValueError | KeyError

  datatype Result<+T> = Ok(value: T) | Err(error: Error) {

    predicate IsFailure() {
      Err?
    }

    function PropagateFailure<U>(): Result<U>
      requires Err?
    {
      Err(error)
    }

    function Extract(): T
      requires Ok?
    {
      value
    }
  }
}
