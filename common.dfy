/** Small datatypes shared by the result decoder, the result commands and the
    construction-set library. */
module Common {

  /** The outcome of an operation that may raise: the value, or the error it raised. */
  datatype Result<+T, +E> = Ok(value: T) | Err(error: E) {
    predicate IsFailure() {
      Err?
    }

    function PropagateFailure<U>(): Result<U, E>
      requires Err?
    {
      Err(error)
    }

    function Extract(): T
      requires Ok?
    {
      value
    }
  }

  datatype Option<+T> = None | Some(value: T)

  /** What an output-name argument can be: one name (a Python `str`) or a tuple of names. */
  datatype OutputName = Single(name: string) | Several(names: seq<string>)

  function Min(a: int, b: int): int {
    if a < b then a else b
  }
}
