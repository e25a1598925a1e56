/**
 The exceptions the loader can raise, and a failure-compatible Result type
 that carries either a value or the exception that ended the step.
 */
module Results {

  /** The Python exceptions the loading steps can raise on bad input. */
  datatype PyError =
    | IndexError           // a list index (a missing tab field, a short sub-field list)
    | KeyError(key: string) // a dictionary lookup `d[k]` on a missing key
    | ValueError           // `int(q)` or `strptime` on text it cannot parse

  datatype Result<+T> = Ok(value: T) | Err(error: PyError) {

    predicate IsFailure() {
      Err?
    }

    function PropagateFailure<U>(): Result<U>
      requires Err?
    {
      Err(error)
    }

    function Extract(): T
      requires Ok?
    {
      value
    }
  }

  datatype Option<+T> = None | Some(value: T)
}
