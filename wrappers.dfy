/** Option and Result, with the JavaScript TypeErrors the compiler core can raise. */
module Wrappers {

  datatype Option<+T> = None | Some(value: T)

  /** The two ways the core reads a property of `undefined` and throws. */
  datatype TypeError =
    | SplitOfUndefined  // `unprocessedValue.split(...)` once the remainder has become undefined
    | NameOfUndefined   // `part.name` on an undefined element of a string-parts array

  /** The value a JavaScript call returns, or the TypeError it throws. */
  datatype Result<+T> = Ok(value: T) | Err(error: TypeError) {

    predicate IsFailure() {
      Err?
    }

    function PropagateFailure<U>(): Result<U>
      requires Err?
    {
      Err(error)
    }

    function Extract(): T
      requires Ok?
    {
      value
    }
  }
}
