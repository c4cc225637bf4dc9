/** Outcomes of the operations: a value, nothing, or the exception the operation raised. */
module Wrappers {

  datatype Option<+T> = None | Some(value: T)

  /** What an operation on the log can raise. */
  datatype Error =
    | LogCorrupt    // integrity verification failed
    | ValueError    // the caller asked for something the log does not do
    | Rejected      // the caller's own callback refused the batch
    | Duplicate     // the id already has a record
    | IoError       // a write raised

  datatype Result<+T> = Ok(value: T) | Err(error: Error) {
    predicate IsFailure() { Err? }

    function PropagateFailure<U>(): Result<U>
      requires Err?
    {
      Err(error)
    }

    function Extract(): T
      requires Ok?
    {
      value
    }
  }

  function Min(a: nat, b: nat): nat { if a <= b then a else b }

  function Max(a: nat, b: nat): nat { if a <= b then b else a }
}
