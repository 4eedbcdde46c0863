/** Failure-carrying datatypes shared by every module of the model. */
module Wrappers {

  /** A value that may be absent: JavaScript's `undefined`/`null` for a field. */
  datatype Option<+T> = None | Some(value: T) {
    function GetOr(default: T): T {
      match this
      case Some(v) => v
      case None => default
    }
  }

  /** The outcome of an operation that can throw: `Err` carries the message. */
  datatype Result<+T> = Ok(value: T) | Err(message: string) {
    predicate IsFailure() { Err? }

    function PropagateFailure<U>(): Result<U>
      requires Err?
    {
      Err(message)
    }

    function Extract(): T
      requires Ok?
    {
      value
    }
  }
}
