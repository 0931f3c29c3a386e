/** Failure-carrying results shared by every module of the model.

    The modelled C# code reports a rejected argument by throwing
    (ArgumentOutOfRangeException, ArgumentNullException); here such a call
    returns `Err` and no state is produced. */
module Wrappers {

  datatype Option<+T> = None | Some(value: T) {

    /** The value, or `default` when there is none. */
    function GetOr(default: T): T {
      match this
      case Some(v) => v
      case None => default
    }
  }

  /** The exceptions the modelled code throws at its callers. */
  datatype Error = ArgumentOutOfRange | ArgumentNull

  datatype Result<+T> = Ok(value: T) | Err(error: Error) {

    predicate IsFailure() {
      Err?
    }

    function PropagateFailure<U>(): Result<U>
      requires Err?
    {
      Err(error)
    }

    function Extract(): T
      requires Ok?
    {
      value
    }
  }
}
