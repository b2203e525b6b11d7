/** Option and Result types shared by the whole model, and the error kinds
    that the conversion library and the request handlers throw. */
module Wrappers {

  datatype Option<+T> = None | Some(value: T)

  /** The exceptions of the source, one constructor per distinct failure. */
  datatype Error =
    | InvalidDate            // RangeError from Date.prototype.toISOString on an invalid date
    | InvalidDurationUnit    // "Invalid duration unit"
    | InvalidDependencyType  // "Invalid dependency type"
    | InvalidLagUnit         // "Invalid lagUnit"
    | ProjectNotFound        // "Project data not found"
    | RequestFailed          // a rejected fetch or an unreadable response body

  datatype Result<+T> = Ok(value: T) | Err(error: Error) {
    predicate IsFailure() {
      Err?
    }

    function PropagateFailure<U>(): Result<U>
      requires Err?
    {
      Err(error)
    }

    function Extract(): T
      requires Ok?
    {
      value
    }
  }

  /** The message text each thrown Error carries. */
  function Message(e: Error): string {
    match e
    case InvalidDate => "Invalid time value"
    case InvalidDurationUnit => "Invalid duration unit"
    case InvalidDependencyType => "Invalid dependency type"
    case InvalidLagUnit => "Invalid lagUnit"
    case ProjectNotFound => "Project data not found"
    case RequestFailed => "fetch failed"
  }
}
