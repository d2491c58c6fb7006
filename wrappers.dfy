/** Failure-compatible results standing in for the exceptions the tree raises. */
module Wrappers {

  datatype Option<+T> = None | Some(value: T)

  /** The two exception kinds of the scapegoat tree: ArgumentException and
      InvalidOperationException (the latter carries its message). */
  datatype Error = InvalidArgument | InvalidOperation(message: string)

  datatype Result<+T> = Success(value: T) | Failure(error: Error)

  /** Outcome of an operation that returns nothing but may fail. */
  datatype Outcome = Pass | Fail(error: Error)
}
