/** Failure-compatible results shared by every module of the model.

    The enhancer reports misuse through Java exceptions.  Each exception kind
    the core raises becomes one constructor of `Error`; an operation that can
    raise returns a `Result` instead of excluding the bad input by a
    precondition.
 */
module Wrappers {

  /** A value that may be absent: Java's `null` where the source tests for it. */
  datatype Option<+T> = None | Some(value: T)

  /** The exception kinds the core raises. */
  datatype Error =
    | NullPointer(slot: string)          // NullPointerException naming the null parameter
    | IllegalArgument(reason: string)    // IllegalArgumentException
    | IllegalState                       // IllegalStateException
    | Enhance(reason: string)            // EnhanceException
    | AbstractMethod(methodName: string) // AbstractMethodError raised by a generated body

  datatype Result<+T> = Ok(value: T) | Err(error: Error) {
    predicate IsFailure() { Err? }

    function PropagateFailure<U>(): Result<U>
      requires Err?
    {
      Err(error)
    }

    function Extract(): T
      requires Ok?
    {
      value
    }
  }
}
