module Wrappers {
  datatype Option<+T> = None | Some(value: T) {
    predicate IsFailure() {
      None?
    }

    function PropagateFailure<U>(): Option<U>
      requires None?
    {
      None
    }

    function Extract(): T
      requires Some?
    {
      value
    }
  }

  datatype Result<+R, +E> = Success(value: R) | Failure(error: E)

  /** The SDK's error categories; the numbers are those of the C ABI. */
  datatype ErrorCode =
    | InvalidArgument | Authentication | Transport | Http | Protocol | Unsupported | Unknown
}
