/** Optional values, results and the error values that the commands return. */
module Wrappers {

  datatype Option<+T> = None | Some(value: T)

  datatype Result<+T, +E> = Ok(value: T) | Err(error: E)

  /** The error constructors of internal/errors, with the code that identifies the throwing line. */
  datatype Error =
    | NotFound(code: string)
    | PreconditionFailed(code: string)
    | PermissionDenied(code: string)
    | AlreadyExists(code: string)
    | InvalidArgument(code: string)
    | Internal(code: string)

  function Max(a: int, b: int): int {
    if a < b then b else a
  }
}
