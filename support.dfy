/** Failure-carrying values shared by the runtime models. */
module Support {

  /** A value that may be absent (llvm::Optional). */
  datatype Option<+T> = None | Some(value: T)

  /** A value or an error (llvm::Expected). */
  datatype Result<+T, +E> = Ok(value: T) | Err(error: E)

  /** The outcome of a call that returns only an llvm::Error: success, or a failure with its text. */
  datatype Status = Success | Failure(message: string)
}
