/** Failure-carrying values shared by the model: optional values (a TypeScript
    property that may be `undefined`) and results (a value or a thrown error). */
module Results {

  /** A value that may be absent, as an optional property or `undefined`. */
  datatype Option<+T> = None | Some(value: T)

  /** The outcome of an operation that either returns or throws. */
  datatype Result<+R, +E> = Success(value: R) | Failure(error: E)
}
