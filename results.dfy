/** Option and Result values shared by the controller and the HTTP layer. */
module Results {

  /** A value that may be absent (JavaScript's `undefined`). */
  datatype Option<T> = None | Some(value: T)

  /** The settled state of a controller promise: resolved with a value, or
      rejected with an Error whose `message` is carried here. */
  datatype Result<T> = Success(value: T) | Failure(message: string)
}
