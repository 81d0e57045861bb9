/** Optional values and error-carrying results, the model's stand-ins for
    JavaScript's `null`/`undefined` and for thrown errors. */
module Wrappers {

  /** A value that may be absent: `None` plays the part of `null` or `undefined`. */
  datatype Option<+T> = None | Some(value: T) {

    /** JavaScript's `this ?? other`: this value when present, otherwise `other`. */
    function Or(other: Option<T>): Option<T> {
      match this
      case Some(_) => this
      case None => other
    }
  }

  /** The outcome of an operation that may fail: `Failure` plays the part of a thrown error. */
  datatype Result<+R, +E> = Success(value: R) | Failure(error: E)
}
