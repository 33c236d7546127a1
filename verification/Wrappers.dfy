/** The two failure-carrying types the models share. */
module Wrappers {
  datatype Option<+T> = None | Some(value: T)

  /** An operation's outcome; `Failure` stands for a thrown `std::runtime_error` or an error string. */
  datatype Result<+T, +E> = Success(value: T) | Failure(error: E)
}
