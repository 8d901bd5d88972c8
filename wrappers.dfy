/** Result types shared by every layer of the model. */
module Wrappers {

  datatype Option<+T> = None | Some(value: T)

  /** Rust's `Result<T, E>`: a value or an error the caller can inspect. */
  datatype Result<+T, +E> = Success(value: T) | Failure(error: E)

  /** The outcome of running code that may panic (`todo!`, `unwrap` on
      `None`, `assert!`, an out-of-range slice).  A panic aborts the whole
      call chain, so it is not an error value the caller can handle. */
  datatype Outcome<+T> = Returns(value: T) | Panics
}
