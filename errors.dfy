/** The exceptions the library throws, and the shapes that carry them back to a caller. */
module Errors {

  /** `std::runtime_error` (operating on a null handle) and `std::invalid_argument` (division by zero). */
  datatype Error = RuntimeError | InvalidArgument

  /** A value-returning call that either produces a value or throws. */
  datatype Result<T> = Ok(value: T) | Err(error: Error)

  /** A `void` call that either completes or throws. */
  datatype Outcome = Done | Threw(error: Error)

  datatype Option<T> = None | Some(value: T)
}
