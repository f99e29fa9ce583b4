/**
 * Optional values and C++ exceptions, shared by every module of the model.
 */
module Wrappers {

  /** `std::optional<T>`. */
  datatype Option<T> = None | Some(value: T)

  /**
   * The outcome of a C++ call that either returns a value or lets an
   * exception escape; `what` is the exception's `what()` text.
   */
  datatype Outcome<T> = Ok(value: T) | Raised(what: string)
}
