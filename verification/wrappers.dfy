/** Failure-carrying datatypes shared by the other modules. */
module Wrappers {

  /** An optional value; `None` stands for Python's `None`. */
  datatype Option<+T> = None | Some(value: T)

  /** Either a value or the exception an operation raises instead. */
  datatype Result<+T, +E> = Success(value: T) | Failure(error: E)
}
