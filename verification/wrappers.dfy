/** Outcome types: a value, or the reason an operation was refused
  * (the source throws std::invalid_argument in those places). */
module Wrappers {

  datatype Option<T> = None | Some(value: T)

  datatype Result<T> = Success(value: T) | Failure(error: string)
}
