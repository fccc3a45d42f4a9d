/** The outcome of an operation that the program can abort with an exception. */
module Wrappers {

  datatype Result<+T, +E> = Success(value: T) | Failure(error: E)
}
