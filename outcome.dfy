/** Option and Result: the error paths of the pipeline made explicit. */
module Outcome {

  datatype Option<T> = None | Some(value: T)

  /** Success carries the value a Python function returns; Failure names the exception it raises. */
  datatype Result<T, E> = Success(value: T) | Failure(error: E)
}
