/** The optional-value and result types the rest of the model returns in place of
    Python's `None` results and raised `ValueError`s. */
module Wrappers {

  datatype Option<+T> = None | Some(value: T)

  datatype Result<+T, +E> = Success(value: T) | Failure(error: E)
}
