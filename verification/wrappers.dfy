/** Wrappers shared by the model: an optional value (Python's `None`
    versus a value) and a success-or-error result (a Python function that
    returns normally versus one that raises). */
module Wrappers {

  datatype Option<+T> = None | Some(value: T)

  datatype Result<+R, +E> = Success(value: R) | Failure(error: E)
}
