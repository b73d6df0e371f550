/** Option and Result, the shapes the model uses for Python's None and for
    a raised exception. */
module Base {

  datatype Option<+T> = None | Some(value: T)

  datatype Result<+T, +E> = Success(value: T) | Failure(error: E)
}
