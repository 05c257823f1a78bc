/** Option and Result values for the failure paths of the scripts (missing keys, exceptions). */
module Results {

  datatype Option<+T> = None | Some(value: T)

  datatype Result<+T, +E> = Success(value: T) | Failure(error: E)
}
