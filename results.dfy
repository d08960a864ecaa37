/** Outcome of an operation that can fail the way the Python source raises. */
module Results {

  datatype Result<T, E> = Ok(value: T) | Failure(error: E)

}
