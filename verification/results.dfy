/** Failure-carrying result types shared by the dashboard model. */
module Results {

  /** A value that may be absent, as when a pandas selection is empty. */
  datatype Option<+T> = None | Some(value: T)

  /** Either a computed value or the error that stopped the computation. */
  datatype Result<+R, +E> = Success(value: R) | Failure(error: E)
}
