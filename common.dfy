/** Option and Result values: a missing value (pandas' NaN, an absent key) and an
    operation that either yields a value or fails with an error. */
module Common {

  datatype Option<+T> = None | Some(value: T)

  datatype Result<+R, +E> = Success(value: R) | Failure(error: E)
}
