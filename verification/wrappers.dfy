/** Optional values and fallible results, the two return shapes of the catalog. */
module Wrappers {

  /** An optional value: `std::optional` in the modelled code. */
  datatype Option<+T> = None | Some(value: T)

  /** Either a value or the error that was raised instead of producing it. */
  datatype Result<+R, +E> = Success(value: R) | Failure(error: E)
}
