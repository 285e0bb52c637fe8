/** Optional values and results with an error, as the service's callers see them. */
module Wrappers {

  /** A value that may be missing, as TypeORM's `findOne` returns an entity or `null`. */
  datatype Option<+T> = None | Some(value: T)

  /** A successful value, or the exception the service throws instead. */
  datatype Result<+T, +E> = Ok(value: T) | Err(error: E)
}
