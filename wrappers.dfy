/** Optional values and results-or-errors, used where the provider's Python
    code tests `hasattr`, compares with `None` or raises. */
module Wrappers {

  datatype Option<+T> = None | Some(value: T)

  datatype Result<+T, +E> = Success(value: T) | Failure(error: E)
}
