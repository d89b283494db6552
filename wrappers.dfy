/** Optional values and throwing results, as Swift's `T?` and `throws` are used by the modelled code. */
module Wrappers {

  /** Swift's `Optional`: `nil` is `None`. */
  datatype Option<+T> = None | Some(value: T)

  /** The outcome of a throwing Swift call: a value, or the error it throws. */
  datatype Result<+T, +E> = Success(value: T) | Failure(error: E)
}
