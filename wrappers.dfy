/** Option and Result values standing for Java's null and thrown exceptions. */
module Wrappers {

  /** `None` is Java's `null` (or JavaScript's `undefined`); `Some(v)` a present value. */
  datatype Option<+T> = None | Some(value: T)

  /** `Failure(e)` is a call that ends by throwing `e`; `Success(v)` one that returns `v`. */
  datatype Result<+R, +E> = Success(value: R) | Failure(error: E)

  /** The result of a Java `void` method: it returns normally or throws `error`. */
  datatype Outcome<+E> = Pass | Fail(error: E)
}
