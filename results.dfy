/** Option and result wrappers for the optionals and completion results of the app. */
module Results {

  /** Swift's `T?`. */
  datatype Option<+T> = None | Some(value: T)

  /** Swift's `Result<T, Error>` as delivered to a completion handler. */
  datatype Result<+T, +E> = Success(value: T) | Failure(error: E)

  /** Swift's `Result<Void, Error>`. */
  datatype Outcome<+E> = Pass | Fail(error: E)

  /** Swift's `x ?? fallback`. */
  function OrElse<T>(x: Option<T>, fallback: T): (r: T)
    ensures x.Some? ==> r == x.value
    ensures x.None? ==> r == fallback
  {
    match x
    case Some(v) => v
    case None => fallback
  }
}
