/** Option and Result: Kotlin's nullable values and thrown exceptions, as values. */
module Wrappers {

  /** A Kotlin `T?`: `None` stands for `null`. */
  datatype Option<+T> = None | Some(value: T)

  /** A computation that either returns a value or throws `error`. */
  datatype Result<+R, +E> = Success(value: R) | Failure(error: E)

  /** Kotlin's `firstOrNull()`: the head of the list, or `null` when it is empty. */
  function FirstOrNull<T>(s: seq<T>): (r: Option<T>)
    ensures r.None? <==> |s| == 0
    ensures r.Some? ==> r.value == s[0] && r.value in s
  {
    if |s| == 0 then None else Some(s[0])
  }
}
