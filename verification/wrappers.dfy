/** Optional values: Kotlin's nullable types, SQL NULL and absent JSON fields. */
module Wrappers {

  datatype Option<T> = None | Some(value: T)

  /** Kotlin's elvis operator `x ?: fallback`. */
  function Elvis<T>(x: Option<T>, fallback: T): T
  {
    if x.Some? then x.value else fallback
  }
}
