/** Optional values: the model's stand-in for C#'s nullable references and `T?` values. */
module Wrappers {

  datatype Option<+T> = None | Some(value: T) {

    /** The value, or `default` when absent (C#'s `??` operator). */
    function GetOr(default: T): T {
      match this
      case Some(v) => v
      case None => default
    }
  }

  /** C#'s `a ?? b` on two nullable values. */
  function OrElse<T>(a: Option<T>, b: Option<T>): Option<T> {
    if a.Some? then a else b
  }
}
