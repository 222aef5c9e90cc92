/** Failure-compatible wrappers shared by the model: `Option` stands for a
    TypeScript value that may be `undefined`, `Result` for a call that may throw. */
module Wrappers {

  datatype Option<+T> = None | Some(value: T) {

    /** The wrapped value, or `default` when absent (JavaScript's `x ?? default`). */
    function GetOr(default: T): T {
      match this
      case Some(v) => v
      case None => default
    }

    /** `that` when it is present, otherwise this one: the per-key rule of `{...this, ...that}`. */
    function OverriddenBy(that: Option<T>): Option<T> {
      if that.Some? then that else this
    }
  }

  datatype Result<+R, +E> = Success(value: R) | Failure(error: E)
}
