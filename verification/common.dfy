/** Shared wrapper types. */
module Common {

  /** A value that may be absent: JavaScript's `undefined`, or a missing field. */
  datatype Option<+T> = None | Some(value: T) {

    /** The value when present, otherwise the given default (JavaScript's `??`). */
    function GetOr(default: T): (r: T)
      ensures Some? ==> r == value
      ensures None? ==> r == default
    {
      match this
      case Some(v) => v
      case None => default
    }
  }

  /** The outcome of a step that can fail with an error value. */
  datatype Result<+R, +E> = Ok(value: R) | Err(error: E)
}
