/** Optional values, used wherever the source has `null`, `undefined` or an
    omitted field. */
module Wrappers {

  datatype Option<+T> = None | Some(value: T) {

    /** The value, or `default` when absent (JavaScript `??`). */
    function GetOr(default: T): T {
      match this
      case Some(v) => v
      case None => default
    }

    /** Zero or one element, in a sequence. */
    function ToSeq(): (s: seq<T>)
      ensures |s| <= 1
      ensures Some? <==> |s| == 1
      ensures Some? ==> s[0] == value
    {
      match this
      case Some(v) => [v]
      case None => []
    }
  }
}

/** Either a value or an error, for the source's thrown exceptions and early
    error returns. */
module Results {

  datatype Result<+T, +E> = Ok(value: T) | Err(error: E)
}
