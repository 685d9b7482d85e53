/** Optional values, used wherever the source has `T | null` or `T | undefined`. */
module Wrappers {

  datatype Option<+T> = None | Some(value: T) {

    /** The wrapped value, or `default` when there is none (`x ?? default`). */
    function GetOr(default: T): T {
      match this
      case Some(v) => v
      case None => default
    }
  }

  /** The outcome of one request to the remote store: the payload of a
      successful reply, or a failure (network error or non-2xx status). */
  datatype Reply<+T> = Ok(payload: T) | Failed
}
