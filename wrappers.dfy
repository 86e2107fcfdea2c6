/** Optional values (Java's null) and results of operations that may throw. */
module Wrappers {

  /** A value that may be absent; None stands for Java's null. */
  datatype Option<+T> = None | Some(value: T) {
    /** The value, or the given default when absent. */
    function GetOr(default: T): T {
      match this
      case Some(v) => v
      case None => default
    }
  }

  /** The outcome of an operation that either returns a value or throws with a message. */
  datatype Result<+T> = Ok(value: T) | Err(message: string)
}
