/** Option and Result, and a keyed lookup that reports a missing key as None. */
module Wrappers {

  /** A value that may be absent (Python's `Optional[...]`, `None` for absent). */
  datatype Option<+T> = None | Some(value: T) {
    /** The held value, or `default` when absent. */
    function GetOr(default: T): T {
      match this
      case Some(v) => v
      case None => default
    }
  }

  /** Either a successful value or an error. */
  datatype Result<+T, +E> = Ok(value: T) | Err(error: E)

  /** Lookup by primary key, as a database session's get: None when the key is absent. */
  function Get<K, V>(m: map<K, V>, k: K): Option<V> {
    if k in m then Some(m[k]) else None
  }
}
