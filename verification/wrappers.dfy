/** Failure-carrying values used throughout the model: Kotlin's nullable
    results become `Option`, exceptions thrown by the host become `Result`. */
module Wrappers {

  datatype Option<+T> = None | Some(value: T) {

    /** The value, or `default` when there is none (Kotlin's `?:`). */
    function GetOr(default: T): T {
      match this
      case Some(v) => v
      case None => default
    }
  }

  datatype Result<+R, +E> = Success(value: R) | Failure(error: E)

  /** Looks `key` up in a key-value store, falling back to `default`
      (the host's `getValue(key, default)`). */
  function Lookup<K, V>(store: map<K, V>, key: K, default: V): (v: V)
    ensures key in store ==> v == store[key]
    ensures key !in store ==> v == default
  {
    if key in store then store[key] else default
  }
}
