/** Optional values and the error values the orderable code raises. */
module Wrappers {

  datatype Option<+T> = None | Some(value: T) {
    function GetOr(default: T): T {
      match this
      case Some(v) => v
      case None => default
    }
  }

  datatype Result<+T, +E> = Ok(value: T) | Err(error: E)

  /** `m[k]` as a Ruby Hash answers it: the value when the key is present, nil otherwise. */
  function Lookup<K, V>(m: map<K, V>, k: K): (v: Option<V>)
    ensures v.Some? <==> k in m
    ensures v.Some? ==> v.value == m[k]
  {
    if k in m then Some(m[k]) else None
  }
}
