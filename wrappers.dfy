/** Option and Result values, standing for JavaScript's `undefined` results
    and thrown exceptions. */
module Wrappers {

  datatype Option<+T> = None | Some(value: T)

  datatype Result<+T, +E> = Ok(value: T) | Err(error: E)

  /** A map lookup that yields None for a missing key, as a JavaScript
      dictionary index yields `undefined`. */
  function Get<K, V>(m: map<K, V>, k: K): (r: Option<V>)
    ensures r.Some? <==> k in m
    ensures r.Some? ==> r.value == m[k]
  {
    if k in m then Some(m[k]) else None
  }
}

/** Bytes, as held in a Uint8Array. */
module Bytes {

  type byte = x: int | 0 <= x < 256
}
