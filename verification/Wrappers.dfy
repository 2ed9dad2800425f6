/** Optional values and results, for Go's nil pointers and error returns, and small helpers on values. */
module Wrappers {
  datatype Option<+T> = None | Some(value: T)

  datatype Result<+T, +E> = Ok(value: T) | Err(error: E)

  function Fill<T>(x: T, n: nat): (r: seq<T>)
    ensures |r| == n && forall i :: 0 <= i < n ==> r[i] == x
  {
    seq(n, _ => x)
  }

  function Smaller(a: nat, b: nat): nat {
    if a < b then a else b
  }
}
