/** Go's comma-ok and error returns. */
module Wrappers {
  datatype Option<+T> = None | Some(value: T)

  datatype Result<+T, +E> = Ok(value: T) | Err(error: E)

  /** The first place where p holds, or the length. */
  function IndexWhere<T>(s: seq<T>, p: T -> bool): (r: nat)
    ensures r <= |s| && (forall k :: 0 <= k < r ==> !p(s[k])) && (r < |s| ==> p(s[r]))
  {
    if s == [] || p(s[0]) then 0 else 1 + IndexWhere(s[1..], p)
  }
}
