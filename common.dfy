/** Optional values and early returns, shared by every module of the model. */
module Common {

  /** A value that may be absent: an optional field, `null` or `undefined`. */
  datatype Option<+T> = None | Some(value: T)

  /** The outcome of a check that either accepts a value or rejects it with a message. */
  datatype Result<+T, +E> = Ok(value: T) | Err(error: E)

  /** `a` is `b` with some elements left out and the rest kept in order. */
  predicate IsSubsequence<T(==)>(a: seq<T>, b: seq<T>)
  {
    if a == [] then true
    else if b == [] then false
    else if a[0] == b[0] then IsSubsequence(a[1..], b[1..])
    else IsSubsequence(a, b[1..])
  }
}
