/** Optional values, and results that may be an error. */
module Wrappers {

  datatype Option<T> = None | Some(value: T)

  datatype Result<T, E> = Ok(value: T) | Err(error: E)

  /** The error of a check of which only the refusal matters. */
  datatype Refusal = Invalid

  /** The front followed by what the rest gives, unless that is an error. */
  function Prepend<T, E>(front: seq<T>, r: Result<seq<T>, E>): Result<seq<T>, E> {
    if r.Err? then r else Ok(front + r.value)
  }

  lemma PrependNothing<T, E>(r: Result<seq<T>, E>)
    ensures Prepend([], r) == r
  {
    if r.Ok? { assert [] + r.value == r.value; }
  }

  lemma PrependTwice<T, E>(a: seq<T>, b: seq<T>, r: Result<seq<T>, E>)
    ensures Prepend(a, Prepend(b, r)) == Prepend(a + b, r)
  {
    if r.Ok? { assert a + (b + r.value) == (a + b) + r.value; }
  }
}
