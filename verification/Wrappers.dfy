/** Option and Result, shared by every other module. */
module Wrappers {
  datatype Option<+T> = None | Some(value: T)

  datatype Result<+T, +E> = Ok(value: T) | Err(error: E)

  /** The later of an optional timestamp and a new one. */
  function Later(o: Option<int>, t: int): (r: Option<int>)
    ensures r.Some? && r.value >= t
    ensures o.Some? ==> r.value >= o.value
  {
    if o.None? || t > o.value then Some(t) else o
  }
}
