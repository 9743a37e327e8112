/** Small shared vocabulary: an optional value (Python's None) and integer min/max. */
module Common {

  /** A cell or field of the application that may hold `None`. */
  datatype Option<T> = None | Some(value: T)

  /**
   * Python's `x or default` on a number that may be `None`: `None` and zero
   * are false, so both give `default`; any other number is kept.
   */
  function OrElse(x: Option<real>, default: real): (r: real)
    ensures x.None? || x.value == 0.0 ==> r == default
    ensures x.Some? && x.value != 0.0 ==> r == x.value
  {
    if x.Some? && x.value != 0.0 then x.value else default
  }

  function Min(a: int, b: int): (r: int)
    ensures r <= a && r <= b
    ensures r == a || r == b
  {
    if a <= b then a else b
  }

  function Max(a: int, b: int): (r: int)
    ensures r >= a && r >= b
    ensures r == a || r == b
  {
    if a >= b then a else b
  }
}
