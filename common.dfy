/** Small shared vocabulary: an optional value, used wherever the widget
    works with "undefined", "null" or "no date", and `Math.min`/`Math.max`. */
module Common {

  datatype Option<+T> = None | Some(value: T)

  /** `Math.min` on two integers. */
  function Min(a: int, b: int): (r: int)
    ensures r <= a && r <= b
    ensures r == a || r == b
  {
    if a <= b then a else b
  }

  /** `Math.max` on two integers. */
  function Max(a: int, b: int): (r: int)
    ensures r >= a && r >= b
    ensures r == a || r == b
  {
    if a >= b then a else b
  }

}
