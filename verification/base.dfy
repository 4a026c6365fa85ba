/** Small value types and integer helpers shared by every part of the storefront model. */
module Base {

  /** A value that may be missing: a lookup that found nothing, a form field left out,
      or a JavaScript `parseInt` that produced NaN. */
  datatype Option<T> = None | Some(value: T) {
    function GetOr(default: T): T {
      match this
      case Some(v) => v
      case None => default
    }
  }

  function Min(a: int, b: int): int {
    if a <= b then a else b
  }

  function Max(a: int, b: int): int {
    if a >= b then a else b
  }

  /** The storefront's `clamp(x, lo, hi)` helper (defined outside this model),
      taken to be `min(max(x, lo), hi)`. */
  function Clamp(x: int, lo: int, hi: int): (r: int)
    requires lo <= hi
    ensures lo <= r <= hi
    ensures lo <= x <= hi ==> r == x
    ensures x < lo ==> r == lo
    ensures hi < x ==> r == hi
  {
    Min(Max(x, lo), hi)
  }
}
