/** A nullable reference: `None` stands for C#'s `null`. */
module Wrappers {

  datatype Option<+T> = None | Some(value: T) {

    /** The wrapped value, or `default` for `None`. */
    function GetOr(default: T): T
    {
      match this
      case Some(v) => v
      case None => default
    }
  }
}

/** The integer helpers of `UnityEngine.Mathf` that the game uses, and C#'s
    truncating division by two. */
module Mathf {

  function Max(a: int, b: int): (r: int)
    ensures r >= a && r >= b
    ensures r == a || r == b
  {
    if a >= b then a else b
  }

  function Min(a: int, b: int): (r: int)
    ensures r <= a && r <= b
    ensures r == a || r == b
  {
    if a <= b then a else b
  }

  /** `Mathf.Clamp(int, int, int)`: the lower bound is compared first, so for an
      empty range (`hi < lo`) small values give `lo` and large ones give `hi`. */
  function Clamp(v: int, lo: int, hi: int): (r: int)
    ensures lo <= hi ==> lo <= r <= hi
    ensures lo <= v <= hi ==> r == v
    ensures v < lo ==> r == lo
    ensures lo <= v && hi < v ==> r == hi
  {
    if v < lo then lo else if v > hi then hi else v
  }

  /** C#'s `a / 2` on `int`, which truncates toward zero: `2 * r` is `a`
      moved toward zero by at most one. */
  function Div2(a: int): (r: int)
    ensures a >= 0 ==> 0 <= a - 2 * r <= 1
    ensures a < 0 ==> -1 <= a - 2 * r <= 0
  {
    if a >= 0 then a / 2 else -((-a) / 2)
  }

  /** C#'s `a % 2` on `int`: the remainder takes the sign of `a`. */
  function Rem2(a: int): (r: int)
    ensures a == 2 * Div2(a) + r
    ensures a >= 0 ==> 0 <= r <= 1
    ensures a < 0 ==> -1 <= r <= 0
  {
    a - 2 * Div2(a)
  }
}
