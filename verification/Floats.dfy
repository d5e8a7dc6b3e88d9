/** Doubles where only their class and exact value matter; rounding and signed zero are not modelled. */
module Floats {
  datatype F64 = NaN | PosInf | NegInf | Fin(r: real)

  /** The product with a whole number. */
  function Times(x: F64, n: nat): F64 {
    match x
    case NaN => NaN
    case PosInf => if n == 0 then NaN else PosInf
    case NegInf => if n == 0 then NaN else NegInf
    case Fin(r) => Fin(r * n as real)
  }

  predicate Finite(x: F64) {
    x.Fin?
  }

  function Clamp(x: int, lo: int, hi: int): (r: int)
    requires lo <= hi
    ensures lo <= r <= hi
    ensures lo <= x <= hi ==> r == x
  {
    if x < lo then lo else if x > hi then hi else x
  }

  function Min(a: int, b: int): int {
    if a < b then a else b
  }

  function MaxInt(a: int, b: int): int {
    if a < b then b else a
  }
}
