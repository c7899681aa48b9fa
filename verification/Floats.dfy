/** f32 values up to rounding: reals, the infinities and NaN. */
module Floats {
  datatype F32 = NaN | NegInf | Fin(v: real) | PosInf

  /** IEEE comparison: false whenever a NaN is involved. */
  predicate Greater(a: F32, b: F32) {
    match (a, b)
    case (NaN, _) => false
    case (_, NaN) => false
    case (NegInf, _) => false
    case (Fin(_), NegInf) => true
    case (Fin(x), Fin(y)) => x > y
    case (Fin(_), PosInf) => false
    case (PosInf, PosInf) => false
    case (PosInf, _) => true
  }

  function Plus(a: F32, b: F32): F32 {
    match (a, b)
    case (NaN, _) => NaN
    case (_, NaN) => NaN
    case (Fin(x), Fin(y)) => Fin(x + y)
    case (PosInf, NegInf) => NaN
    case (NegInf, PosInf) => NaN
    case (Fin(_), _) => b
    case (_, _) => a
  }
}
