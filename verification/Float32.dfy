/** Single-precision values as the greedy and attention kernels see them: the
    non-finite cases are kept apart, finite values are exact reals. */
module Float32 {

  datatype F32 = NaN | NegInf | PosInf | Fin(v: real)

  /** The device comparison a > b. A NaN compares false with everything. */
  predicate Gt(a: F32, b: F32) {
    match (a, b)
    case (NaN, _) => false
    case (_, NaN) => false
    case (PosInf, _) => b != PosInf
    case (NegInf, _) => false
    case (Fin(_), PosInf) => false
    case (Fin(_), NegInf) => true
    case (Fin(x), Fin(y)) => x > y
  }

  /** The device comparison a == b. */
  predicate Eq(a: F32, b: F32) {
    a != NaN && a == b
  }

  predicate IsFinite(a: F32) {
    a.Fin?
  }

  /** What a score becomes once non-finite values are masked to minus infinity. */
  type Masked = f: F32 | f.Fin? || f.NegInf? witness NegInf
}
