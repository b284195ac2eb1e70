/**
 Bucket bounds: exact numbers with the two infinities.  Observed values are exact numbers, so a sum of
 observations is exact as well.
 */
module Floats {
  datatype F64 = NegInf | Finite(value: real) | PosInf

  predicate Less(a: F64, b: F64) {
    match a
    case NegInf => !b.NegInf?
    case Finite(x) => b.PosInf? || (b.Finite? && x < b.value)
    case PosInf => false
  }

  /** `v <= b` for an observed value. */
  predicate AtMost(v: real, b: F64) {
    match b
    case NegInf => false
    case Finite(x) => v <= x
    case PosInf => true
  }

  ghost predicate Increasing(bounds: seq<F64>) {
    forall i, j :: 0 <= i < j < |bounds| ==> Less(bounds[i], bounds[j])
  }
}
