/** Failure-carrying values shared by every module of the model. */
module Wrappers {

  /** A value that may be missing: JavaScript's `undefined`/`null`, a map miss. */
  datatype Option<+T> = None | Some(value: T) {
    function GetOr(default: T): T {
      match this
      case Some(v) => v
      case None => default
    }
  }

  /** A Go `(value, error)` pair where exactly one half is meaningful. */
  datatype Result<+T, +E> = Success(value: T) | Failure(error: E)

  /**
   * A 64-bit floating-point result seen only through the one property the model
   * needs: either a finite real or a non-finite value (NaN or an infinity) that an
   * unguarded division by zero produced.
   */
  datatype Float = Finite(value: real) | NonFinite

  /** IEEE division restricted to what the model observes: dividing by zero never
      yields a finite value, any other divisor yields the real quotient. */
  function Divide(a: real, b: real): (r: Float)
    ensures r.Finite? <==> b != 0.0
    ensures r.Finite? ==> r.value * b == a
  {
    if b == 0.0 then NonFinite else Finite(a / b)
  }
}
