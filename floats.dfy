/** The parts of C `float` arithmetic the engine relies on, over the reals.

    The collision code seeds its running minima and maxima with the C float
    sentinels `INFINITY` and `-INFINITY`. `ExtReal` carries those two values
    exactly, so that the model computes with the sentinels the way the source
    does, including on empty point lists. */
module Floats {

  datatype ExtReal = NegInf | Fin(value: real) | PosInf

  /** The strict order `<` of the extended reals. */
  predicate Less(a: ExtReal, b: ExtReal)
  {
    match a
    case NegInf => !b.NegInf?
    case Fin(x) => b.PosInf? || (b.Fin? && x < b.value)
    case PosInf => false
  }

  /** `a - b`. The two differences of equal infinities are NaN in IEEE-754 and
      are excluded. */
  function Minus(a: ExtReal, b: ExtReal): (r: ExtReal)
    requires !(a.PosInf? && b.PosInf?) && !(a.NegInf? && b.NegInf?)
    ensures r.PosInf? <==> a.PosInf? || b.NegInf?
    ensures r.NegInf? <==> a.NegInf? || b.PosInf?
    ensures a.Fin? && b.Fin? ==> r == Fin(a.value - b.value)
  {
    match a
    case NegInf => NegInf
    case PosInf => PosInf
    case Fin(x) =>
      match b
      case NegInf => PosInf
      case PosInf => NegInf
      case Fin(y) => Fin(x - y)
  }

  /** `fminf` on numbers that are not NaN. */
  function FMin(a: real, b: real): (r: real)
    ensures r <= a && r <= b
    ensures r == a || r == b
  {
    if a < b then a else b
  }

  /** `fabsf`. */
  function FAbs(a: real): (r: real)
    ensures r >= 0.0
    ensures r == a || r == -a
  {
    if a < 0.0 then -a else a
  }
}
