/**
 * JavaScript numbers as the model sees them: exact reals together with the
 * two infinities and NaN.  Rounding and the sign of zero are not modelled.
 * The operations follow IEEE 754 on the special values, which is what the
 * builder relies on for its sentinels (`Infinity` in getBounds, `-Infinity`
 * in getLongestEdgeIndex) and what happens when a surface area is zero.
 */
module Numbers {

  datatype Num = NaN | NegInf | Fin(v: real) | PosInf

  /** Sign of a number that is not NaN: -1, 0 or 1. */
  function Sign(a: Num): int
  {
    match a
    case NegInf => -1
    case PosInf => 1
    case Fin(x) => if x < 0.0 then -1 else if x > 0.0 then 1 else 0
    case NaN => 0
  }

  function InfOfSign(s: int): Num
  {
    if s < 0 then NegInf else PosInf
  }

  function Neg(a: Num): Num
  {
    match a
    case NaN => NaN
    case NegInf => PosInf
    case PosInf => NegInf
    case Fin(x) => Fin(-x)
  }

  function Add(a: Num, b: Num): Num
  {
    if a.NaN? || b.NaN? then NaN
    else if a.PosInf? then (if b.NegInf? then NaN else PosInf)
    else if a.NegInf? then (if b.PosInf? then NaN else NegInf)
    else if !b.Fin? then b
    else Fin(a.v + b.v)
  }

  function Sub(a: Num, b: Num): Num
  {
    Add(a, Neg(b))
  }

  function Mul(a: Num, b: Num): Num
  {
    if a.NaN? || b.NaN? then NaN
    else if a.Fin? && b.Fin? then Fin(a.v * b.v)
    else if Sign(a) == 0 || Sign(b) == 0 then NaN
    else if (Sign(a) < 0) == (Sign(b) < 0) then PosInf else NegInf
  }

  /** Division; a zero divisor counts as +0. */
  function Div(a: Num, b: Num): Num
  {
    if a.NaN? || b.NaN? then NaN
    else if !a.Fin? && !b.Fin? then NaN
    else if !a.Fin? then (if (Sign(a) < 0) == (Sign(b) < 0) then PosInf else NegInf)
    else if !b.Fin? then Fin(0.0)
    else if b.v == 0.0 then (if a.v == 0.0 then NaN else InfOfSign(Sign(a)))
    else Fin(a.v / b.v)
  }

  function Rank(a: Num): int
  {
    match a
    case NegInf => 0
    case Fin(_) => 1
    case PosInf => 2
    case NaN => 3
  }

  /** The `<` of JavaScript: false whenever NaN is involved. */
  predicate Lt(a: Num, b: Num)
  {
    !a.NaN? && !b.NaN? && (Rank(a) < Rank(b) || (a.Fin? && b.Fin? && a.v < b.v))
  }

  predicate Le(a: Num, b: Num)
  {
    !a.NaN? && !b.NaN? && !Lt(b, a)
  }

  predicate Gt(a: Num, b: Num)
  {
    Lt(b, a)
  }

  predicate Ge(a: Num, b: Num)
  {
    Le(b, a)
  }

  /** Math.min of two numbers (NaN if either is NaN). */
  function Min(a: Num, b: Num): Num
  {
    if a.NaN? || b.NaN? then NaN else if Lt(b, a) then b else a
  }

  /** Math.max of two numbers (NaN if either is NaN). */
  function Max(a: Num, b: Num): Num
  {
    if a.NaN? || b.NaN? then NaN else if Lt(a, b) then b else a
  }

  /** On numbers that are not NaN, `>=` is the negation of `<`. */
  lemma GeIsNotLt(a: Num, b: Num)
    requires !a.NaN? && !b.NaN?
    ensures Ge(a, b) <==> !Lt(a, b)
  {
  }

  /** If c is not below b and a is below b, then c is not below a. */
  lemma NotLtThrough(a: Num, b: Num, c: Num)
    requires Lt(a, b) && !Lt(c, b)
    ensures !Lt(c, a)
  {
  }

  lemma LtTrans(a: Num, b: Num, c: Num)
    requires Lt(a, b) && Lt(b, c)
    ensures Lt(a, c)
  {
  }
}
