/** A cell of a nullable floating-point column (density and its log scale), and the two
    column expressions the cleaning step evaluates on such cells. */
module Cells {

  /** Null is a missing value; NonFinite is an infinity or a NaN produced by the table library. */
  datatype Cell = Null | Finite(value: real) | NonFinite

  /** The column expression `n / d` on a whole-number numerator and divisor: the table library
      divides in floating point, so a zero divisor yields an infinity or a NaN rather than an error. */
  function Divide(n: nat, d: nat): (r: Cell)
    ensures r != Null
    ensures r.Finite? <==> d != 0
    ensures r.Finite? ==> r.value * d as real == n as real && r.value >= 0.0
  {
    if d == 0 then NonFinite else Finite(n as real / d as real)
  }

  /** The column expression `(c + 1).log10()`. A null stays null and an infinity or NaN stays
      non-finite; `log` stands for log10, which is finite only on positive arguments. */
  function LogOf(c: Cell, log: real -> real): (r: Cell)
    ensures r.Null? <==> c.Null?
    ensures r.Finite? <==> c.Finite? && c.value > -1.0
    ensures r.Finite? ==> r.value == log(c.value + 1.0)
  {
    match c
    case Null => Null
    case NonFinite => NonFinite
    case Finite(v) => if v + 1.0 > 0.0 then Finite(log(v + 1.0)) else NonFinite
  }
}
