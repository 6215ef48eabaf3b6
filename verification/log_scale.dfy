/** The derived `Log_Density` column, recomputed from the current density. */
module LogScale {
  import opened Cells
  import opened Records

  /** Every row's log density is the log scale of its current density. */
  predicate LogDerived(t: Table, log: real -> real)
  {
    forall i :: 0 <= i < |t| ==> t[i].logDensity == LogOf(t[i].density, log)
  }

  /** One row of the step: the log density recomputed from the row's density. */
  function LogRow(x: Country, log: real -> real): Country
  {
    x.(logDensity := LogOf(x.density, log))
  }

  /** `with_columns((density + 1).log10().alias("Log_Density"))`. */
  function DeriveLogDensity(t: Table, log: real -> real): (r: Table)
    ensures |r| == |t|
    ensures LogDerived(r, log)
    ensures forall i :: 0 <= i < |t| ==> r[i] == t[i].(logDensity := r[i].logDensity)
  {
    seq(|t|, i requires 0 <= i < |t| => LogRow(t[i], log))
  }

  /** A table whose log densities are already derived is a fixpoint of the step. */
  lemma DeriveLogFixpoint(t: Table, log: real -> real)
    requires LogDerived(t, log)
    ensures DeriveLogDensity(t, log) == t
  {
  }

  /** Re-running the step changes nothing. */
  lemma DeriveLogIdempotent(t: Table, log: real -> real)
    ensures DeriveLogDensity(DeriveLogDensity(t, log), log) == DeriveLogDensity(t, log)
  {
    DeriveLogFixpoint(DeriveLogDensity(t, log), log);
  }
}
