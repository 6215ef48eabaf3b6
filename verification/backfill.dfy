/** Filling missing densities from the 2022 population and the area. */
module Backfill {
  import opened Cells
  import opened Records

  /** One row of the `when(density is null).then(2022_Population / Area).otherwise(density)` column. */
  function BackfillRow(x: Country): (r: Country)
    ensures r.density != Null
    ensures x.density != Null ==> r == x
    ensures x.density == Null ==> r == x.(density := r.density)
    ensures x.density == Null && x.area != 0 ==>
              r.density.Finite? && r.density.value * x.area as real == x.population[Index2022] as real
    ensures x.density == Null && x.area == 0 ==> r.density == NonFinite
  {
    if x.density.Null? then x.(density := Divide(x.population[Index2022], x.area)) else x
  }

  /** The backfilled table: same rows in the same order; a null density becomes 2022 population
      over area (non-finite when the area is zero); a present density and every other column
      are kept. */
  function BackfillDensity(t: Table): (r: Table)
    ensures |r| == |t|
    ensures forall i :: 0 <= i < |r| ==> r[i].density != Null
    ensures forall i :: 0 <= i < |t| && t[i].density != Null ==> r[i] == t[i]
    ensures forall i :: 0 <= i < |t| && t[i].density == Null ==>
              r[i] == t[i].(density := Divide(t[i].population[Index2022], t[i].area))
  {
    seq(|t|, i requires 0 <= i < |t| => BackfillRow(t[i]))
  }

  /** Backfilling an already backfilled table changes nothing. */
  lemma BackfillIdempotent(t: Table)
    ensures BackfillDensity(BackfillDensity(t)) == BackfillDensity(t)
  {
  }
}
