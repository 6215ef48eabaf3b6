/** The cleaning steps of the Polars script in their order: density backfill, log scale,
    territory merge, log scale again. */
module Pipeline {
  import opened Seqs
  import opened Cells
  import opened Records
  import opened Outcomes
  import opened Backfill
  import opened LogScale
  import opened TerritoryMerge

  /** Two tables of equal length whose rows agree on code, area and populations. */
  ghost predicate SameColumns(t: Table, u: Table)
  {
    && |t| == |u|
    && forall i :: 0 <= i < |t| ==>
         t[i].cca3 == u[i].cca3 && t[i].area == u[i].area && t[i].population == u[i].population
  }

  /** Tables that agree on code, area and populations merge the same rows with the same sums. */
  lemma SameColumnsSameSelections(t: Table, u: Table)
    requires SameColumns(t, u)
    ensures Sum(Filter(t, InMerge), AreaOf) == Sum(Filter(u, InMerge), AreaOf)
    ensures |Filter(t, IsAbsorbed)| == |Filter(u, IsAbsorbed)|
    ensures |Filter(t, IsAbsorbing)| == |Filter(u, IsAbsorbing)|
    ensures forall k: YearIndex :: Sum(t, PopulationOf(k)) == Sum(u, PopulationOf(k))
    ensures forall k: YearIndex ::
              Sum(Filter(t, InMerge), PopulationOf(k)) == Sum(Filter(u, InMerge), PopulationOf(k))
  {
    FilterPointwise(t, u, InMerge, AreaOf);
    FilterPointwise(t, u, IsAbsorbed, AreaOf);
    FilterPointwise(t, u, IsAbsorbing, AreaOf);
    forall k: YearIndex
      ensures Sum(t, PopulationOf(k)) == Sum(u, PopulationOf(k))
    {
      SumPointwise(t, u, PopulationOf(k));
    }
    forall k: YearIndex
      ensures Sum(Filter(t, InMerge), PopulationOf(k)) == Sum(Filter(u, InMerge), PopulationOf(k))
    {
      FilterPointwise(t, u, InMerge, PopulationOf(k));
    }
  }

  /** Backfilling and then selecting the untouched rows is backfilling the untouched rows. */
  lemma UntouchedThroughBackfill(t: Table)
    ensures Filter(BackfillDensity(t), Untouched) == BackfillDensity(Filter(t, Untouched))
  {
    FilterOfRowMap(t, BackfillDensity(t), Untouched, BackfillRow);
  }

  /** Deriving the log scale and then selecting the untouched rows is deriving it for the
      untouched rows. */
  lemma UntouchedThroughLog(t: Table, log: real -> real)
    ensures Filter(DeriveLogDensity(t, log), Untouched) == DeriveLogDensity(Filter(t, Untouched), log)
  {
    FilterOfRowMap(t, DeriveLogDensity(t, log), Untouched, (x: Country) => LogRow(x, log));
  }

  /** Through the whole cleaning, a row coded neither "MAR" nor "ESH" only gets its density
      backfilled and its log density derived. */
  lemma CleanKeepsUntouchedRows(t: Table, log: real -> real)
    requires MergeTerritories(DeriveLogDensity(BackfillDensity(t), log)).Success?
    ensures
      var merged := MergeTerritories(DeriveLogDensity(BackfillDensity(t), log)).value;
      Filter(DeriveLogDensity(merged, log), Untouched)
      == DeriveLogDensity(BackfillDensity(Filter(t, Untouched)), log)
  {
    var filled := BackfillDensity(t);
    var logged := DeriveLogDensity(filled, log);
    var merged := MergeTerritories(logged).value;
    UntouchedThroughLog(merged, log);
    UntouchedThroughLog(filled, log);
    UntouchedThroughBackfill(t);
    DeriveLogIdempotent(BackfillDensity(Filter(t, Untouched)), log);
  }

  /** A row that holds the combined totals of a table holds those of any table with the same
      codes, areas and populations. */
  lemma HoldsAcrossSameColumns(x: Country, t: Table, u: Table)
    requires SameColumns(t, u) && HoldsCombinedTotals(x, u)
    ensures HoldsCombinedTotals(x, t)
  {
    SameColumnsSameSelections(t, u);
  }

  /** Deriving the log scale keeps every "MAR" row's totals and density. */
  lemma HoldsThroughLog(u: Table, log: real -> real, t: Table)
    requires forall y :: y in u && IsAbsorbing(y) ==> HoldsCombinedTotals(y, t)
    ensures forall x :: x in DeriveLogDensity(u, log) && IsAbsorbing(x) ==> HoldsCombinedTotals(x, t)
  {
    var logged := DeriveLogDensity(u, log);
    forall x | x in logged && IsAbsorbing(x)
      ensures HoldsCombinedTotals(x, t)
    {
      var i :| 0 <= i < |logged| && logged[i] == x;
      assert HoldsCombinedTotals(u[i], t);
    }
  }

  /** The backfill and the log scale touch neither codes, areas nor populations. */
  lemma PreparedSameColumns(t: Table, log: real -> real)
    ensures SameColumns(t, DeriveLogDensity(BackfillDensity(t), log))
  {
  }

  /** Merging a table with the same codes, areas and populations as `t` leaves "MAR" rows that
      hold the combined totals of `t`. */
  lemma MergedRowsHoldOriginalTotals(t: Table, u: Table)
    requires SameColumns(t, u) && MergeTerritories(u).Success?
    ensures forall y :: y in MergeTerritories(u).value && IsAbsorbing(y) ==> HoldsCombinedTotals(y, t)
  {
    forall y | y in MergeTerritories(u).value && IsAbsorbing(y)
      ensures HoldsCombinedTotals(y, t)
    {
      HoldsAcrossSameColumns(y, t, u);
    }
  }

  /** Through the whole cleaning, every "MAR" row ends up holding the combined totals of the
      original table. */
  lemma CleanMergedRowsHoldTotals(t: Table, log: real -> real)
    requires MergeTerritories(DeriveLogDensity(BackfillDensity(t), log)).Success?
    ensures
      var merged := MergeTerritories(DeriveLogDensity(BackfillDensity(t), log)).value;
      forall x :: x in DeriveLogDensity(merged, log) && IsAbsorbing(x) ==> HoldsCombinedTotals(x, t)
  {
    var logged := DeriveLogDensity(BackfillDensity(t), log);
    PreparedSameColumns(t, log);
    MergedRowsHoldOriginalTotals(t, logged);
    HoldsThroughLog(MergeTerritories(logged).value, log, t);
  }

  /** The merge never brings back a null density: untouched rows keep theirs and the "MAR"
      rows get one computed from the totals. */
  lemma MergeKeepsDensities(u: Table)
    requires forall i :: 0 <= i < |u| ==> u[i].density != Null
    requires MergeTerritories(u).Success?
    ensures forall x :: x in MergeTerritories(u).value ==> x.density != Null
  {
    var merged := MergeTerritories(u).value;
    forall x | x in merged
      ensures x.density != Null
    {
      if IsAbsorbing(x) {
        assert HoldsCombinedTotals(x, u);
      } else {
        assert x in Filter(merged, Untouched);
      }
    }
  }

  /** The cleaning steps, from the backfill to the second log-scale pass. */
  function Clean(t: Table, log: real -> real): (r: Result<Table>)
    ensures r.Failure? <==> Sum(Filter(t, InMerge), AreaOf) == 0
    ensures r.Success? ==> |r.value| == |t| - |Filter(t, IsAbsorbed)|
    ensures r.Success? ==> forall i :: 0 <= i < |r.value| ==> r.value[i].density != Null
    ensures r.Success? ==> forall i :: 0 <= i < |r.value| ==> r.value[i].cca3 != Absorbed
    ensures r.Success? ==> LogDerived(r.value, log)
    ensures r.Success? ==> forall x :: x in r.value && IsAbsorbing(x) ==> HoldsCombinedTotals(x, t)
    ensures r.Success? ==>
              Filter(r.value, Untouched) == DeriveLogDensity(BackfillDensity(Filter(t, Untouched)), log)
  {
    var filled := BackfillDensity(t);
    var logged := DeriveLogDensity(filled, log);
    SameColumnsSameSelections(t, logged);
    var merged :- MergeTerritories(logged);
    MergeKeepsDensities(logged);
    CleanMergedRowsHoldTotals(t, log);
    CleanKeepsUntouchedRows(t, log);
    Success(DeriveLogDensity(merged, log))
  }

  /** A successful cleaning is the second log-scale pass over the merge of the first. */
  lemma CleanUnfolds(t: Table, log: real -> real)
    requires Clean(t, log).Success?
    ensures MergeTerritories(DeriveLogDensity(BackfillDensity(t), log)).Success?
    ensures Clean(t, log).value
         == DeriveLogDensity(MergeTerritories(DeriveLogDensity(BackfillDensity(t), log)).value, log)
  {
  }

  /** What the cleaning makes of one row that survives it: the density backfilled, a "MAR" row
      merged in place, and the log density derived from the final density. */
  function CleanRow(x: Country, tot: Totals, log: real -> real): (r: Country)
    requires tot.area != 0
    ensures r.name == x.name && r.continent == x.continent && r.cca3 == x.cca3
    ensures r.density != Null
    ensures IsAbsorbing(x) ==> r.population == tot.population && r.area == tot.area
    ensures !IsAbsorbing(x) ==> r.population == x.population && r.area == x.area
  {
    LogRow(if IsAbsorbing(x) then Absorb(BackfillRow(x), tot) else BackfillRow(x), log)
  }

  /** The two log-scale passes around the merge leave a row as one pass after the merge would. */
  lemma CleanRowUnfolds(x: Country, tot: Totals, log: real -> real)
    requires tot.area != 0
    ensures
      var prepared := LogRow(BackfillRow(x), log);
      LogRow(if IsAbsorbing(prepared) then Absorb(prepared, tot) else prepared, log) == CleanRow(x, tot, log)
  {
  }

  /** Tables with the same codes, areas and populations have the same merge totals. */
  lemma SameColumnsSameTotals(t: Table, u: Table)
    requires SameColumns(t, u)
    ensures CombinedTotals(t) == CombinedTotals(u)
  {
    SameColumnsSameSelections(t, u);
    assert CombinedTotals(t).population == CombinedTotals(u).population;
  }

  /** The rows that survive the backfill and the first log-scale pass, in terms of the original
      rows that are not "ESH". */
  lemma PreparedKeptRows(t: Table, log: real -> real)
    ensures
      var kept := Filter(t, Kept);
      var prepared := Filter(DeriveLogDensity(BackfillDensity(t), log), Kept);
      && |prepared| == |kept|
      && forall i :: 0 <= i < |kept| ==> prepared[i] == LogRow(BackfillRow(kept[i]), log)
  {
    var filled := BackfillDensity(t);
    FilterOfRowMap(t, filled, Kept, BackfillRow);
    FilterOfRowMap(filled, DeriveLogDensity(filled, log), Kept, (x: Country) => LogRow(x, log));
  }

  /** The cleaning works row by row and in place: the result is the rows that are not "ESH", in
      their original order, each with its name, continent and code kept, its density backfilled,
      a "MAR" row merged, and its log density derived. */
  lemma CleanInPlace(t: Table, log: real -> real)
    requires Clean(t, log).Success?
    ensures CombinedTotals(t).area != 0
    ensures |Clean(t, log).value| == |Filter(t, Kept)|
    ensures forall i :: 0 <= i < |Filter(t, Kept)| ==>
              Clean(t, log).value[i] == CleanRow(Filter(t, Kept)[i], CombinedTotals(t), log)
  {
    var kept := Filter(t, Kept);
    var logged := DeriveLogDensity(BackfillDensity(t), log);
    var prepared := Filter(logged, Kept);
    var tot := CombinedTotals(t);
    CleanUnfolds(t, log);
    var merged := MergeTerritories(logged).value;
    PreparedSameColumns(t, log);
    SameColumnsSameTotals(t, logged);
    MergeInPlace(logged);
    PreparedKeptRows(t, log);
    var cleaned := Clean(t, log).value;
    forall i | 0 <= i < |kept|
      ensures cleaned[i] == CleanRow(kept[i], tot, log)
    {
      assert cleaned[i] == LogRow(merged[i], log);
      assert prepared[i] == LogRow(BackfillRow(kept[i]), log);
      CleanRowUnfolds(kept[i], tot, log);
    }
  }

  /** The cleaning keeps every surviving row's name, in the original order. */
  lemma CleanKeepsNames(t: Table, log: real -> real)
    requires Clean(t, log).Success?
    ensures |Clean(t, log).value| == |Filter(t, Kept)|
    ensures forall j :: 0 <= j < |Filter(t, Kept)| ==> Clean(t, log).value[j].name == Filter(t, Kept)[j].name
  {
    var kept, cleaned := Filter(t, Kept), Clean(t, log).value;
    CleanInPlace(t, log);
    forall j | 0 <= j < |kept|
      ensures cleaned[j].name == kept[j].name
    {
      assert cleaned[j] == CleanRow(kept[j], CombinedTotals(t), log);
    }
  }

  /** One "MAR" row and one "ESH" row of positive combined area leave a positive area sum to
      divide by. */
  lemma OneEachHasArea(t: Table)
    requires |Filter(t, IsAbsorbing)| == 1 && |Filter(t, IsAbsorbed)| == 1
    requires Filter(t, IsAbsorbing)[0].area + Filter(t, IsAbsorbed)[0].area > 0
    ensures Sum(Filter(t, InMerge), AreaOf) > 0
  {
    MergeSumSplit(t, AreaOf);
    assert Sum(Filter(t, IsAbsorbing), AreaOf) == Filter(t, IsAbsorbing)[0].area;
    assert Sum(Filter(t, IsAbsorbed), AreaOf) == Filter(t, IsAbsorbed)[0].area;
  }

  /** Merging a table with the same codes, areas and populations as `t` and a single "MAR" row
      leaves each population column summing to its total over `t`. */
  lemma MergedKeepsColumnTotal(t: Table, u: Table, k: YearIndex)
    requires SameColumns(t, u) && |Filter(t, IsAbsorbing)| == 1 && MergeTerritories(u).Success?
    ensures Sum(MergeTerritories(u).value, PopulationOf(k)) == Sum(t, PopulationOf(k))
  {
    SameColumnsSameSelections(t, u);
    MergePreservesColumnTotals(u, k);
  }

  /** Deriving the log scale keeps each population column's sum. */
  lemma LogKeepsColumnTotal(u: Table, log: real -> real, k: YearIndex)
    ensures Sum(DeriveLogDensity(u, log), PopulationOf(k)) == Sum(u, PopulationOf(k))
  {
    SameColumnsSameSelections(u, DeriveLogDensity(u, log));
  }

  /** A successful cleaning keeps every population column's table-wide sum when the table
      holds exactly one "MAR" row. */
  lemma CleanKeepsColumnTotals(t: Table, log: real -> real, k: YearIndex)
    requires |Filter(t, IsAbsorbing)| == 1
    requires Clean(t, log).Success?
    ensures Sum(Clean(t, log).value, PopulationOf(k)) == Sum(t, PopulationOf(k))
  {
    var logged := DeriveLogDensity(BackfillDensity(t), log);
    CleanUnfolds(t, log);
    var merged := MergeTerritories(logged).value;
    PreparedSameColumns(t, log);
    MergedKeepsColumnTotal(t, logged, k);
    LogKeepsColumnTotal(merged, log, k);
  }

  /** With one "MAR" row and one "ESH" row of positive combined area, cleaning succeeds, drops
      exactly one row, and keeps every population column's table-wide sum. */
  lemma CleanOneEach(t: Table, log: real -> real, k: YearIndex)
    requires |Filter(t, IsAbsorbing)| == 1 && |Filter(t, IsAbsorbed)| == 1
    requires Filter(t, IsAbsorbing)[0].area + Filter(t, IsAbsorbed)[0].area > 0
    ensures Clean(t, log).Success?
    ensures |Clean(t, log).value| == |t| - 1
    ensures Sum(Clean(t, log).value, PopulationOf(k)) == Sum(t, PopulationOf(k))
  {
    OneEachHasArea(t);
    CleanKeepsColumnTotals(t, log, k);
  }
}
