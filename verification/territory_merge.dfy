/** Merging Western Sahara ("ESH") into Morocco ("MAR"): the two rows' population columns and
    areas are summed, the sums are written into the Morocco row, Morocco's density is
    recomputed from them, and the Western Sahara row is dropped. */
module TerritoryMerge {
  import opened Seqs
  import opened Cells
  import opened Records
  import opened Outcomes

  /** The code of the row that receives the combined values. */
  const Absorbing: string := "MAR"
  /** The code of the row that is folded in and then removed. */
  const Absorbed: string := "ESH"

  predicate IsAbsorbing(x: Country) { x.cca3 == Absorbing }
  predicate NotAbsorbing(x: Country) { x.cca3 != Absorbing }
  predicate IsAbsorbed(x: Country) { x.cca3 == Absorbed }
  predicate Kept(x: Country) { x.cca3 != Absorbed }
  /** The rows the column sums run over. */
  predicate InMerge(x: Country) { x.cca3 == Absorbing || x.cca3 == Absorbed }
  /** The rows the merge must leave alone. */
  predicate Untouched(x: Country) { !InMerge(x) }

  /** The summed population columns and area of the merged rows. */
  datatype Totals = Totals(population: Series, area: nat)

  /** `filter(CCA3 == "MAR" | CCA3 == "ESH").select(pop_cols).sum()`; an empty selection sums
      to zero. Each total is the column summed over the "MAR" rows plus the column summed over
      the "ESH" rows. */
  function CombinedTotals(t: Table): (r: Totals)
    ensures forall k: YearIndex ::
              r.population[k] == Sum(Filter(t, IsAbsorbing), PopulationOf(k)) + Sum(Filter(t, IsAbsorbed), PopulationOf(k))
    ensures r.area == Sum(Filter(t, IsAbsorbing), AreaOf) + Sum(Filter(t, IsAbsorbed), AreaOf)
  {
    var selected := Filter(t, InMerge);
    assert forall k: YearIndex ::
        Sum(selected, PopulationOf(k)) == Sum(Filter(t, IsAbsorbing), PopulationOf(k)) + Sum(Filter(t, IsAbsorbed), PopulationOf(k)) by {
      forall k: YearIndex {
        MergeSumSplit(t, PopulationOf(k));
      }
    }
    MergeSumSplit(t, AreaOf);
    Totals(seq(8, k requires 0 <= k < 8 => Sum(selected, PopulationOf(k))), Sum(selected, AreaOf))
  }

  /** A row that holds the combined totals of `t`, with the density recomputed from them. */
  ghost predicate HoldsCombinedTotals(x: Country, t: Table)
  {
    var selected := Filter(t, InMerge);
    && (forall k: YearIndex :: x.population[k] == Sum(selected, PopulationOf(k)))
    && x.area == Sum(selected, AreaOf)
    && x.area != 0
    && x.density == Finite(Sum(selected, PopulationOf(Index2022)) as real / x.area as real)
  }

  /** The absorbing row after the column updates and the density update. */
  function Absorb(x: Country, tot: Totals): Country
    requires tot.area != 0
  {
    x.(population := tot.population,
       area := tot.area,
       density := Finite(tot.population[Index2022] as real / tot.area as real))
  }

  /** Every absorbing row replaced by its merged form, in order. */
  function AbsorbAll(s: Table, tot: Totals): (r: Table)
    requires tot.area != 0
    ensures |r| == |s|
    ensures forall i :: 0 <= i < |r| ==>
              && r[i].name == s[i].name && r[i].continent == s[i].continent
              && r[i].cca3 == s[i].cca3 && r[i].logDensity == s[i].logDensity
              && r[i].population == tot.population && r[i].area == tot.area
              && r[i].density == Finite(tot.population[Index2022] as real / tot.area as real)
  {
    if s == [] then [] else [Absorb(s[0], tot)] + AbsorbAll(s[1..], tot)
  }

  /** The column updates `when(CCA3 == "MAR").then(total).otherwise(column)`: rows stay in place,
      rows with code "MAR" take the totals, every other row is kept, and no code changes. */
  function WriteTotals(t: Table, tot: Totals): (r: Table)
    requires tot.area != 0
    ensures |r| == |t|
    ensures forall i :: 0 <= i < |t| ==> r[i].cca3 == t[i].cca3
    ensures forall i :: 0 <= i < |t| ==> r[i] == if IsAbsorbing(t[i]) then Absorb(t[i], tot) else t[i]
  {
    if t == [] then []
    else [if IsAbsorbing(t[0]) then Absorb(t[0], tot) else t[0]] + WriteTotals(t[1..], tot)
  }

  /** Writing the totals leaves the untouched rows as they were. */
  lemma {:induction false} WriteTotalsKeepsUntouched(t: Table, tot: Totals)
    requires tot.area != 0
    ensures Filter(WriteTotals(t, tot), Untouched) == Filter(t, Untouched)
  {
    if t != [] {
      WriteTotalsKeepsUntouched(t[1..], tot);
      var w := WriteTotals(t, tot);
      assert w[0] == (if IsAbsorbing(t[0]) then Absorb(t[0], tot) else t[0]);
      assert w[1..] == WriteTotals(t[1..], tot);
      assert Untouched(w[0]) == Untouched(t[0]);
    }
  }

  /** Writing the totals leaves the absorbed rows as they were. */
  lemma {:induction false} WriteTotalsKeepsAbsorbed(t: Table, tot: Totals)
    requires tot.area != 0
    ensures Filter(WriteTotals(t, tot), IsAbsorbed) == Filter(t, IsAbsorbed)
  {
    if t != [] {
      WriteTotalsKeepsAbsorbed(t[1..], tot);
      var w := WriteTotals(t, tot);
      assert w[0] == (if IsAbsorbing(t[0]) then Absorb(t[0], tot) else t[0]);
      assert w[1..] == WriteTotals(t[1..], tot);
      assert IsAbsorbed(w[0]) == IsAbsorbed(t[0]);
    }
  }

  /** Writing the totals turns the absorbing rows, in order, into their merged form. */
  lemma {:induction false} WriteTotalsAbsorbs(t: Table, tot: Totals)
    requires tot.area != 0
    ensures Filter(WriteTotals(t, tot), IsAbsorbing) == AbsorbAll(Filter(t, IsAbsorbing), tot)
  {
    if t != [] {
      WriteTotalsAbsorbs(t[1..], tot);
      var w := WriteTotals(t, tot);
      assert w[0] == (if IsAbsorbing(t[0]) then Absorb(t[0], tot) else t[0]);
      assert w[1..] == WriteTotals(t[1..], tot);
      var rest := Filter(t[1..], IsAbsorbing);
      if IsAbsorbing(t[0]) {
        assert Filter(t, IsAbsorbing) == [t[0]] + rest;
        assert ([t[0]] + rest)[1..] == rest;
        assert Filter(w, IsAbsorbing) == [Absorb(t[0], tot)] + Filter(w[1..], IsAbsorbing);
      } else {
        assert Filter(t, IsAbsorbing) == rest;
        assert Filter(w, IsAbsorbing) == Filter(w[1..], IsAbsorbing);
      }
    }
  }

  /** Dropping the "ESH" rows after the column updates is dropping them before: the updates
      never change a row's code. */
  lemma {:induction false} FilterCommutesWithWrite(t: Table, tot: Totals)
    requires tot.area != 0
    ensures Filter(WriteTotals(t, tot), Kept) == WriteTotals(Filter(t, Kept), tot)
  {
    if t != [] {
      FilterCommutesWithWrite(t[1..], tot);
      var w := WriteTotals(t, tot);
      assert w[1..] == WriteTotals(t[1..], tot);
      assert Kept(w[0]) == Kept(t[0]);
      var rest := Filter(t[1..], Kept);
      if Kept(t[0]) {
        assert Filter(t, Kept) == [t[0]] + rest;
        var u := WriteTotals([t[0]] + rest, tot);
        assert u[1..] == WriteTotals(rest, tot) by {
          assert ([t[0]] + rest)[1..] == rest;
        }
      } else {
        assert Filter(t, Kept) == rest;
      }
    }
  }

  /** The column updates followed by `filter(CCA3 != "ESH")`: the rows that are not "ESH", in
      their original order, each "MAR" row replaced in place by its merged form. */
  function Merged(t: Table, tot: Totals): (r: Table)
    requires tot.area != 0
    ensures |r| == |Filter(t, Kept)|
    ensures forall i :: 0 <= i < |r| ==>
              r[i] == if IsAbsorbing(Filter(t, Kept)[i]) then Absorb(Filter(t, Kept)[i], tot)
                      else Filter(t, Kept)[i]
  {
    FilterCommutesWithWrite(t, tot);
    Filter(WriteTotals(t, tot), Kept)
  }

  lemma MergedShape(t: Table, tot: Totals)
    requires tot.area != 0
    ensures forall x :: x in Merged(t, tot) ==> x.cca3 != Absorbed
    ensures |Merged(t, tot)| == |t| - |Filter(t, IsAbsorbed)|
    ensures Filter(Merged(t, tot), Untouched) == Filter(t, Untouched)
    ensures Filter(Merged(t, tot), IsAbsorbing) == AbsorbAll(Filter(t, IsAbsorbing), tot)
  {
    var written := WriteTotals(t, tot);
    WriteTotalsKeepsUntouched(t, tot);
    WriteTotalsKeepsAbsorbed(t, tot);
    WriteTotalsAbsorbs(t, tot);
    FilterOfFilter(written, Kept, Untouched);
    FilterOfFilter(written, Kept, IsAbsorbing);
    FilterPartitionLength(written, Kept, IsAbsorbed);
  }

  /** The totals are the column sums over the rows coded "MAR" or "ESH". */
  lemma CombinedTotalsAreSums(t: Table)
    ensures forall k: YearIndex ::
              CombinedTotals(t).population[k] == Sum(Filter(t, InMerge), PopulationOf(k))
    ensures CombinedTotals(t).area == Sum(Filter(t, InMerge), AreaOf)
  {
  }

  lemma AbsorbedRowsHoldTotals(t: Table)
    requires CombinedTotals(t).area != 0
    ensures forall x :: x in AbsorbAll(Filter(t, IsAbsorbing), CombinedTotals(t)) ==> HoldsCombinedTotals(x, t)
  {
    var tot := CombinedTotals(t);
    var absorbed := AbsorbAll(Filter(t, IsAbsorbing), tot);
    CombinedTotalsAreSums(t);
    forall x | x in absorbed
      ensures HoldsCombinedTotals(x, t)
    {
      var i :| 0 <= i < |absorbed| && absorbed[i] == x;
      assert x.population == tot.population && x.area == tot.area;
    }
  }

  lemma MergedRowsHoldTotals(t: Table)
    requires CombinedTotals(t).area != 0
    ensures forall x :: x in Merged(t, CombinedTotals(t)) && IsAbsorbing(x) ==> HoldsCombinedTotals(x, t)
  {
    var merged := Merged(t, CombinedTotals(t));
    MergedShape(t, CombinedTotals(t));
    AbsorbedRowsHoldTotals(t);
    forall x | x in merged && IsAbsorbing(x)
      ensures HoldsCombinedTotals(x, t)
    {
      assert x in Filter(merged, IsAbsorbing);
    }
  }

  /** The whole merge. Python's scalar division of the summed population by the summed area
      raises when that area is zero, which happens when no row has either code. */
  function MergeTerritories(t: Table): (r: Result<Table>)
    ensures r.Failure? <==> Sum(Filter(t, InMerge), AreaOf) == 0
    ensures r.Failure? ==> r.error == ZeroDivision
    ensures r.Success? ==> forall x :: x in r.value ==> x.cca3 != Absorbed
    ensures r.Success? ==> |r.value| == |t| - |Filter(t, IsAbsorbed)|
    ensures r.Success? ==> Filter(r.value, Untouched) == Filter(t, Untouched)
    ensures r.Success? ==> |Filter(r.value, IsAbsorbing)| == |Filter(t, IsAbsorbing)|
    ensures r.Success? ==> forall x :: x in r.value && IsAbsorbing(x) ==> HoldsCombinedTotals(x, t)
    ensures r.Success? ==>
              Filter(r.value, IsAbsorbing) == AbsorbAll(Filter(t, IsAbsorbing), CombinedTotals(t))
  {
    var tot := CombinedTotals(t);
    if tot.area == 0 then Failure(ZeroDivision)
    else
      MergedShape(t, tot);
      MergedRowsHoldTotals(t);
      Success(Merged(t, tot))
  }

  /** The merge updates rows in place: the result is the rows that are not "ESH", in their
      original order, each "MAR" row replaced by its merged form and every other row kept. */
  lemma MergeInPlace(t: Table)
    requires MergeTerritories(t).Success?
    ensures |MergeTerritories(t).value| == |Filter(t, Kept)|
    ensures forall i :: 0 <= i < |Filter(t, Kept)| ==>
              MergeTerritories(t).value[i]
              == if IsAbsorbing(Filter(t, Kept)[i]) then Absorb(Filter(t, Kept)[i], CombinedTotals(t))
                 else Filter(t, Kept)[i]
  {
  }

  /** A column summed over the merged rows is the same column summed over each code. */
  lemma MergeSumSplit(t: Table, f: Country -> nat)
    ensures Sum(Filter(t, InMerge), f) == Sum(Filter(t, IsAbsorbing), f) + Sum(Filter(t, IsAbsorbed), f)
  {
    var selected := Filter(t, InMerge);
    SumPartition(selected, IsAbsorbing, NotAbsorbing, f);
    FilterOfFilter(t, InMerge, IsAbsorbing);
    FilterCongruent(selected, NotAbsorbing, IsAbsorbed);
    FilterOfFilter(t, InMerge, IsAbsorbed);
  }

  lemma {:induction false} SumAbsorbAll(s: Table, tot: Totals, k: YearIndex)
    requires tot.area != 0
    ensures Sum(AbsorbAll(s, tot), PopulationOf(k)) == |s| * tot.population[k]
    decreases |s|
  {
    if s != [] {
      SumAbsorbAll(s[1..], tot, k);
      var r := AbsorbAll(s, tot);
      assert r[1..] == AbsorbAll(s[1..], tot);
    }
  }

  /** After the merge a population column sums to its total over the untouched rows plus one
      copy of the combined total per absorbing row: without a "MAR" row the absorbed population
      is lost, with two it is counted twice. */
  lemma MergedColumnTotal(t: Table, k: YearIndex)
    requires MergeTerritories(t).Success?
    ensures Sum(MergeTerritories(t).value, PopulationOf(k))
            == Sum(Filter(t, Untouched), PopulationOf(k))
               + |Filter(t, IsAbsorbing)| * Sum(Filter(t, InMerge), PopulationOf(k))
  {
    var merged := MergeTerritories(t).value;
    var f := PopulationOf(k);
    SumPartition(merged, InMerge, Untouched, f);
    FilterCongruent(merged, InMerge, IsAbsorbing);
    SumAbsorbAll(Filter(t, IsAbsorbing), CombinedTotals(t), k);
    CombinedTotalsAreSums(t);
  }

  /** With exactly one "MAR" row the merge moves population between rows without creating or
      losing any: every population column keeps its table-wide sum. */
  lemma MergePreservesColumnTotals(t: Table, k: YearIndex)
    requires |Filter(t, IsAbsorbing)| == 1
    requires MergeTerritories(t).Success?
    ensures Sum(MergeTerritories(t).value, PopulationOf(k)) == Sum(t, PopulationOf(k))
  {
    var f := PopulationOf(k);
    var combined := Sum(Filter(t, InMerge), f);
    MergedColumnTotal(t, k);
    assert |Filter(t, IsAbsorbing)| * combined == combined;
    SumPartition(t, InMerge, Untouched, f);
  }

  /** Year-by-year sum of two population series. */
  function AddSeries(a: Series, b: Series): (r: Series)
    ensures forall k: YearIndex :: r[k] == a[k] + b[k]
  {
    seq(8, k requires 0 <= k < 8 => a[k] + b[k])
  }

  /** With one "MAR" row and one "ESH" row the merge totals are the two rows' year-by-year
      sums and their summed area. */
  lemma OneEachTotals(t: Table)
    requires |Filter(t, IsAbsorbing)| == 1 && |Filter(t, IsAbsorbed)| == 1
    ensures
      var mar := Filter(t, IsAbsorbing)[0];
      var esh := Filter(t, IsAbsorbed)[0];
      CombinedTotals(t) == Totals(AddSeries(mar.population, esh.population), mar.area + esh.area)
  {
    var mar := Filter(t, IsAbsorbing)[0];
    var esh := Filter(t, IsAbsorbed)[0];
    var tot := CombinedTotals(t);
    var population := AddSeries(mar.population, esh.population);
    assert Filter(t, IsAbsorbing) == [mar];
    assert Filter(t, IsAbsorbed) == [esh];
    assert tot.population == population by {
      CombinedTotalsAreSums(t);
      forall k: YearIndex
        ensures tot.population[k] == population[k]
      {
        MergeSumSplit(t, PopulationOf(k));
        assert Sum([mar], PopulationOf(k)) == mar.population[k];
        assert Sum([esh], PopulationOf(k)) == esh.population[k];
      }
    }
    assert tot.area == mar.area + esh.area by {
      CombinedTotalsAreSums(t);
      MergeSumSplit(t, AreaOf);
      assert Sum([mar], AreaOf) == mar.area;
      assert Sum([esh], AreaOf) == esh.area;
    }
  }

  /** One "MAR" row and one "ESH" row: the table shrinks by one row, and the single remaining
      "MAR" row keeps its identity and holds the two rows' summed populations and areas, with
      the density recomputed from those sums. */
  lemma MergeOneEach(t: Table)
    requires |Filter(t, IsAbsorbing)| == 1 && |Filter(t, IsAbsorbed)| == 1
    requires Filter(t, IsAbsorbing)[0].area + Filter(t, IsAbsorbed)[0].area > 0
    ensures
      var mar := Filter(t, IsAbsorbing)[0];
      var esh := Filter(t, IsAbsorbed)[0];
      var area := mar.area + esh.area;
      var population := AddSeries(mar.population, esh.population);
      && MergeTerritories(t).Success?
      && |MergeTerritories(t).value| == |t| - 1
      && Filter(MergeTerritories(t).value, IsAbsorbing)
         == [mar.(population := population, area := area,
                  density := Finite(population[Index2022] as real / area as real))]
  {
    var mar := Filter(t, IsAbsorbing)[0];
    var tot := CombinedTotals(t);
    OneEachTotals(t);
    assert Filter(t, IsAbsorbing) == [mar];
    assert MergeTerritories(t).Success? by {
      CombinedTotalsAreSums(t);
    }
    assert AbsorbAll([mar], tot) == [Absorb(mar, tot)];
  }

  /** Example: Morocco with 446550 km² and 37 000 000 people in 2022 absorbs
      Western Sahara with 266000 km² and 600 000 people; the other years are left free. */
  lemma MoroccoWesternSaharaExample(mar: Country, esh: Country)
    requires mar.cca3 == "MAR" && mar.area == 446550 && mar.population[Index2022] == 37000000
    requires esh.cca3 == "ESH" && esh.area == 266000 && esh.population[Index2022] == 600000
    ensures
      var population := AddSeries(mar.population, esh.population);
      && population[Index2022] == 37600000
      && MergeTerritories([mar, esh])
         == Success([mar.(population := population, area := 712550,
                          density := Finite(37600000.0 / 712550.0))])
  {
    var t := [mar, esh];
    assert Filter(t, IsAbsorbing) == [mar] by {
      assert t[1..] == [esh];
      assert Filter([esh], IsAbsorbing) == [] by { assert [esh][1..] == []; }
    }
    assert Filter(t, IsAbsorbed) == [esh] by {
      assert t[1..] == [esh];
      assert Filter([esh], IsAbsorbed) == [esh] by { assert [esh][1..] == []; }
    }
    var population := AddSeries(mar.population, esh.population);
    assert population[Index2022] == 37600000;
    var expected := mar.(population := population, area := 712550,
                         density := Finite(37600000.0 / 712550.0));
    assert expected == mar.(population := population, area := mar.area + esh.area,
                            density := Finite(population[Index2022] as real / (mar.area + esh.area) as real));
    assert MergeTerritories(t).Success?
        && |MergeTerritories(t).value| == 1
        && Filter(MergeTerritories(t).value, IsAbsorbing) == [expected] by {
      MergeOneEach(t);
    }
    var merged := MergeTerritories(t).value;
    assert expected in merged by {
      assert expected in Filter(merged, IsAbsorbing);
    }
    assert merged == [expected];
  }
}
