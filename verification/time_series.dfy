/** The case-study time series: one country's population for each snapshot year. */
module TimeSeries {
  import opened Seqs
  import opened Records
  import opened Outcomes
  import opened TerritoryMerge
  import opened Pipeline

  /** The country both scripts follow. */
  const CaseStudy: string := "Morocco"

  /** One point of the line chart and of the regression input. */
  datatype Point = Point(year: int, population: nat)

  /** The eight populations paired with their snapshot years. */
  function Points(s: Series): (r: seq<Point>)
    ensures |r| == |Years|
    ensures forall k :: 0 <= k < |r| ==> r[k].year == Years[k] && r[k].population == s[k]
    ensures forall k, l :: 0 <= k < l < |r| ==> r[k].year < r[l].year
  {
    seq(8, k requires 0 <= k < 8 => Point(Years[k], s[k]))
  }

  /** Row i is the first row named `name`. */
  ghost predicate IsFirstNamed(t: Table, name: string, i: int)
  {
    0 <= i < |t| && t[i].name == name && forall j :: 0 <= j < i ==> t[j].name != name
  }

  /** `filter(Country == name)` then `[col][0]` for each year column, in year order: the
      series of the first row with that name; reading row 0 of an empty selection raises. */
  function SeriesOf(t: Table, name: string): (r: Result<seq<Point>>)
    ensures r.Failure? <==> forall i :: 0 <= i < |t| ==> t[i].name != name
    ensures r.Failure? ==> r.error == IndexOutOfBounds
    ensures r.Success? ==> exists i :: IsFirstNamed(t, name, i) && r.value == Points(t[i].population)
  {
    if t == [] then Failure(IndexOutOfBounds)
    else if t[0].name == name then
      assert IsFirstNamed(t, name, 0);
      Success(Points(t[0].population))
    else
      var r := SeriesOf(t[1..], name);
      assert r.Failure? <==> forall i :: 1 <= i < |t| ==> t[i].name != name by {
        if r.Failure? {
          forall i | 1 <= i < |t| ensures t[i].name != name {
            assert t[1..][i - 1] == t[i];
          }
        }
      }
      assert r.Success? ==> exists i :: IsFirstNamed(t, name, i) && r.value == Points(t[i].population) by {
        if r.Success? {
          var i :| IsFirstNamed(t[1..], name, i) && r.value == Points(t[1..][i].population);
          assert IsFirstNamed(t, name, i + 1);
        }
      }
      r
  }

  /** The row selection `Country == name`. */
  function HasName(name: string): Country -> bool
  {
    (x: Country) => x.name == name
  }

  /** The year values of the given rows, row after row: value 8·j + k is the k-th year of
      row j. */
  function Concat(rows: seq<Country>): (r: seq<nat>)
    ensures |r| == 8 * |rows|
    ensures forall j, k :: 0 <= j < |rows| && 0 <= k < 8 ==> r[8 * j + k] == rows[j].population[k]
  {
    if rows == [] then []
    else
      var rest := Concat(rows[1..]);
      ConcatStep(rows, rest);
      rows[0].population + rest
  }

  /** The step of `Concat`: the first row's eight values in front of the rest's. */
  lemma ConcatStep(rows: seq<Country>, rest: seq<nat>)
    requires rows != []
    requires |rest| == 8 * (|rows| - 1)
    requires forall j, k :: 0 <= j < |rows| - 1 && 0 <= k < 8 ==> rest[8 * j + k] == rows[1..][j].population[k]
    ensures forall j, k :: 0 <= j < |rows| && 0 <= k < 8 ==>
              (rows[0].population + rest)[8 * j + k] == rows[j].population[k]
  {
    var r := rows[0].population + rest;
    forall j, k | 0 <= j < |rows| && 0 <= k < 8
      ensures r[8 * j + k] == rows[j].population[k]
    {
      if j > 0 {
        var m := 8 * (j - 1) + k;
        assert 8 * j + k == 8 + m;
        assert r[8 + m] == rest[m];
        assert rest[m] == rows[1..][j - 1].population[k];
      }
    }
  }

  /** `df[df["Country"] == name][year columns].values.flatten()`: the year columns of every
      row with that name, row after row; empty when there is none. */
  function FlattenNamed(t: Table, name: string): (r: seq<nat>)
    ensures r == Concat(Filter(t, HasName(name)))
  {
    if t == [] then []
    else
      var rest := FlattenNamed(t[1..], name);
      if t[0].name == name then
        assert Filter(t, HasName(name)) == [t[0]] + Filter(t[1..], HasName(name));
        assert ([t[0]] + Filter(t[1..], HasName(name)))[1..] == Filter(t[1..], HasName(name));
        t[0].population + rest
      else
        assert Filter(t, HasName(name)) == Filter(t[1..], HasName(name));
        rest
  }

  /** The populations of a series of points. */
  function Values(ps: seq<Point>): (r: seq<nat>)
    ensures |r| == |ps|
    ensures forall k :: 0 <= k < |ps| ==> r[k] == ps[k].population
  {
    seq(|ps|, k requires 0 <= k < |ps| => ps[k].population)
  }

  /** With no row of that name, the flattened selection is empty. */
  lemma NoneNamedFlattensEmpty(t: Table, name: string)
    requires |Filter(t, HasName(name))| == 0
    ensures FlattenNamed(t, name) == []
    ensures forall i :: 0 <= i < |t| ==> t[i].name != name
  {
    forall i | 0 <= i < |t|
      ensures t[i].name != name
    {
      assert t[i] !in Filter(t, HasName(name));
    }
  }

  /** On the same table with exactly one row of that name, the flattened selection of the pandas
      script and the first-row read of the Polars script give the same eight values, year by
      year. The Polars script applies its read to the cleaned table, the pandas script to the
      raw one. */
  lemma {:induction false} VariantsAgreeOnSingleMatch(t: Table, name: string)
    requires |Filter(t, HasName(name))| == 1
    ensures SeriesOf(t, name).Success?
    ensures FlattenNamed(t, name) == Values(SeriesOf(t, name).value)
  {
    if t[0].name == name {
      NoneNamedFlattensEmpty(t[1..], name);
      assert FlattenNamed(t, name) == t[0].population;
      assert SeriesOf(t, name).value == Points(t[0].population);
    } else {
      VariantsAgreeOnSingleMatch(t[1..], name);
    }
  }

  /** The series of a name is the series of the first row with that name. */
  lemma SeriesOfFirst(t: Table, name: string, i: int)
    requires IsFirstNamed(t, name, i)
    ensures SeriesOf(t, name) == Success(Points(t[i].population))
  {
    assert t[i].name == name;
    assert SeriesOf(t, name).Success?;
    var j :| IsFirstNamed(t, name, j) && SeriesOf(t, name).value == Points(t[j].population);
    assert 0 <= j < |t| && t[j].name == name;
    assert forall m :: 0 <= m < j ==> t[m].name != name;
    assert forall m :: 0 <= m < i ==> t[m].name != name;
    assert !(j < i) && !(i < j);
  }

  /** Tables whose rows carry the same names have their first row of a name at the same index. */
  lemma FirstNamedAcross(a: Table, b: Table, name: string, i: int)
    requires |a| == |b| && forall j :: 0 <= j < |a| ==> b[j].name == a[j].name
    requires IsFirstNamed(a, name, i)
    ensures IsFirstNamed(b, name, i)
  {
  }

  /** The Polars script reads the case study from the cleaned table. When the first row named
      "Morocco" among the rows that are not "ESH" is the "MAR" row, that series is the merge
      totals: Western Sahara's populations are included, year by year. */
  lemma CaseStudyAfterClean(t: Table, log: real -> real, i: int)
    requires Clean(t, log).Success?
    requires IsFirstNamed(Filter(t, Kept), CaseStudy, i) && IsAbsorbing(Filter(t, Kept)[i])
    ensures SeriesOf(Clean(t, log).value, CaseStudy) == Success(Points(CombinedTotals(t).population))
  {
    var kept := Filter(t, Kept);
    var cleaned := Clean(t, log).value;
    CleanKeepsNames(t, log);
    FirstNamedAcross(kept, cleaned, CaseStudy, i);
    SeriesOfFirst(cleaned, CaseStudy, i);
    assert cleaned[i].population == CombinedTotals(t).population by {
      CleanInPlace(t, log);
    }
  }
}
