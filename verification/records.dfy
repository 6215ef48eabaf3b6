/** One row of the world population table, and the table itself. */
module Records {
  import opened Cells

  /** The snapshot years, ascending; population index k belongs to Years[k]. */
  const Years: seq<int> := [1970, 1980, 1990, 2000, 2010, 2015, 2020, 2022]

  /** An index into the eight population columns. */
  type YearIndex = k: nat | k < 8

  /** The index of the `2022_Population` column. */
  const Index2022: YearIndex := 7

  /** One population per snapshot year, in the order of Years. */
  type Series = s: seq<nat> | |s| == 8 witness [0, 0, 0, 0, 0, 0, 0, 0]

  /** A country or territory: `Country`, `Continent`, `CCA3`, `Area_(km²)`,
      `Density_(per_km²)` (nullable), `Log_Density` and the eight `<year>_Population` columns. */
  datatype Country = Country(
    name: string,
    continent: string,
    cca3: string,
    area: nat,
    density: Cell,
    logDensity: Cell,
    population: Series)

  /** Rows in file order. */
  type Table = seq<Country>

  /** The population column of year index k, as a function of a row. */
  function PopulationOf(k: YearIndex): Country -> nat
  {
    (x: Country) => x.population[k]
  }

  /** The area column, as a function of a row. */
  function AreaOf(x: Country): nat
  {
    x.area
  }
}
