/** The read-only views computed from the cleaned table: the 2022 world total, the ten most
    populated rows, and the 2022 population per continent. */
module Aggregates {
  import opened Seqs
  import opened Records
  import opened Sorting

  /** The 2022 population column as a sort and sum key. */
  function Latest(x: Country): nat
  {
    x.population[Index2022]
  }

  /** Sum of the 2022 population column over all rows, in unbounded integers; no single row
      holds more than the total. */
  function WorldTotal(t: Table): (r: nat)
    ensures forall i :: 0 <= i < |t| ==> Latest(t[i]) <= r
  {
    var total := Sum(t, PopulationOf(Index2022));
    assert forall i :: 0 <= i < |t| ==> Latest(t[i]) <= total by {
      forall i | 0 <= i < |t| {
        ElementAtMostSum(t, PopulationOf(Index2022), t[i]);
      }
    }
    total
  }

  /** The world total of two tables laid end to end is the sum of their world totals. */
  lemma WorldTotalAppend(a: Table, b: Table)
    ensures WorldTotal(a + b) == WorldTotal(a) + WorldTotal(b)
  {
    SumAppend(a, b, PopulationOf(Index2022));
  }

  /** How many rows the ranking keeps. */
  const TopCount: nat := 10

  /** `sort("2022_Population", descending=True).head(10)`. */
  function Top10(t: Table): (r: Table)
    ensures |r| == if |t| < TopCount then |t| else TopCount
    ensures SortedDesc(r, Latest)
    ensures multiset(r) <= multiset(t)
    ensures forall x, y :: x in multiset(t) - multiset(r) && y in r ==> Latest(x) <= Latest(y)
  {
    TopN(t, TopCount, Latest)
  }

  /** One entry of the per-continent aggregate. */
  datatype Group = Group(continent: string, total: nat)

  function TotalOf(g: Group): nat
  {
    g.total
  }

  /** The continents that occur in the table. */
  function ContinentsOf(t: Table): (r: set<string>)
    ensures forall c :: c in r <==> exists i :: 0 <= i < |t| && t[i].continent == c
  {
    if t == [] then {}
    else
      var rest := ContinentsOf(t[1..]);
      assert forall c :: c in rest <==> exists i :: 1 <= i < |t| && t[i].continent == c by {
        forall c | c in rest
          ensures exists i :: 1 <= i < |t| && t[i].continent == c
        {
          var j :| 0 <= j < |t[1..]| && t[1..][j].continent == c;
          assert t[j + 1].continent == c;
        }
        forall c | exists i :: 1 <= i < |t| && t[i].continent == c
          ensures c in rest
        {
          var i :| 1 <= i < |t| && t[i].continent == c;
          assert t[1..][i - 1].continent == c;
        }
      }
      {t[0].continent} + rest
  }

  /** The 2022 population summed over the rows of continent c. */
  function ContinentTotal(t: Table, c: string): nat
  {
    if t == [] then 0
    else (if t[0].continent == c then Latest(t[0]) else 0) + ContinentTotal(t[1..], c)
  }

  /** How many groups carry continent c. */
  function CountKey(gs: seq<Group>, c: string): nat
  {
    if gs == [] then 0 else (if gs[0].continent == c then 1 else 0) + CountKey(gs[1..], c)
  }

  /** The total of the first group carrying continent c, or zero when there is none. */
  function Lookup(gs: seq<Group>, c: string): nat
  {
    if gs == [] then 0
    else if gs[0].continent == c then gs[0].total
    else Lookup(gs[1..], c)
  }

  /** Adds population p to continent c's group, opening a group for c when it has none. */
  function AddTo(gs: seq<Group>, c: string, p: nat): (r: seq<Group>)
    ensures forall k :: CountKey(r, k) == CountKey(gs, k) + (if k == c && CountKey(gs, k) == 0 then 1 else 0)
    ensures forall k :: Lookup(r, k) == Lookup(gs, k) + (if k == c then p else 0)
    ensures Sum(r, TotalOf) == Sum(gs, TotalOf) + p
  {
    if gs == [] then
      [Group(c, p)]
    else if gs[0].continent == c then
      var r := [gs[0].(total := gs[0].total + p)] + gs[1..];
      assert r[1..] == gs[1..];
      r
    else
      var rest := AddTo(gs[1..], c, p);
      assert ([gs[0]] + rest)[1..] == rest;
      [gs[0]] + rest
  }

  /** `group_by("Continent").agg(sum("2022_Population"))`: exactly one group per continent of
      the table, each holding that continent's total; the groups add up to the world total. */
  function GroupByContinent(t: Table): (r: seq<Group>)
    ensures forall c :: CountKey(r, c) == (if c in ContinentsOf(t) then 1 else 0)
    ensures forall c :: Lookup(r, c) == ContinentTotal(t, c)
    ensures Sum(r, TotalOf) == WorldTotal(t)
  {
    if t == [] then []
    else AddTo(GroupByContinent(t[1..]), t[0].continent, Latest(t[0]))
  }

  /** In a sequence with at most one group for a continent, that group's total is what Lookup finds. */
  lemma {:induction false} LookupFindsMember(gs: seq<Group>, g: Group)
    requires g in gs
    requires CountKey(gs, g.continent) <= 1
    ensures Lookup(gs, g.continent) == g.total
  {
    if gs[0] != g {
      if gs[0].continent == g.continent {
        assert g in gs[1..];
        CountKeyPositive(gs[1..], g);
        assert false;
      }
      LookupFindsMember(gs[1..], g);
    }
  }

  lemma {:induction false} CountKeyPositive(gs: seq<Group>, g: Group)
    requires g in gs
    ensures CountKey(gs, g.continent) >= 1
  {
    if gs[0] != g {
      CountKeyPositive(gs[1..], g);
    }
  }

  lemma {:induction false} CountKeyAppend(a: seq<Group>, b: seq<Group>, c: string)
    ensures CountKey(a + b, c) == CountKey(a, c) + CountKey(b, c)
    decreases |a|
  {
    if a == [] {
      assert a + b == b;
    } else {
      assert (a + b)[1..] == a[1..] + b;
      CountKeyAppend(a[1..], b, c);
    }
  }

  /** Removing the group at index i lowers the count of its continent by one. */
  lemma CountKeyRemove(b: seq<Group>, i: nat, c: string)
    requires i < |b|
    ensures CountKey(b, c) == CountKey(b[..i] + b[i + 1..], c) + (if b[i].continent == c then 1 else 0)
  {
    var left, right := b[..i], b[i + 1..];
    assert b == left + ([b[i]] + right);
    CountKeyAppend(left, [b[i]] + right, c);
    CountKeyAppend(left, right, c);
    assert ([b[i]] + right)[1..] == right;
  }

  /** Reordering the groups does not change how many carry a continent. */
  lemma {:induction false} CountKeyPermutation(a: seq<Group>, b: seq<Group>, c: string)
    requires multiset(a) == multiset(b)
    ensures CountKey(a, c) == CountKey(b, c)
    decreases |a|
  {
    if a == [] {
      assert |b| == |multiset(b)| == 0;
    } else {
      var x := a[0];
      assert x in multiset(b);
      var i :| 0 <= i < |b| && b[i] == x;
      var rest := b[..i] + b[i + 1..];
      PermutationStep(a, b, i);
      CountKeyPermutation(a[1..], rest, c);
      CountKeyRemove(b, i, c);
    }
  }

  /** The per-continent aggregate sorted by total, largest first: still one group per continent,
      each holding that continent's 2022 total, and the totals add up to the world total. */
  function PopulationByContinent(t: Table): (r: seq<Group>)
    ensures SortedDesc(r, TotalOf)
    ensures forall c :: CountKey(r, c) == (if c in ContinentsOf(t) then 1 else 0)
    ensures forall g :: g in r ==> g.total == ContinentTotal(t, g.continent)
    ensures Sum(r, TotalOf) == WorldTotal(t)
  {
    var groups := GroupByContinent(t);
    var sorted := SortDesc(groups, TotalOf);
    assert forall c :: CountKey(sorted, c) == CountKey(groups, c) by {
      forall c {
        CountKeyPermutation(sorted, groups, c);
      }
    }
    assert forall g :: g in sorted ==> g.total == ContinentTotal(t, g.continent) by {
      forall g | g in sorted
        ensures g.total == ContinentTotal(t, g.continent)
      {
        assert g in multiset(groups);
        LookupFindsMember(groups, g);
      }
    }
    sorted
  }

  /** 2^32, the modulus of 32-bit integer arithmetic. */
  const Int32Modulus: int := 0x1_0000_0000
  /** 2^31, the magnitude of the smallest 32-bit integer. */
  const Int32Half: int := 0x8000_0000

  /** An integer read back as a 32-bit two's-complement value. */
  function Wrap32(x: int): (r: int)
    ensures -Int32Half <= r < Int32Half
    ensures (x - r) % Int32Modulus == 0
    ensures -Int32Half <= x < Int32Half ==> r == x
  {
    (x + Int32Half) % Int32Modulus - Int32Half
  }

  /** Two integers that differ by a multiple of 2^32 read back as the same 32-bit value. */
  lemma Wrap32Congruent(x: int, y: int)
    requires (x - y) % Int32Modulus == 0
    ensures Wrap32(x) == Wrap32(y)
  {
    var q := (x - y) / Int32Modulus;
    assert x + Int32Half == (y + Int32Half) + Int32Modulus * q;
    ModuloShift(y + Int32Half, q);
  }

  lemma {:induction false} ModuloShift(a: int, q: int)
    ensures (a + Int32Modulus * q) % Int32Modulus == a % Int32Modulus
    decreases if q < 0 then -q else q
  {
    if q > 0 {
      ModuloShift(a, q - 1);
      assert a + Int32Modulus * q == (a + Int32Modulus * (q - 1)) + Int32Modulus;
    } else if q < 0 {
      ModuloShift(a, q + 1);
      assert a + Int32Modulus * q == (a + Int32Modulus * (q + 1)) - Int32Modulus;
    }
  }

  /** Narrowing the operands before a 32-bit addition gives the same value as narrowing the
      exact sum once. */
  lemma Wrap32Add(a: int, b: int)
    ensures Wrap32(Wrap32(a) + Wrap32(b)) == Wrap32(a + b)
  {
    var w := Wrap32(a) + Wrap32(b);
    assert (w - (a + b)) % Int32Modulus == 0 by {
      var qa := (a - Wrap32(a)) / Int32Modulus;
      var qb := (b - Wrap32(b)) / Int32Modulus;
      assert a - Wrap32(a) == Int32Modulus * qa;
      assert b - Wrap32(b) == Int32Modulus * qb;
      assert (a + b) - w == Int32Modulus * (qa + qb);
      ModuloShift(0, -(qa + qb));
    }
    Wrap32Congruent(w, a + b);
  }

  /** The 2022 world total as the JAX variant computes it: `jnp.array` narrows the 64-bit
      column to JAX's default 32-bit integers and `jnp.sum` adds them with 32-bit wrap-around.
      The result is the true world total reduced to 32-bit two's complement. */
  function JaxWorldTotal(t: Table): (r: int)
    ensures r == Wrap32(WorldTotal(t))
  {
    if t == [] then 0
    else
      var rest := JaxWorldTotal(t[1..]);
      assert WorldTotal(t) == Latest(t[0]) + WorldTotal(t[1..]);
      Wrap32Add(Latest(t[0]), WorldTotal(t[1..]));
      Wrap32(Wrap32(Latest(t[0])) + rest)
  }

  /** Below 2^31 the JAX total is exact. */
  lemma JaxWorldTotalExactBelowLimit(t: Table)
    requires WorldTotal(t) < Int32Half
    ensures JaxWorldTotal(t) == WorldTotal(t)
  {
  }

  /** Two rows of 1.5 billion people: the JAX total reads -1 294 967 296 instead of 3 000 000 000.
      The real 2022 world population, close to 8 billion, is past the 32-bit range as well. */
  lemma JaxWorldTotalOverflows(a: Country, b: Country)
    requires Latest(a) == 1500000000 && Latest(b) == 1500000000
    ensures WorldTotal([a, b]) == 3000000000
    ensures JaxWorldTotal([a, b]) == -1294967296
  {
    assert [a, b][1..] == [b];
    assert [b][1..] == [];
    assert PopulationOf(Index2022)(a) == 1500000000 && PopulationOf(Index2022)(b) == 1500000000;
    assert Sum([b][1..], PopulationOf(Index2022)) == 0;
    assert WorldTotal([b]) == 1500000000;
    assert JaxWorldTotal([b]) == 1500000000;
    assert Wrap32(3000000000) == -1294967296;
  }
}
