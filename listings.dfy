/**
  The reference listings of the API on the loaded emissions table:
  `/years` (the distinct years in ascending order with their extremes and
  count) and `/countries` (the distinct (country, iso, continent) entries,
  optionally of one continent, ordered by country).
 */
module Listings {
  import opened Wrappers
  import opened Text
  import opened Sequences
  import opened Emissions
  import opened Api

  // ---------------------------------------------------------------------------
  // /years
  // ---------------------------------------------------------------------------

  datatype YearList = YearList(years: seq<int>, min: int, max: int, count: nat)

  function YearsOf(rows: seq<Row>): (ys: seq<int>)
    ensures |ys| == |rows|
    ensures forall i :: 0 <= i < |rows| ==> ys[i] == rows[i].year
  {
    seq(|rows|, i requires 0 <= i < |rows| => rows[i].year)
  }

  predicate IntLe(a: int, b: int) {
    a <= b
  }

  /**
    `list_years`: `sorted(df['year'].unique())` with its first and last
    element and its length; on an empty table `min([])` raises, which FastAPI
    answers with a 500.
   */
  function ListYears(t: Table): (r: Result<YearList, ApiError>)
    ensures t.rows == [] <==> r == Failure(InternalError)
    ensures r.Success? ==>
      var ys := r.value.years;
      && |ys| >= 1
      && (forall i, j :: 0 <= i < j < |ys| ==> ys[i] < ys[j])
      && (forall y :: y in ys <==> exists k :: 0 <= k < |t.rows| && t.rows[k].year == y)
      && r.value.min == ys[0] && r.value.max == ys[|ys| - 1]
      && r.value.count == |ys| == |set k | 0 <= k < |t.rows| :: t.rows[k].year|
  {
    if t.rows == [] then Failure(InternalError)
    else
      var ys := SortedDistinct(YearsOf(t.rows), IntLe);
      YearsOfRows(t.rows, ys);
      Success(YearList(ys, ys[0], ys[|ys| - 1], |ys|))
  }

  /** The facts `ListYears` promises about the sorted distinct years of a non-empty table. */
  lemma YearsOfRows(rows: seq<Row>, ys: seq<int>)
    requires rows != []
    requires forall y :: y in ys <==> y in YearsOf(rows)
    requires forall i, j :: 0 <= i < j < |ys| ==> ys[i] != ys[j]
    requires SortedBy(ys, IntLe)
    ensures |ys| >= 1
    ensures forall i, j :: 0 <= i < j < |ys| ==> ys[i] < ys[j]
    ensures forall y :: y in ys <==> exists k :: 0 <= k < |rows| && rows[k].year == y
    ensures |ys| == |set k | 0 <= k < |rows| :: rows[k].year|
  {
    var all := YearsOf(rows);
    assert all[0] in ys;
    forall y ensures y in ys <==> exists k :: 0 <= k < |rows| && rows[k].year == y {
      if y in ys {
        var k :| 0 <= k < |all| && all[k] == y;
      }
      if exists k :: 0 <= k < |rows| && rows[k].year == y {
        var k :| 0 <= k < |rows| && rows[k].year == y;
        assert all[k] in all;
      }
    }
    DistinctCardinality(ys);
    assert (set y | y in ys) == (set k | 0 <= k < |rows| :: rows[k].year);
  }

  // ---------------------------------------------------------------------------
  // /countries
  // ---------------------------------------------------------------------------

  /** One record of the `/countries` answer; a missing cell is `None`. */
  datatype CountryEntry = CountryEntry(country: Option<string>, iso: Option<string>, continent: Option<string>)

  datatype CountryList = CountryList(total: nat, countries: seq<CountryEntry>)

  function EntryOf(r: Row): CountryEntry {
    CountryEntry(r.country, r.iso, r.continent)
  }

  /** The continent filter: only when a continent other than `all` is given; a missing continent never matches. */
  predicate InContinent(continent: Option<ContinentChoice>, r: Row) {
    continent.Some? && continent.value != AllContinents ==> r.continent == Some(ContinentValue(continent.value))
  }

  function ContinentFilter(continent: Option<ContinentChoice>): Row -> bool {
    r => InContinent(continent, r)
  }

  function EntriesOf(rows: seq<Row>): (es: seq<CountryEntry>)
    ensures |es| == |rows|
    ensures forall i :: 0 <= i < |rows| ==> es[i] == EntryOf(rows[i])
  {
    seq(|rows|, i requires 0 <= i < |rows| => EntryOf(rows[i]))
  }

  /** `sort_values('country')`: code-point order with missing countries last. */
  predicate CountryLe(a: CountryEntry, b: CountryEntry) {
    b.country.None? || (a.country.Some? && StrLe(a.country.value, b.country.value))
  }

  lemma CountryLeTotalPreorder()
    ensures TotalPreorder(CountryLe)
  {
    forall a: CountryEntry, b: CountryEntry ensures CountryLe(a, b) || CountryLe(b, a) {
      if a.country.Some? && b.country.Some? {
        StrLtTrichotomy(a.country.value, b.country.value);
      }
    }
    forall a: CountryEntry, b: CountryEntry, c: CountryEntry | CountryLe(a, b) && CountryLe(b, c)
      ensures CountryLe(a, c)
    {
      if a.country.Some? && b.country.Some? && c.country.Some? {
        var x, y, z := a.country.value, b.country.value, c.country.value;
        if x != y && y != z {
          StrLtTransitive(x, y, z);
        }
      }
    }
  }

  /**
    `list_countries(continent)`: the rows of the continent, reduced to their
    distinct (country, iso, continent) entries and sorted by country, with
    their number.
   */
  function ListCountries(t: Table, continent: Option<ContinentChoice>): (r: CountryList)
    ensures r.total == |r.countries|
    ensures forall i, j :: 0 <= i < j < |r.countries| ==> r.countries[i] != r.countries[j]
    ensures SortedBy(r.countries, CountryLe)
    ensures forall e :: e in r.countries <==> exists x :: x in t.rows && InContinent(continent, x) && EntryOf(x) == e
  {
    var rows := Filter(t.rows, ContinentFilter(continent));
    CountryLeTotalPreorder();
    var sorted := SortedDistinct(EntriesOf(rows), CountryLe);
    EntriesOfFiltered(t.rows, continent, sorted);
    CountryList(|sorted|, sorted)
  }

  lemma EntriesOfFiltered(all: seq<Row>, continent: Option<ContinentChoice>, es: seq<CountryEntry>)
    requires forall e :: e in es <==> e in EntriesOf(Filter(all, ContinentFilter(continent)))
    ensures forall e :: e in es <==> exists x :: x in all && InContinent(continent, x) && EntryOf(x) == e
  {
    var rows := Filter(all, ContinentFilter(continent));
    var entries := EntriesOf(rows);
    FilterMembers(all, ContinentFilter(continent));
    forall e ensures e in es <==> exists x :: x in all && InContinent(continent, x) && EntryOf(x) == e {
      if e in es {
        var k :| 0 <= k < |entries| && entries[k] == e;
        assert rows[k] in rows;
      }
      if exists x :: x in all && InContinent(continent, x) && EntryOf(x) == e {
        var x :| x in all && InContinent(continent, x) && EntryOf(x) == e;
        var k :| 0 <= k < |rows| && rows[k] == x;
        assert entries[k] in entries;
      }
    }
  }

  /** With a continent given, every listed country belongs to it. */
  lemma CountriesOfContinent(t: Table, c: ContinentChoice)
    requires c != AllContinents
    ensures forall e :: e in ListCountries(t, Some(c)).countries ==> e.continent == Some(ContinentValue(c))
  {
  }

  /** Without a continent, or with `all`, every entry of the table is listed. */
  lemma CountriesUnfiltered(t: Table, continent: Option<ContinentChoice>, x: Row)
    requires continent.None? || continent == Some(AllContinents)
    requires x in t.rows
    ensures EntryOf(x) in ListCountries(t, continent).countries
  {
  }
}
