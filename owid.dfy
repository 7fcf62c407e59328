/**
  Cleaning of the Our World in Data CO2/GHG table (`clean_owid_data`): the
  row-validity filter, the continent column and the source tag.
 */
module Owid {
  import opened Wrappers
  import opened Text
  import opened Sequences
  import opened Emissions
  import opened Continents

  /**
    One raw OWID row, restricted to the columns the cleaner keeps and renames:
    `country`, `iso_code`, `year`, `co2`, `methane`, `nitrous_oxide`, `total_ghg`.
   */
  datatype OwidRow = OwidRow(
    country: Option<string>,
    isoCode: Option<string>,
    year: int,
    co2: Option<real>,
    methane: Option<real>,
    nitrousOxide: Option<real>,
    totalGhg: Option<real>)

  const FirstYear: int := 1990

  /** The alternatives of the pattern `World|Europe|Asia|Africa|America|OECD|income`. */
  const AggregatePatterns: seq<string> := ["World", "Europe", "Asia", "Africa", "America", "OECD", "income"]

  /**
    The name matches the aggregate pattern case-insensitively. A missing name
    does not match (`na=False`), so such a row is not excluded by this test.
   */
  predicate NamesAggregate(country: Option<string>) {
    country.Some? && exists k :: 0 <= k < |AggregatePatterns| && ContainsIgnoreCase(country.value, AggregatePatterns[k])
  }

  /** The row filter of the cleaner; `currentYear` stands for `datetime.now().year`. */
  predicate KeepRow(r: OwidRow, currentYear: int) {
    && FirstYear <= r.year <= currentYear
    && r.isoCode.Some?
    && |r.isoCode.value| == 3
    && !NamesAggregate(r.country)
  }

  /**
    The name test is a plain substring match, so it drops countries as well as
    aggregates: "South Africa" and "Central African Republic" contain "Africa",
    and their rows are removed although their ISO codes are countries of the
    continent map.
   */
  lemma AfricanCountryNamesDropped(r: OwidRow, currentYear: int)
    requires r.country == Some("South Africa") || r.country == Some("Central African Republic")
    ensures !KeepRow(r, currentYear)
  {
    var name := r.country.value;
    var k := if name == "South Africa" then 6 else 8;
    assert name[k..k + 6] == AggregatePatterns[3];
    OccursIgnoringCase(name, AggregatePatterns[3], k);
  }

  /** The ISO codes of those two countries are in the continent map, under Africa. */
  lemma AfricanCodesMapped(code: string)
    requires code == "ZAF" || code == "CAF"
    ensures ContinentOf(Some(code)) == "Africa"
  {
    assert code in AfricaCodes;
    assert code !in OceaniaCodes;
    assert code in (map c | c in AfricaCodes :: "Africa");
  }

  function Keeps(currentYear: int): OwidRow -> bool {
    r => KeepRow(r, currentYear)
  }

  /** The renamed row with its continent looked up and its source set to `"OWID"`. */
  function CleanRow(r: OwidRow): Row {
    Row(r.country, r.isoCode, Some(ContinentOf(r.isoCode)), r.year, Some("OWID"), None,
        r.co2, r.methane, r.nitrousOxide, r.totalGhg)
  }

  /** What every cleaned row satisfies. */
  predicate CleanRowValid(r: Row, currentYear: int) {
    && FirstYear <= r.year <= currentYear
    && r.iso.Some? && |r.iso.value| == 3
    && !NamesAggregate(r.country)
    && r.continent == Some(ContinentOf(r.iso))
    && (r.continent.value in ContinentNames || r.continent.value == Unknown)
    && r.source == Some("OWID")
  }

  /** A kept row cleans into a valid one. */
  lemma CleanRowIsValid(raw: OwidRow, currentYear: int)
    requires KeepRow(raw, currentYear)
    ensures CleanRowValid(CleanRow(raw), currentYear)
  {
  }

  function CleanAll(kept: seq<OwidRow>): (out: seq<Row>)
    ensures |out| == |kept|
    ensures forall i :: 0 <= i < |kept| ==> out[i] == CleanRow(kept[i])
  {
    seq(|kept|, i requires 0 <= i < |kept| => CleanRow(kept[i]))
  }

  /** The cleaned rows are exactly the images of the kept rows. */
  lemma CleanAllMembers(kept: seq<OwidRow>)
    ensures forall raw :: raw in kept ==> CleanRow(raw) in CleanAll(kept)
    ensures forall r :: r in CleanAll(kept) ==> exists raw :: raw in kept && r == CleanRow(raw)
  {
    var out := CleanAll(kept);
    forall raw | raw in kept ensures CleanRow(raw) in out {
      var i :| 0 <= i < |kept| && kept[i] == raw;
      assert out[i] == CleanRow(raw);
    }
    forall r | r in out ensures exists raw :: raw in kept && r == CleanRow(raw) {
      var i :| 0 <= i < |out| && out[i] == r;
      assert kept[i] in kept;
    }
  }

  /** `clean_owid_data` after reading: keep the valid rows in order and clean each. */
  function CleanOwidData(rows: seq<OwidRow>, currentYear: int): (out: seq<Row>)
    ensures |out| == |Filter(rows, Keeps(currentYear))|
    ensures forall i :: 0 <= i < |out| ==> out[i] == CleanRow(Filter(rows, Keeps(currentYear))[i])
    ensures forall r :: r in out ==> CleanRowValid(r, currentYear)
    ensures forall raw :: raw in rows && KeepRow(raw, currentYear) ==> CleanRow(raw) in out
    ensures forall r :: r in out ==> exists raw :: raw in rows && KeepRow(raw, currentYear) && r == CleanRow(raw)
  {
    var kept := Filter(rows, Keeps(currentYear));
    FilterMembers(rows, Keeps(currentYear));
    CleanAllMembers(kept);
    forall raw | raw in kept ensures CleanRowValid(CleanRow(raw), currentYear) {
      CleanRowIsValid(raw, currentYear);
    }
    CleanAll(kept)
  }
}
