/**
  The `/data` endpoint: successive filters over the loaded emissions table,
  an optional sort on one column, and offset/limit pagination.
 */
module DataQuery {
  import opened Wrappers
  import opened Text
  import opened Sequences
  import opened Emissions
  import opened Api
  import opened Cache

  /** The query parameters of `/data`, `None` where the parameter is not given. */
  datatype Query = Query(
    country: Option<string>,
    iso: Option<string>,
    continent: Option<ContinentChoice>,
    year: Option<int>,
    yearStart: Option<int>,
    yearEnd: Option<int>,
    sector: Option<SectorChoice>,
    gas: Option<GasChoice>,
    minEmissions: Option<real>,
    limit: int,
    offset: int,
    sortBy: Option<string>,
    sortDesc: bool)

  /** A value recorded in `filters_applied`. */
  datatype FilterValue = TextValue(text: string) | IntValue(i: int) | RealValue(r: real)

  /** The response body: the count before pagination, the filters used and the page. */
  datatype DataResponse = DataResponse(
    totalRecords: nat,
    filtersApplied: seq<(string, FilterValue)>,
    data: seq<Row>)

  /** The bounds FastAPI enforces before the handler runs: `1 <= limit <= 10000`, `offset >= 0`. */
  predicate ValidPaging(q: Query) {
    1 <= q.limit <= 10000 && q.offset >= 0
  }

  // ---------------------------------------------------------------------------
  // Which filters apply. Parameters are tested by truthiness, so an empty
  // string, a year 0 and a minimum of 0.0 are the same as no parameter.
  // ---------------------------------------------------------------------------

  predicate TextGiven(p: Option<string>) { p.Some? && p.value != "" }
  predicate IntGiven(p: Option<int>) { p.Some? && p.value != 0 }
  predicate RealGiven(p: Option<real>) { p.Some? && p.value != 0.0 }

  predicate CountryActive(q: Query) { TextGiven(q.country) }
  predicate IsoActive(q: Query) { TextGiven(q.iso) }
  predicate ContinentActive(q: Query) { q.continent.Some? && q.continent.value != AllContinents }
  predicate YearActive(q: Query) { IntGiven(q.year) }
  /** The range bounds are only looked at when no exact year is given. */
  predicate YearStartActive(q: Query) { !IntGiven(q.year) && IntGiven(q.yearStart) }
  predicate YearEndActive(q: Query) { !IntGiven(q.year) && IntGiven(q.yearEnd) }
  /** Skipped without notice when the table has no `sector` column. */
  predicate SectorActive(q: Query, columns: set<string>) {
    q.sector.Some? && q.sector.value != AllSectors && "sector" in columns
  }
  predicate MinEmissionsActive(q: Query, columns: set<string>) {
    RealGiven(q.minEmissions) && "ghg_total_mt" in columns
  }

  /** The filter called `name` is applied for this query and table. */
  predicate FilterActive(q: Query, columns: set<string>, name: string) {
    match name
    case "country" => CountryActive(q)
    case "iso" => IsoActive(q)
    case "continent" => ContinentActive(q)
    case "year" => YearActive(q)
    case "year_start" => YearStartActive(q)
    case "year_end" => YearEndActive(q)
    case "sector" => SectorActive(q, columns)
    case "min_emissions" => MinEmissionsActive(q, columns)
    case _ => false
  }

  // ---------------------------------------------------------------------------
  // What each filter keeps; a filter that does not apply keeps every row.
  // A missing cell never equals a value and never compares true.
  // ---------------------------------------------------------------------------

  predicate CountryOk(q: Query, r: Row) {
    CountryActive(q) ==> r.country.Some? && Lower(r.country.value) == Lower(q.country.value)
  }

  predicate IsoOk(q: Query, r: Row) {
    IsoActive(q) ==> r.iso.Some? && Upper(r.iso.value) == Upper(q.iso.value)
  }

  predicate ContinentOk(q: Query, r: Row) {
    ContinentActive(q) ==> r.continent == Some(ContinentValue(q.continent.value))
  }

  predicate YearOk(q: Query, r: Row) {
    YearActive(q) ==> r.year == q.year.value
  }

  predicate YearStartOk(q: Query, r: Row) {
    YearStartActive(q) ==> r.year >= q.yearStart.value
  }

  predicate YearEndOk(q: Query, r: Row) {
    YearEndActive(q) ==> r.year <= q.yearEnd.value
  }

  predicate SectorOk(q: Query, columns: set<string>, r: Row) {
    SectorActive(q, columns) ==> r.sector == Some(SectorValue(q.sector.value))
  }

  predicate MinEmissionsOk(q: Query, columns: set<string>, r: Row) {
    MinEmissionsActive(q, columns) ==> r.ghgTotalMt.Some? && r.ghgTotalMt.value >= q.minEmissions.value
  }

  /** A row passes every filter that applies. */
  predicate Matches(q: Query, columns: set<string>, r: Row) {
    && CountryOk(q, r) && IsoOk(q, r) && ContinentOk(q, r)
    && YearOk(q, r) && YearStartOk(q, r) && YearEndOk(q, r)
    && SectorOk(q, columns, r) && MinEmissionsOk(q, columns, r)
  }

  /** The rows left after filtering, in table order. */
  function Selected(t: Table, q: Query): seq<Row> {
    Filter(t.rows, MatchFilter(q, t.columns))
  }

  function MatchFilter(q: Query, columns: set<string>): Row -> bool {
    r => Matches(q, columns, r)
  }

  // ---------------------------------------------------------------------------
  // sort_values(sort_by, ascending=not sort_desc): missing cells go last in
  // either direction.
  // ---------------------------------------------------------------------------

  /**
    Ascending order on present cells. A column holds either numbers or text;
    the order between a number and a text cell only makes the order total.
   */
  predicate CellAscLe(a: Cell, b: Cell) {
    match (a, b)
    case (Num(x), Num(y)) => x <= y
    case (Str(x), Str(y)) => StrLe(x, y)
    case (Num(_), _) => true
    case (_, _) => false
  }

  predicate CellLe(a: Cell, b: Cell, ascending: bool) {
    if b.Missing? then true
    else if a.Missing? then false
    else if ascending then CellAscLe(a, b)
    else CellAscLe(b, a)
  }

  predicate RowCellLe(column: string, ascending: bool, a: Row, b: Row) {
    CellLe(CellOf(a, column), CellOf(b, column), ascending)
  }

  /** The comparison `sort_values(column, ascending=ascending)` sorts by. */
  function SortOrder(column: string, ascending: bool): (Row, Row) -> bool {
    (a, b) => RowCellLe(column, ascending, a, b)
  }

  lemma CellAscLeTotalPreorder(a: Cell, b: Cell, c: Cell)
    requires !a.Missing? && !b.Missing? && !c.Missing?
    ensures CellAscLe(a, b) || CellAscLe(b, a)
    ensures CellAscLe(a, b) && CellAscLe(b, c) ==> CellAscLe(a, c)
  {
    if a.Str? && b.Str? {
      StrLtTrichotomy(a.s, b.s);
    }
    if a.Str? && b.Str? && c.Str? && CellAscLe(a, b) && CellAscLe(b, c) {
      if a.s != b.s && b.s != c.s {
        StrLtTransitive(a.s, b.s, c.s);
      }
    }
  }

  lemma RowCellLeTotalPreorder(column: string, ascending: bool)
    ensures TotalPreorder(SortOrder(column, ascending))
  {
    forall a: Row, b: Row ensures RowCellLe(column, ascending, a, b) || RowCellLe(column, ascending, b, a) {
      var x, y := CellOf(a, column), CellOf(b, column);
      if !x.Missing? && !y.Missing? {
        CellAscLeTotalPreorder(x, y, y);
      }
    }
    forall a: Row, b: Row, c: Row | RowCellLe(column, ascending, a, b) && RowCellLe(column, ascending, b, c)
      ensures RowCellLe(column, ascending, a, c)
    {
      var x, y, z := CellOf(a, column), CellOf(b, column), CellOf(c, column);
      if !x.Missing? && !y.Missing? && !z.Missing? {
        if ascending {
          CellAscLeTotalPreorder(x, y, z);
        } else {
          CellAscLeTotalPreorder(z, y, x);
        }
      }
    }
  }

  /** The sort column, when `sort_by` names a column of the table. */
  predicate Sorts(t: Table, q: Query) {
    q.sortBy.Some? && q.sortBy.value in t.columns
  }

  /** The filtered rows in the order they are returned. */
  function Ordered(t: Table, q: Query): (rows: seq<Row>)
    ensures multiset(rows) == multiset(Selected(t, q))
    ensures Sorts(t, q) ==> SortedBy(rows, SortOrder(q.sortBy.value, !q.sortDesc))
    ensures !Sorts(t, q) ==> rows == Selected(t, q)
  {
    if Sorts(t, q) then
      RowCellLeTotalPreorder(q.sortBy.value, !q.sortDesc);
      InsertionSort(Selected(t, q), SortOrder(q.sortBy.value, !q.sortDesc))
    else Selected(t, q)
  }

  /** `iloc[offset:offset + limit]`: the slice, clamped to the sequence. */
  function Page<T>(s: seq<T>, offset: nat, limit: nat): (page: seq<T>)
    ensures |page| == if offset >= |s| then 0 else if offset + limit <= |s| then limit else |s| - offset
    ensures forall i :: 0 <= i < |page| ==> page[i] == s[offset + i]
  {
    if offset >= |s| then []
    else if offset + limit <= |s| then s[offset..offset + limit]
    else s[offset..]
  }

  /** The selected rows are exactly the table rows that pass every filter that applies. */
  lemma SelectedMembers(t: Table, q: Query)
    ensures forall r :: r in Selected(t, q) <==> r in t.rows && Matches(q, t.columns, r)
    ensures |Selected(t, q)| <= |t.rows|
  {
    FilterMembers(t.rows, MatchFilter(q, t.columns));
  }

  /** Every row of a page is a row of the table that matches the query. */
  lemma PageRowsMatch(t: Table, q: Query, r: Row)
    requires ValidPaging(q)
    requires r in Page(Ordered(t, q), q.offset, q.limit)
    ensures r in t.rows && Matches(q, t.columns, r)
  {
    var page := Page(Ordered(t, q), q.offset, q.limit);
    var i :| 0 <= i < |page| && page[i] == r;
    assert r in multiset(Ordered(t, q));
    SelectedMembers(t, q);
  }

  /** A page of a sorted sequence is sorted. */
  lemma PageSorted<T>(s: seq<T>, offset: nat, limit: nat, le: (T, T) -> bool)
    requires SortedBy(s, le)
    ensures SortedBy(Page(s, offset, limit), le)
  {
    var page := Page(s, offset, limit);
    forall i, j | 0 <= i < j < |page| ensures le(page[i], page[j]) {
      assert page[i] == s[offset + i] && page[j] == s[offset + j];
    }
  }

  /** A query that applies no filter selects the whole table and records nothing. */
  lemma NoFilterSelectsAll(t: Table, q: Query)
    requires forall name :: !FilterActive(q, t.columns, name)
    ensures Selected(t, q) == t.rows
    ensures AppliedFilters(q, t.columns) == []
  {
    assert !FilterActive(q, t.columns, "country") && !FilterActive(q, t.columns, "iso");
    assert !FilterActive(q, t.columns, "continent") && !FilterActive(q, t.columns, "year");
    assert !FilterActive(q, t.columns, "year_start") && !FilterActive(q, t.columns, "year_end");
    assert !FilterActive(q, t.columns, "sector") && !FilterActive(q, t.columns, "min_emissions");
    FilterKeepsAll(t.rows, MatchFilter(q, t.columns));
    var applied := AppliedFilters(q, t.columns);
    AppliedFiltersNames(q, t.columns);
    assert FilterNames(applied) == {};
    FilterNamesEmpty(applied);
  }

  lemma FilterNamesEmpty(applied: seq<(string, FilterValue)>)
    ensures FilterNames(applied) == {} ==> applied == []
  {
    if applied != [] {
      assert applied[0].0 in FilterNames(applied);
    }
  }

  // ---------------------------------------------------------------------------
  // The handler
  // ---------------------------------------------------------------------------

  /** The names recorded in `filters_applied`. */
  function FilterNames(applied: seq<(string, FilterValue)>): set<string> {
    set i | 0 <= i < |applied| :: applied[i].0
  }

  // The eight filters in the order the handler applies them.
  const CountryStep := 1
  const IsoStep := 2
  const ContinentStep := 3
  const YearStep := 4
  const YearStartStep := 5
  const YearEndStep := 6
  const SectorStep := 7
  const MinEmissionsStep := 8

  predicate StepActive(q: Query, columns: set<string>, k: nat) {
    match k
    case 1 => CountryActive(q)
    case 2 => IsoActive(q)
    case 3 => ContinentActive(q)
    case 4 => YearActive(q)
    case 5 => YearStartActive(q)
    case 6 => YearEndActive(q)
    case 7 => SectorActive(q, columns)
    case 8 => MinEmissionsActive(q, columns)
    case _ => false
  }

  predicate StepOk(q: Query, columns: set<string>, k: nat, r: Row) {
    match k
    case 1 => CountryOk(q, r)
    case 2 => IsoOk(q, r)
    case 3 => ContinentOk(q, r)
    case 4 => YearOk(q, r)
    case 5 => YearStartOk(q, r)
    case 6 => YearEndOk(q, r)
    case 7 => SectorOk(q, columns, r)
    case 8 => MinEmissionsOk(q, columns, r)
    case _ => true
  }

  /** The mask of filter `k`. */
  function StepFilter(q: Query, columns: set<string>, k: nat): Row -> bool {
    r => StepOk(q, columns, k, r)
  }

  /** The key filter `k` is recorded under in `filters_applied`. */
  function StepName(k: nat): string {
    match k
    case 1 => "country"
    case 2 => "iso"
    case 3 => "continent"
    case 4 => "year"
    case 5 => "year_start"
    case 6 => "year_end"
    case 7 => "sector"
    case 8 => "min_emissions"
    case _ => ""
  }

  /** The step a recorded key belongs to, 0 for any other key. */
  function StepOfName(name: string): (k: nat)
    ensures k <= MinEmissionsStep
    ensures 1 <= k ==> StepName(k) == name
  {
    match name
    case "country" => 1
    case "iso" => 2
    case "continent" => 3
    case "year" => 4
    case "year_start" => 5
    case "year_end" => 6
    case "sector" => 7
    case "min_emissions" => 8
    case _ => 0
  }

  /** The value filter `k` records: the parameter as given, or the enumeration's value. */
  function StepValue(q: Query, columns: set<string>, k: nat): FilterValue
    requires StepActive(q, columns, k)
  {
    match k
    case 1 => TextValue(q.country.value)
    case 2 => TextValue(q.iso.value)
    case 3 => TextValue(ContinentValue(q.continent.value))
    case 4 => IntValue(q.year.value)
    case 5 => IntValue(q.yearStart.value)
    case 6 => IntValue(q.yearEnd.value)
    case 7 => TextValue(SectorValue(q.sector.value))
    case 8 => RealValue(q.minEmissions.value)
  }

  function StepEntry(q: Query, columns: set<string>, k: nat): seq<(string, FilterValue)> {
    if StepActive(q, columns, k) then [(StepName(k), StepValue(q, columns, k))] else []
  }

  /** `filters_applied` after the first `k` filters. */
  function AppliedUpTo(q: Query, columns: set<string>, k: nat): seq<(string, FilterValue)> {
    if k == 0 then [] else AppliedUpTo(q, columns, k - 1) + StepEntry(q, columns, k)
  }

  /** `filters_applied` once the handler is done with filtering, in insertion order. */
  function AppliedFilters(q: Query, columns: set<string>): seq<(string, FilterValue)> {
    AppliedUpTo(q, columns, MinEmissionsStep)
  }

  /** After `k` filters, every recorded key belongs to an applied filter among the first `k`, in step order. */
  lemma {:induction false} AppliedUpToKeys(q: Query, columns: set<string>, k: nat)
    requires k <= MinEmissionsStep
    ensures forall i :: 0 <= i < |AppliedUpTo(q, columns, k)| ==>
      var step := StepOfName(AppliedUpTo(q, columns, k)[i].0);
      1 <= step <= k && StepActive(q, columns, step)
    ensures forall i, j :: 0 <= i < j < |AppliedUpTo(q, columns, k)| ==>
      StepOfName(AppliedUpTo(q, columns, k)[i].0) < StepOfName(AppliedUpTo(q, columns, k)[j].0)
  {
    if k > 0 {
      AppliedUpToKeys(q, columns, k - 1);
      var prev := AppliedUpTo(q, columns, k - 1);
      var cur := AppliedUpTo(q, columns, k);
      assert cur == prev + StepEntry(q, columns, k);
      assert forall i :: 0 <= i < |prev| ==> cur[i] == prev[i];
      assert StepOfName(StepName(k)) == k by { StepNameInverse(k); }
    }
  }

  lemma StepNameInverse(k: nat)
    requires 1 <= k <= MinEmissionsStep
    ensures StepOfName(StepName(k)) == k
  {
  }

  /** After `k` filters, every applied filter among the first `k` is recorded. */
  lemma {:induction false} AppliedUpToComplete(q: Query, columns: set<string>, k: nat)
    ensures forall step :: 1 <= step <= k && StepActive(q, columns, step) ==>
      StepName(step) in FilterNames(AppliedUpTo(q, columns, k))
  {
    if k > 0 {
      AppliedUpToComplete(q, columns, k - 1);
      var prev := AppliedUpTo(q, columns, k - 1);
      var cur := AppliedUpTo(q, columns, k);
      assert cur == prev + StepEntry(q, columns, k);
      forall step | 1 <= step <= k && StepActive(q, columns, step)
        ensures StepName(step) in FilterNames(cur)
      {
        if step < k {
          var i :| 0 <= i < |prev| && prev[i].0 == StepName(step);
          assert cur[i] == prev[i];
        } else {
          assert cur[|prev|].0 == StepName(k);
        }
      }
    }
  }

  /** A key names an applied filter exactly when it is the key of an applied step. */
  lemma FilterActiveStep(q: Query, columns: set<string>, name: string)
    ensures FilterActive(q, columns, name) <==> 1 <= StepOfName(name) && StepActive(q, columns, StepOfName(name))
  {
  }

  /**
    `filters_applied` names exactly the filters that narrowed the rows, each
    once; an exact year and a year range are never both recorded.
   */
  lemma AppliedFiltersNames(q: Query, columns: set<string>)
    ensures forall name :: name in FilterNames(AppliedFilters(q, columns)) <==> FilterActive(q, columns, name)
    ensures forall i, j :: 0 <= i < j < |AppliedFilters(q, columns)| ==>
      AppliedFilters(q, columns)[i].0 != AppliedFilters(q, columns)[j].0
    ensures "year" in FilterNames(AppliedFilters(q, columns)) ==>
      "year_start" !in FilterNames(AppliedFilters(q, columns)) && "year_end" !in FilterNames(AppliedFilters(q, columns))
  {
    var applied := AppliedFilters(q, columns);
    AppliedUpToKeys(q, columns, MinEmissionsStep);
    AppliedUpToComplete(q, columns, MinEmissionsStep);
    forall name ensures name in FilterNames(applied) <==> FilterActive(q, columns, name) {
      FilterActiveStep(q, columns, name);
      if name in FilterNames(applied) {
        var i :| 0 <= i < |applied| && applied[i].0 == name;
      }
    }
    FilterActiveStep(q, columns, "year");
    FilterActiveStep(q, columns, "year_start");
    FilterActiveStep(q, columns, "year_end");
  }

  /** The row passes the first `k` filters. */
  predicate PassesFirst(q: Query, columns: set<string>, k: nat, r: Row) {
    k == 0 || (PassesFirst(q, columns, k - 1, r) && StepOk(q, columns, k, r))
  }

  function Stage(q: Query, columns: set<string>, k: nat): Row -> bool {
    r => PassesFirst(q, columns, k, r)
  }

  /** Applying filter `k` to the rows that pass the first `k - 1` filters leaves the rows that pass the first `k`. */
  lemma StageNarrow(all: seq<Row>, q: Query, columns: set<string>, k: nat)
    requires k >= 1
    ensures Filter(Filter(all, Stage(q, columns, k - 1)), StepFilter(q, columns, k)) == Filter(all, Stage(q, columns, k))
  {
    assert forall r :: Stage(q, columns, k)(r) == (Stage(q, columns, k - 1)(r) && StepFilter(q, columns, k)(r));
    FilterFilter(all, Stage(q, columns, k - 1), StepFilter(q, columns, k), Stage(q, columns, k));
  }

  /** A filter that does not apply changes nothing. */
  lemma StageSkip(all: seq<Row>, q: Query, columns: set<string>, k: nat)
    requires k >= 1 && !StepActive(q, columns, k)
    ensures Filter(all, Stage(q, columns, k - 1)) == Filter(all, Stage(q, columns, k))
  {
    forall r ensures StepOk(q, columns, k, r) {
      InactiveKeepsAll(q, columns, k, r);
    }
    FilterAgree(all, Stage(q, columns, k - 1), Stage(q, columns, k));
  }

  lemma InactiveKeepsAll(q: Query, columns: set<string>, k: nat, r: Row)
    requires !StepActive(q, columns, k)
    ensures StepOk(q, columns, k, r)
  {
  }

  /** Passing all eight filters is matching the query. */
  lemma PassesAllSteps(q: Query, columns: set<string>, r: Row)
    ensures PassesFirst(q, columns, MinEmissionsStep, r) == Matches(q, columns, r)
  {
    assert PassesFirst(q, columns, 4, r) == (CountryOk(q, r) && IsoOk(q, r) && ContinentOk(q, r) && YearOk(q, r)) by {
      assert PassesFirst(q, columns, 2, r) == (CountryOk(q, r) && IsoOk(q, r)) by {
        assert PassesFirst(q, columns, 1, r) == CountryOk(q, r);
      }
    }
    assert PassesFirst(q, columns, 6, r) == (PassesFirst(q, columns, 4, r) && YearStartOk(q, r) && YearEndOk(q, r));
  }

  /** Before any filter every row is kept; after all eight exactly the matching rows are. */
  lemma StageEnds(t: Table, q: Query)
    ensures Filter(t.rows, Stage(q, t.columns, 0)) == t.rows
    ensures Filter(t.rows, Stage(q, t.columns, MinEmissionsStep)) == Selected(t, q)
  {
    FilterKeepsAll(t.rows, Stage(q, t.columns, 0));
    forall r ensures Stage(q, t.columns, MinEmissionsStep)(r) == Matches(q, t.columns, r) {
      PassesAllSteps(q, t.columns, r);
    }
    FilterAgree(t.rows, Stage(q, t.columns, MinEmissionsStep), MatchFilter(q, t.columns));
  }

  /**
    Filter `k` takes the rows and the record of the first `k - 1` filters to
    those of the first `k`: by narrowing and recording when it applies, by
    leaving both alone when it does not.
   */
  lemma Advance(all: seq<Row>, q: Query, columns: set<string>, k: nat, rows: seq<Row>, applied: seq<(string, FilterValue)>)
    requires 1 <= k
    requires rows == Filter(all, Stage(q, columns, k - 1)) && applied == AppliedUpTo(q, columns, k - 1)
    ensures StepActive(q, columns, k) ==>
      && Filter(rows, StepFilter(q, columns, k)) == Filter(all, Stage(q, columns, k))
      && applied + [(StepName(k), StepValue(q, columns, k))] == AppliedUpTo(q, columns, k)
    ensures !StepActive(q, columns, k) ==>
      rows == Filter(all, Stage(q, columns, k)) && applied == AppliedUpTo(q, columns, k)
  {
    if StepActive(q, columns, k) {
      StageNarrow(all, q, columns, k);
    } else {
      StageSkip(all, q, columns, k);
    }
  }

  /** The rows and the record after the first `k` filters. */
  ghost predicate AtStage(t: Table, q: Query, k: nat, rows: seq<Row>, applied: seq<(string, FilterValue)>) {
    rows == Filter(t.rows, Stage(q, t.columns, k)) && applied == AppliedUpTo(q, t.columns, k)
  }

  /** The country, ISO code and continent filters of `get_data`. */
  method FilterByPlace(t: Table, q: Query) returns (rows: seq<Row>, applied: seq<(string, FilterValue)>)
    ensures AtStage(t, q, ContinentStep, rows, applied)
  {
    var cols := t.columns;
    rows := t.rows;
    applied := [];
    StageEnds(t, q);

    Advance(t.rows, q, cols, CountryStep, rows, applied);
    if TextGiven(q.country) {
      rows := Filter(rows, StepFilter(q, cols, CountryStep));
      applied := applied + [("country", TextValue(q.country.value))];
    }

    Advance(t.rows, q, cols, IsoStep, rows, applied);
    if TextGiven(q.iso) {
      rows := Filter(rows, StepFilter(q, cols, IsoStep));
      applied := applied + [("iso", TextValue(q.iso.value))];
    }

    Advance(t.rows, q, cols, ContinentStep, rows, applied);
    if q.continent.Some? && q.continent.value != AllContinents {
      rows := Filter(rows, StepFilter(q, cols, ContinentStep));
      applied := applied + [("continent", TextValue(ContinentValue(q.continent.value)))];
    }
  }

  /** The exact-year filter of `get_data`, or else its year range filters. */
  method FilterByYear(t: Table, q: Query, rows0: seq<Row>, applied0: seq<(string, FilterValue)>)
    returns (rows: seq<Row>, applied: seq<(string, FilterValue)>)
    requires AtStage(t, q, ContinentStep, rows0, applied0)
    ensures AtStage(t, q, YearEndStep, rows, applied)
  {
    var cols := t.columns;
    rows, applied := rows0, applied0;
    Advance(t.rows, q, cols, YearStep, rows, applied);
    if IntGiven(q.year) {
      rows := Filter(rows, StepFilter(q, cols, YearStep));
      applied := applied + [("year", IntValue(q.year.value))];
      Advance(t.rows, q, cols, YearStartStep, rows, applied);
      Advance(t.rows, q, cols, YearEndStep, rows, applied);
    } else {
      Advance(t.rows, q, cols, YearStartStep, rows, applied);
      if IntGiven(q.yearStart) {
        rows := Filter(rows, StepFilter(q, cols, YearStartStep));
        applied := applied + [("year_start", IntValue(q.yearStart.value))];
      }
      Advance(t.rows, q, cols, YearEndStep, rows, applied);
      if IntGiven(q.yearEnd) {
        rows := Filter(rows, StepFilter(q, cols, YearEndStep));
        applied := applied + [("year_end", IntValue(q.yearEnd.value))];
      }
    }
  }

  /** The sector and minimum-emissions filters of `get_data`, each only when the table has its column. */
  method FilterByColumns(t: Table, q: Query, rows0: seq<Row>, applied0: seq<(string, FilterValue)>)
    returns (rows: seq<Row>, applied: seq<(string, FilterValue)>)
    requires AtStage(t, q, YearEndStep, rows0, applied0)
    ensures rows == Selected(t, q) && applied == AppliedFilters(q, t.columns)
  {
    var cols := t.columns;
    rows, applied := rows0, applied0;
    StageEnds(t, q);
    Advance(t.rows, q, cols, SectorStep, rows, applied);
    if q.sector.Some? && q.sector.value != AllSectors && "sector" in cols {
      rows := Filter(rows, StepFilter(q, cols, SectorStep));
      applied := applied + [("sector", TextValue(SectorValue(q.sector.value)))];
    }

    Advance(t.rows, q, cols, MinEmissionsStep, rows, applied);
    if RealGiven(q.minEmissions) && "ghg_total_mt" in cols {
      rows := Filter(rows, StepFilter(q, cols, MinEmissionsStep));
      applied := applied + [("min_emissions", RealValue(q.minEmissions.value))];
    }
  }

  /**
    `get_data` once the table is loaded: filter, sort on `sort_by` when the
    table has that column, count, and cut out the page.
   */
  method QueryData(t: Table, q: Query) returns (resp: DataResponse)
    requires ValidPaging(q)
    ensures resp.totalRecords == |Selected(t, q)|
    ensures resp.data == Page(Ordered(t, q), q.offset, q.limit)
    ensures resp.filtersApplied == AppliedFilters(q, t.columns)
  {
    var rows, applied := FilterByPlace(t, q);
    rows, applied := FilterByYear(t, q, rows, applied);
    rows, applied := FilterByColumns(t, q, rows, applied);
    if q.sortBy.Some? && q.sortBy.value in t.columns {
      RowCellLeTotalPreorder(q.sortBy.value, !q.sortDesc);
      rows := InsertionSort(rows, SortOrder(q.sortBy.value, !q.sortDesc));
    }

    var total := |rows|;
    var page := Page(rows, q.offset, q.limit);
    resp := DataResponse(total, applied, page);
  }

  /**
    `get_data` as the endpoint runs it: FastAPI rejects out-of-range paging
    with 422 before the handler starts, and `load_emissions` answers 503 when
    it has to read and the file is missing. A cache whose timestamp is fresh
    holds a table (`DataManager.Valid`), so the request then succeeds, as it
    does whenever the file is present.
   */
  method GetData(dm: DataManager, now: int, file: Option<Table>, loadedAt: int, q: Query)
    returns (r: Result<DataResponse, ApiError>)
    requires dm.Valid()
    modifies dm
    ensures dm.Valid()
    ensures !ValidPaging(q) ==> r == Failure(InvalidParameter) && unchanged(dm)
    ensures ValidPaging(q) && (!ShouldReload(old(dm.lastLoad), now) || file.Some?) ==> r.Success?
    ensures ValidPaging(q) && r.Failure? ==> r.error == DataUnavailable && file.None?
    ensures dm.sectors == old(dm.sectors) && dm.insights == old(dm.insights)
    ensures ValidPaging(q) && !ShouldReload(old(dm.lastLoad), now) ==>
      dm.emissions == old(dm.emissions) && dm.lastLoad == old(dm.lastLoad)
    ensures ValidPaging(q) && ShouldReload(old(dm.lastLoad), now) && file.None? ==>
      dm.emissions == old(dm.emissions) && dm.lastLoad == old(dm.lastLoad)
    ensures ValidPaging(q) && ShouldReload(old(dm.lastLoad), now) && file.Some? ==>
      dm.emissions == file && dm.lastLoad == Some(loadedAt)
    ensures r.Success? ==>
      && dm.emissions.Some?
      && r.value.totalRecords == |Selected(dm.emissions.value, q)|
      && r.value.data == Page(Ordered(dm.emissions.value, q), q.offset, q.limit)
      && r.value.filtersApplied == AppliedFilters(q, dm.emissions.value.columns)
  {
    if !ValidPaging(q) {
      return Failure(InvalidParameter);
    }
    var loaded := dm.LoadEmissions(now, file, loadedAt);
    if loaded.Failure? {
      return Failure(loaded.error);
    }
    var resp := QueryData(loaded.value, q);
    r := Success(resp);
  }
}
