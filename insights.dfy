/**
  `get_insights` on the loaded emissions table: the year it reports on, the
  404 for a year without rows, the global total and the year-over-year change
  with its guard against a missing or non-positive previous total.
 */
module Insights {
  import opened Wrappers
  import opened Sequences
  import opened Emissions
  import opened Api

  /** The numeric part of an `InsightResponse`. */
  datatype Insight = Insight(year: int, globalEmissionsMt: real, yoyChangePercent: real)

  function NoDataForYear(year: int): ApiError {
    ApiError(404, "No data available for year " + IntToString(year))
  }

  function YearIs(year: int): Row -> bool {
    (r: Row) => r.year == year
  }

  /** `df[df['year'] == year]`. */
  function RowsOfYear(rows: seq<Row>, year: int): seq<Row> {
    Filter(rows, YearIs(year))
  }

  /** `df['year'].max()` of a non-empty table. */
  function MaxYear(rows: seq<Row>): (m: int)
    requires rows != []
    ensures exists i :: 0 <= i < |rows| && rows[i].year == m
    ensures forall i :: 0 <= i < |rows| ==> rows[i].year <= m
  {
    if |rows| == 1 then rows[0].year
    else
      var rest := MaxYear(rows[1..]);
      assert forall i :: 1 <= i < |rows| ==> rows[i] == rows[1..][i - 1];
      if rows[0].year >= rest then rows[0].year else rest
  }

  /** The change from `previous` to `current` in percent, 0 unless `previous` is positive. */
  function YoyChange(current: real, previous: real): real {
    if previous > 0.0 then (current - previous) / previous * 100.0 else 0.0
  }

  /**
    `get_insights(year)`: the latest year when none is given (a 500 when the
    table is empty, as `int(NaN)` raises), 404 when the year has no rows,
    otherwise the year's `ghg_total_mt` total (0 without that column) and its
    change from the previous year, whose total falls back to the current one
    when the column is missing or the previous year has no rows.
   */
  function GetInsights(t: Table, year: Option<int>): (r: Result<Insight, ApiError>)
    ensures year.None? && t.rows == [] ==> r == Failure(InternalError)
    ensures r.Success? ==> RowsOfYear(t.rows, r.value.year) != []
    ensures year.Some? && r.Success? ==> r.value.year == year.value
    ensures "ghg_total_mt" in t.columns && r.Success? ==>
      r.value.globalEmissionsMt == SumGhg(RowsOfYear(t.rows, r.value.year))
    ensures "ghg_total_mt" !in t.columns && r.Success? ==>
      r.value.globalEmissionsMt == 0.0 && r.value.yoyChangePercent == 0.0
  {
    if year.None? && t.rows == [] then Failure(InternalError)
    else
      var y := if year.Some? then year.value else MaxYear(t.rows);
      var current := RowsOfYear(t.rows, y);
      if current == [] then Failure(NoDataForYear(y))
      else
        var hasGhg := "ghg_total_mt" in t.columns;
        var global := if hasGhg then SumGhg(current) else 0.0;
        var previous := RowsOfYear(t.rows, y - 1);
        var prevTotal := if hasGhg && previous != [] then SumGhg(previous) else global;
        Success(Insight(y, global, YoyChange(global, prevTotal)))
  }

  /** Every row is of the filtered year, and a row of that year is kept. */
  lemma RowsOfYearMembers(rows: seq<Row>, year: int)
    ensures forall r :: r in RowsOfYear(rows, year) <==> r in rows && r.year == year
    ensures RowsOfYear(rows, year) == [] <==> forall i :: 0 <= i < |rows| ==> rows[i].year != year
  {
    FilterMembers(rows, YearIs(year));
    if RowsOfYear(rows, year) == [] {
      forall i | 0 <= i < |rows| ensures rows[i].year != year {
        assert rows[i] in rows;
      }
    } else {
      var r := RowsOfYear(rows, year)[0];
      assert r in RowsOfYear(rows, year);
      var i :| 0 <= i < |rows| && rows[i] == r;
    }
  }

  /** A requested year answers 404, with the year in the detail, exactly when no row has that year. */
  lemma InsightsNotFoundIff(t: Table, year: int)
    ensures GetInsights(t, Some(year)).Failure? <==> forall i :: 0 <= i < |t.rows| ==> t.rows[i].year != year
    ensures GetInsights(t, Some(year)).Failure? ==> GetInsights(t, Some(year)).error == NoDataForYear(year)
  {
    RowsOfYearMembers(t.rows, year);
  }

  /** Without a year, a non-empty table reports on its latest year and never answers 404. */
  lemma InsightsDefaultYear(t: Table)
    requires t.rows != []
    ensures GetInsights(t, None).Success?
    ensures GetInsights(t, None).value.year == MaxYear(t.rows)
    ensures forall i :: 0 <= i < |t.rows| ==> t.rows[i].year <= GetInsights(t, None).value.year
  {
    var m := MaxYear(t.rows);
    var i :| 0 <= i < |t.rows| && t.rows[i].year == m;
    RowsOfYearMembers(t.rows, m);
  }

  /** When the previous year has no rows, the change is 0. */
  lemma InsightsNoPreviousYear(t: Table, year: Option<int>)
    requires GetInsights(t, year).Success?
    requires RowsOfYear(t.rows, GetInsights(t, year).value.year - 1) == []
    ensures GetInsights(t, year).value.yoyChangePercent == 0.0
  {
    var ins := GetInsights(t, year).value;
    assert ins.yoyChangePercent == YoyChange(ins.globalEmissionsMt, ins.globalEmissionsMt);
  }

  /**
    With the column present and rows in the previous year, the change is 0
    when that year's total is not positive, and otherwise it is the percentage
    that scales the previous total to the current one: its sign is that of
    the difference.
   */
  lemma InsightsYoyChange(t: Table, year: Option<int>)
    requires GetInsights(t, year).Success? && "ghg_total_mt" in t.columns
    requires RowsOfYear(t.rows, GetInsights(t, year).value.year - 1) != []
    ensures var ins := GetInsights(t, year).value;
      var prev := SumGhg(RowsOfYear(t.rows, ins.year - 1));
      && ins.globalEmissionsMt == SumGhg(RowsOfYear(t.rows, ins.year))
      && (prev <= 0.0 ==> ins.yoyChangePercent == 0.0)
      && (prev > 0.0 ==> ins.yoyChangePercent * prev == (ins.globalEmissionsMt - prev) * 100.0)
      && (prev > 0.0 ==> (ins.yoyChangePercent > 0.0 <==> ins.globalEmissionsMt > prev))
  {
    var ins := GetInsights(t, year).value;
    var prev := SumGhg(RowsOfYear(t.rows, ins.year - 1));
    YoyChangeScales(ins.globalEmissionsMt, prev);
  }

  lemma YoyChangeScales(current: real, previous: real)
    ensures previous <= 0.0 ==> YoyChange(current, previous) == 0.0
    ensures previous > 0.0 ==> YoyChange(current, previous) * previous == (current - previous) * 100.0
    ensures previous > 0.0 ==> (YoyChange(current, previous) > 0.0 <==> current > previous)
  {
    if previous > 0.0 {
      var d := (current - previous) / previous;
      assert d * previous == current - previous;
      if current > previous {
        assert d > 0.0;
      } else {
        assert d <= 0.0;
      }
    }
  }
}
