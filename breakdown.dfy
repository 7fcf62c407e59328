/**
  The two row-expansion transforms of the ETL pipeline: the fixed-share sector
  breakdown (`create_sector_breakdown`) and the gas breakdown
  (`create_gas_breakdown`). Both append records inside nested loops over the
  merged rows; each method is proved equal to a specification function, and
  the counts, sums and provenance of the records are proved about that function.
 */
module Breakdown {
  import opened Wrappers
  import opened Emissions

  // ---------------------------------------------------------------------------
  // Sector breakdown
  // ---------------------------------------------------------------------------

  /** The sectors of `SECTOR_SHARES`, in the dictionary's order. */
  const SectorNames: seq<string> := ["Energy", "Industry", "Transport", "Agriculture", "Buildings", "Waste", "Land Use"]

  /** The global average share of each sector, index for index with `SectorNames`. */
  const SectorShares: seq<real> := [0.34, 0.21, 0.16, 0.11, 0.06, 0.03, 0.09]

  const SectorCount: nat := 7

  /**
    `row.get('source', 'OWID')` in a frame with columns `cols`: the row's own
    cell (possibly missing) when the frame has a `source` column, `"OWID"` when
    it has none.
   */
  function SourceOf(r: Row, cols: set<string>): Option<string> {
    if "source" in cols then r.source else Some("OWID")
  }

  /** The record for sector `k` of a row that has a total, in a frame with columns `cols`. */
  function SectorRecord(r: Row, k: nat, cols: set<string>): Record
    requires k < SectorCount && r.ghgTotalMt.Some?
  {
    Record(r.country, r.iso, r.continent, r.year, Some(SectorNames[k]), "GHG Total",
           r.ghgTotalMt.value * SectorShares[k], SourceOf(r, cols))
  }

  /** The records of the first `k` sectors of a row that has a total. */
  function SectorRecordsUpTo(r: Row, k: nat, cols: set<string>): seq<Record>
    requires k <= SectorCount && r.ghgTotalMt.Some?
  {
    if k == 0 then [] else SectorRecordsUpTo(r, k - 1, cols) + [SectorRecord(r, k - 1, cols)]
  }

  /** The records one row contributes: all seven sectors when it has a total, none otherwise. */
  function SectorRecordsOf(r: Row, cols: set<string>): seq<Record> {
    if r.ghgTotalMt.None? then [] else SectorRecordsUpTo(r, SectorCount, cols)
  }

  /** The sector breakdown of a frame: each row's records, row after row. */
  function SectorBreakdown(rows: seq<Row>, cols: set<string>): seq<Record> {
    if rows == [] then []
    else SectorBreakdown(rows[..|rows| - 1], cols) + SectorRecordsOf(rows[|rows| - 1], cols)
  }

  /** `create_sector_breakdown`: the nested loops that append one record per (row, sector). */
  method CreateSectorBreakdown(df: Table) returns (records: seq<Record>)
    ensures records == SectorBreakdown(df.rows, df.columns)
  {
    var rows, cols := df.rows, df.columns;
    records := [];
    for i := 0 to |rows|
      invariant records == SectorBreakdown(rows[..i], cols)
    {
      var row := rows[i];
      if row.ghgTotalMt.Some? {
        var total := row.ghgTotalMt.value;
        var source := if "source" in cols then row.source else Some("OWID");
        for k := 0 to SectorCount
          invariant records == SectorBreakdown(rows[..i], cols) + SectorRecordsUpTo(row, k, cols)
        {
          assert SectorRecord(row, k, cols) == Record(row.country, row.iso, row.continent, row.year,
                                               Some(SectorNames[k]), "GHG Total", total * SectorShares[k], source);
          records := records + [Record(row.country, row.iso, row.continent, row.year,
                                       Some(SectorNames[k]), "GHG Total", total * SectorShares[k], source)];
        }
      }
      assert rows[..i + 1][..i] == rows[..i];
    }
    assert rows[..|rows|] == rows;
  }

  /** Rows whose `ghg_total_mt` is present. */
  function CountWithTotal(rows: seq<Row>): nat {
    if rows == [] then 0
    else CountWithTotal(rows[..|rows| - 1]) + (if rows[|rows| - 1].ghgTotalMt.Some? then 1 else 0)
  }

  lemma {:induction false} SectorRecordsUpToLength(r: Row, k: nat, cols: set<string>)
    requires k <= SectorCount && r.ghgTotalMt.Some?
    ensures |SectorRecordsUpTo(r, k, cols)| == k
  {
    if k > 0 { SectorRecordsUpToLength(r, k - 1, cols); }
  }

  /** Exactly seven records per row with a total, none for the other rows. */
  lemma {:induction false} SectorBreakdownCount(rows: seq<Row>, cols: set<string>)
    ensures |SectorBreakdown(rows, cols)| == SectorCount * CountWithTotal(rows)
  {
    if rows != [] {
      SectorBreakdownCount(rows[..|rows| - 1], cols);
      var last := rows[|rows| - 1];
      if last.ghgTotalMt.Some? { SectorRecordsUpToLength(last, SectorCount, cols); }
    }
  }

  /** The records of a row with a total are `SectorRecord(r, 0..k)`, in order. */
  lemma {:induction false} SectorRecordsUpToAt(r: Row, k: nat, cols: set<string>)
    requires k <= SectorCount && r.ghgTotalMt.Some?
    ensures |SectorRecordsUpTo(r, k, cols)| == k
    ensures forall j :: 0 <= j < k ==> SectorRecordsUpTo(r, k, cols)[j] == SectorRecord(r, j, cols)
  {
    if k > 0 { SectorRecordsUpToAt(r, k - 1, cols); }
  }

  /** Every record of the sector breakdown is the record of one sector of one row that has a total. */
  lemma {:induction false} SectorBreakdownSound(rows: seq<Row>, rec: Record, cols: set<string>)
    requires rec in SectorBreakdown(rows, cols)
    ensures exists i, k :: 0 <= i < |rows| && 0 <= k < SectorCount && rows[i].ghgTotalMt.Some? && rec == SectorRecord(rows[i], k, cols)
  {
    var init, last := rows[..|rows| - 1], rows[|rows| - 1];
    if rec in SectorBreakdown(init, cols) {
      SectorBreakdownSound(init, rec, cols);
      var i, k :| 0 <= i < |init| && 0 <= k < SectorCount && init[i].ghgTotalMt.Some? && rec == SectorRecord(init[i], k, cols);
      assert rows[i] == init[i];
    } else {
      assert rec in SectorRecordsOf(last, cols);
      SectorRecordsUpToAt(last, SectorCount, cols);
      var k :| 0 <= k < SectorCount && SectorRecordsUpTo(last, SectorCount, cols)[k] == rec;
      assert rows[|rows| - 1] == last;
    }
  }

  /** Every sector of every row that has a total has its record in the sector breakdown. */
  lemma {:induction false} SectorBreakdownComplete(rows: seq<Row>, i: nat, k: nat, cols: set<string>)
    requires i < |rows| && k < SectorCount && rows[i].ghgTotalMt.Some?
    ensures SectorRecord(rows[i], k, cols) in SectorBreakdown(rows, cols)
  {
    var init, last := rows[..|rows| - 1], rows[|rows| - 1];
    if i < |init| {
      assert init[i] == rows[i];
      SectorBreakdownComplete(init, i, k, cols);
    } else {
      SectorRecordsUpToAt(last, SectorCount, cols);
      assert SectorRecordsOf(last, cols)[k] == SectorRecord(rows[i], k, cols);
    }
  }

  /** Sum of the values of a list of records. */
  function SumValues(records: seq<Record>): real {
    if records == [] then 0.0 else SumValues(records[..|records| - 1]) + records[|records| - 1].emissionValue
  }

  /** Sum of the first `k` shares. */
  function ShareSum(k: nat): real
    requires k <= SectorCount
  {
    if k == 0 then 0.0 else ShareSum(k - 1) + SectorShares[k - 1]
  }

  /**
    The seven shares sum to exactly 1, so with exact arithmetic the sector
    values of a row add up to its `ghg_total_mt`.
   */
  lemma SectorValuesSumToTotal(r: Row, cols: set<string>)
    requires r.ghgTotalMt.Some?
    ensures ShareSum(SectorCount) == 1.0
    ensures SumValues(SectorRecordsOf(r, cols)) == r.ghgTotalMt.value
  {
    var t := r.ghgTotalMt.value;
    var xs := SectorRecordsOf(r, cols);
    SectorRecordsUpToAt(r, SectorCount, cols);
    SumValuesPrefix(xs, 7);
    SumValuesPrefix(xs, 6);
    SumValuesPrefix(xs, 5);
    SumValuesPrefix(xs, 4);
    SumValuesPrefix(xs, 3);
    SumValuesPrefix(xs, 2);
    SumValuesPrefix(xs, 1);
    assert xs[..7] == xs;
    assert SumValues(xs) == t * 0.34 + t * 0.21 + t * 0.16 + t * 0.11 + t * 0.06 + t * 0.03 + t * 0.09;
  }

  lemma SumValuesPrefix(xs: seq<Record>, k: nat)
    requires 0 < k <= |xs|
    ensures SumValues(xs[..k]) == SumValues(xs[..k - 1]) + xs[k - 1].emissionValue
  {
    assert xs[..k][..k - 1] == xs[..k - 1];
  }

  // ---------------------------------------------------------------------------
  // Gas breakdown
  // ---------------------------------------------------------------------------

  /** The gas of each column of `gas_columns`: `co2_mt`, `ch4_mt`, `n2o_mt`, `ghg_total_mt`. */
  const GasNames: seq<string> := ["CO2", "CH4", "N2O", "GHG Total"]

  const GasCount: nat := 4

  /** The columns of `gas_columns`, index for index with `GasNames`. */
  const GasColumns: seq<string> := ["co2_mt", "ch4_mt", "n2o_mt", "ghg_total_mt"]

  /**
    The cell of the `k`-th gas column as `col in df.columns and
    pd.notna(row.get(col))` tests it: missing when the frame lacks the column.
   */
  function GasCell(r: Row, k: nat, cols: set<string>): Option<real>
    requires k < GasCount
  {
    if GasColumns[k] in cols then [r.co2Mt, r.ch4Mt, r.n2oMt, r.ghgTotalMt][k] else None
  }

  /** The record of gas column `k` of a row whose cell is present. */
  function GasRecord(r: Row, k: nat, cols: set<string>): Record
    requires k < GasCount && GasCell(r, k, cols).Some?
  {
    Record(r.country, r.iso, r.continent, r.year, None, GasNames[k], GasCell(r, k, cols).value, SourceOf(r, cols))
  }

  /** The records of the first `k` gas columns of a row. */
  function GasRecordsUpTo(r: Row, k: nat, cols: set<string>): seq<Record>
    requires k <= GasCount
  {
    if k == 0 then []
    else GasRecordsUpTo(r, k - 1, cols) + (if GasCell(r, k - 1, cols).Some? then [GasRecord(r, k - 1, cols)] else [])
  }

  function GasRecordsOf(r: Row, cols: set<string>): seq<Record> {
    GasRecordsUpTo(r, GasCount, cols)
  }

  /** The gas breakdown of a frame: each row's records, row after row. */
  function GasBreakdown(rows: seq<Row>, cols: set<string>): seq<Record> {
    if rows == [] then []
    else GasBreakdown(rows[..|rows| - 1], cols) + GasRecordsOf(rows[|rows| - 1], cols)
  }

  /** `create_gas_breakdown`: one record per (row, gas column) whose cell is present. */
  method CreateGasBreakdown(df: Table) returns (records: seq<Record>)
    ensures records == GasBreakdown(df.rows, df.columns)
  {
    var rows, cols := df.rows, df.columns;
    records := [];
    for i := 0 to |rows|
      invariant records == GasBreakdown(rows[..i], cols)
    {
      var row := rows[i];
      var cells := [row.co2Mt, row.ch4Mt, row.n2oMt, row.ghgTotalMt];
      var source := if "source" in cols then row.source else Some("OWID");
      for k := 0 to GasCount
        invariant records == GasBreakdown(rows[..i], cols) + GasRecordsUpTo(row, k, cols)
      {
        if GasColumns[k] in cols && cells[k].Some? {
          records := records + [Record(row.country, row.iso, row.continent, row.year, None,
                                       GasNames[k], cells[k].value, source)];
        }
      }
      assert rows[..i + 1][..i] == rows[..i];
    }
    assert rows[..|rows| - 0] == rows;
  }

  /** Number of present cells among the first `k` gas columns of a row. */
  function PresentGasCells(r: Row, k: nat, cols: set<string>): nat
    requires k <= GasCount
  {
    if k == 0 then 0 else PresentGasCells(r, k - 1, cols) + (if GasCell(r, k - 1, cols).Some? then 1 else 0)
  }

  /** One record per present gas cell, so at most four per row. */
  lemma {:induction false} GasRecordsCount(r: Row, k: nat, cols: set<string>)
    requires k <= GasCount
    ensures |GasRecordsUpTo(r, k, cols)| == PresentGasCells(r, k, cols) <= k
  {
    if k > 0 { GasRecordsCount(r, k - 1, cols); }
  }

  lemma {:induction false} GasRecordsUpToMembership(r: Row, k: nat, rec: Record, cols: set<string>)
    requires k <= GasCount
    ensures rec in GasRecordsUpTo(r, k, cols) <==> exists g :: 0 <= g < k && GasCell(r, g, cols).Some? && rec == GasRecord(r, g, cols)
  {
    if k > 0 { GasRecordsUpToMembership(r, k - 1, rec, cols); }
  }

  /**
    A record is in the gas breakdown exactly when some row has a present cell
    in some gas column and the record carries that gas, that cell as its value,
    and the row's country, ISO code, continent, year and source.
   */
  lemma {:induction false} GasBreakdownMembership(rows: seq<Row>, rec: Record, cols: set<string>)
    ensures rec in GasBreakdown(rows, cols) <==>
      exists i, g :: 0 <= i < |rows| && 0 <= g < GasCount && GasCell(rows[i], g, cols).Some? && rec == GasRecord(rows[i], g, cols)
  {
    if rows != [] {
      var init, last := rows[..|rows| - 1], rows[|rows| - 1];
      GasBreakdownMembership(init, rec, cols);
      GasRecordsUpToMembership(last, GasCount, rec, cols);
      if rec in GasBreakdown(rows, cols) {
        if rec in GasBreakdown(init, cols) {
          var i, g :| 0 <= i < |init| && 0 <= g < GasCount && GasCell(init[i], g, cols).Some? && rec == GasRecord(init[i], g, cols);
          assert rows[i] == init[i];
        } else {
          var g :| 0 <= g < GasCount && GasCell(last, g, cols).Some? && rec == GasRecord(last, g, cols);
          assert rows[|rows| - 1] == last;
        }
      }
      if exists i, g :: 0 <= i < |rows| && 0 <= g < GasCount && GasCell(rows[i], g, cols).Some? && rec == GasRecord(rows[i], g, cols) {
        var i, g :| 0 <= i < |rows| && 0 <= g < GasCount && GasCell(rows[i], g, cols).Some? && rec == GasRecord(rows[i], g, cols);
        if i < |init| {
          assert init[i] == rows[i];
        }
      }
    }
  }

  /** A frame without a `source` column gives every record of both breakdowns the source `"OWID"`. */
  lemma BreakdownSourceDefault(rows: seq<Row>, cols: set<string>, rec: Record)
    requires "source" !in cols
    ensures rec in SectorBreakdown(rows, cols) ==> rec.source == Some("OWID")
    ensures rec in GasBreakdown(rows, cols) ==> rec.source == Some("OWID")
  {
    if rec in SectorBreakdown(rows, cols) {
      SectorBreakdownSound(rows, rec, cols);
    }
    GasBreakdownMembership(rows, rec, cols);
  }
}
