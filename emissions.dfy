/**
  The emissions tables the ETL pipeline writes and the API reads: one row per
  country and year in the merged dataset, and one record per sector or gas in
  the derived breakdowns.
 */
module Emissions {
  import opened Wrappers

  /**
    One row of a cleaned or merged emissions frame. A NaN cell, and every cell
    of a column the frame does not have, is `None`. Emission cells are exact
    reals in megatonnes of CO2 equivalent.
   */
  datatype Row = Row(
    country: Option<string>,
    iso: Option<string>,
    continent: Option<string>,
    year: int,
    source: Option<string>,
    sector: Option<string>,
    co2Mt: Option<real>,
    ch4Mt: Option<real>,
    n2oMt: Option<real>,
    ghgTotalMt: Option<real>)

  /**
    A frame together with its column names, for the places where the API tests
    whether a column exists (`'sector' in df.columns`).
   */
  datatype Table = Table(columns: set<string>, rows: seq<Row>)

  /** One record of the sector breakdown or of the gas breakdown. */
  datatype Record = Record(
    country: Option<string>,
    iso: Option<string>,
    continent: Option<string>,
    year: int,
    sector: Option<string>,
    gas: string,
    emissionValue: real,
    source: Option<string>)

  /** A cell as `sort_values` compares it: a number, a string, or NaN. */
  datatype Cell = Num(n: real) | Str(s: string) | Missing

  function OptText(c: Option<string>): Cell {
    if c.Some? then Str(c.value) else Missing
  }

  function OptNum(c: Option<real>): Cell {
    if c.Some? then Num(c.value) else Missing
  }

  /** The cell of `r` in the column named `column`; an unknown column reads as missing. */
  function CellOf(r: Row, column: string): Cell {
    match column
    case "country" => OptText(r.country)
    case "iso" => OptText(r.iso)
    case "continent" => OptText(r.continent)
    case "year" => Num(r.year as real)
    case "source" => OptText(r.source)
    case "sector" => OptText(r.sector)
    case "co2_mt" => OptNum(r.co2Mt)
    case "ch4_mt" => OptNum(r.ch4Mt)
    case "n2o_mt" => OptNum(r.n2oMt)
    case "ghg_total_mt" => OptNum(r.ghgTotalMt)
    case _ => Missing
  }

  /** Sum of the non-missing `ghg_total_mt` cells (pandas `sum` skips NaN). */
  function SumGhg(rows: seq<Row>): real {
    if rows == [] then 0.0
    else SumGhg(rows[..|rows| - 1]) + (var g := rows[|rows| - 1].ghgTotalMt; if g.Some? then g.value else 0.0)
  }
}
