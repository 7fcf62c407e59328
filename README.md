# Global emissions pipeline and API: a Dafny model

This project models the data rules of the Global Emissions template. The
template has two parts:

- **ETL pipeline** (`pipelines/merge_data.py`): cleans the Our World in Data
  table, tags every country with its continent, normalises country aliases,
  expands rows into sector and gas breakdowns, merges the source frames by
  source priority, and picks a display unit for numbers.
- **FastAPI service** (`api/main.py`): serves the merged table through a
  `DataManager` cache with a one-hour lifetime. Its endpoints are `/data`
  (filters, sort, pagination), `/insights` (year total and year-over-year
  change), `/years` and `/countries`. Its CORS origin list comes from an
  environment variable.

The repository's overall description centres on a browser dashboard written in
another language. The dashboard's aggregation code is not part of this model;
the model follows the Python pipeline and service code.

Modules (one file each):

| module | file | what it holds |
|---|---|---|
| `Wrappers` | wrappers.dfy | `Option`, `Result` |
| `Text` | text.dfy | ASCII `lower`/`upper`, substring search, code-point string order, `split`/`join` on one character, `strip` |
| `Sequences` | sequences.dfy | boolean-mask filtering, keep-first deduplication (`drop_duplicates`), sorting (`sort_values`), `sorted(set(...))` |
| `Emissions` | emissions.dfy | merged row, table (rows plus the set of column names), breakdown record, cells |
| `Continents` | continents.dfy | `CONTINENT_MAP` and the `"Unknown"` fallback |
| `Countries` | countries.dfy | `standardize_country_name` |
| `Owid` | owid.dfy | `clean_owid_data` after the CSV is read |
| `Breakdown` | breakdown.dfy | `create_sector_breakdown`, `create_gas_breakdown` (imperative loops) |
| `Merge` | merge.dfy | `merge_datasets` |
| `Formatting` | formatting.dfy | the unit choice of `format_number` |
| `Api` | api.dfy | HTTP errors, the `Continent`/`Sector`/`GasType` enumerations, `str(int)` |
| `Cache` | cache.dfy | `DataManager` as a class with its four cached fields |
| `DataQuery` | data_query.dfy | `get_data` |
| `Insights` | insights.dfy | `get_insights` |
| `Listings` | listings.dfy | `list_years`, `list_countries` |
| `Cors` | cors.dfy | the `CORS_ORIGINS` parsing |

Conventions:

- A missing cell (NaN) is `None`.
- Every table carries the set of its column names, because the service tests
  columns by name (`'sector' in df.columns`, `'ghg_total_mt' in df.columns`,
  `sort_by in df.columns`).
- Times are integers in microseconds. The clock reading and the content of
  each data file are parameters of the operations that use them.
- The `gas` query parameter of `/data` is accepted and ignored, as in the code.

## Model

| member | source | states |
|---|---|---|
| Continents.ContinentOf | public/templates/pipelines/merge_data.py:391 | the continent is one of the six continent names or `"Unknown"` |
| Continents.ContinentMapValues | public/templates/pipelines/merge_data.py:77-141 | every code of the continent map maps to one of the six continent names |
| Continents.ContinentOfUnknownIff | public/templates/pipelines/merge_data.py:391 | the lookup gives `"Unknown"` exactly when the ISO code is missing or not in the map, and otherwise gives the map's continent |
| Countries.CanonicalNamesAreNotAliases | public/templates/pipelines/merge_data.py:261-279 | no replacement target is itself a key of the replacement table |
| Countries.StandardizeCountryNameSpec | public/templates/pipelines/merge_data.py:259-280 | a listed alias becomes its canonical name and any other name is kept; the result is never an alias, so normalising is idempotent |
| Owid.CleanOwidData | public/templates/pipelines/merge_data.py:381-394 | the i-th cleaned row is the image of the i-th raw row that passes the year, ISO-length and aggregate-name filter, so order and repetitions are kept; a row is in the output exactly when it is the image of a kept row, and each has a continent from the lookup and source `"OWID"` |
| Owid.AfricanCountryNamesDropped | public/templates/pipelines/merge_data.py:387 | the aggregate-name test is a plain case-insensitive substring match, so rows named "South Africa" or "Central African Republic" are dropped |
| Owid.AfricanCodesMapped | public/templates/pipelines/merge_data.py:77-141 | the ISO codes of those two countries, ZAF and CAF, are in the continent map under Africa |
| Owid.CleanRowIsValid | public/templates/pipelines/merge_data.py:382-394 | a kept row cleans into a row with a year in 1990..current year, a 3-letter ISO code, a non-aggregate name, a valid continent and source `"OWID"` |
| Breakdown.CreateSectorBreakdown | public/templates/pipelines/merge_data.py:514-554 | the nested loops build exactly the sector-breakdown sequence: for each row with a total, seven records in share order, row after row, each with the row's source or `"OWID"` when the frame has no `source` column |
| Breakdown.SectorBreakdownCount | public/templates/pipelines/merge_data.py:536-550 | seven records per row with a `ghg_total_mt`, none for the others |
| Breakdown.SectorBreakdownSound | public/templates/pipelines/merge_data.py:536-550 | every record is the record of one sector of one input row that has a total |
| Breakdown.SectorBreakdownComplete | public/templates/pipelines/merge_data.py:536-550 | every sector of every row with a total has its record in the breakdown |
| Breakdown.SectorValuesSumToTotal | public/templates/pipelines/merge_data.py:523-531 | the shares sum to 1, so a row's seven sector values add up to its total |
| Breakdown.CreateGasBreakdown | public/templates/pipelines/merge_data.py:557-588 | the nested loops build exactly the gas-breakdown sequence: for each row, one record per gas column that the frame has and whose cell is present, in column order |
| Breakdown.GasRecordsCount | public/templates/pipelines/merge_data.py:573-575 | a row yields one record per present gas cell, so at most four |
| Breakdown.BreakdownSourceDefault | public/templates/pipelines/merge_data.py:536-584 | in a frame without a `source` column, every sector and gas record has source `"OWID"` |
| Breakdown.GasBreakdownMembership | public/templates/pipelines/merge_data.py:573-584 | a record is in the gas breakdown exactly when it is the record of a present gas cell of some input row |
| Merge.Priority | public/templates/pipelines/merge_data.py:611-612 | the priority is 1..4 for the four known sources and 99 for any other or missing source |
| Merge.PriorityLeTotalPreorder | public/templates/pipelines/merge_data.py:615 | the priority order is total and transitive, so sorting by it is well defined |
| Merge.KeyLeTotalPreorder | public/templates/pipelines/merge_data.py:620 | the (country, year) order, with missing countries last, is total and transitive |
| Merge.ConcatValid | public/templates/pipelines/merge_data.py:600-608 | the concatenation is empty exactly when no frame is present and non-empty; its rows are exactly the rows of the valid frames |
| Merge.MergeDatasets | public/templates/pipelines/merge_data.py:591-624 | the merged rows are a sub-multiset of the input rows, cover every input (country, year) key exactly once, and are sorted by country then year |
| Merge.MergeEmptyIff | public/templates/pipelines/merge_data.py:600-605 | the merge is empty exactly when every frame is missing or empty |
| Merge.MergedRowsComeFromInputs | public/templates/pipelines/merge_data.py:607 | every merged row is a row of some valid input frame |
| Merge.MergeKeepsBestPriority | public/templates/pipelines/merge_data.py:614-616 | the row kept for a (country, year) has priority at least as good as every input row with that key |
| Merge.MergeKeepsUniqueBest | public/templates/pipelines/merge_data.py:614-616 | an input row strictly better than all others with its key is the one kept |
| Formatting.FormatUnit | public/templates/pipelines/merge_data.py:248-256 | the suffix is B, M, K or none, and the mantissa times the suffix's power of ten is the value |
| Formatting.FormatUnitRange | public/templates/pipelines/merge_data.py:250-256 | each suffix is chosen exactly in its range; the printed number of a K or M value lies in [1, 1000) |
| Formatting.FormatUnitMonotone | public/templates/pipelines/merge_data.py:250-255 | a larger value never gets a smaller unit |
| Sequences.DistinctBy | public/templates/pipelines/merge_data.py:616 | keep-first deduplication: keys are distinct, the set of keys is kept, each kept element is the first with its key |
| Sequences.InsertionSort | public/templates/pipelines/merge_data.py:620 | the result is a permutation of the input that is sorted by the order |
| Sequences.FirstOfSortedIsLeast | public/templates/pipelines/merge_data.py:615-616 | after a sort, the first element with a key is before every element with that key |
| Cache.ShouldReloadWindow | public/templates/api/main.py:227-231 | a load at time t is fresh up to and including t + 1 h and stale after; nothing loaded means reload |
| Cache.ShouldReloadMonotone | public/templates/api/main.py:227-231 | once stale, a cache stays stale as time passes |
| Cache.DataManager.constructor | public/templates/api/main.py:220-225 | a new manager holds nothing and has no load time |
| Cache.DataManager.LoadEmissions | public/templates/api/main.py:233-250 | a fresh cache is returned unchanged; otherwise a missing file answers 503 and changes nothing, and a present file is cached and stamped with its load time |
| Cache.DataManager.LoadSectorData | public/templates/api/main.py:252-261 | a fresh cache is returned; otherwise a present file is cached without touching the time stamp, and a missing file gives an empty table and keeps the old cache |
| Cache.DataManager.LoadInsights | public/templates/api/main.py:263-273 | as for sector data, with an empty document when the file is missing |
| Cache.DataManager.InvalidateCache | public/templates/api/main.py:297-299 | only the time stamp is cleared; the cached values stay, and every later load takes the reload path |
| DataQuery.FilterByPlace | public/templates/api/main.py:601-612 | the country, ISO and continent filters leave the rows passing the first three filters and record exactly the ones that applied |
| DataQuery.FilterByYear | public/templates/api/main.py:614-623 | an exact year, or else the start and end bounds, narrow the rows, and the record is extended accordingly |
| DataQuery.FilterByColumns | public/templates/api/main.py:625-631 | the sector and minimum-emission filters apply only when the table has their column; afterwards the rows are exactly the matching rows |
| DataQuery.AppliedFiltersNames | public/templates/api/main.py:599-631 | `filters_applied` names exactly the filters that applied, each once, and never an exact year together with a range bound |
| DataQuery.RowCellLeTotalPreorder | public/templates/api/main.py:634-635 | the sort on one column, in either direction with missing cells last, is a total preorder |
| DataQuery.Ordered | public/templates/api/main.py:634-635 | the returned order is a permutation of the filtered rows, sorted on `sort_by` when the table has that column, and the filtered rows in their table order otherwise |
| DataQuery.Page | public/templates/api/main.py:638-639 | the page holds `min(limit, n - offset)` rows (none past the end), and row i of the page is row offset + i |
| DataQuery.SelectedMembers | public/templates/api/main.py:601-631 | a row is selected exactly when it is a table row that passes every filter that applies |
| DataQuery.PageRowsMatch | public/templates/api/main.py:637-647 | every returned row is a table row that matches the query |
| DataQuery.PageSorted | public/templates/api/main.py:639 | a page of the sorted rows is itself sorted |
| DataQuery.NoFilterSelectsAll | public/templates/api/main.py:601-631 | a query that applies no filter selects the whole table and records no filter |
| DataQuery.QueryData | public/templates/api/main.py:598-648 | the count is the number of matching rows, the page is the offset/limit slice of the ordered matching rows, and the recorded filters are the applied ones |
| DataQuery.GetData | public/templates/api/main.py:577-648 | out-of-range paging answers 422 without touching the cache; with valid paging the request succeeds whenever the cache is fresh or the file is present, and otherwise answers 503; the cache is kept when fresh or when the file is missing and is replaced by the file, stamped with its load time, on a reload; a success reports the matching-row count, the page of the ordered rows and the applied filters of the table now cached |
| Insights.MaxYear | public/templates/api/main.py:682 | the default year is a year of the table and no row is later |
| Insights.GetInsights | public/templates/api/main.py:679-702 | no year on an empty table answers 500; a success reports a year with rows (the requested one if given); with the `ghg_total_mt` column the global figure is that year's total, and without it both figures are 0 |
| Insights.InsightsNotFoundIff | public/templates/api/main.py:685-688 | a requested year answers 404 with the year in the detail exactly when no row has that year |
| Insights.InsightsDefaultYear | public/templates/api/main.py:681-682 | without a year, a non-empty table reports on its latest year and never answers 404 |
| Insights.InsightsNoPreviousYear | public/templates/api/main.py:701-702 | with no rows for the previous year the change is 0 |
| Insights.InsightsYoyChange | public/templates/api/main.py:694-702 | the global figure is the year's total; the change is 0 when the previous total is not positive, and otherwise it times the previous total is 100 times the difference, with the sign of the difference |
| Listings.ListYears | public/templates/api/main.py:767-777 | an empty table answers 500; otherwise the years are strictly increasing, are exactly the table's years, and `min`, `max` and `count` are the first, the last and the number of distinct years |
| Listings.CountryLeTotalPreorder | public/templates/api/main.py:758 | the country order with missing names last is a total preorder |
| Listings.ListCountries | public/templates/api/main.py:748-764 | the entries are pairwise distinct, sorted by country, and are exactly the (country, iso, continent) triples of the rows of the requested continent; `total` is their number |
| Listings.CountriesOfContinent | public/templates/api/main.py:754-755 | with a continent other than `all`, every listed entry has that continent |
| Listings.CountriesUnfiltered | public/templates/api/main.py:754-757 | with no continent or `all`, the entry of every table row is listed |
| Cors.OriginsSetting | public/templates/api/main.py:519 | a set variable is used as it is, even when empty |
| Cors.ParseOrigins | public/templates/api/main.py:520 | the origins are the stripped comma-separated pieces of the setting that are not blank, in the setting's order; a string is an origin exactly when it is a non-blank stripped piece; every origin is non-blank, has no surrounding whitespace and contains no comma |
| Cors.ParsePaddedOrigins | public/templates/api/main.py:520 | origins written with a space on either side of each comma parse to the bare origins |
| Cors.BlankPieceDropped | public/templates/api/main.py:520 | a blank piece between commas contributes no origin and leaves the others in order |
| Cors.AllowOrigins | public/templates/api/main.py:524 | the allowed list is never empty |
| Cors.AllowOriginsCases | public/templates/api/main.py:520-524 | the wildcard list appears when every comma-separated piece is blank; otherwise the parsed origins are used |
| Cors.ParseJoinedOrigins | public/templates/api/main.py:520 | well-formed origins joined by commas parse back to the same list |
| Cors.DefaultAllowsLocalServers | public/templates/api/main.py:519-524 | without the variable, the two local development servers are allowed |
| Text.SplitJoin | public/templates/api/main.py:520 | splitting a comma-joined list of comma-free pieces gives the pieces back |
| Text.Strip | public/templates/api/main.py:520 | the stripped string has no surrounding whitespace and is the original minus a whitespace prefix and suffix |

## Left out

- File and network I/O are not modelled: reading CSV files, dataset downloads, the retry decorator, file hashing and logging. The model starts from parsed rows.
- `process_edgar_excel`, `process_climate_watch`, `run_quality_checks`, `generate_insights`, `run_pipeline` and `main` are not part of this model. Their frames enter `merge_datasets` as inputs.
- The `population`, `gdp` and `co2_per_capita` columns are not part of this model. Nor is `pd.to_numeric` coercion: cells are already numbers or missing.
- Service endpoints not modelled: `/health`, `/sectors`, `/download`, `/query` (the AI assistant) and `get_data_context`. The `/cache/invalidate` endpoint is only a call to the modelled `invalidate_cache`.
- `get_insights`: the top emitters (`nlargest`), the continent and sector breakdowns, the text of the key findings, `generated_at` and the rounding of the change to two decimals are not modelled. So are the 500 answers they can raise: on a table without a `country`, `iso` or `continent` column, the top-emitter selection and the key findings raise `KeyError`, while the model's `Insights.GetInsights` answers with the year's figures.
- `format_number`: the two-decimal text rendering is not modelled, only the unit and the scaled value.
- Floating point is not modelled: values are exact reals, so sums and shares are exact.
- Text handling: `lower`/`upper`, `str.contains(case=False)` and `strip` are modelled on ASCII letters and ASCII whitespace only, not on all of Unicode.
- Insights and Listings work on the loaded table. Loading, and its 503 when the file is missing, is the `LoadEmissions` step modelled once in `DataQuery.GetData`.
- A NaN `min_emissions` parameter and NaN years are not modelled: parameters are numbers or absent, and every row has a year.
- DataQuery.FilterByPlace: on a table without a `country`, `iso` or `continent` column, the source's `df['country']` (and the like) raises `KeyError`, which FastAPI answers with 500; the model reads every cell of a missing column as missing, so the filter keeps no row instead. The same holds for `df['year']` in the year filters, `/insights` and `/years`, whose table always has a year here.
- Listings.ListCountries: on a table without one of the `country`, `iso`, `continent` columns, `df[['country', 'iso', 'continent']]` raises and the endpoint answers 500; the model lists the entries with that cell missing instead.
- DataQuery.Ordered: `sort_by` may name a column the row model does not carry (`population`, `gdp`, `co2_per_capita`); when the table has such a column the source sorts on it, while the model compares every cell of it as missing, so its sortedness clause says nothing about that order.
- The CORS middleware options other than the origin list (credentials, methods, headers) are not modelled.
- Merge.MergeKeepsUniqueBest: applies only to a row strictly better than every other row with its key. Among equal-priority duplicates, pandas' unstable sort picks the survivor, and the model does not say which one.
- DataQuery.Ordered: pins the order only up to ties. The model sorts stably; pandas' default sort does not promise the relative order of rows with equal sort values.
- Listings.ListCountries: the order of entries that share a country name (different ISO codes or continents) is not pinned, for the same reason.
