/**
  `merge_datasets`: concatenation of the cleaned source frames, keep-one-row
  per (country, year) by source priority, and the final sort by country and
  year.
 */
module Merge {
  import opened Wrappers
  import opened Text
  import opened Sequences
  import opened Emissions

  /** `{'OWID': 1, 'EDGAR': 2, 'Climate Watch': 3, 'UNFCCC': 4}` with `fillna(99)`; lower wins. */
  function Priority(source: Option<string>): (p: nat)
    ensures 1 <= p <= 4 || p == 99
  {
    match source
    case Some("OWID") => 1
    case Some("EDGAR") => 2
    case Some("Climate Watch") => 3
    case Some("UNFCCC") => 4
    case _ => 99
  }

  predicate PriorityLe(a: Row, b: Row) {
    Priority(a.source) <= Priority(b.source)
  }

  /** The deduplication key `['country', 'year']`; a missing country is a key of its own. */
  datatype Key = Key(country: Option<string>, year: int)

  function KeyOf(r: Row): Key {
    Key(r.country, r.year)
  }

  /**
    The order of `sort_values(['country', 'year'])`: by country in code-point
    order with missing countries last, then by year.
   */
  predicate KeyLe(a: Key, b: Key) {
    if a.country == b.country then a.year <= b.year
    else b.country.None? || (a.country.Some? && StrLt(a.country.value, b.country.value))
  }

  predicate RowKeyLe(a: Row, b: Row) {
    KeyLe(KeyOf(a), KeyOf(b))
  }

  lemma PriorityLeTotalPreorder()
    ensures TotalPreorder(PriorityLe)
  {
  }

  lemma KeyLeTotalPreorder()
    ensures TotalPreorder(RowKeyLe)
  {
    forall a: Row, b: Row ensures RowKeyLe(a, b) || RowKeyLe(b, a) {
      if a.country != b.country && a.country.Some? && b.country.Some? {
        StrLtTrichotomy(a.country.value, b.country.value);
      }
    }
    forall a: Row, b: Row, c: Row | RowKeyLe(a, b) && RowKeyLe(b, c) ensures RowKeyLe(a, c) {
      if a.country.Some? && b.country.Some? && c.country.Some? {
        var x, y, z := a.country.value, b.country.value, c.country.value;
        if x != y && y != z {
          StrLtTransitive(x, y, z);
        }
        if x == z && x != y {
          StrLtAsymmetric(x, y);
        }
      }
    }
  }

  /** A frame takes part in the merge when it is present and has rows. */
  predicate IsValidFrame(df: Option<seq<Row>>) {
    df.Some? && df.value != []
  }

  /** `pd.concat` of the valid frames, in argument order. */
  function ConcatValid(dfs: seq<Option<seq<Row>>>): (rows: seq<Row>)
    ensures rows == [] <==> forall i :: 0 <= i < |dfs| ==> !IsValidFrame(dfs[i])
    ensures forall i, x :: 0 <= i < |dfs| && IsValidFrame(dfs[i]) && x in dfs[i].value ==> x in rows
    ensures forall x :: x in rows ==> exists i :: 0 <= i < |dfs| && IsValidFrame(dfs[i]) && x in dfs[i].value
  {
    if dfs == [] then []
    else
      var rest := ConcatValid(dfs[1..]);
      assert forall i :: 1 <= i < |dfs| ==> dfs[i] == dfs[1..][i - 1];
      assert forall x :: x in rest ==> exists i :: 0 <= i < |dfs| && IsValidFrame(dfs[i]) && x in dfs[i].value by {
        forall x | x in rest ensures exists i :: 0 <= i < |dfs| && IsValidFrame(dfs[i]) && x in dfs[i].value {
          var i :| 0 <= i < |dfs[1..]| && IsValidFrame(dfs[1..][i]) && x in dfs[1..][i].value;
          assert dfs[i + 1] == dfs[1..][i];
        }
      }
      (if IsValidFrame(dfs[0]) then dfs[0].value else []) + rest
  }

  /**
    `merge_datasets(*dataframes)`: nothing when no frame has rows; otherwise
    the concatenation sorted by priority, reduced to the first row of each
    (country, year), and sorted by country and year.
   */
  function MergeDatasets(dfs: seq<Option<seq<Row>>>): (merged: seq<Row>)
    ensures multiset(merged) <= multiset(ConcatValid(dfs))
    ensures KeysOf(merged, KeyOf) == KeysOf(ConcatValid(dfs), KeyOf)
    ensures KeysDistinct(merged, KeyOf)
    ensures SortedBy(merged, RowKeyLe)
  {
    var all := ConcatValid(dfs);
    if all == [] then []
    else
      PriorityLeTotalPreorder();
      KeyLeTotalPreorder();
      var byPriority := InsertionSort(all, PriorityLe);
      var deduped := DistinctBy(byPriority, KeyOf);
      var merged := InsertionSort(deduped, RowKeyLe);
      PermutationKeys(all, byPriority, KeyOf);
      PermutationKeys(deduped, merged, KeyOf);
      PermutationKeysDistinct(deduped, merged, KeyOf);
      merged
  }

  /** The merge is empty exactly when every frame is missing or empty. */
  lemma MergeEmptyIff(dfs: seq<Option<seq<Row>>>)
    ensures MergeDatasets(dfs) == [] <==> forall i :: 0 <= i < |dfs| ==> !IsValidFrame(dfs[i])
  {
    var all := ConcatValid(dfs);
    if all != [] {
      assert all[0] in all;
      assert KeyOf(all[0]) in KeysOf(MergeDatasets(dfs), KeyOf);
    }
  }

  /** Every merged row is a row of one of the valid input frames. */
  lemma MergedRowsComeFromInputs(dfs: seq<Option<seq<Row>>>, x: Row)
    requires x in MergeDatasets(dfs)
    ensures exists i :: 0 <= i < |dfs| && IsValidFrame(dfs[i]) && x in dfs[i].value
  {
    MergedSubset(dfs, x);
  }

  lemma MergedSubset(dfs: seq<Option<seq<Row>>>, x: Row)
    requires x in MergeDatasets(dfs)
    ensures x in ConcatValid(dfs)
  {
    var merged := MergeDatasets(dfs);
    assert multiset(merged) <= multiset(ConcatValid(dfs));
    assert x in multiset(merged);
  }

  /**
    The row kept for a (country, year) has the best priority among all input
    rows with that country and year.
   */
  lemma {:induction false} MergeKeepsBestPriority(dfs: seq<Option<seq<Row>>>, x: Row, y: Row)
    requires x in MergeDatasets(dfs)
    requires y in ConcatValid(dfs) && KeyOf(y) == KeyOf(x)
    ensures Priority(x.source) <= Priority(y.source)
  {
    var all := ConcatValid(dfs);
    PriorityLeTotalPreorder();
    KeyLeTotalPreorder();
    var byPriority := InsertionSort(all, PriorityLe);
    var deduped := DistinctBy(byPriority, KeyOf);
    assert MergeDatasets(dfs) == InsertionSort(deduped, RowKeyLe);
    assert x in multiset(InsertionSort(deduped, RowKeyLe));
    assert x in deduped;
    assert y in multiset(byPriority);
    FirstOfSortedIsLeast(byPriority, KeyOf, PriorityLe, x, y);
  }

  /**
    When one input row has strictly better priority than every other input row
    with its country and year, that row is the one the merge keeps.
   */
  lemma MergeKeepsUniqueBest(dfs: seq<Option<seq<Row>>>, y: Row)
    requires y in ConcatValid(dfs)
    requires forall z :: z in ConcatValid(dfs) && KeyOf(z) == KeyOf(y) && z != y ==> Priority(y.source) < Priority(z.source)
    ensures y in MergeDatasets(dfs)
  {
    var merged := MergeDatasets(dfs);
    assert KeyOf(y) in KeysOf(merged, KeyOf);
    var x :| x in merged && KeyOf(x) == KeyOf(y);
    MergedSubset(dfs, x);
    MergeKeepsBestPriority(dfs, x, y);
  }
}
