/**
  The three table operations the source takes from pandas, stated on sequences:
  boolean-mask filtering, `drop_duplicates(keep='first')` on a key, and
  `sort_values` with a comparison that is a total preorder.
 */
module Sequences {

  /** `le` orders every pair and is transitive: a legal sort key comparison. */
  ghost predicate TotalPreorder<T(!new)>(le: (T, T) -> bool) {
    && (forall a, b :: le(a, b) || le(b, a))
    && (forall a, b, c :: le(a, b) && le(b, c) ==> le(a, c))
  }

  predicate SortedBy<T>(s: seq<T>, le: (T, T) -> bool) {
    forall i, j :: 0 <= i < j < |s| ==> le(s[i], s[j])
  }

  // ---------------------------------------------------------------------------
  // Filtering (df[mask])
  // ---------------------------------------------------------------------------

  /** The elements of `s` that satisfy `p`, in their original order. */
  function Filter<T>(s: seq<T>, p: T -> bool): (r: seq<T>)
    ensures |r| <= |s|
  {
    if s == [] then []
    else (if p(s[0]) then [s[0]] else []) + Filter(s[1..], p)
  }

  /** The filtered sequence holds exactly the elements of `s` that satisfy `p`, no more often than `s`. */
  lemma {:induction false} FilterMembers<T>(s: seq<T>, p: T -> bool)
    ensures forall x :: x in Filter(s, p) <==> x in s && p(x)
    ensures multiset(Filter(s, p)) <= multiset(s)
  {
    if s != [] {
      assert s == [s[0]] + s[1..];
      FilterMembers(s[1..], p);
    }
  }

  /** Filtering twice is filtering once by the conjunction. */
  lemma {:induction false} FilterFilter<T(!new)>(s: seq<T>, p: T -> bool, q: T -> bool, pq: T -> bool)
    requires forall x :: pq(x) == (p(x) && q(x))
    ensures Filter(Filter(s, p), q) == Filter(s, pq)
  {
    if s != [] {
      FilterFilter(s[1..], p, q, pq);
      var rest := Filter(s[1..], p);
      if p(s[0]) {
        assert Filter(s, p) == [s[0]] + rest;
        assert ([s[0]] + rest)[1..] == rest;
      } else {
        assert Filter(s, p) == rest;
      }
    }
  }

  /** Filtering by predicates that agree on every element gives the same sequence. */
  lemma {:induction false} FilterAgree<T(!new)>(s: seq<T>, p: T -> bool, q: T -> bool)
    requires forall x :: x in s ==> p(x) == q(x)
    ensures Filter(s, p) == Filter(s, q)
  {
    if s != [] {
      FilterAgree(s[1..], p, q);
    }
  }

  /** A filter every element passes leaves the sequence unchanged. */
  lemma {:induction false} FilterKeepsAll<T(!new)>(s: seq<T>, p: T -> bool)
    requires forall x :: x in s ==> p(x)
    ensures Filter(s, p) == s
  {
    if s != [] {
      FilterKeepsAll(s[1..], p);
      assert s == [s[0]] + s[1..];
    }
  }

  // ---------------------------------------------------------------------------
  // drop_duplicates(subset=key, keep='first')
  // ---------------------------------------------------------------------------

  function KeysOf<T(==), K>(s: seq<T>, key: T -> K): set<K> {
    set x | x in s :: key(x)
  }

  /** `x` is at some index of `s` and no earlier element has its key. */
  ghost predicate FirstWithKey<T, K>(s: seq<T>, key: T -> K, x: T) {
    exists i :: 0 <= i < |s| && s[i] == x && forall j :: 0 <= j < i ==> key(s[j]) != key(x)
  }

  predicate KeysDistinct<T, K(==)>(s: seq<T>, key: T -> K) {
    forall i, j :: 0 <= i < j < |s| ==> key(s[i]) != key(s[j])
  }

  /** Keep-first deduplication of `s`, ignoring elements whose key is in `seen`. */
  function DistinctFrom<T(==), K(==)>(s: seq<T>, key: T -> K, seen: set<K>): (r: seq<T>)
    ensures multiset(r) <= multiset(s)
  {
    if s == [] then []
    else
      assert s == [s[0]] + s[1..];
      if key(s[0]) in seen then DistinctFrom(s[1..], key, seen)
      else [s[0]] + DistinctFrom(s[1..], key, seen + {key(s[0])})
  }

  /** Keep-first deduplication loses no key outside `seen` and adds none. */
  lemma {:induction false} DistinctFromKeys<T, K>(s: seq<T>, key: T -> K, seen: set<K>)
    ensures KeysOf(DistinctFrom(s, key, seen), key) == KeysOf(s, key) - seen
  {
    if s != [] {
      assert s == [s[0]] + s[1..];
      var k0 := key(s[0]);
      var seen' := if k0 in seen then seen else seen + {k0};
      DistinctFromKeys(s[1..], key, seen');
      assert KeysOf(s, key) == {k0} + KeysOf(s[1..], key);
      if k0 !in seen {
        var rest := DistinctFrom(s[1..], key, seen');
        assert KeysOf([s[0]] + rest, key) == {k0} + KeysOf(rest, key);
      }
    }
  }

  /** Keep-first deduplication keeps only first occurrences, of keys outside `seen`. */
  lemma {:induction false} DistinctFromFirst<T, K>(s: seq<T>, key: T -> K, seen: set<K>)
    ensures forall x :: x in DistinctFrom(s, key, seen) ==> key(x) !in seen && FirstWithKey(s, key, x)
  {
    if s != [] {
      assert s == [s[0]] + s[1..];
      FirstShifts(s, key);
      var k0 := key(s[0]);
      var seen' := if k0 in seen then seen else seen + {k0};
      DistinctFromFirst(s[1..], key, seen');
      if k0 !in seen {
        assert FirstWithKey(s, key, s[0]) by { assert s[0] == s[0]; }
      }
    }
  }

  /** Keep-first deduplication leaves no two elements with the same key. */
  lemma {:induction false} DistinctFromDistinct<T, K>(s: seq<T>, key: T -> K, seen: set<K>)
    ensures KeysDistinct(DistinctFrom(s, key, seen), key)
  {
    if s != [] {
      assert s == [s[0]] + s[1..];
      var k0 := key(s[0]);
      var seen' := if k0 in seen then seen else seen + {k0};
      DistinctFromDistinct(s[1..], key, seen');
      if k0 !in seen {
        DistinctFromFirst(s[1..], key, seen');
        var rest := DistinctFrom(s[1..], key, seen');
        var r := [s[0]] + rest;
        forall i, j | 0 <= i < j < |r| ensures key(r[i]) != key(r[j]) {
          assert r[j] == rest[j - 1];
          if i > 0 { assert r[i] == rest[i - 1]; }
        }
      }
    }
  }

  /** The first element with its key in `s[1..]` is first in `s` too, unless `s[0]` shares the key. */
  lemma FirstShifts<T, K>(s: seq<T>, key: T -> K)
    requires s != []
    ensures forall x :: FirstWithKey(s[1..], key, x) && key(x) != key(s[0]) ==> FirstWithKey(s, key, x)
  {
    forall x | FirstWithKey(s[1..], key, x) && key(x) != key(s[0])
      ensures FirstWithKey(s, key, x)
    {
      var i :| 0 <= i < |s[1..]| && s[1..][i] == x && forall j :: 0 <= j < i ==> key(s[1..][j]) != key(x);
      assert s[i + 1] == x;
      forall j | 0 <= j < i + 1 ensures key(s[j]) != key(x) {
        if j > 0 { assert s[j] == s[1..][j - 1]; }
      }
    }
  }

  /** pandas `drop_duplicates(subset=key, keep='first')`. */
  function DistinctBy<T(==), K(==)>(s: seq<T>, key: T -> K): (r: seq<T>)
    ensures KeysDistinct(r, key)
    ensures KeysOf(r, key) == KeysOf(s, key)
    ensures forall x :: x in r ==> FirstWithKey(s, key, x)
    ensures multiset(r) <= multiset(s)
  {
    DistinctFromKeys(s, key, {});
    DistinctFromFirst(s, key, {});
    DistinctFromDistinct(s, key, {});
    DistinctFrom(s, key, {})
  }

  /**
    In a sequence sorted by `le`, the element deduplication keeps for a key is
    `le`-before every element with that key.
   */
  lemma FirstOfSortedIsLeast<T(!new), K>(s: seq<T>, key: T -> K, le: (T, T) -> bool, x: T, y: T)
    requires TotalPreorder(le) && SortedBy(s, le)
    requires FirstWithKey(s, key, x) && y in s && key(y) == key(x)
    ensures le(x, y)
  {
    var i :| 0 <= i < |s| && s[i] == x && forall j :: 0 <= j < i ==> key(s[j]) != key(x);
    var j :| 0 <= j < |s| && s[j] == y;
    if j == i {
      assert le(x, x) || le(x, x);
    } else {
      assert i < j;
    }
  }

  // ---------------------------------------------------------------------------
  // sort_values
  // ---------------------------------------------------------------------------

  /** Insert `x` into sorted `s` after every element that is `le`-before it. */
  function Insert<T(==,!new)>(s: seq<T>, x: T, le: (T, T) -> bool): (r: seq<T>)
    requires TotalPreorder(le) && SortedBy(s, le)
    ensures multiset(r) == multiset(s) + multiset{x}
    ensures SortedBy(r, le)
  {
    if s == [] then [x]
    else if le(s[0], x) then
      var rest := Insert(s[1..], x, le);
      assert s == [s[0]] + s[1..];
      HeadBeforeRest(s, x, le, rest);
      [s[0]] + rest
    else
      assert forall k :: 0 <= k < |s| ==> le(x, s[k]);
      PrependSorted(x, s, le);
      [x] + s
  }

  lemma HeadBeforeRest<T>(s: seq<T>, x: T, le: (T, T) -> bool, rest: seq<T>)
    requires SortedBy(s, le) && s != [] && le(s[0], x)
    requires multiset(rest) == multiset(s[1..]) + multiset{x} && SortedBy(rest, le)
    ensures SortedBy([s[0]] + rest, le)
  {
    forall k | 0 <= k < |rest| ensures le(s[0], rest[k]) {
      assert rest[k] in multiset(rest);
      if rest[k] != x {
        assert rest[k] in s[1..];
      }
    }
    PrependSorted(s[0], rest, le);
  }

  lemma PrependSorted<T>(h: T, rest: seq<T>, le: (T, T) -> bool)
    requires SortedBy(rest, le) && forall k :: 0 <= k < |rest| ==> le(h, rest[k])
    ensures SortedBy([h] + rest, le)
  {
    var r := [h] + rest;
    forall i, j | 0 <= i < j < |r| ensures le(r[i], r[j]) {
      if i > 0 {
        assert r[i] == rest[i - 1];
      }
      assert r[j] == rest[j - 1];
    }
  }

  /** A sort by `le`: a permutation of `s` that is ordered by `le`. */
  function InsertionSort<T(==,!new)>(s: seq<T>, le: (T, T) -> bool): (r: seq<T>)
    requires TotalPreorder(le)
    ensures multiset(r) == multiset(s)
    ensures |r| == |s|
    ensures SortedBy(r, le)
  {
    if s == [] then []
    else
      assert s == s[..|s| - 1] + [s[|s| - 1]];
      var r := Insert(InsertionSort(s[..|s| - 1], le), s[|s| - 1], le);
      assert |r| == |multiset(r)|;
      r
  }

  /** Reordering a sequence keeps its set of keys. */
  lemma PermutationKeys<T, K>(s: seq<T>, r: seq<T>, key: T -> K)
    requires multiset(r) == multiset(s)
    ensures KeysOf(r, key) == KeysOf(s, key)
  {
    assert forall x :: x in r <==> x in s by {
      forall x ensures x in r <==> x in s {
        assert x in r <==> x in multiset(r);
        assert x in s <==> x in multiset(s);
      }
    }
  }

  /** With distinct keys, every element occurs once and equal keys mean equal elements. */
  lemma {:induction false} KeysDistinctCounts<T, K>(s: seq<T>, key: T -> K)
    requires KeysDistinct(s, key)
    ensures forall x :: x in s ==> multiset(s)[x] == 1
    ensures forall x, y :: x in s && y in s && key(x) == key(y) ==> x == y
  {
    if s != [] {
      assert s == [s[0]] + s[1..];
      KeysDistinctCounts(s[1..], key);
      assert s[0] !in s[1..] by {
        forall k | 0 <= k < |s[1..]| ensures s[1..][k] != s[0] {
          assert key(s[k + 1]) != key(s[0]);
        }
      }
      forall x, y | x in s && y in s && key(x) == key(y) ensures x == y {
        var i :| 0 <= i < |s| && s[i] == x;
        var j :| 0 <= j < |s| && s[j] == y;
      }
    }
  }

  /** Two equal elements at different indices make the element occur at least twice. */
  lemma RepeatedCount<T>(r: seq<T>, i: int, j: int)
    requires 0 <= i < j < |r| && r[i] == r[j]
    ensures multiset(r)[r[i]] >= 2
  {
    assert r == r[..j] + [r[j]] + r[j + 1..];
    assert r[i] in r[..j];
  }

  /** Reordering a sequence whose keys are distinct leaves its keys distinct. */
  lemma PermutationKeysDistinct<T, K>(s: seq<T>, r: seq<T>, key: T -> K)
    requires multiset(r) == multiset(s) && KeysDistinct(s, key)
    ensures KeysDistinct(r, key)
  {
    KeysDistinctCounts(s, key);
    forall i, j | 0 <= i < j < |r| ensures key(r[i]) != key(r[j]) {
      assert r[i] in multiset(r) && r[j] in multiset(r);
      if key(r[i]) == key(r[j]) {
        assert r[i] == r[j];
        RepeatedCount(r, i, j);
        assert false;
      }
    }
  }

  /** A sequence with pairwise distinct elements has as many elements as its set. */
  lemma {:induction false} DistinctCardinality<T>(s: seq<T>)
    requires forall i, j :: 0 <= i < j < |s| ==> s[i] != s[j]
    ensures |set x | x in s| == |s|
  {
    if s != [] {
      var t := s[..|s| - 1];
      DistinctCardinality(t);
      var last := s[|s| - 1];
      assert last !in t;
      assert (set x | x in s) == (set x | x in t) + {last};
    }
  }

  function Identity<T>(): T -> T {
    x => x
  }

  /** `sorted(set(s))`: the distinct elements of `s`, each once, in `le` order. */
  function SortedDistinct<T(==,!new)>(s: seq<T>, le: (T, T) -> bool): (r: seq<T>)
    requires TotalPreorder(le)
    ensures forall i, j :: 0 <= i < j < |r| ==> r[i] != r[j]
    ensures forall x :: x in r <==> x in s
    ensures SortedBy(r, le)
  {
    var unique := DistinctBy(s, Identity());
    var r := InsertionSort(unique, le);
    PermutationKeysDistinct(unique, r, Identity());
    SameElements(s, unique, r);
    r
  }

  lemma SameElements<T>(s: seq<T>, unique: seq<T>, r: seq<T>)
    requires KeysOf(unique, Identity()) == KeysOf(s, Identity())
    requires multiset(r) == multiset(unique)
    ensures forall x :: x in r <==> x in s
  {
    forall x ensures x in r <==> x in s {
      calc {
        x in r;
        x in multiset(r);
        x in multiset(unique);
        x in unique;
        Identity<T>()(x) in KeysOf(unique, Identity());
        Identity<T>()(x) in KeysOf(s, Identity());
        x in s;
      }
    }
  }
}
