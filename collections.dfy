/** The sequence operations the repositories and services are built from: a JPQL
    WHERE clause is a filter, ORDER BY a sort on a key, SUM an aggregate that is
    NULL over no rows, and `findById` the first element with a given id. */
module Collections {
  import opened Common

  /** The elements of `s` that satisfy `p`, in their original order. */
  function Filter<T(==,!new)>(s: seq<T>, p: T -> bool): (r: seq<T>)
    ensures |r| <= |s|
    ensures forall x :: x in r <==> x in s && p(x)
  {
    if s == [] then []
    else
      assert s == [s[0]] + s[1..];
      if p(s[0]) then [s[0]] + Filter(s[1..], p) else Filter(s[1..], p)
  }

  /** Filtering keeps each matching row as often as it occurs and drops the rest. */
  lemma {:induction false} FilterMultiset<T(!new)>(s: seq<T>, p: T -> bool)
    ensures forall x :: multiset(Filter(s, p))[x] == if p(x) then multiset(s)[x] else 0
  {
    if s != [] {
      assert s == [s[0]] + s[1..];
      FilterMultiset(s[1..], p);
    }
  }

  /** Filtering distributes over concatenation: appending a row adds it to the result
      exactly when it matches. */
  lemma {:induction false} FilterAppend<T(!new)>(s: seq<T>, x: T, p: T -> bool)
    ensures Filter(s + [x], p) == Filter(s, p) + (if p(x) then [x] else [])
  {
    if s == [] {
      assert [x][1..] == [];
    } else {
      assert (s + [x])[1..] == s[1..] + [x];
      FilterAppend(s[1..], x, p);
    }
  }

  /** The index of the first element of `s` that satisfies `p`, if any. */
  function FirstIndex<T>(s: seq<T>, p: T -> bool): (r: Option<nat>)
    ensures r.Some? ==> r.value < |s| && p(s[r.value])
    ensures r.Some? ==> forall j :: 0 <= j < r.value ==> !p(s[j])
    ensures r.None? <==> forall j :: 0 <= j < |s| ==> !p(s[j])
  {
    if s == [] then None
    else if p(s[0]) then Some(0)
    else match FirstIndex(s[1..], p)
      case None => None
      case Some(i) => Some(i + 1)
  }

  /** The first `n` elements (all of them when there are fewer): `Stream.limit(n)`
      and the first page of size `n`. */
  function Take<T>(s: seq<T>, n: nat): (r: seq<T>)
    ensures |r| <= n && |r| <= |s|
    ensures |r| == if n < |s| then n else |s|
    ensures r == s[..|r|]
    ensures forall x :: x in r ==> x in s
  {
    if n < |s| then s[..n] else s
  }

  /** The position of the first row of page `page` (counted from 0) of `size` rows. */
  function PageStart(page: nat, size: nat): nat {
    page * size
  }

  /** Page `page` (counted from 0) of `size` rows: the rows from position
      page * size on, at most `size` of them, and none past the end. */
  function PageOf<T>(s: seq<T>, page: nat, size: nat): (r: seq<T>)
    ensures |r| <= size
    ensures PageStart(page, size) >= |s| ==> r == []
    ensures PageStart(page, size) < |s| ==> PageStart(page, size) + |r| <= |s|
    ensures PageStart(page, size) < |s| ==> r == s[PageStart(page, size)..PageStart(page, size) + |r|]
    ensures PageStart(page, size) + size <= |s| ==> |r| == size
    ensures PageStart(page, size) < |s| < PageStart(page, size) + size ==> |r| == |s| - PageStart(page, size)
    ensures forall i :: 0 <= i < |r| ==> PageStart(page, size) + i < |s| && r[i] == s[PageStart(page, size) + i]
    ensures forall x :: x in r ==> x in s
  {
    var from := PageStart(page, size);
    if from >= |s| then [] else Take(s[from..], size)
  }

  /** The first `count` pages, read one after another. */
  function Pages<T>(s: seq<T>, count: nat, size: nat): seq<T> {
    if count == 0 then [] else Pages(s, count - 1, size) + PageOf(s, count - 1, size)
  }

  /** A page of rows in descending order of a key is in that order too. */
  lemma PageKeepsOrder<T>(s: seq<T>, page: nat, size: nat, key: T -> int)
    requires forall i, j :: 0 <= i < j < |s| ==> key(s[i]) >= key(s[j])
    ensures var r := PageOf(s, page, size);
      forall i, j :: 0 <= i < j < |r| ==> key(r[i]) >= key(r[j])
  {
    var r := PageOf(s, page, size);
    if PageStart(page, size) < |s| {
      var from := PageStart(page, size);
      forall i, j | 0 <= i < j < |r|
        ensures key(r[i]) >= key(r[j])
      {
        assert r[i] == s[from + i] && r[j] == s[from + j];
      }
    }
  }

  /** A page continues the rows of the pages before it. */
  lemma PageFollowsPrefix<T>(s: seq<T>, page: nat, size: nat)
    ensures Take(s, PageStart(page, size)) + PageOf(s, page, size) == Take(s, PageStart(page + 1, size))
  {
    var from := PageStart(page, size);
    var r := PageOf(s, page, size);
    assert PageStart(page + 1, size) == from + size;
    if from < |s| {
      var e := from + |r|;
      assert r == s[from..e];
      assert s[..from] + s[from..e] == s[..e];
    }
  }

  /** Reading the pages in order gives the rows in order, none skipped and none twice:
      the first `count` pages are the rows before page `count`. */
  lemma {:induction false} PagesArePrefix<T>(s: seq<T>, count: nat, size: nat)
    ensures Pages(s, count, size) == Take(s, PageStart(count, size))
  {
    if count > 0 {
      PagesArePrefix(s, count - 1, size);
      PageFollowsPrefix(s, count - 1, size);
    }
  }

  /** `s` is in non-decreasing order of `key`. */
  ghost predicate SortedBy<T>(s: seq<T>, key: T -> int) {
    forall i, j :: 0 <= i < j < |s| ==> key(s[i]) <= key(s[j])
  }

  /** Inserts `x` before the first element whose key is not below its own. */
  function InsertBy<T(==)>(x: T, s: seq<T>, key: T -> int): (r: seq<T>)
    ensures multiset(r) == multiset(s) + multiset{x}
  {
    if s == [] || key(x) <= key(s[0]) then [x] + s
    else
      assert s == [s[0]] + s[1..];
      [s[0]] + InsertBy(x, s[1..], key)
  }

  /** Inserting into a sorted sequence keeps it sorted. */
  lemma {:induction false} InsertBySorted<T>(x: T, s: seq<T>, key: T -> int)
    requires SortedBy(s, key)
    ensures SortedBy(InsertBy(x, s, key), key)
  {
    if s == [] || key(x) <= key(s[0]) {
      assert forall k :: 0 <= k < |s| ==> key(s[0]) <= key(s[k]);
    } else {
      var rest := InsertBy(x, s[1..], key);
      assert s == [s[0]] + s[1..];
      InsertBySorted(x, s[1..], key);
      forall k | 0 <= k < |rest| ensures key(s[0]) <= key(rest[k]) {
        assert rest[k] in multiset(rest);
        assert rest[k] == x || rest[k] in s[1..];
      }
    }
  }

  /** An ORDER BY on `key`: the same rows, in non-decreasing key order. Rows with
      equal keys come out in some order, as they do from the database. */
  function SortBy<T(==)>(s: seq<T>, key: T -> int): (r: seq<T>)
    ensures SortedBy(r, key)
    ensures multiset(r) == multiset(s)
  {
    if s == [] then []
    else
      assert s == [s[0]] + s[1..];
      InsertBySorted(s[0], SortBy(s[1..], key), key);
      InsertBy(s[0], SortBy(s[1..], key), key)
  }

  /** SQL `SUM(f)` over the rows `s`: NULL values are skipped, and the sum is NULL
      when no row has a value. */
  function SqlSum<T>(s: seq<T>, f: T -> Option<int>): Option<int>
  {
    if s == [] then None
    else
      var tail := SqlSum(s[1..], f);
      match f(s[0])
      case None => tail
      case Some(v) => Some(v + tail.GetOr(0))
  }

  /** A SUM is NULL exactly when every row's value is NULL (or there are no rows). */
  lemma {:induction false} SqlSumNone<T>(s: seq<T>, f: T -> Option<int>)
    ensures SqlSum(s, f).None? <==> forall x :: x in s ==> f(x).None?
  {
    if s != [] {
      assert s == [s[0]] + s[1..];
      SqlSumNone(s[1..], f);
    }
  }

  /** Adding one row to a SUM adds its value (if it has one). */
  lemma {:induction false} SqlSumAppend<T>(s: seq<T>, x: T, f: T -> Option<int>)
    ensures f(x).None? ==> SqlSum(s + [x], f) == SqlSum(s, f)
    ensures f(x).Some? ==> SqlSum(s + [x], f) == Some(SqlSum(s, f).GetOr(0) + f(x).value)
  {
    if s == [] {
      assert [x][1..] == [];
    } else {
      assert (s + [x])[1..] == s[1..] + [x];
      SqlSumAppend(s[1..], x, f);
    }
  }

  /** Adding one row to a filtered SUM: a matching row adds its value (if it has
      one), any other row changes nothing. */
  lemma FilteredSumAppend<T(!new)>(s: seq<T>, x: T, p: T -> bool, f: T -> Option<int>)
    ensures !p(x) || f(x).None? ==> SqlSum(Filter(s + [x], p), f) == SqlSum(Filter(s, p), f)
    ensures p(x) && f(x).Some? ==>
              SqlSum(Filter(s + [x], p), f) == Some(SqlSum(Filter(s, p), f).GetOr(0) + f(x).value)
  {
    FilterAppend(s, x, p);
    SumOfKeptRow(Filter(s, p), Filter(s + [x], p), x, p(x), f);
  }

  /** The SUM over rows `r2` that are `r`, plus `x` when it is kept. */
  lemma SumOfKeptRow<T>(r: seq<T>, r2: seq<T>, x: T, keep: bool, f: T -> Option<int>)
    requires r2 == r + (if keep then [x] else [])
    ensures !keep || f(x).None? ==> SqlSum(r2, f) == SqlSum(r, f)
    ensures keep && f(x).Some? ==> SqlSum(r2, f) == Some(SqlSum(r, f).GetOr(0) + f(x).value)
  {
    if keep {
      SqlSumAppend(r, x, f);
    } else {
      assert r2 == r;
    }
  }
}
