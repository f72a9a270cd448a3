/** Sorting by a timestamp and the page arithmetic shared by the order and
    message listings (`.sort(...).skip(skip).limit(limit)` together with
    `countDocuments` and `Math.ceil(total / limit)`). */
module Listing {
  import opened Wrappers
  import Text

  predicate SortedBy<T>(s: seq<T>, key: T -> int)
  {
    forall i, j :: 0 <= i < j < |s| ==> key(s[i]) <= key(s[j])
  }

  /** Every key in `s` is at least `b`. */
  predicate KeysAtLeast<T>(s: seq<T>, key: T -> int, b: int)
  {
    forall k :: 0 <= k < |s| ==> b <= key(s[k])
  }

  /** Inserts `x` before the first element whose key is not smaller. */
  function InsertBy<T>(x: T, s: seq<T>, key: T -> int): (r: seq<T>)
    ensures multiset(r) == multiset(s) + multiset{x}
  {
    if s == [] || key(x) <= key(s[0]) then [x] + s
    else
      assert s == [s[0]] + s[1..];
      [s[0]] + InsertBy(x, s[1..], key)
  }

  lemma {:induction false} InsertByKeysAtLeast<T>(x: T, s: seq<T>, key: T -> int, b: int)
    requires b <= key(x) && KeysAtLeast(s, key, b)
    ensures KeysAtLeast(InsertBy(x, s, key), key, b)
  {
    if s != [] && key(x) > key(s[0]) {
      InsertByKeysAtLeast(x, s[1..], key, b);
    }
  }

  lemma {:induction false} InsertBySorted<T>(x: T, s: seq<T>, key: T -> int)
    requires SortedBy(s, key)
    ensures SortedBy(InsertBy(x, s, key), key)
  {
    if s != [] && key(x) > key(s[0]) {
      InsertBySorted(x, s[1..], key);
      InsertByKeysAtLeast(x, s[1..], key, key(s[0]));
    }
  }

  /** Stable insertion sort by ascending key; among equal keys the earlier
      element stays first (the database leaves that order unspecified). */
  function SortBy<T>(s: seq<T>, key: T -> int): (r: seq<T>)
    ensures multiset(r) == multiset(s)
    ensures SortedBy(r, key)
  {
    if s == [] then []
    else
      assert s == [s[0]] + s[1..];
      var rest := SortBy(s[1..], key);
      InsertBySorted(s[0], rest, key);
      InsertBy(s[0], rest, key)
  }

  /** No two items of `s` agree on `f`. */
  predicate DistinctBy<T>(s: seq<T>, f: T -> int)
  {
    forall i, j :: 0 <= i < j < |s| ==> f(s[i]) != f(s[j])
  }

  lemma {:induction false} InsertByDistinct<T>(x: T, s: seq<T>, key: T -> int, f: T -> int)
    requires DistinctBy(s, f)
    requires forall k :: 0 <= k < |s| ==> f(s[k]) != f(x)
    ensures DistinctBy(InsertBy(x, s, key), f)
  {
    if s != [] && key(x) > key(s[0]) {
      var tail := s[1..];
      InsertByDistinct(x, tail, key, f);
      var t := InsertBy(x, tail, key);
      forall k | 0 <= k < |t|
        ensures f(t[k]) != f(s[0])
      {
        assert t[k] in multiset(t);
        if t[k] != x {
          assert t[k] in multiset(tail);
          var m :| 0 <= m < |tail| && tail[m] == t[k];
          assert tail[m] == s[m + 1];
        }
      }
    }
  }

  /** Sorting keeps items that were distinct on `f` distinct. */
  lemma {:induction false} SortByDistinct<T>(s: seq<T>, key: T -> int, f: T -> int)
    requires DistinctBy(s, f)
    ensures DistinctBy(SortBy(s, key), f)
  {
    if s != [] {
      var tail := s[1..];
      SortByDistinct(tail, key, f);
      var rest := SortBy(tail, key);
      forall k | 0 <= k < |rest|
        ensures f(rest[k]) != f(s[0])
      {
        assert rest[k] in multiset(tail);
        var m :| 0 <= m < |tail| && tail[m] == rest[k];
        assert tail[m] == s[m + 1];
      }
      InsertByDistinct(s[0], rest, key, f);
    }
  }

  /** The items of `s` are in newest-first order of `stamp`. */
  predicate NewestFirstBy<T>(s: seq<T>, stamp: T -> int)
  {
    forall i, j :: 0 <= i < j < |s| ==> stamp(s[i]) >= stamp(s[j])
  }

  /** `.sort({ createdAt: -1 })`. */
  function NewestFirst<T>(s: seq<T>, stamp: T -> int): (r: seq<T>)
    ensures multiset(r) == multiset(s)
    ensures |r| == |s|
    ensures NewestFirstBy(r, stamp)
  {
    var r := SortBy(s, x => -stamp(x));
    assert forall i, j :: 0 <= i < j < |r| ==> -stamp(r[i]) <= -stamp(r[j]);
    assert |multiset(r)| == |multiset(s)|;
    r
  }

  /** `parseInt(raw) || fallback`: a parameter that is absent, not a number
      (`None`) or zero falls back. */
  function ParamOr(raw: Option<int>, fallback: int): (r: int)
    ensures r == fallback <==> raw.None? || raw.value == 0 || raw.value == fallback
    ensures raw.Some? && raw.value != 0 ==> r == raw.value
  {
    if raw.None? || raw.value == 0 then fallback else raw.value
  }

  function Abs(x: int): nat { if x < 0 then -x else x }

  /** `Math.ceil(total / limit)` for a non-zero limit. */
  function CeilDiv(total: nat, limit: int): (r: int)
    requires limit != 0
    ensures limit > 0 ==> r >= 0 && (r - 1) * limit < total <= r * limit
    ensures limit < 0 ==> r <= 0 && r * limit <= total < (r - 1) * limit
  {
    if limit > 0 then (total + limit - 1) / limit else -(total / -limit)
  }

  datatype Page<T> = Page(items: seq<T>, totalPages: int, currentPage: int)

  const DEFAULT_PAGE: int := 1
  const DEFAULT_LIMIT: int := 10

  /** `(page - 1) * limit`, the number of sorted items before the page. */
  function Skip(page: int, limit: int): int { (page - 1) * limit }

  /** `items` is the run of `sorted` that starts after `skip` items and
      holds `|limit|` of them, or all that remain when fewer do. */
  ghost predicate WindowOf<T>(items: seq<T>, sorted: seq<T>, skip: int, limit: int)
  {
    && |items| == (if skip >= |sorted| then 0
                   else if |sorted| - skip < Abs(limit) then |sorted| - skip
                   else Abs(limit))
    && forall k :: 0 <= k < |items| ==> 0 <= skip + k < |sorted| && items[k] == sorted[skip + k]
  }

  /** One page of an already sorted result.  A negative skip is refused by
      the database (a server error); a negative limit returns at most
      `|limit|` documents, as the database's single-batch limit does. */
  function PageOf<T>(sorted: seq<T>, page: int, limit: int): (r: Reply<Page<T>>)
    requires limit != 0
    ensures r.Success? <==> Skip(page, limit) >= 0
    ensures r.Failure? ==> r == Failure(SERVER_ERROR, "Server error")
    ensures r.Success? ==> r.status == OK && r.value.currentPage == page
    ensures r.Success? ==> r.value.totalPages == CeilDiv(|sorted|, limit)
    ensures r.Success? ==> WindowOf(r.value.items, sorted, Skip(page, limit), limit)
  {
    var skip := Skip(page, limit);
    if skip < 0 then Failure(SERVER_ERROR, "Server error")
    else
      var from := if skip < |sorted| then skip else |sorted|;
      var to := if skip + Abs(limit) < |sorted| then skip + Abs(limit) else |sorted|;
      Success(OK, Page(sorted[from..to], CeilDiv(|sorted|, limit), page))
  }

  /** A page of a newest-first result is itself newest first, holds at
      most `|limit|` items, and each of them comes from the result. */
  lemma PageKeepsOrder<T>(sorted: seq<T>, page: int, limit: int, stamp: T -> int)
    requires limit != 0 && NewestFirstBy(sorted, stamp) && PageOf(sorted, page, limit).Success?
    ensures var items := PageOf(sorted, page, limit).value.items;
            && |items| <= Abs(limit)
            && NewestFirstBy(items, stamp)
            && forall k :: 0 <= k < |items| ==> items[k] in sorted
  {
    var items := PageOf(sorted, page, limit).value.items;
    var skip := Skip(page, limit);
    forall i, j | 0 <= i < j < |items|
      ensures stamp(items[i]) >= stamp(items[j])
    {
      assert items[i] == sorted[skip + i] && items[j] == sorted[skip + j];
    }
  }

  /** With a positive limit every item of the sorted result is on exactly
      the page `k / limit + 1`, at position `k % limit`, and that page is
      within `totalPages`. */
  lemma ItemOnItsPage<T>(sorted: seq<T>, limit: int, k: nat)
    requires limit > 0 && k < |sorted|
    ensures var p := k / limit + 1;
            var r := PageOf(sorted, p, limit);
            r.Success? && 1 <= p <= r.value.totalPages &&
            k % limit < |r.value.items| && r.value.items[k % limit] == sorted[k]
  {
    var q, m := k / limit, k % limit;
    DivSplit(k, limit);
    ItemAtOffset(sorted, limit, q + 1, m);
  }

  lemma DivSplit(k: nat, limit: int)
    requires limit > 0
    ensures Skip(k / limit + 1, limit) == k - k % limit
    ensures 0 <= k % limit < limit
  {
  }

  /** The item at offset `m` of page `p` is the sorted item `Skip + m`. */
  lemma ItemAtOffset<T>(sorted: seq<T>, limit: int, p: int, m: int)
    requires limit > 0 && p >= 1 && 0 <= m < limit && Skip(p, limit) + m < |sorted|
    ensures var r := PageOf(sorted, p, limit);
            r.Success? && p <= r.value.totalPages &&
            m < |r.value.items| && r.value.items[m] == sorted[Skip(p, limit) + m]
  {
    var t := CeilDiv(|sorted|, limit);
    if t < p {
      Text.MulMonotone(t, p - 1, limit);
    }
  }
}
