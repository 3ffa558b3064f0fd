/**
 * The in-memory part of `get_chrome_cookies` (cookie_exporter.py:133-158):
 * choosing the stored rows for the requested domains and turning each row
 * into a cookie record.
 *
 * The database is abstracted to the sequence of rows of its `cookies` table
 * in storage order, and SQL's `host_key LIKE '%dom%'` to a predicate
 * `matches(hostKey, dom)` supplied by the caller. Each per-filter query is
 * taken to return its matches in storage order.
 */
module CookieReader {
  import opened Wrappers
  import opened Netscape

  /**
   * One result row: host_key, name, value, path, expires_utc, is_secure.
   * The two integer columns may be NULL (`None`).
   */
  datatype Row = Row(
    hostKey: string,
    name: string,
    value: string,
    path: string,
    expiresUtc: Option<int>,
    isSecure: Option<int>)

  /** What one filter's query returns: the matching rows, in storage order. */
  function Matching(rows: seq<Row>, dom: string, matches: (string, string) -> bool): (r: seq<Row>)
    ensures |r| <= |rows|
    ensures forall i :: 0 <= i < |r| ==> r[i] in rows && matches(r[i].hostKey, dom)
  {
    if |rows| == 0 then []
    else (if matches(rows[0].hostKey, dom) then [rows[0]] else []) + Matching(rows[1..], dom, matches)
  }

  /** The rows of every filter's query, concatenated in filter order. */
  function MatchesOfAll(rows: seq<Row>, doms: seq<string>, matches: (string, string) -> bool): (r: seq<Row>)
    ensures forall i :: 0 <= i < |r| ==> r[i] in rows
    ensures forall i :: 0 <= i < |r| ==> exists j :: 0 <= j < |doms| && matches(r[i].hostKey, doms[j])
  {
    if |doms| == 0 then []
    else MatchesOfAll(rows, doms[..|doms| - 1], matches) + Matching(rows, doms[|doms| - 1], matches)
  }

  /** `if filter_domains:` is false for None and for the empty list. */
  predicate Unfiltered(filters: Option<seq<string>>)
  {
    filters.None? || filters.value == []
  }

  /** The rows `get_chrome_cookies` reads: all of them, or the union of the filters' matches. */
  function Selected(rows: seq<Row>, filters: Option<seq<string>>, matches: (string, string) -> bool): (r: seq<Row>)
    ensures Unfiltered(filters) ==> r == rows
    ensures !Unfiltered(filters) ==> forall i :: 0 <= i < |r| ==>
      r[i] in rows && exists j :: 0 <= j < |filters.value| && matches(r[i].hostKey, filters.value[j])
  {
    if Unfiltered(filters) then rows else MatchesOfAll(rows, filters.value, matches)
  }

  /** Lines 133-147: one query per filter, each query's rows appended to `results`. */
  method SelectRows(rows: seq<Row>, filters: Option<seq<string>>, matches: (string, string) -> bool)
    returns (results: seq<Row>)
    ensures results == Selected(rows, filters, matches)
    ensures Unfiltered(filters) ==> results == rows
  {
    if !Unfiltered(filters) {
      var doms := filters.value;
      results := [];
      for i := 0 to |doms|
        invariant results == MatchesOfAll(rows, doms[..i], matches)
      {
        assert doms[..i + 1][..i] == doms[..i];
        results := results + Matching(rows, doms[i], matches);
      }
      assert doms[..|doms|] == doms;
    } else {
      results := rows;
    }
  }

  /** Lines 149-158: each row becomes a cookie record, with `secure = bool(is_secure)`. */
  method MapRows(results: seq<Row>) returns (cookies: seq<Cookie>)
    ensures |cookies| == |results|
    ensures forall i :: 0 <= i < |results| ==> IsRecordOf(cookies[i], results[i])
  {
    cookies := [];
    for i := 0 to |results|
      invariant |cookies| == i
      invariant forall k :: 0 <= k < i ==> IsRecordOf(cookies[k], results[k])
    {
      var r := results[i];
      cookies := cookies + [Cookie(r.hostKey, r.name, r.value, r.path, Truthy(r.isSecure), r.expiresUtc)];
    }
  }

  /** `bool(is_secure)`: NULL and 0 are false, every other integer is true. */
  function Truthy(v: Option<int>): bool
  {
    match v
    case None => false
    case Some(n) => n != 0
  }

  /** The record keeps host_key as domain and every other column unchanged, except is_secure as a bool. */
  predicate IsRecordOf(c: Cookie, r: Row)
  {
    && c.domain == r.hostKey && c.name == r.name && c.value == r.value && c.path == r.path
    && c.expiresUtc == r.expiresUtc && c.secure == Truthy(r.isSecure)
  }

  /** `get_chrome_cookies` once the table's rows are in hand. */
  method GetChromeCookies(rows: seq<Row>, filters: Option<seq<string>>, matches: (string, string) -> bool)
    returns (cookies: seq<Cookie>)
    ensures |cookies| == |Selected(rows, filters, matches)|
    ensures forall i :: 0 <= i < |cookies| ==> IsRecordOf(cookies[i], Selected(rows, filters, matches)[i])
    ensures Unfiltered(filters) ==> |cookies| == |rows| && forall i :: 0 <= i < |rows| ==> IsRecordOf(cookies[i], rows[i])
  {
    var results := SelectRows(rows, filters, matches);
    cookies := MapRows(results);
  }

  /** The number of filters whose query matches a host. */
  function FiltersMatching(host: string, doms: seq<string>, matches: (string, string) -> bool): nat
  {
    if |doms| == 0 then 0
    else FiltersMatching(host, doms[..|doms| - 1], matches) + (if matches(host, doms[|doms| - 1]) then 1 else 0)
  }

  /** The sum over the filters of the number of rows each one matches. */
  function SumOfMatchCounts(rows: seq<Row>, doms: seq<string>, matches: (string, string) -> bool): nat
  {
    if |doms| == 0 then 0
    else SumOfMatchCounts(rows, doms[..|doms| - 1], matches) + |Matching(rows, doms[|doms| - 1], matches)|
  }

  /** A filter's query keeps exactly the matching rows, each as often as it is stored. */
  lemma {:induction false} MatchingMultiplicity(rows: seq<Row>, dom: string, matches: (string, string) -> bool, x: Row)
    ensures multiset(Matching(rows, dom, matches))[x] == if matches(x.hostKey, dom) then multiset(rows)[x] else 0
  {
    if |rows| > 0 {
      MatchingMultiplicity(rows[1..], dom, matches, x);
      assert rows == [rows[0]] + rows[1..];
    }
  }

  /** Querying a concatenation is concatenating the queries, so storage order is kept. */
  lemma {:induction false} MatchingOfConcat(a: seq<Row>, b: seq<Row>, dom: string, matches: (string, string) -> bool)
    ensures Matching(a + b, dom, matches) == Matching(a, dom, matches) + Matching(b, dom, matches)
  {
    if |a| > 0 {
      MatchingOfConcat(a[1..], b, dom, matches);
      assert (a + b)[0] == a[0] && (a + b)[1..] == a[1..] + b;
    } else {
      assert a + b == b;
    }
  }

  /** With a non-empty filter list the result is as long as all the filters' match counts together. */
  lemma {:induction false} SelectedLength(rows: seq<Row>, doms: seq<string>, matches: (string, string) -> bool)
    requires |doms| > 0
    ensures |Selected(rows, Some(doms), matches)| == SumOfMatchCounts(rows, doms, matches)
  {
    MatchesOfAllLength(rows, doms, matches);
  }

  lemma {:induction false} MatchesOfAllLength(rows: seq<Row>, doms: seq<string>, matches: (string, string) -> bool)
    ensures |MatchesOfAll(rows, doms, matches)| == SumOfMatchCounts(rows, doms, matches)
  {
    if |doms| > 0 {
      MatchesOfAllLength(rows, doms[..|doms| - 1], matches);
    }
  }

  /**
   * With a non-empty filter list, a stored row whose host matches k of the
   * filters appears k times for each time it is stored: duplicates are kept.
   */
  lemma {:induction false} SelectedMultiplicity(rows: seq<Row>, doms: seq<string>, matches: (string, string) -> bool, x: Row)
    requires |doms| > 0
    ensures multiset(Selected(rows, Some(doms), matches))[x] == FiltersMatching(x.hostKey, doms, matches) * multiset(rows)[x]
  {
    MatchesOfAllMultiplicity(rows, doms, matches, x);
  }

  lemma {:induction false} MatchesOfAllMultiplicity(rows: seq<Row>, doms: seq<string>, matches: (string, string) -> bool, x: Row)
    ensures multiset(MatchesOfAll(rows, doms, matches))[x] == FiltersMatching(x.hostKey, doms, matches) * multiset(rows)[x]
  {
    if |doms| > 0 {
      var init, last := doms[..|doms| - 1], doms[|doms| - 1];
      var earlier, latest := MatchesOfAll(rows, init, matches), Matching(rows, last, matches);
      MatchesOfAllMultiplicity(rows, init, matches, x);
      MatchingMultiplicity(rows, last, matches, x);
      var k := FiltersMatching(x.hostKey, init, matches);
      var b := if matches(x.hostKey, last) then 1 else 0;
      var m := multiset(rows)[x];
      assert multiset(MatchesOfAll(rows, doms, matches))[x] == multiset(earlier)[x] + multiset(latest)[x] by {
        assert MatchesOfAll(rows, doms, matches) == earlier + latest;
      }
      assert FiltersMatching(x.hostKey, doms, matches) == k + b;
      assert multiset(latest)[x] == b * m;
      SumOfMultiples(k, b, FiltersMatching(x.hostKey, doms, matches), m);
    } else {
      assert MatchesOfAll(rows, doms, matches) == [];
      assert FiltersMatching(x.hostKey, doms, matches) == 0;
    }
  }

  lemma SumOfMultiples(k: int, b: int, f: int, m: int)
    requires f == k + b
    ensures k * m + b * m == f * m
  {
  }
}
