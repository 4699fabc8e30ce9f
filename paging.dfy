/**
 * The pagination shared by the employee and activity listings: the page is
 * fetched with `LIMIT limit OFFSET (page - 1) * limit` and reported with
 * `pages: Math.ceil(total / limit)`.
 */
module Paging {
  import opened Common

  function Clamp(x: int, n: nat): (r: nat)
    ensures r <= n
  {
    if x < 0 then 0 else if x > n then n else x
  }

  /**
   * `LIMIT limit OFFSET offset` over rows already in result order. SQLite
   * reads a negative offset as 0 and a negative limit as "no limit".
   */
  function SqlWindow<T>(rows: seq<T>, limit: int, offset: int): (r: seq<T>)
    ensures limit >= 0 ==> |r| <= limit
    ensures |r| <= |rows|
    ensures Clamp(offset, |rows|) + |r| <= |rows|
    ensures r == rows[Clamp(offset, |rows|)..Clamp(offset, |rows|) + |r|]
  {
    var lo := Clamp(offset, |rows|);
    var hi := if limit < 0 then |rows| else Clamp(lo + limit, |rows|);
    rows[lo..hi]
  }

  /** The offset of a 1-based page. */
  function Offset(page: int, limit: int): int {
    (page - 1) * limit
  }

  /** The `pagination` block of a listing reply. */
  datatype Pagination = Pagination(current: int, pages: Option<int>, total: nat)

  /** Page `page` of `rows`, `limit` rows a page. */
  function Page<T>(rows: seq<T>, page: int, limit: int): seq<T> {
    SqlWindow(rows, limit, Offset(page, limit))
  }

  /**
   * `Math.ceil(total / limit)`. A zero limit divides to `Infinity` (or `NaN`
   * when `total` is 0), which the JSON reply carries as `null`: `None` here.
   */
  function PageCount(total: nat, limit: int): (r: Option<int>)
    ensures r.None? <==> limit == 0
    ensures limit > 0 ==> r.value >= 0 && r.value * limit >= total
                          && (total > 0 ==> (r.value - 1) * limit < total)
    ensures limit > 0 && total == 0 ==> r.value == 0
    ensures limit < 0 ==> r.value <= 0 && r.value * limit <= total < (r.value - 1) * limit
  {
    if limit == 0 then None
    else if limit > 0 then
      var q := (total + limit - 1) / limit;
      CeilingBounds(total, limit, q);
      Some(q)
    else
      var q := -(total / -limit);
      NegativeCeilingBounds(total, limit, q);
      Some(q)
  }

  lemma CeilingBounds(total: nat, limit: int, q: int)
    requires limit > 0 && q == (total + limit - 1) / limit
    ensures q >= 0 && q * limit >= total && (total > 0 ==> (q - 1) * limit < total)
  {
    var m := total + limit - 1;
    assert m == q * limit + m % limit;
    assert 0 <= m % limit < limit;
  }

  /** With a negative limit the quotient is negative and `Math.ceil` rounds it towards zero. */
  lemma NegativeCeilingBounds(total: nat, limit: int, q: int)
    requires limit < 0 && q == -(total / -limit)
    ensures q <= 0 && q * limit <= total < (q - 1) * limit
  {
    var m := -limit;
    assert total == (total / m) * m + total % m;
    assert 0 <= total % m < m;
    assert q * limit == (total / m) * m;
    assert (q - 1) * limit == (total / m) * m + m;
  }

  /** Page `page` holds exactly the rows `[(page-1)*limit, page*limit)` that exist. */
  lemma PageElements<T>(rows: seq<T>, page: int, limit: int)
    requires page >= 1 && limit >= 1
    ensures var p := Page(rows, page, limit);
            && |p| == Clamp(page * limit, |rows|) - Clamp((page - 1) * limit, |rows|)
            && forall k :: 0 <= k < |p| ==> p[k] == rows[(page - 1) * limit + k]
  {
    OffsetOfPage(page, limit);
    WindowElements(rows, limit, Offset(page, limit));
  }

  lemma OffsetOfPage(page: int, limit: int)
    requires page >= 1 && limit >= 1
    ensures Offset(page, limit) >= 0 && Offset(page, limit) + limit == page * limit
  {
  }

  /** A window at a non-negative offset holds the rows that exist from there on, up to `limit`. */
  lemma WindowElements<T>(rows: seq<T>, limit: int, off: int)
    requires off >= 0 && limit >= 1
    ensures var w := SqlWindow(rows, limit, off);
            && |w| == Clamp(off + limit, |rows|) - Clamp(off, |rows|)
            && forall k :: 0 <= k < |w| ==> w[k] == rows[off + k]
  {
  }

  /** Pages 1 to n laid end to end. */
  function FirstPages<T>(rows: seq<T>, limit: int, n: nat): seq<T> {
    if n == 0 then [] else FirstPages(rows, limit, n - 1) + Page(rows, n, limit)
  }

  lemma {:induction false} FirstPagesPrefix<T>(rows: seq<T>, limit: int, n: nat)
    requires limit >= 1
    ensures FirstPages(rows, limit, n) == rows[..Clamp(n * limit, |rows|)]
  {
    if n > 0 {
      FirstPagesPrefix(rows, limit, n - 1);
      PageElements(rows, n, limit);
      var lo := Clamp((n - 1) * limit, |rows|);
      var hi := Clamp(n * limit, |rows|);
      assert (n - 1) * limit <= n * limit;
      assert rows[..hi] == rows[..lo] + rows[lo..hi];
    }
  }

  /**
   * The pages 1 .. `pages` together are exactly the rows, in order: no row is
   * skipped or shown twice.
   */
  lemma PagesCoverRows<T>(rows: seq<T>, limit: int)
    requires limit >= 1
    ensures FirstPages(rows, limit, PageCount(|rows|, limit).value) == rows
  {
    var n := PageCount(|rows|, limit).value;
    FirstPagesPrefix(rows, limit, n);
  }

  /** Pages after the last are empty. */
  lemma PastLastPage<T>(rows: seq<T>, page: int, limit: int)
    requires limit >= 1 && page > PageCount(|rows|, limit).value
    ensures Page(rows, page, limit) == []
  {
    var n := PageCount(|rows|, limit).value;
    assert (page - 1) * limit >= n * limit;
  }
}
