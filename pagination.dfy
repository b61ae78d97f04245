/** The page arithmetic shared by the places list and the users list:
    `skip = (page - 1) * limit`, `take = limit` and
    `totalPages = Math.ceil(total / limit)`. */
module Pagination {
  import opened Common

  /** The payload of a successful list action besides `success: true`. */
  datatype ListPage<T> = ListPage(items: seq<T>, total: nat, page: int, limit: int, totalPages: nat)

  function Min(a: int, b: int): int
  {
    if a <= b then a else b
  }

  /** `(page - 1) * limit`, the number of rows before the page. */
  function Skip(page: int, limit: int): int
  {
    (page - 1) * limit
  }

  /** `Math.ceil(total / limit)` for a positive limit. */
  function TotalPages(total: nat, limit: int): (n: nat)
    requires limit >= 1
    ensures total <= n * limit
    ensures n > 0 ==> (n - 1) * limit < total
    ensures total == 0 ==> n == 0
  {
    var a := total + limit - 1;
    assert a == (a / limit) * limit + a % limit;
    a / limit
  }

  /** What `skip` and `take` select from the ordered rows. */
  function Window<T>(rows: seq<T>, skip: nat, take: nat): (w: seq<T>)
    ensures |w| <= take
    ensures skip >= |rows| ==> w == []
    ensures skip + take <= |rows| ==> |w| == take
    ensures forall i :: 0 <= i < |w| ==> skip + i < |rows| && w[i] == rows[skip + i]
  {
    rows[Min(skip, |rows|)..Min(skip + take, |rows|)]
  }

  /** One page of `rows`, or `None` where `skip` is negative, which the
      database client refuses. */
  function Paginate<T>(rows: seq<T>, page: int, limit: int): (r: Option<ListPage<T>>)
    requires limit >= 1
    ensures r.None? <==> page < 1
    ensures r.Some? ==> r.value.total == |rows| && r.value.page == page && r.value.limit == limit
    ensures r.Some? ==> r.value.totalPages == TotalPages(|rows|, limit)
    ensures r.Some? ==> r.value.items == Window(rows, Skip(page, limit), limit)
  {
    var skip := Skip(page, limit);
    if skip < 0 then
      assert page < 1 by { SkipSign(page, limit); }
      None
    else
      assert page >= 1 by { SkipSign(page, limit); }
      var n := TotalPages(|rows|, limit);
      var w := Window(rows, skip, limit);
      Some(ListPage(w, |rows|, page, limit, n))
  }

  /** Every page before the last is full, and a page past the last is empty. */
  lemma PageSizes<T>(rows: seq<T>, page: int, limit: int)
    requires limit >= 1 && page >= 1
    ensures var p := Paginate(rows, page, limit);
      && p.Some?
      && (page < p.value.totalPages ==> |p.value.items| == limit)
      && (page > p.value.totalPages ==> p.value.items == [])
  {
    SkipSign(page, limit);
    PageBounds(page, limit, TotalPages(|rows|, limit), |rows|);
  }

  lemma SkipSign(page: int, limit: int)
    requires limit >= 1
    ensures (page - 1) * limit < 0 <==> page < 1
  {
    if page < 1 {
      MulMonotone(page - 1, -1, limit);
    } else {
      MulMonotone(0, page - 1, limit);
    }
  }

  lemma MulMonotone(a: int, b: int, c: int)
    requires a <= b && c >= 0
    ensures a * c <= b * c
  {
    assert b * c - a * c == (b - a) * c;
  }

  /** Where a page lies against the rows when `totalPages` is `n`. */
  lemma PageBounds(page: int, limit: int, n: nat, total: nat)
    requires limit >= 1 && (page - 1) * limit >= 0
    requires total <= n * limit && (n > 0 ==> (n - 1) * limit < total)
    ensures page < n ==> (page - 1) * limit + limit <= total
    ensures page > n ==> (page - 1) * limit >= total
  {
    assert (page - 1) * limit + limit == page * limit;
    if page < n {
      MulMonotone(page, n - 1, limit);
    }
    if page > n {
      MulMonotone(n, page - 1, limit);
    }
  }

  /** Pages `1..n` one after the other. */
  function Pages<T>(rows: seq<T>, limit: int, n: nat): seq<T>
    requires limit >= 1
  {
    if n == 0 then [] else Pages(rows, limit, n - 1) + Window(rows, (n - 1) * limit, limit)
  }

  lemma {:induction false} PagesArePrefix<T>(rows: seq<T>, limit: int, n: nat)
    requires limit >= 1
    ensures Pages(rows, limit, n) == rows[..Min(n * limit, |rows|)]
  {
    if n > 0 {
      PagesArePrefix(rows, limit, n - 1);
      assert (n - 1) * limit + limit == n * limit;
      var lo, hi := Min((n - 1) * limit, |rows|), Min(n * limit, |rows|);
      assert lo <= hi;
      assert rows[..lo] + rows[lo..hi] == rows[..hi];
    }
  }

  /** Walking the pages from 1 to `totalPages` lists every row exactly once,
      in order. */
  lemma PagesCoverRows<T>(rows: seq<T>, limit: int)
    requires limit >= 1
    ensures Pages(rows, limit, TotalPages(|rows|, limit)) == rows
  {
    PagesArePrefix(rows, limit, TotalPages(|rows|, limit));
  }
}
