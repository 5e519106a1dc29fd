/** The shared pagination arithmetic of app/schemas/pagination.py: query
    parameters, the skip/limit window they select and the page count. */
module Pagination {
  import opened Wrappers

  const DefaultPage := 1
  const DefaultPageSize := 10
  const MaxPageSize := 100

  /** Bounds the parameter model enforces: `page >= 1`, `1 <= page_size <= 100`. */
  predicate InBounds(page: int, pageSize: int) {
    page >= 1 && 1 <= pageSize <= MaxPageSize
  }

  datatype PaginationParams = PaginationParams(page: int, pageSize: int)

  /** Constructing the parameter model: rejected unless within bounds. */
  function MakeParams(page: int, pageSize: int): (r: Option<PaginationParams>)
    ensures r.Some? <==> InBounds(page, pageSize)
    ensures r.Some? ==> r.value.page == page && r.value.pageSize == pageSize
  {
    if InBounds(page, pageSize) then Some(PaginationParams(page, pageSize)) else None
  }

  /** The parameters used when the request gives none. */
  function DefaultParams(): (r: PaginationParams)
    ensures r.page == 1 && r.pageSize == 10
    ensures MakeParams(r.page, r.pageSize) == Some(r)
    ensures Skip(r.page, r.pageSize) == 0
  {
    PaginationParams(DefaultPage, DefaultPageSize)
  }

  /** Number of items before page `page` (1-based). */
  function Skip(page: int, pageSize: int): (r: int)
    requires page >= 1 && pageSize >= 1
    ensures r >= 0
    ensures r == 0 <==> page == 1
    ensures r + pageSize == page * pageSize
  {
    (page - 1) * pageSize
  }

  /** Number of items on one page: the page's size, so page `page + 1`
      starts exactly where page `page` ends and pages neither overlap nor
      leave a gap. */
  function Limit(p: PaginationParams): (r: int)
    requires p.page >= 1 && p.pageSize >= 1
    ensures r >= 1
    ensures Skip(p.page + 1, p.pageSize) == Skip(p.page, p.pageSize) + r
  {
    p.pageSize
  }

  /** `(total + page_size - 1) // page_size`. Python's floor division agrees
      with Dafny's here since the numerator is never negative. */
  function TotalPages(total: nat, pageSize: int): (r: nat)
    requires pageSize >= 1
    ensures r * pageSize >= total
    ensures total > 0 ==> (r - 1) * pageSize < total
    ensures total == 0 <==> r == 0
  {
    var n := total + pageSize - 1;
    var r := n / pageSize;
    assert n == r * pageSize + n % pageSize;
    assert r >= 0 by {
      if r < 0 {
        MulMonotone(r, -1, pageSize);
      }
    }
    if total == 0 then
      assert r == 0 by {
        if r >= 1 { MulMonotone(1, r, pageSize); }
      }
      r
    else
      r
  }

  /** Helper: multiplication by a positive factor is monotone. */
  lemma MulMonotone(a: int, b: int, c: int)
    requires a <= b && c >= 1
    ensures a * c <= b * c
  {
    assert b * c - a * c == (b - a) * c;
  }

  /** `TotalPages` is the least page count whose pages hold every item: the
      ceiling of `total / pageSize`. */
  lemma TotalPagesIsCeiling(total: nat, pageSize: int, k: int)
    requires pageSize >= 1
    requires k * pageSize >= total
    ensures TotalPages(total, pageSize) <= k
  {
    var r := TotalPages(total, pageSize);
    if r > k {
      MulMonotone(k, r - 1, pageSize);
      assert false;
    }
  }

  /** Any page after the last one starts beyond the end of the result set. */
  lemma PastLastPageSkipsAll(total: nat, page: int, pageSize: int)
    requires page >= 1 && pageSize >= 1
    requires page > TotalPages(total, pageSize)
    ensures Skip(page, pageSize) >= total
  {
    MulMonotone(TotalPages(total, pageSize), page - 1, pageSize);
  }

  /** The slice `[skip, skip + limit)` of `s`, clamped to its end, as a
      `.skip(skip).limit(limit)` query returns it for a positive limit. */
  function Window<T>(s: seq<T>, skip: nat, limit: nat): (r: seq<T>)
    requires limit >= 1
    ensures |r| <= limit
    ensures |r| == if skip >= |s| then 0 else if limit <= |s| - skip then limit else |s| - skip
    ensures forall i :: 0 <= i < |r| ==> skip + i < |s| && r[i] == s[skip + i]
  {
    if skip >= |s| then [] else s[skip..if skip + limit <= |s| then skip + limit else |s|]
  }

  /** Every item of a result set appears on exactly the page that its index
      selects, and that page is within the page count. */
  lemma WindowCovers<T>(s: seq<T>, pageSize: int, j: nat)
    requires pageSize >= 1 && j < |s|
    ensures 1 <= j / pageSize + 1 <= TotalPages(|s|, pageSize)
    ensures var w := Window(s, Skip(j / pageSize + 1, pageSize), pageSize);
      j % pageSize < |w| && w[j % pageSize] == s[j]
  {
    var q, m := j / pageSize, j % pageSize;
    assert j == q * pageSize + m;
    assert q >= 0 by {
      if q < 0 { MulMonotone(q, -1, pageSize); }
    }
    var r := TotalPages(|s|, pageSize);
    if q + 1 > r {
      MulMonotone(r, q, pageSize);
      assert false;
    }
    assert Skip(q + 1, pageSize) == q * pageSize;
  }

  /** The response model a listing returns. */
  datatype PaginatedResponse<T> = PaginatedResponse(
    items: seq<T>, total: nat, page: int, pageSize: int, totalPages: nat)

  /** `PaginatedResponse.create`: items, total and parameters pass through,
      and the page count is the ceiling of `total / page_size`. */
  function Create<T>(items: seq<T>, total: nat, params: PaginationParams): (r: PaginatedResponse<T>)
    requires params.pageSize >= 1
    ensures r.items == items && r.total == total
    ensures r.page == params.page && r.pageSize == params.pageSize
    ensures r.totalPages * params.pageSize >= total
    ensures total > 0 ==> (r.totalPages - 1) * params.pageSize < total
    ensures total == 0 ==> r.totalPages == 0
  {
    PaginatedResponse(items, total, params.page, params.pageSize, TotalPages(total, params.pageSize))
  }

  /** The keyword arguments the response model requires; it declares no
      defaults and ignores unknown keywords. */
  const ResponseFields: set<string> := {"items", "total", "page", "page_size", "total_pages"}

  /** Validating a response built from the given keywords: it fails with
      the required fields left out. */
  function ValidateKeywords(given: set<string>): (r: Result<(), set<string>>)
    ensures r.Success? <==> ResponseFields <= given
    ensures r.Failure? ==> r.error == ResponseFields - given && r.error != {}
  {
    if ResponseFields <= given then Success(())
    else
      assert ResponseFields - given != {} by {
        var x :| x in ResponseFields && x !in given;
        assert x in ResponseFields - given;
      }
      Failure(ResponseFields - given)
  }

  /** The keywords every listing of the post service passes. */
  const ServiceKeywords: set<string> := {"items", "total", "page", "size", "pages"}

  /** As written, a listing response is rejected for lacking `page_size`
      and `total_pages`, whatever the page holds. */
  lemma ServiceKeywordsRejected()
    ensures ValidateKeywords(ServiceKeywords) == Failure({"page_size", "total_pages"})
  {
    assert "page_size" !in ServiceKeywords && "total_pages" !in ServiceKeywords;
    assert ResponseFields - ServiceKeywords == {"page_size", "total_pages"};
  }

  /** The keywords `Create` passes are exactly the required ones. */
  lemma CreateKeywordsAccepted()
    ensures ValidateKeywords({"items", "total", "page", "page_size", "total_pages"}).Success?
  {
  }
}
