/**
 * The pagination planner: normalises the page and limit of a list query,
 * derives the number of rows to skip, and computes the metadata that goes
 * with one page of results.
 */
module Pagination {
  import opened Wrappers

  /** Largest page size a client may ask for. */
  const MaxLimit: int := 100
  /** Page size used when the query gives none (or 0). */
  const DefaultLimit: int := 10

  datatype SortOrder = Asc | Desc

  /** A list query as it arrives; absent fields are None. */
  datatype PaginationQuery = PaginationQuery(
    page: Option<int>,
    limit: Option<int>,
    sortBy: Option<string>,
    sortOrder: Option<SortOrder>)

  datatype PaginationParams = PaginationParams(
    page: int,
    limit: int,
    skip: int,
    sortBy: Option<string>,
    sortOrder: SortOrder)

  datatype PaginationMeta = PaginationMeta(
    total: int,
    page: int,
    limit: int,
    totalPages: int,
    hasNextPage: bool,
    hasPreviousPage: bool)

  datatype PaginatedResult<T> = PaginatedResult(data: seq<T>, meta: PaginationMeta)

  /** The JavaScript `v || d` on a number: an absent value and 0 are both falsy. */
  function OrElse(v: Option<int>, d: int): (r: int)
    ensures v.None? ==> r == d
    ensures v.Some? && v.value == 0 ==> r == d
    ensures v.Some? && v.value != 0 ==> r == v.value
  {
    if v.None? || v.value == 0 then d else v.value
  }

  function Max(a: int, b: int): (m: int) { if a < b then b else a }
  function Min(a: int, b: int): (m: int) { if a < b then a else b }

  /** Ceiling division of a non-negative count by a positive divisor. */
  function CeilDiv(n: nat, d: int): (r: nat)
    requires d >= 1
    ensures (r - 1) * d < n <= r * d
  {
    var q := (n + d - 1) / d;
    assert q * d <= n + d - 1 < q * d + d;
    q
  }

  /** The page the planner uses: at least 1, 1 when missing. */
  function NormalPage(page: Option<int>): (p: int)
    ensures p >= 1
    ensures (page.None? || page.value <= 0) ==> p == 1
    ensures page.Some? && page.value > 0 ==> p == page.value
  {
    Max(1, OrElse(page, 1))
  }

  /** The page size the planner uses: within [1, 100], 10 when missing or 0. */
  function NormalLimit(limit: Option<int>): (l: int)
    ensures 1 <= l <= MaxLimit
    ensures (limit.None? || limit.value == 0) ==> l == DefaultLimit
    ensures limit.Some? && limit.value > MaxLimit ==> l == MaxLimit
    ensures limit.Some? && limit.value < 0 ==> l == 1
    ensures limit.Some? && 1 <= limit.value <= MaxLimit ==> l == limit.value
  {
    Max(1, Min(MaxLimit, OrElse(limit, DefaultLimit)))
  }

  /** Normalised parameters of a list query. */
  function GetPaginationParams(query: PaginationQuery): (p: PaginationParams)
    ensures p.page >= 1 && 1 <= p.limit <= MaxLimit
    ensures p.page == NormalPage(query.page) && p.limit == NormalLimit(query.limit)
    ensures p.skip >= 0 && p.skip % p.limit == 0 && p.skip / p.limit == p.page - 1
    ensures p.sortBy == query.sortBy
    ensures p.sortOrder == query.sortOrder.GetOr(Desc)
  {
    var page := NormalPage(query.page);
    var limit := NormalLimit(query.limit);
    var skip := (page - 1) * limit;
    assert skip / limit == page - 1 && skip % limit == 0 by { DivMulExact(page - 1, limit); }
    PaginationParams(page, limit, skip, query.sortBy, query.sortOrder.GetOr(Desc))
  }

  lemma DivMulExact(k: nat, d: int)
    requires d >= 1
    ensures (k * d) / d == k && (k * d) % d == 0
  {
    var q, r := (k * d) / d, (k * d) % d;
    assert k * d == q * d + r && 0 <= r < d;
    assert (k - q) * d == r;
    if k - q >= 1 {
      MulMono(1, k - q, d);
    } else if k - q <= -1 {
      MulMono(k - q, -1, d);
    }
  }

  /** Metadata for one page of a listing of `total` rows. */
  function CreateMeta(total: nat, page: int, limit: int): (m: PaginationMeta)
    requires limit >= 1
    ensures m.total == total && m.page == page && m.limit == limit
    ensures m.totalPages >= 0
    ensures (m.totalPages - 1) * limit < total <= m.totalPages * limit
    ensures m.hasNextPage <==> page < m.totalPages
    ensures m.hasPreviousPage <==> page > 1
  {
    var totalPages := CeilDiv(total, limit);
    PaginationMeta(total, page, limit, totalPages, page < totalPages, page > 1)
  }

  /** One page of rows together with its metadata. */
  function CreatePaginatedResult<T>(data: seq<T>, total: nat, params: PaginationParams): (r: PaginatedResult<T>)
    requires params.limit >= 1
    ensures r.data == data
    ensures r.meta.total == total && r.meta.page == params.page && r.meta.limit == params.limit
    ensures r.meta == CreateMeta(total, params.page, params.limit)
  {
    PaginatedResult(data, CreateMeta(total, params.page, params.limit))
  }

  /** The page count is the ceiling of total / limit: any other count is wrong. */
  lemma {:induction false} TotalPagesUnique(total: nat, limit: int, t: int)
    requires limit >= 1
    requires (t - 1) * limit < total <= t * limit
    ensures t == CreateMeta(total, 1, limit).totalPages
  {
    var c := CreateMeta(total, 1, limit).totalPages;
    if t < c {
      assert t * limit <= (c - 1) * limit by { MulMono(t, c - 1, limit); }
    } else if t > c {
      assert c * limit <= (t - 1) * limit by { MulMono(c, t - 1, limit); }
    }
  }

  lemma MulMono(a: int, b: int, d: int)
    requires a <= b && d >= 1
    ensures a * d <= b * d
  {
  }

  /** No rows mean no pages, and from a real page there is no next page. */
  lemma EmptyListing(page: int, limit: int)
    requires limit >= 1 && page >= 1
    ensures CreateMeta(0, page, limit).totalPages == 0
    ensures !CreateMeta(0, page, limit).hasNextPage
    ensures CreateMeta(0, page, limit).hasPreviousPage == (page > 1)
  {
  }

  lemma TwentyFiveRowsTenPerPage()
    ensures CreateMeta(25, 1, 10).totalPages == 3
    ensures CreateMeta(25, 3, 10).hasNextPage == false
    ensures CreateMeta(25, 2, 10).hasNextPage && CreateMeta(25, 2, 10).hasPreviousPage
  {
    assert CeilDiv(25, 10) == 3;
  }

  /**
   * For normalised parameters, "there is a next page" means exactly that some
   * row lies beyond the current window, and "there is a previous page" that
   * the window skips some rows.
   */
  lemma {:induction false} NextPageMeansRowsBeyond(total: nat, params: PaginationParams)
    requires params.page >= 1 && params.limit >= 1
    requires params.skip == (params.page - 1) * params.limit
    ensures CreateMeta(total, params.page, params.limit).hasNextPage
            <==> params.skip + params.limit < total
    ensures CreateMeta(total, params.page, params.limit).hasPreviousPage <==> params.skip > 0
  {
    var m := CreateMeta(total, params.page, params.limit);
    var p, l, t := params.page, params.limit, m.totalPages;
    assert params.skip + l == p * l;
    if p < t {
      MulMono(p, t - 1, l);
    } else {
      MulMono(t, p, l);
    }
    if p > 1 {
      MulMono(1, p - 1, l);
    }
  }

  /**
   * Every row of a listing lies on exactly one page: the row at index i is
   * on page i / limit + 1, at position i % limit, and that page exists.
   */
  lemma {:induction false} RowOnItsPage(total: nat, limit: int, i: nat)
    requires limit >= 1 && i < total
    ensures var page := i / limit + 1;
            && (page - 1) * limit <= i < (page - 1) * limit + limit
            && i - (page - 1) * limit == i % limit
            && 1 <= page <= CreateMeta(total, page, limit).totalPages
  {
    var page := i / limit + 1;
    var t := CreateMeta(total, page, limit).totalPages;
    assert (page - 1) * limit == (i / limit) * limit;
    if page > t {
      MulMono(t, page - 1, limit);
    }
  }
}
