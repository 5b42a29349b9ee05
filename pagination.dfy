/**
 * Pagination of list endpoints: the accepted `page`/`limit` query values,
 * the skip/take window handed to the ORM and the page metadata returned with
 * every list.
 */
module Pagination {
  import opened Common

  /** A query value after number coercion: absent, not a number, or a number. */
  datatype NumberInput = Absent | NotANumber | Number(value: real)

  datatype Page = Page(page: int, limit: int)

  const DefaultPage: int := 1
  const DefaultLimit: int := 25
  const MinLimit: int := 5
  const MaxLimit: int := 50

  predicate ValidPage(p: Page)
  {
    p.page >= 1 && MinLimit <= p.limit <= MaxLimit
  }

  predicate IsInteger(x: real)
  {
    x == x.Floor as real
  }

  /** The first failing check of the `page` schema, in declaration order, or the accepted value. */
  function ParsePageNumber(v: NumberInput): (r: Result<int>)
    ensures r.Ok? <==> v.Absent? || (v.Number? && IsInteger(v.value) && v.value >= 1.0)
    ensures r.Ok? ==> r.value >= 1
    ensures v.Absent? ==> r == Ok(DefaultPage)
    ensures r.Ok? && v.Number? ==> r.value as real == v.value
    ensures r.Err? ==> r.error.HttpError? && r.error.kind == BadRequest
  {
    match v
    case Absent => Ok(DefaultPage)
    case NotANumber => Err(HttpError(BadRequest, "Page must be a number"))
    case Number(x) =>
      if !IsInteger(x) then Err(HttpError(BadRequest, "Page must be an integer"))
      else if x <= 0.0 then Err(HttpError(BadRequest, "Page must be positive"))
      else if x < 1.0 then Err(HttpError(BadRequest, "Page must be greater or equal to 1"))
      else Ok(x.Floor)
  }

  /** The first failing check of the `limit` schema, in declaration order, or the accepted value. */
  function ParseLimitNumber(v: NumberInput): (r: Result<int>)
    ensures r.Ok? <==> v.Absent? || (v.Number? && IsInteger(v.value) && 5.0 <= v.value <= 50.0)
    ensures r.Ok? ==> MinLimit <= r.value <= MaxLimit
    ensures v.Absent? ==> r == Ok(DefaultLimit)
    ensures r.Ok? && v.Number? ==> r.value as real == v.value
    ensures r.Err? ==> r.error.HttpError? && r.error.kind == BadRequest
  {
    match v
    case Absent => Ok(DefaultLimit)
    case NotANumber => Err(HttpError(BadRequest, "Limit must be a number"))
    case Number(x) =>
      if !IsInteger(x) then Err(HttpError(BadRequest, "Limit must be an integer"))
      else if x <= 0.0 then Err(HttpError(BadRequest, "Limit must be positive"))
      else if x < 5.0 then Err(HttpError(BadRequest, "Limit must be greater or equal to 5"))
      else if x > 50.0 then Err(HttpError(BadRequest, "Limit must be less or equal to 50"))
      else Ok(x.Floor)
  }

  /** The pagination query schema: `page` is checked first, then `limit`. */
  function ParsePagination(page: NumberInput, limit: NumberInput): (r: Result<Page>)
    ensures r.Ok? <==> ParsePageNumber(page).Ok? && ParseLimitNumber(limit).Ok?
    ensures r.Ok? ==> ValidPage(r.value)
    ensures ParsePageNumber(page).Err? ==> r == Err(ParsePageNumber(page).error)
  {
    var p :- ParsePageNumber(page);
    var l :- ParseLimitNumber(limit);
    Ok(Page(p, l))
  }

  /** The window handed to the ORM: rows to skip and rows to take. */
  datatype Window = Window(skip: int, take: int)

  function Skip(p: Page): (skip: int)
    requires ValidPage(p)
    ensures skip >= 0
    ensures skip == 0 <==> p.page == 1
  {
    (p.page - 1) * p.limit
  }

  /** The windows of consecutive pages are adjacent: each page starts where the previous one ends. */
  lemma ConsecutiveWindows(p: Page)
    requires ValidPage(p)
    ensures Skip(Page(p.page + 1, p.limit)) == Skip(p) + p.limit
    ensures Skip(Page(1, p.limit)) == 0
  {
  }

  function Use(p: Page): (w: Window)
    requires ValidPage(p)
    ensures w.take == p.limit
    ensures w.skip == Skip(p)
  {
    Window(Skip(p), p.limit)
  }

  datatype Meta = Meta(
    page: int,
    limit: int,
    totalItems: nat,
    totalPages: nat,
    hasNextPage: bool,
    hasPreviousPage: bool,
    nextPage: Option<int>,
    previousPage: Option<int>,
    firstPage: int,
    lastPage: nat)

  /** ⌈n / d⌉ on naturals. */
  function CeilDiv(n: nat, d: nat): (q: nat)
    requires d > 0
    ensures (q - 1) * d < n <= q * d || (n == 0 && q == 0)
    ensures n == 0 <==> q == 0
  {
    if n == 0 then 0
    else
      var k := (n - 1) / d;
      DivBounds(n - 1, d);
      MulSucc(k, d);
      k + 1
  }

  /** The quotient times the divisor is at most the dividend and less than one divisor below it. */
  lemma DivBounds(m: nat, d: nat)
    requires d > 0
    ensures (m / d) * d <= m < (m / d) * d + d
  {
    assert m == (m / d) * d + m % d;
  }

  lemma MulSucc(k: int, d: int)
    ensures (k + 1) * d == k * d + d
  {
  }

  function GetMeta(p: Page, totalItems: nat): (m: Meta)
    requires ValidPage(p)
    ensures m.page == p.page && m.limit == p.limit && m.totalItems == totalItems
    ensures m.totalPages == CeilDiv(totalItems, p.limit)
    ensures m.firstPage == 1 && m.lastPage == m.totalPages
    ensures m.hasNextPage <==> p.page < m.totalPages
    ensures m.hasPreviousPage <==> p.page > 1
    ensures m.nextPage == (if m.hasNextPage then Some(p.page + 1) else None)
    ensures m.previousPage == (if m.hasPreviousPage then Some(p.page - 1) else None)
    ensures totalItems == 0 ==> m.totalPages == 0 && !m.hasNextPage && m.page == p.page
  {
    var totalPages := CeilDiv(totalItems, p.limit);
    var hasNext := p.page < totalPages;
    var hasPrev := p.page > 1;
    Meta(p.page, p.limit, totalItems, totalPages, hasNext, hasPrev,
         if hasNext then Some(p.page + 1) else None,
         if hasPrev then Some(p.page - 1) else None,
         1, totalPages)
  }

  lemma MulMonotone(a: int, b: int, c: int)
    requires a <= b && c >= 0
    ensures a * c <= b * c
  {
    assert b * c - a * c == (b - a) * c;
  }

  /** The pages 1..totalPages are exactly the pages whose window starts inside the item range. */
  lemma {:induction false} PageInRangeIffWindowNonEmpty(p: Page, totalItems: nat)
    requires ValidPage(p)
    ensures p.page <= GetMeta(p, totalItems).totalPages <==> Skip(p) < totalItems
  {
    var q := CeilDiv(totalItems, p.limit);
    if p.page <= q {
      MulMonotone(p.page - 1, q - 1, p.limit);
    } else {
      MulMonotone(q, p.page - 1, p.limit);
    }
  }

  /** There is a next page exactly when some item lies beyond the current window. */
  lemma {:induction false} HasNextIffItemsRemain(p: Page, totalItems: nat)
    requires ValidPage(p)
    ensures GetMeta(p, totalItems).hasNextPage <==> Skip(p) + p.limit < totalItems
  {
    PageInRangeIffWindowNonEmpty(Page(p.page + 1, p.limit), totalItems);
  }

  /** Item `i` (counting from 0) lies on page `i / limit + 1`, at position `i % limit` of that page's window. */
  lemma {:induction false} PageOfItem(i: nat, limit: int)
    requires MinLimit <= limit <= MaxLimit
    ensures var p := Page(i / limit + 1, limit);
            ValidPage(p) && Skip(p) <= i < Skip(p) + limit && i - Skip(p) == i % limit
  {
    var q, r := i / limit, i % limit;
    assert i == q * limit + r && 0 <= r < limit;
    assert Skip(Page(q + 1, limit)) == q * limit;
  }

  /** The page, of the given size, whose window holds item i (counting from 0). */
  function PageOf(i: nat, limit: int): (p: Page)
    requires MinLimit <= limit <= MaxLimit
    ensures ValidPage(p) && p.limit == limit
    ensures Skip(p) <= i < Skip(p) + limit
  {
    PageOfItem(i, limit);
    Page(i / limit + 1, limit)
  }

  datatype Paginated<T> = Paginated(items: seq<T>, meta: Meta)

  function Paginate<T>(p: Page, items: seq<T>, totalItems: nat): (r: Paginated<T>)
    requires ValidPage(p)
    ensures r.items == items
    ensures r.meta == GetMeta(p, totalItems)
  {
    Paginated(items, GetMeta(p, totalItems))
  }
}
