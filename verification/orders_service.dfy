/** `getOrders`: turns a page number into an offset, asks the repository for that page of the
    report, reads each row's sums as numbers (a missing sum reads as 0), adds the stock and
    money balances, and reports the number of pages. */
module OrdersService {
  import opened Wrappers
  import opened Schema
  import opened OrderRepository

  /** `OrdersQuery` as the route hands it over. */
  datatype OrdersQuery = OrdersQuery(
    limit: real,
    page: real,
    categoryId: Option<string>,
    subCategoryId: Option<string>,
    startDate: Option<string>,
    endDate: Option<string>,
    orderId: Option<string>,
    grade: Option<string>,
    minSellTotal: Option<real>,
    maxSellTotal: Option<real>)

  /** One entry of the response's `data`. */
  datatype AggregatedItem = AggregatedItem(
    subCategoryId: string,
    categoryId: string,
    buyQty: real,
    buyTotal: real,
    sellQty: real,
    sellTotal: real,
    stockBalance: real,
    moneyBalance: real,
    orderId: Option<string>,
    orderFinishedDate: Option<string>)

  datatype OrdersResponse = OrdersResponse(
    data: seq<AggregatedItem>,
    totalItems: int,
    totalPages: int,
    currentPage: real)

  /** `(page - 1) * limit`: the rows on the pages before `page`. */
  function Offset(q: OrdersQuery): (offset: real)
    ensures q.page == 1.0 ==> offset == 0.0
    ensures offset + q.limit == q.page * q.limit
  {
    (q.page - 1.0) * q.limit
  }

  /** The query the repository receives: the caller's filters plus the offset. */
  function ToRepositoryQuery(q: OrdersQuery): (rq: RepositoryQuery)
    ensures rq.limit == q.limit && rq.offset == Offset(q)
    ensures rq.categoryId == q.categoryId && rq.subCategoryId == q.subCategoryId
    ensures rq.startDate == q.startDate && rq.endDate == q.endDate
    ensures rq.orderId == q.orderId && rq.grade == q.grade
    ensures rq.minSellTotal == q.minSellTotal && rq.maxSellTotal == q.maxSellTotal
  {
    RepositoryQuery(q.limit, Offset(q), q.categoryId, q.subCategoryId, q.startDate, q.endDate,
                    q.orderId, q.grade, q.minSellTotal, q.maxSellTotal)
  }

  /** `Math.ceil`: the least integer not below `x`. */
  function Ceil(x: real): (c: int)
    ensures (c - 1) as real < x <= c as real
  {
    if x.Floor as real == x then x.Floor else x.Floor + 1
  }

  /** `Math.ceil(totalItems / limit)`: the fewest pages of `limit` rows that hold every group. */
  function TotalPages(totalItems: nat, limit: real): (pages: int)
    requires limit > 0.0
    ensures pages >= 0
    ensures totalItems == 0 ==> pages == 0
    ensures totalItems > 0 ==> (pages - 1) as real * limit < totalItems as real <= pages as real * limit
  {
    var c := Ceil(totalItems as real / limit);
    CeilOfQuotient(totalItems as real, limit, c);
    c
  }

  lemma CeilOfQuotient(n: real, limit: real, c: int)
    requires limit > 0.0 && (c - 1) as real < n / limit <= c as real
    ensures (c - 1) as real * limit < n <= c as real * limit
  {
    var x := n / limit;
    assert x * limit == n;
    MulMonotone((c - 1) as real, x, limit);
    MulMonotoneLe(x, c as real, limit);
  }

  lemma MulMonotone(a: real, b: real, k: real)
    requires a < b && k > 0.0
    ensures a * k < b * k
  {
  }

  lemma MulMonotoneLe(a: real, b: real, k: real)
    requires a <= b && k > 0.0
    ensures a * k <= b * k
  {
  }

  /** `Number(x || 0)` on a numeric column: a NULL sum reads as 0. */
  function NumberOr0(x: Option<real>): (n: real)
    ensures x.Some? ==> n == x.value
    ensures x.None? ==> n == 0.0
  {
    x.GetOr(0.0)
  }

  /** The response entry of one repository row. */
  function Shape(a: AggregateRow): (item: AggregatedItem)
    ensures item.subCategoryId == a.subcategoryId && item.categoryId == a.categoryId
    ensures item.buyQty == NumberOr0(a.buyQty) && item.buyTotal == NumberOr0(a.buyTotal)
    ensures item.sellQty == NumberOr0(a.sellQty) && item.sellTotal == NumberOr0(a.sellTotal)
    ensures item.buyQty == item.sellQty + item.stockBalance
    ensures item.buyTotal == item.sellTotal + item.moneyBalance
    ensures item.orderId == a.orderId && item.orderFinishedDate == a.orderFinishedDate
  {
    var buyQty := NumberOr0(a.buyQty);
    var buyTotal := NumberOr0(a.buyTotal);
    var sellQty := NumberOr0(a.sellQty);
    var sellTotal := NumberOr0(a.sellTotal);
    AggregatedItem(a.subcategoryId, a.categoryId, buyQty, buyTotal, sellQty, sellTotal,
                   buyQty - sellQty, buyTotal - sellTotal, a.orderId, a.orderFinishedDate)
  }

  /** `getOrders` over the joined rows of the store. A failing repository query fails the
      call with the same error. */
  function GetOrders(rows: seq<JoinedRow>, q: OrdersQuery, cast: DateCast): (r: Result<OrdersResponse, QueryError>)
    requires q.limit > 0.0
    ensures var repo := FetchOrders(rows, ToRepositoryQuery(q), cast);
            && (r.Ok? <==> repo.Ok?)
            && (r.Err? ==> r.error == repo.error)
            && (r.Ok? ==>
                && r.value.totalItems == repo.value.totalItems
                && r.value.currentPage == q.page
                && |r.value.data| == |repo.value.rows|
                && (forall i :: 0 <= i < |repo.value.rows| ==> r.value.data[i] == Shape(repo.value.rows[i]))
                && r.value.totalPages == TotalPages(r.value.totalItems, q.limit))
  {
    var repo := FetchOrders(rows, ToRepositoryQuery(q), cast);
    if repo.Err? then Err(repo.error) else Ok(Respond(repo.value, q))
  }

  /** The response built from one page of the report. */
  function Respond(repo: RepositoryResult, q: OrdersQuery): (resp: OrdersResponse)
    requires q.limit > 0.0 && repo.totalItems >= 0
    ensures resp.totalItems == repo.totalItems && resp.currentPage == q.page
    ensures |resp.data| == |repo.rows|
    ensures forall i :: 0 <= i < |repo.rows| ==> resp.data[i] == Shape(repo.rows[i])
    ensures resp.totalPages == TotalPages(repo.totalItems, q.limit)
  {
    OrdersResponse(
      seq(|repo.rows|, i requires 0 <= i < |repo.rows| => Shape(repo.rows[i])),
      repo.totalItems,
      TotalPages(repo.totalItems, q.limit),
      q.page)
  }

  // ---------------------------------------------------------------------------------------
  // Properties of the response.

  /** Each entry carries its group's sums and balances as the report computes them. */
  lemma GetOrdersItems(rows: seq<JoinedRow>, q: OrdersQuery, cast: DateCast, i: int)
    requires q.limit > 0.0 && GetOrders(rows, q, cast).Ok?
    requires 0 <= i < |GetOrders(rows, q, cast).value.data|
    ensures var f := BuildFilters(ToRepositoryQuery(q), cast).value;
            var item := GetOrders(rows, q, cast).value.data[i];
            var s := item.subCategoryId;
            && s == KeptGroups(rows, f)[Offset(q).Floor + i]
            && item.buyQty == GroupSum(rows, f, s, Buy, Quantity)
            && item.sellQty == GroupSum(rows, f, s, Sell, Quantity)
            && item.stockBalance == GroupSum(rows, f, s, Buy, Quantity) - GroupSum(rows, f, s, Sell, Quantity)
            && item.moneyBalance == GroupSum(rows, f, s, Buy, Total) - SellTotal(rows, f, s)
  {
    FetchOrdersRows(rows, ToRepositoryQuery(q), cast, i);
  }

  /** The pages partition the report: with `limit` rows per page, the group at position `j` of
      the full listing appears on page `j / limit + 1`, which is one of the `totalPages` pages,
      at position `j mod limit`. */
  lemma PagesCoverReport(rows: seq<JoinedRow>, q: OrdersQuery, cast: DateCast, limit: nat, j: nat)
    requires limit >= 1 && q.limit == limit as real && GetOrders(rows, q, cast).Ok?
    requires j < GetOrders(rows, q, cast).value.totalItems && j <= MaxBigint
    ensures 1 <= j / limit + 1 <= GetOrders(rows, q, cast).value.totalPages
    ensures var r := GetOrders(rows, q.(page := (j / limit + 1) as real), cast);
            && r.Ok?
            && j % limit < |r.value.data|
            && r.value.data[j % limit].subCategoryId == KeptGroups(rows, BuildFilters(ToRepositoryQuery(q), cast).value)[j]
  {
    var total := GetOrders(rows, q, cast).value.totalItems;
    assert GetOrders(rows, q, cast).value.totalPages == TotalPages(total, q.limit);
    PageOfPosition(j, q.limit, total);
    PageListsPosition(rows, q, cast, limit, j);
  }

  lemma PageListsPosition(rows: seq<JoinedRow>, q: OrdersQuery, cast: DateCast, limit: nat, j: nat)
    requires limit >= 1 && q.limit == limit as real && GetOrders(rows, q, cast).Ok?
    requires j < GetOrders(rows, q, cast).value.totalItems && j <= MaxBigint
    ensures var r := GetOrders(rows, q.(page := (j / limit + 1) as real), cast);
            && r.Ok?
            && j % limit < |r.value.data|
            && r.value.data[j % limit].subCategoryId == KeptGroups(rows, BuildFilters(ToRepositoryQuery(q), cast).value)[j]
  {
    var p := j / limit + 1;
    var offset := (j / limit) * limit;
    DivisionSplits(j, limit);
    RepositoryQueryOfPage(q, p, offset);
    PageAtOffset(rows, q, cast, limit, j, p as real, offset, j % limit);
  }

  /** The page whose offset is `offset` lists position `offset + k` of the report at index `k`. */
  lemma PageAtOffset(rows: seq<JoinedRow>, q: OrdersQuery, cast: DateCast, limit: nat, j: nat, page: real, offset: nat, k: nat)
    requires limit >= 1 && q.limit == limit as real && GetOrders(rows, q, cast).Ok?
    requires j < GetOrders(rows, q, cast).value.totalItems && j <= MaxBigint
    requires Offset(q.(page := page)) == offset as real && j == offset + k && k < limit
    ensures var r := GetOrders(rows, q.(page := page), cast);
            && r.Ok?
            && k < |r.value.data|
            && r.value.data[k].subCategoryId == KeptGroups(rows, BuildFilters(ToRepositoryQuery(q), cast).value)[j]
  {
    var rq := ToRepositoryQuery(q);
    assert ToRepositoryQuery(q.(page := page)) == rq.(offset := offset as real);
    FetchOrdersAtOffset(rows, rq, cast, offset, j, k);
  }

  lemma DivisionSplits(j: nat, n: nat)
    requires n >= 1
    ensures (j / n) * n + j % n == j && 0 <= j % n < n && 0 <= (j / n) * n <= j
  {
  }

  lemma PageOfPosition(j: int, limit: real, total: nat)
    requires limit >= 1.0 && limit.Floor as real == limit && 0 <= j < total
    ensures var n := limit.Floor;
            && 1 <= j / n + 1 <= TotalPages(total, limit)
            && (j / n) * n + j % n == j && 0 <= j % n < n
            && 0 <= (j / n) * n <= j
  {
    var n := limit.Floor;
    var pages := TotalPages(total, limit);
    assert total as real <= pages as real * limit;
    assert (pages * n) as real == pages as real * limit;
    assert (j / n) * n <= j;
    MulCancel(j / n, pages, n);
  }

  lemma RepositoryQueryOfPage(q: OrdersQuery, p: int, offset: int)
    requires q.limit.Floor as real == q.limit && offset == (p - 1) * q.limit.Floor
    ensures Offset(q.(page := p as real)) == offset as real
  {
  }

  lemma MulCancel(a: int, b: int, k: int)
    requires k > 0 && a * k < b * k
    ensures a < b
  {
  }

  /** 25 groups at 10 per page make 3 pages, and the third lists the last 5. */
  lemma ThirdOfThreePages(rows: seq<JoinedRow>, q: OrdersQuery, cast: DateCast)
    requires q.limit == 10.0 && q.page == 3.0 && GetOrders(rows, q, cast).Ok?
    requires GetOrders(rows, q, cast).value.totalItems == 25
    ensures GetOrders(rows, q, cast).value.totalPages == 3
    ensures |GetOrders(rows, q, cast).value.data| == 5
  {
    assert (10.0).Floor == 10 && (20.0).Floor == 20;
  }

  /** The buy of 10 for 100 and the sell of 4 for 50 leave a stock balance of 6 and a money
      balance of 50 on a single page. */
  lemma BalancesExample(cast: DateCast)
    ensures var q := OrdersQuery(10.0, 1.0, None, None, None, None, None, None, Some(0.0), Some(MaxSafeInteger));
            GetOrders([JoinedRow("S1", "C1", "A", Buy, "B-1", None, 10.0, 100.0),
                       JoinedRow("S1", "C1", "A", Sell, "S-1", None, 4.0, 50.0)], q, cast) ==
            Ok(OrdersResponse([AggregatedItem("S1", "C1", 10.0, 100.0, 4.0, 50.0, 6.0, 50.0, Some("S-1"), None)], 1, 1, 1.0))
  {
    var q := OrdersQuery(10.0, 1.0, None, None, None, None, None, None, Some(0.0), Some(MaxSafeInteger));
    var rows := [JoinedRow("S1", "C1", "A", Buy, "B-1", None, 10.0, 100.0),
                 JoinedRow("S1", "C1", "A", Sell, "S-1", None, 4.0, 50.0)];
    assert ToRepositoryQuery(q) == DefaultQuery.(minSellTotal := Some(0.0), maxSellTotal := Some(MaxSafeInteger));
    assert BuildFilters(ToRepositoryQuery(q), cast) == BuildFilters(DefaultQuery, cast);
    BuyAndSellExample(cast);
    assert FetchOrders(rows, ToRepositoryQuery(q), cast) == FetchOrders(rows, DefaultQuery, cast);
    var a := AggregateRow("S1", "C1", Some(10.0), Some(100.0), Some(4.0), Some(50.0), Some("S-1"), None);
    assert Shape(a) == AggregatedItem("S1", "C1", 10.0, 100.0, 4.0, 50.0, 6.0, 50.0, Some("S-1"), None);
    assert (0.1).Floor == 0;
    assert TotalPages(1, 10.0) == 1;
    var repo := RepositoryResult([a], 1);
    assert Respond(repo, q).data == [Shape(a)];
  }
}
