/** `fetchOrdersFromDB`: the report over order items joined with their orders. Rows pass the
    optional filters; the passing rows are grouped by subcategory; each group sums buy and
    sell quantities and totals, takes the least category id and its latest order; groups
    whose sell total lies in `[minSell, maxSell]` are kept, listed by subcategory id and
    paged with LIMIT/OFFSET; a second query counts the kept groups. */
module OrderRepository {
  import opened Wrappers
  import opened Schema
  import opened Collation
  import opened Like

  /** One row of `order_items oi JOIN orders o ON o.id = oi.order_id`, with the columns the
      report reads. */
  datatype JoinedRow = JoinedRow(
    subcategoryId: string,
    categoryId: string,
    grade: string,
    orderType: OrderType,
    externalOrderId: string,
    orderFinishedDate: Option<string>,
    quantity: real,
    total: real)

  /** `OrdersQuery & { offset }` as the repository receives it. */
  datatype RepositoryQuery = RepositoryQuery(
    limit: real,
    offset: real,
    categoryId: Option<string>,
    subCategoryId: Option<string>,
    startDate: Option<string>,
    endDate: Option<string>,
    orderId: Option<string>,
    grade: Option<string>,
    minSellTotal: Option<real>,
    maxSellTotal: Option<real>)

  /** `Number.MAX_SAFE_INTEGER` */
  const MaxSafeInteger: real := 9007199254740991.0

  /** The largest PostgreSQL `bigint`, the type of a LIMIT or OFFSET parameter. */
  const MaxBigint: int := 9223372036854775807

  /** PostgreSQL's `text::date` cast: the canonical `YYYY-MM-DD` text of the date, or `None`
      when the text is not a date (the query then fails). */
  type DateCast = string -> Option<string>

  datatype Filters = Filters(
    catId: Option<string>,
    subCatId: Option<string>,
    grade: Option<string>,
    orderLike: Option<string>,
    start: Option<string>,
    end: Option<string>,
    minSell: real,
    maxSell: real)

  datatype QueryError = InvalidDate(text: string) | InvalidLimit(limit: real) | InvalidOffset(offset: real)

  function CastDate(v: Option<string>, cast: DateCast): (r: Result<Option<string>, QueryError>)
    ensures v.None? ==> r == Ok(None)
    ensures v.Some? && cast(v.value).None? ==> r == Err(InvalidDate(v.value))
    ensures v.Some? && cast(v.value).Some? ==> r == Ok(cast(v.value))
  {
    match v
    case None => Ok(None)
    case Some(text) => if cast(text).None? then Err(InvalidDate(text)) else Ok(cast(text))
  }

  /** The `filters` object and the parameter casts of the WHERE clause. */
  function BuildFilters(q: RepositoryQuery, cast: DateCast): (r: Result<Filters, QueryError>)
    ensures r.Ok? <==> (q.startDate.None? || cast(q.startDate.value).Some?) &&
                       (q.endDate.None? || cast(q.endDate.value).Some?)
    ensures r.Ok? ==> r.value.catId == q.categoryId && r.value.subCatId == q.subCategoryId &&
                      r.value.grade == q.grade
    ensures r.Ok? ==> (r.value.orderLike.Some? <==> q.orderId.Some? && q.orderId.value != "")
    ensures r.Ok? && r.value.orderLike.Some? ==> r.value.orderLike.value == ContainsPattern(q.orderId.value)
    ensures r.Ok? ==> r.value.minSell == q.minSellTotal.GetOr(0.0) && r.value.maxSell == q.maxSellTotal.GetOr(MaxSafeInteger)
  {
    var start :- CastDate(q.startDate, cast);
    var end :- CastDate(q.endDate, cast);
    Ok(Filters(
      q.categoryId, q.subCategoryId, q.grade,
      if q.orderId.Some? && q.orderId.value != "" then Some(ContainsPattern(q.orderId.value)) else None,
      start, end,
      q.minSellTotal.GetOr(0.0), q.maxSellTotal.GetOr(MaxSafeInteger)))
  }

  /** The WHERE clause. A NULL filter imposes nothing; a comparison with a NULL date is not
      true, so a date bound excludes rows without a date. */
  predicate RowPasses(r: JoinedRow, f: Filters)
  {
    && (f.catId.None? || r.categoryId == f.catId.value)
    && (f.subCatId.None? || r.subcategoryId == f.subCatId.value)
    && (f.grade.None? || r.grade == f.grade.value)
    && (f.orderLike.None? || ILike(r.externalOrderId, f.orderLike.value) == Some(true))
    && (f.start.None? || (r.orderFinishedDate.Some? && Le(f.start.value, r.orderFinishedDate.value)))
    && (f.end.None? || (r.orderFinishedDate.Some? && Le(r.orderFinishedDate.value, f.end.value)))
  }

  predicate InGroup(r: JoinedRow, f: Filters, s: string)
  {
    RowPasses(r, f) && r.subcategoryId == s
  }

  /** The subcategory ids of the passing rows: the groups of `GROUP BY sub_category_id`. */
  function GroupIds(rows: seq<JoinedRow>, f: Filters): set<string>
  {
    set r | r in rows && RowPasses(r, f) :: r.subcategoryId
  }

  datatype Measure = Quantity | Total

  function Amount(r: JoinedRow, m: Measure): real
  {
    if m == Quantity then r.quantity else r.total
  }

  /** `COALESCE(SUM(<measure>) FILTER (WHERE order_type = <t>), 0)` over group `s`. */
  function GroupSum(rows: seq<JoinedRow>, f: Filters, s: string, t: OrderType, m: Measure): real
    decreases |rows|
  {
    if |rows| == 0 then 0.0
    else GroupSum(rows[..|rows| - 1], f, s, t, m) + Contribution(rows[|rows| - 1], f, s, t, m)
  }

  /** What row `x` adds to a sum. */
  function Contribution(x: JoinedRow, f: Filters, s: string, t: OrderType, m: Measure): real
  {
    if InGroup(x, f, s) && x.orderType == t then Amount(x, m) else 0.0
  }

  function SellTotal(rows: seq<JoinedRow>, f: Filters, s: string): real
  {
    GroupSum(rows, f, s, Sell, Total)
  }

  /** The HAVING clause: `sell_total BETWEEN minSell AND maxSell`, both ends included. */
  predicate Kept(rows: seq<JoinedRow>, f: Filters, s: string)
  {
    f.minSell <= SellTotal(rows, f, s) <= f.maxSell
  }

  /** The kept groups in `ORDER BY sub_category_id` order. */
  function KeptGroups(rows: seq<JoinedRow>, f: Filters): seq<string>
  {
    SortedKeys(set s | s in GroupIds(rows, f) && Kept(rows, f, s))
  }

  /** `MIN(category_id)` over group `s`. */
  function MinCategory(rows: seq<JoinedRow>, f: Filters, s: string): (c: string)
    requires s in GroupIds(rows, f)
    ensures exists r :: r in rows && InGroup(r, f, s) && r.categoryId == c
    ensures forall r :: r in rows && InGroup(r, f, s) ==> Le(c, r.categoryId)
  {
    var cats := set r | r in rows && InGroup(r, f, s) :: r.categoryId;
    var w :| w in rows && RowPasses(w, f) && w.subcategoryId == s;
    assert w.categoryId in cats;
    Least(cats)
  }

  // ---------------------------------------------------------------------------------------
  // The latest order of a group: the first row under
  // `ORDER BY order_finished_date DESC, external_order_id DESC`, where DESC puts NULL first.

  datatype OrderRef = OrderRef(orderFinishedDate: Option<string>, externalOrderId: string)

  function RefOf(r: JoinedRow): OrderRef
  {
    OrderRef(r.orderFinishedDate, r.externalOrderId)
  }

  /** Date `a` sorts strictly before date `b` under DESC with NULLs first. */
  predicate DateBefore(a: Option<string>, b: Option<string>)
  {
    (a.None? && b.Some?) || (a.Some? && b.Some? && Lt(b.value, a.value))
  }

  /** `a` sorts no later than `b`. */
  predicate SortsFirst(a: OrderRef, b: OrderRef)
  {
    DateBefore(a.orderFinishedDate, b.orderFinishedDate) ||
    (a.orderFinishedDate == b.orderFinishedDate && Le(b.externalOrderId, a.externalOrderId))
  }

  lemma SortsFirstReflexive(a: OrderRef)
    ensures SortsFirst(a, a)
  {
    LeReflexive(a.externalOrderId);
  }

  lemma LtTransitive(a: string, b: string, c: string)
    requires Lt(a, b) && Lt(b, c)
    ensures Lt(a, c)
  {
    LeTransitive(a, b, c);
    if a == c {
      LeAntisymmetric(a, b);
    }
  }

  lemma SortsFirstTransitive(a: OrderRef, b: OrderRef, c: OrderRef)
    requires SortsFirst(a, b) && SortsFirst(b, c)
    ensures SortsFirst(a, c)
  {
    var da, db, dc := a.orderFinishedDate, b.orderFinishedDate, c.orderFinishedDate;
    if DateBefore(da, db) && DateBefore(db, dc) {
      if da.Some? {
        LtTransitive(dc.value, db.value, da.value);
      }
    } else if !DateBefore(da, db) && !DateBefore(db, dc) {
      LeTransitive(c.externalOrderId, b.externalOrderId, a.externalOrderId);
    }
  }

  lemma SortsFirstTotal(a: OrderRef, b: OrderRef)
    ensures SortsFirst(a, b) || SortsFirst(b, a)
  {
    var da, db := a.orderFinishedDate, b.orderFinishedDate;
    if da == db {
      LeTotal(a.externalOrderId, b.externalOrderId);
    } else if da.Some? && db.Some? {
      LeTotal(da.value, db.value);
    }
  }

  lemma SortsFirstAntisymmetric(a: OrderRef, b: OrderRef)
    requires SortsFirst(a, b) && SortsFirst(b, a)
    ensures a == b
  {
    var da, db := a.orderFinishedDate, b.orderFinishedDate;
    if DateBefore(da, db) && DateBefore(db, da) {
      LeAntisymmetric(da.value, db.value);
    } else {
      LeAntisymmetric(a.externalOrderId, b.externalOrderId);
    }
  }

  /** `DISTINCT ON (sub_category_id)` of the ordered rows: the first row of group `s`. */
  function Latest(rows: seq<JoinedRow>, f: Filters, s: string): Option<OrderRef>
    decreases |rows|
  {
    if |rows| == 0 then None
    else
      var earlier := Latest(rows[..|rows| - 1], f, s);
      var last := rows[|rows| - 1];
      if !InGroup(last, f, s) then earlier
      else if earlier.Some? && SortsFirst(earlier.value, RefOf(last)) then earlier
      else Some(RefOf(last))
  }

  /** The latest order is that of a row of the group, and no row of the group sorts before it. */
  lemma {:induction false} LatestIsFirst(rows: seq<JoinedRow>, f: Filters, s: string)
    ensures Latest(rows, f, s).None? <==> forall i :: 0 <= i < |rows| ==> !InGroup(rows[i], f, s)
    ensures Latest(rows, f, s).Some? ==>
              exists i :: 0 <= i < |rows| && InGroup(rows[i], f, s) && RefOf(rows[i]) == Latest(rows, f, s).value
    ensures Latest(rows, f, s).Some? ==>
              forall i :: 0 <= i < |rows| && InGroup(rows[i], f, s) ==> SortsFirst(Latest(rows, f, s).value, RefOf(rows[i]))
    decreases |rows|
  {
    if |rows| > 0 {
      var prefix := rows[..|rows| - 1];
      var earlier := Latest(prefix, f, s);
      var last := rows[|rows| - 1];
      var r := Latest(rows, f, s);
      LatestIsFirst(prefix, f, s);
      forall i | 0 <= i < |prefix|
        ensures prefix[i] == rows[i]
      {
      }
      if InGroup(last, f, s) {
        SortsFirstReflexive(RefOf(last));
        if earlier.Some? {
          SortsFirstTotal(earlier.value, RefOf(last));
          forall i | 0 <= i < |prefix| && InGroup(rows[i], f, s)
            ensures SortsFirst(r.value, RefOf(rows[i]))
          {
            if r.value != earlier.value {
              SortsFirstTransitive(r.value, earlier.value, RefOf(rows[i]));
            }
          }
        }
      }
    }
  }

  // ---------------------------------------------------------------------------------------
  // The result rows.

  /** One row of the data query. The numeric columns and the latest order are nullable in
      the result type; the query always fills the numeric ones. */
  datatype AggregateRow = AggregateRow(
    subcategoryId: string,
    categoryId: string,
    buyQty: Option<real>,
    buyTotal: Option<real>,
    sellQty: Option<real>,
    sellTotal: Option<real>,
    orderId: Option<string>,
    orderFinishedDate: Option<string>)

  /** The `agg` row of group `s` left-joined with its `latest` row. */
  function Aggregate(rows: seq<JoinedRow>, f: Filters, s: string): AggregateRow
    requires s in GroupIds(rows, f)
  {
    var latest := Latest(rows, f, s);
    AggregateRow(
      s, MinCategory(rows, f, s),
      Some(GroupSum(rows, f, s, Buy, Quantity)), Some(GroupSum(rows, f, s, Buy, Total)),
      Some(GroupSum(rows, f, s, Sell, Quantity)), Some(GroupSum(rows, f, s, Sell, Total)),
      if latest.Some? then Some(latest.value.externalOrderId) else None,
      if latest.Some? then latest.value.orderFinishedDate else None)
  }

  /** A LIMIT or OFFSET parameter PostgreSQL accepts: a whole number that fits a `bigint`
      and is not negative. */
  predicate ValidRowCount(x: real)
  {
    x == x.Floor as real && 0 <= x.Floor <= MaxBigint
  }

  /** `LIMIT limit OFFSET offset` */
  function Page<T>(xs: seq<T>, offset: nat, limit: nat): (page: seq<T>)
    ensures |page| <= limit
    ensures offset <= |xs| ==> |page| == if offset + limit <= |xs| then limit else |xs| - offset
    ensures offset >= |xs| ==> page == []
    ensures forall i :: 0 <= i < |page| ==> offset + i < |xs| && page[i] == xs[offset + i]
  {
    if offset >= |xs| then [] else if offset + limit <= |xs| then xs[offset..offset + limit] else xs[offset..]
  }

  datatype RepositoryResult = RepositoryResult(rows: seq<AggregateRow>, totalItems: int)

  /** The data query and the count query over the same joined rows. */
  function FetchOrders(rows: seq<JoinedRow>, q: RepositoryQuery, cast: DateCast): (r: Result<RepositoryResult, QueryError>)
    ensures r.Ok? <==> BuildFilters(q, cast).Ok? && ValidRowCount(q.limit) && ValidRowCount(q.offset)
    ensures r.Ok? ==> r.value.totalItems == |KeptGroups(rows, BuildFilters(q, cast).value)|
    ensures r.Ok? ==> |r.value.rows| <= q.limit.Floor && |r.value.rows| <= r.value.totalItems
    ensures r.Ok? ==> |r.value.rows| == if r.value.totalItems <= q.offset.Floor then 0
                                       else if q.offset.Floor + q.limit.Floor <= r.value.totalItems then q.limit.Floor
                                       else r.value.totalItems - q.offset.Floor
    ensures r.Ok? ==> forall i :: 0 <= i < |r.value.rows| ==>
              q.offset.Floor + i < r.value.totalItems &&
              r.value.rows[i].subcategoryId == KeptGroups(rows, BuildFilters(q, cast).value)[q.offset.Floor + i]
  {
    var f :- BuildFilters(q, cast);
    if !ValidRowCount(q.limit) then Err(InvalidLimit(q.limit))
    else if !ValidRowCount(q.offset) then Err(InvalidOffset(q.offset))
    else
      var kept := KeptGroups(rows, f);
      var page := Page(kept, q.offset.Floor, q.limit.Floor);
      assert forall i :: 0 <= i < |page| ==> page[i] in kept;
      var out := seq(|page|, i requires 0 <= i < |page| => Aggregate(rows, f, page[i]));
      assert forall i :: 0 <= i < |page| ==> out[i].subcategoryId == page[i] == kept[q.offset.Floor + i];
      Ok(RepositoryResult(out, |kept|))
  }

  // ---------------------------------------------------------------------------------------
  // Properties of the report.

  /** A group is listed (and counted) exactly when some passing row belongs to it and its
      sell total lies in the inclusive range. */
  lemma KeptGroupsMeaning(rows: seq<JoinedRow>, f: Filters, s: string)
    ensures s in KeptGroups(rows, f) <==>
            (exists r :: r in rows && InGroup(r, f, s)) && f.minSell <= SellTotal(rows, f, s) <= f.maxSell
  {
    if exists r :: r in rows && InGroup(r, f, s) {
      var r :| r in rows && InGroup(r, f, s);
      assert r.subcategoryId in GroupIds(rows, f);
    }
  }

  /** The listed groups come in strictly ascending subcategory order, so no group appears twice. */
  lemma FetchOrdersSorted(rows: seq<JoinedRow>, q: RepositoryQuery, cast: DateCast)
    requires FetchOrders(rows, q, cast).Ok?
    ensures var page := FetchOrders(rows, q, cast).value.rows;
            forall i, j :: 0 <= i < j < |page| ==> Lt(page[i].subcategoryId, page[j].subcategoryId)
  {
    var kept := KeptGroups(rows, BuildFilters(q, cast).value);
    var page := FetchOrders(rows, q, cast).value.rows;
    forall i, j | 0 <= i < j < |page|
      ensures Lt(page[i].subcategoryId, page[j].subcategoryId)
    {
      assert page[i].subcategoryId == kept[q.offset.Floor + i];
      assert page[j].subcategoryId == kept[q.offset.Floor + j];
    }
  }

  /** The group at position `j` of the full listing is on the page whose window covers `j`. */
  lemma FetchOrdersPosition(rows: seq<JoinedRow>, q: RepositoryQuery, cast: DateCast, j: int)
    requires FetchOrders(rows, q, cast).Ok?
    requires q.offset.Floor <= j < q.offset.Floor + q.limit.Floor && j < FetchOrders(rows, q, cast).value.totalItems
    ensures j - q.offset.Floor < |FetchOrders(rows, q, cast).value.rows|
    ensures FetchOrders(rows, q, cast).value.rows[j - q.offset.Floor].subcategoryId ==
            KeptGroups(rows, BuildFilters(q, cast).value)[j]
  {
  }

  /** Asking for the page at `offset` instead finds position `offset + k` of the report at
      index `k`, whenever that position exists and `k` is below the limit. */
  lemma FetchOrdersAtOffset(rows: seq<JoinedRow>, q: RepositoryQuery, cast: DateCast, offset: nat, j: nat, k: nat)
    requires FetchOrders(rows, q, cast).Ok?
    requires j < FetchOrders(rows, q, cast).value.totalItems && j <= MaxBigint
    requires j == offset + k && k < q.limit.Floor
    ensures var r := FetchOrders(rows, q.(offset := offset as real), cast);
            && r.Ok?
            && k < |r.value.rows|
            && r.value.rows[k].subcategoryId == KeptGroups(rows, BuildFilters(q, cast).value)[j]
  {
    var f := BuildFilters(q, cast).value;
    TotalIsKept(rows, q, cast);
    ShiftedQuery(q, cast, f, offset, j);
    PageEntry(rows, q.(offset := offset as real), cast, f, k);
  }

  lemma TotalIsKept(rows: seq<JoinedRow>, q: RepositoryQuery, cast: DateCast)
    requires FetchOrders(rows, q, cast).Ok?
    ensures BuildFilters(q, cast).Ok? && ValidRowCount(q.limit)
    ensures FetchOrders(rows, q, cast).value.totalItems == |KeptGroups(rows, BuildFilters(q, cast).value)|
  {
  }

  /** Moving a valid query to another offset no larger than `MaxBigint` keeps it valid. */
  lemma ShiftedQuery(q: RepositoryQuery, cast: DateCast, f: Filters, offset: nat, j: nat)
    requires BuildFilters(q, cast) == Ok(f) && ValidRowCount(q.limit)
    requires offset <= j <= MaxBigint
    ensures BuildFilters(q.(offset := offset as real), cast) == Ok(f)
    ensures ValidRowCount(q.(offset := offset as real).limit) && ValidRowCount(q.(offset := offset as real).offset)
    ensures q.(offset := offset as real).offset.Floor == offset
  {
    FiltersIgnoreOffset(q, cast, offset as real);
  }

  /** Index `k` of a page holds the kept group at the page's offset plus `k`. */
  lemma PageEntry(rows: seq<JoinedRow>, q: RepositoryQuery, cast: DateCast, f: Filters, k: nat)
    requires BuildFilters(q, cast) == Ok(f) && ValidRowCount(q.limit) && ValidRowCount(q.offset)
    requires k < q.limit.Floor && q.offset.Floor + k < |KeptGroups(rows, f)|
    ensures var r := FetchOrders(rows, q, cast);
            && r.Ok? && k < |r.value.rows|
            && r.value.rows[k].subcategoryId == KeptGroups(rows, f)[q.offset.Floor + k]
  {
  }

  /** The filters do not depend on the page asked for. */
  lemma FiltersIgnoreOffset(q: RepositoryQuery, cast: DateCast, offset: real)
    ensures BuildFilters(q.(offset := offset), cast) == BuildFilters(q, cast)
  {
  }

  /** The count does not depend on the page asked for. */
  lemma CountIgnoresPaging(rows: seq<JoinedRow>, q: RepositoryQuery, limit: real, offset: real, cast: DateCast)
    requires FetchOrders(rows, q, cast).Ok?
    requires FetchOrders(rows, q.(limit := limit, offset := offset), cast).Ok?
    ensures FetchOrders(rows, q.(limit := limit, offset := offset), cast).value.totalItems ==
            FetchOrders(rows, q, cast).value.totalItems
  {
    assert BuildFilters(q.(limit := limit, offset := offset), cast) == BuildFilters(q, cast);
  }

  /** The count is the number of rows the data query returns when it is not cut short. */
  lemma CountMatchesData(rows: seq<JoinedRow>, q: RepositoryQuery, cast: DateCast)
    requires FetchOrders(rows, q, cast).Ok?
    requires q.offset == 0.0 && FetchOrders(rows, q, cast).value.totalItems <= q.limit.Floor
    ensures |FetchOrders(rows, q, cast).value.rows| == FetchOrders(rows, q, cast).value.totalItems
  {
  }

  /** Each listed row carries its group's sums by order type, the least category id of the
      group, and the order of a row of the group that no other row of the group sorts before. */
  lemma FetchOrdersRows(rows: seq<JoinedRow>, q: RepositoryQuery, cast: DateCast, i: int)
    requires FetchOrders(rows, q, cast).Ok?
    requires 0 <= i < |FetchOrders(rows, q, cast).value.rows|
    ensures var f := BuildFilters(q, cast).value;
            var a := FetchOrders(rows, q, cast).value.rows[i];
            var s := a.subcategoryId;
            && a.buyQty == Some(GroupSum(rows, f, s, Buy, Quantity))
            && a.buyTotal == Some(GroupSum(rows, f, s, Buy, Total))
            && a.sellQty == Some(GroupSum(rows, f, s, Sell, Quantity))
            && a.sellTotal == Some(SellTotal(rows, f, s))
            && f.minSell <= SellTotal(rows, f, s) <= f.maxSell
            && (exists r :: r in rows && InGroup(r, f, s) && r.categoryId == a.categoryId)
            && (forall r :: r in rows && InGroup(r, f, s) ==> Le(a.categoryId, r.categoryId))
            && a.orderId.Some?
            && (exists r :: r in rows && InGroup(r, f, s) &&
                  r.externalOrderId == a.orderId.value && r.orderFinishedDate == a.orderFinishedDate)
            && (forall j :: 0 <= j < |rows| && InGroup(rows[j], f, s) ==>
                  SortsFirst(OrderRef(a.orderFinishedDate, a.orderId.value), RefOf(rows[j])))
  {
    var f := BuildFilters(q, cast).value;
    var kept := KeptGroups(rows, f);
    var s := kept[q.offset.Floor + i];
    assert s in kept;
    var a := FetchOrders(rows, q, cast).value.rows[i];
    assert a == Aggregate(rows, f, s);
    LatestIsFirst(rows, f, s);
    var w :| w in rows && RowPasses(w, f) && w.subcategoryId == s;
    var k :| 0 <= k < |rows| && rows[k] == w;
    var j :| 0 <= j < |rows| && InGroup(rows[j], f, s) && RefOf(rows[j]) == Latest(rows, f, s).value;
    assert rows[j] in rows;
  }

  /** A sum over order type `t` counts only rows of type `t`: a group without such rows sums
      to 0, as `COALESCE(…, 0)` makes it. */
  lemma {:induction false} GroupSumWithoutType(rows: seq<JoinedRow>, f: Filters, s: string, t: OrderType, m: Measure)
    requires forall r :: r in rows && InGroup(r, f, s) ==> r.orderType != t
    ensures GroupSum(rows, f, s, t, m) == 0.0
    decreases |rows|
  {
    if |rows| > 0 {
      assert rows[|rows| - 1] in rows;
      GroupSumWithoutType(rows[..|rows| - 1], f, s, t, m);
    }
  }

  lemma {:induction false} GroupSumAppend(a: seq<JoinedRow>, b: seq<JoinedRow>, f: Filters, s: string, t: OrderType, m: Measure)
    ensures GroupSum(a + b, f, s, t, m) == GroupSum(a, f, s, t, m) + GroupSum(b, f, s, t, m)
    decreases |b|
  {
    if |b| == 0 {
      assert a + b == a;
    } else {
      assert (a + b)[..|a + b| - 1] == a + b[..|b| - 1];
      GroupSumAppend(a, b[..|b| - 1], f, s, t, m);
    }
  }

  lemma MultisetWithout<T>(b: seq<T>, j: int)
    requires 0 <= j < |b|
    ensures multiset(b[..j] + b[j + 1..]) == multiset(b) - multiset{b[j]}
  {
    assert b == b[..j] + [b[j]] + b[j + 1..];
    assert multiset(b) == multiset(b[..j]) + multiset{b[j]} + multiset(b[j + 1..]);
  }

  lemma GroupSumWithout(b: seq<JoinedRow>, j: int, f: Filters, s: string, t: OrderType, m: Measure)
    requires 0 <= j < |b|
    ensures GroupSum(b, f, s, t, m) == GroupSum(b[..j] + b[j + 1..], f, s, t, m) + Contribution(b[j], f, s, t, m)
  {
    var x := b[j];
    assert b == (b[..j] + [x]) + b[j + 1..];
    GroupSumAppend(b[..j] + [x], b[j + 1..], f, s, t, m);
    GroupSumAppend(b[..j], [x], f, s, t, m);
    GroupSumAppend(b[..j], b[j + 1..], f, s, t, m);
    assert [x][..0] == [];
  }

  /** Sums do not depend on the order of the rows. */
  lemma {:induction false} GroupSumPermutation(a: seq<JoinedRow>, b: seq<JoinedRow>, f: Filters, s: string, t: OrderType, m: Measure)
    requires multiset(a) == multiset(b)
    ensures GroupSum(a, f, s, t, m) == GroupSum(b, f, s, t, m)
    decreases |a|
  {
    if |a| == 0 {
      assert |b| == |multiset(b)| == 0;
    } else {
      var x := a[|a| - 1];
      var a' := a[..|a| - 1];
      assert x in multiset(b);
      var j :| 0 <= j < |b| && b[j] == x;
      var b' := b[..j] + b[j + 1..];
      MultisetWithout(a, |a| - 1);
      MultisetWithout(b, j);
      assert a[..|a| - 1] + a[|a|..] == a';
      assert multiset(a') == multiset(b');
      GroupSumPermutation(a', b', f, s, t, m);
      GroupSumWithout(b, j, f, s, t, m);
      assert GroupSum(a, f, s, t, m) == GroupSum(a', f, s, t, m) + Contribution(x, f, s, t, m);
    }
  }

  /** Only one order reference can be in a group and sort no later than all of it. */
  lemma LatestUnique(x: OrderRef, y: OrderRef, refs: set<OrderRef>)
    requires x in refs && y in refs
    requires forall r :: r in refs ==> SortsFirst(x, r)
    requires forall r :: r in refs ==> SortsFirst(y, r)
    ensures x == y
  {
    SortsFirstAntisymmetric(x, y);
  }

  lemma LatestPermutation(a: seq<JoinedRow>, b: seq<JoinedRow>, f: Filters, s: string)
    requires multiset(a) == multiset(b)
    ensures Latest(a, f, s) == Latest(b, f, s)
  {
    LatestIsFirst(a, f, s);
    LatestIsFirst(b, f, s);
    forall r ensures r in a <==> r in b {
      assert r in a <==> r in multiset(a);
      assert r in b <==> r in multiset(b);
    }
    var refs := set r | r in a && InGroup(r, f, s) :: RefOf(r);
    if Latest(a, f, s).Some? {
      var i :| 0 <= i < |a| && InGroup(a[i], f, s) && RefOf(a[i]) == Latest(a, f, s).value;
      assert a[i] in b;
      var j :| 0 <= j < |b| && InGroup(b[j], f, s) && RefOf(b[j]) == Latest(b, f, s).value;
      assert b[j] in a;
      forall r | r in refs
        ensures SortsFirst(Latest(a, f, s).value, r) && SortsFirst(Latest(b, f, s).value, r)
      {
        var w :| w in a && InGroup(w, f, s) && RefOf(w) == r;
        var ia :| 0 <= ia < |a| && a[ia] == w;
        var ib :| 0 <= ib < |b| && b[ib] == w;
      }
      assert RefOf(a[i]) in refs;
      assert RefOf(b[j]) in refs;
      LatestUnique(Latest(a, f, s).value, Latest(b, f, s).value, refs);
    } else {
      forall j | 0 <= j < |b|
        ensures !InGroup(b[j], f, s)
      {
        assert b[j] in a;
      }
    }
  }

  /** Rows that agree as a multiset form the same groups. */
  lemma GroupIdsPermutation(a: seq<JoinedRow>, b: seq<JoinedRow>, f: Filters)
    requires multiset(a) == multiset(b)
    ensures forall r :: r in a <==> r in b
    ensures GroupIds(a, f) == GroupIds(b, f)
  {
    forall r ensures r in a <==> r in b {
      assert r in a <==> r in multiset(a);
      assert r in b <==> r in multiset(b);
    }
  }

  /** Rows that agree as a multiset keep the same groups. */
  lemma KeptGroupsPermutation(a: seq<JoinedRow>, b: seq<JoinedRow>, f: Filters)
    requires multiset(a) == multiset(b)
    ensures KeptGroups(a, f) == KeptGroups(b, f)
  {
    GroupIdsPermutation(a, b, f);
    forall s, t, m
      ensures GroupSum(a, f, s, t, m) == GroupSum(b, f, s, t, m)
    {
      GroupSumPermutation(a, b, f, s, t, m);
    }
    assert (set s | s in GroupIds(a, f) && Kept(a, f, s)) == (set s | s in GroupIds(b, f) && Kept(b, f, s));
  }

  /** Rows that agree as a multiset aggregate each group the same way. */
  lemma AggregatePermutation(a: seq<JoinedRow>, b: seq<JoinedRow>, f: Filters, s: string)
    requires multiset(a) == multiset(b) && s in GroupIds(a, f)
    ensures s in GroupIds(b, f) && Aggregate(a, f, s) == Aggregate(b, f, s)
  {
    GroupIdsPermutation(a, b, f);
    forall t, m
      ensures GroupSum(a, f, s, t, m) == GroupSum(b, f, s, t, m)
    {
      GroupSumPermutation(a, b, f, s, t, m);
    }
    LatestPermutation(a, b, f, s);
    assert (set r | r in a && InGroup(r, f, s) :: r.categoryId) == (set r | r in b && InGroup(r, f, s) :: r.categoryId);
  }

  /** Rows that agree as a multiset form the same groups, keep the same ones and aggregate
      each the same way. */
  lemma GroupsPermutation(a: seq<JoinedRow>, b: seq<JoinedRow>, f: Filters)
    requires multiset(a) == multiset(b)
    ensures GroupIds(a, f) == GroupIds(b, f)
    ensures KeptGroups(a, f) == KeptGroups(b, f)
    ensures forall s :: s in GroupIds(a, f) ==> Aggregate(a, f, s) == Aggregate(b, f, s)
  {
    GroupIdsPermutation(a, b, f);
    KeptGroupsPermutation(a, b, f);
    forall s | s in GroupIds(a, f)
      ensures Aggregate(a, f, s) == Aggregate(b, f, s)
    {
      AggregatePermutation(a, b, f, s);
    }
  }

  /** The report's rows are the aggregates of the requested page of kept groups. */
  lemma ReportRowsAre(rows: seq<JoinedRow>, q: RepositoryQuery, cast: DateCast, f: Filters)
    requires BuildFilters(q, cast) == Ok(f) && ValidRowCount(q.limit) && ValidRowCount(q.offset)
    ensures var page := Page(KeptGroups(rows, f), q.offset.Floor, q.limit.Floor);
            && FetchOrders(rows, q, cast) == Ok(RepositoryResult(FetchOrders(rows, q, cast).value.rows, |KeptGroups(rows, f)|))
            && |FetchOrders(rows, q, cast).value.rows| == |page|
            && forall i :: 0 <= i < |page| ==>
                 page[i] in GroupIds(rows, f) && FetchOrders(rows, q, cast).value.rows[i] == Aggregate(rows, f, page[i])
  {
    var kept := KeptGroups(rows, f);
    var page := Page(kept, q.offset.Floor, q.limit.Floor);
    assert forall i :: 0 <= i < |page| ==> page[i] in kept;
    assert FetchOrders(rows, q, cast) ==
           Ok(RepositoryResult(seq(|page|, i requires 0 <= i < |page| => Aggregate(rows, f, page[i])), |kept|));
  }

  /** Two row lists whose groups agree, in which groups are kept and in each group's
      aggregate, give the same report. */
  lemma FetchOrdersSameGroups(a: seq<JoinedRow>, b: seq<JoinedRow>, q: RepositoryQuery, cast: DateCast, f: Filters)
    requires BuildFilters(q, cast) == Ok(f)
    requires GroupIds(a, f) == GroupIds(b, f) && KeptGroups(a, f) == KeptGroups(b, f)
    requires forall s :: s in GroupIds(a, f) ==> Aggregate(a, f, s) == Aggregate(b, f, s)
    ensures FetchOrders(a, q, cast) == FetchOrders(b, q, cast)
  {
    if ValidRowCount(q.limit) && ValidRowCount(q.offset) {
      ReportRowsAre(a, q, cast, f);
      ReportRowsAre(b, q, cast, f);
      var ra := FetchOrders(a, q, cast).value.rows;
      var rb := FetchOrders(b, q, cast).value.rows;
      assert ra == rb;
    }
  }

  /** The report depends on the joined rows only as a multiset: the order in which the join
      produces them does not matter. */
  lemma FetchOrdersPermutation(a: seq<JoinedRow>, b: seq<JoinedRow>, q: RepositoryQuery, cast: DateCast)
    requires multiset(a) == multiset(b)
    ensures FetchOrders(a, q, cast) == FetchOrders(b, q, cast)
  {
    if BuildFilters(q, cast).Ok? {
      var f := BuildFilters(q, cast).value;
      GroupsPermutation(a, b, f);
      FetchOrdersSameGroups(a, b, q, cast, f);
    }
  }

  // ---------------------------------------------------------------------------------------
  // The join over the store.

  predicate Joinable(st: Store, k: ItemKey)
  {
    k in st.items && k.order in st.orders
  }

  /** The joined row of item `k` and its order. */
  function JoinOf(st: Store, k: ItemKey): JoinedRow
    requires Joinable(st, k)
  {
    var item := st.items[k];
    JoinedRow(k.subcategoryId, item.categoryId, k.grade, k.order.orderType, k.order.externalOrderId,
              st.orders[k.order].orderFinishedDate, item.quantity, item.total)
  }

  /** `r` is the joined row of item `k`. */
  predicate RowOf(st: Store, r: JoinedRow, k: ItemKey)
  {
    Joinable(st, k) && r == JoinOf(st, k)
  }

  /** `rows` lists the join of the store: one row per item whose order exists, each once, in
      some order. */
  ghost predicate IsJoinOf(st: Store, rows: seq<JoinedRow>)
  {
    && (forall r :: r in rows ==> exists k :: RowOf(st, r, k))
    && (forall k :: Joinable(st, k) ==> JoinOf(st, k) in rows)
    && (forall i, j :: 0 <= i < j < |rows| ==> rows[i] != rows[j])
  }

  /** `FROM order_items oi JOIN orders o ON o.id = oi.order_id`, in whatever order the item
      keys are visited. */
  method JoinRows(st: Store) returns (rows: seq<JoinedRow>)
    ensures IsJoinOf(st, rows)
  {
    rows := [];
    ghost var keys: seq<ItemKey> := [];
    var remaining := st.items.Keys;
    while remaining != {}
      invariant remaining <= st.items.Keys && |keys| == |rows|
      invariant forall i :: 0 <= i < |rows| ==> Joinable(st, keys[i]) && keys[i] !in remaining && rows[i] == JoinOf(st, keys[i])
      invariant forall k :: Joinable(st, k) && k !in remaining ==> JoinOf(st, k) in rows
      invariant forall i, j :: 0 <= i < j < |rows| ==> rows[i] != rows[j]
      decreases |remaining|
    {
      var k :| k in remaining;
      if k.order in st.orders {
        forall i | 0 <= i < |rows|
          ensures rows[i] != JoinOf(st, k)
        {
          assert keys[i] != k;
        }
        rows := rows + [JoinOf(st, k)];
        keys := keys + [k];
      }
      remaining := remaining - {k};
    }
    forall r | r in rows
      ensures exists k :: RowOf(st, r, k)
    {
      var i :| 0 <= i < |rows| && rows[i] == r;
      assert RowOf(st, r, keys[i]);
    }
  }

  lemma {:induction false} DistinctMultiset<T>(xs: seq<T>)
    requires forall i, j :: 0 <= i < j < |xs| ==> xs[i] != xs[j]
    ensures forall x :: multiset(xs)[x] == if x in xs then 1 else 0
    decreases |xs|
  {
    if |xs| > 0 {
      var prefix := xs[..|xs| - 1];
      DistinctMultiset(prefix);
      assert xs == prefix + [xs[|xs| - 1]];
      assert xs[|xs| - 1] !in prefix;
    }
  }

  /** Any two listings of the join hold the same rows the same number of times, so the
      report over the store does not depend on the order of the join. */
  lemma JoinDeterminesReport(st: Store, a: seq<JoinedRow>, b: seq<JoinedRow>, q: RepositoryQuery, cast: DateCast)
    requires IsJoinOf(st, a) && IsJoinOf(st, b)
    ensures multiset(a) == multiset(b)
    ensures FetchOrders(a, q, cast) == FetchOrders(b, q, cast)
  {
    DistinctMultiset(a);
    DistinctMultiset(b);
    forall x
      ensures x in a <==> x in b
    {
      if x in a {
        var i :| 0 <= i < |a| && a[i] == x;
      }
      if x in b {
        var i :| 0 <= i < |b| && b[i] == x;
      }
    }
    assert forall x :: multiset(a)[x] == multiset(b)[x];
    FetchOrdersPermutation(a, b, q, cast);
  }

  // ---------------------------------------------------------------------------------------
  // Worked examples.

  /** No filters, the first page of ten. */
  const DefaultQuery := RepositoryQuery(10.0, 0.0, None, None, None, None, None, None, None, None)

  lemma SingleGroup(rows: seq<JoinedRow>, f: Filters, s: string)
    requires |rows| > 0 && forall i :: 0 <= i < |rows| ==> InGroup(rows[i], f, s)
    ensures GroupIds(rows, f) == {s}
  {
    assert rows[0] in rows;
  }

  /** A buy of 10 for 100 and a sell of 4 for 50 in one subcategory give one group with those
      sums. */
  lemma BuyAndSellExample(cast: DateCast)
    ensures FetchOrders([JoinedRow("S1", "C1", "A", Buy, "B-1", None, 10.0, 100.0),
                         JoinedRow("S1", "C1", "A", Sell, "S-1", None, 4.0, 50.0)], DefaultQuery, cast) ==
            Ok(RepositoryResult([AggregateRow("S1", "C1", Some(10.0), Some(100.0), Some(4.0), Some(50.0), Some("S-1"), None)], 1))
  {
    var rows := [JoinedRow("S1", "C1", "A", Buy, "B-1", None, 10.0, 100.0),
                 JoinedRow("S1", "C1", "A", Sell, "S-1", None, 4.0, 50.0)];
    var f := BuildFilters(DefaultQuery, cast).value;
    assert f == Filters(None, None, None, None, None, None, 0.0, MaxSafeInteger);
    SingleGroup(rows, f, "S1");
    assert rows[..1][..0] == [] && rows[..1] == [rows[0]];
    assert GroupSum(rows[..1], f, "S1", Sell, Total) == 0.0;
    assert SellTotal(rows, f, "S1") == 50.0;
    assert (set s | s in GroupIds(rows, f) && Kept(rows, f, s)) == {"S1"};
    var kept := KeptGroups(rows, f);
    assert |kept| == 1 && "S1" in kept;
    assert kept == ["S1"];
    assert Le("B-1", "S-1");
    assert Latest(rows, f, "S1") == Some(OrderRef(None, "S-1"));
    var cats := set r | r in rows && InGroup(r, f, "S1") :: r.categoryId;
    assert cats == {"C1"};
    assert MinCategory(rows, f, "S1") == "C1";
    assert Page(kept, 0, 10) == ["S1"];
    assert GroupSum(rows, f, "S1", Buy, Quantity) == 10.0;
    assert GroupSum(rows, f, "S1", Buy, Total) == 100.0;
    assert GroupSum(rows, f, "S1", Sell, Quantity) == 4.0;
    assert Aggregate(rows, f, "S1") == AggregateRow("S1", "C1", Some(10.0), Some(100.0), Some(4.0), Some(50.0), Some("S-1"), None);
    assert (10.0).Floor == 10 && (0.0).Floor == 0;
    assert ValidRowCount(DefaultQuery.limit) && ValidRowCount(DefaultQuery.offset);
    var page := Page(kept, 0, 10);
    assert seq(|page|, i requires 0 <= i < |page| => Aggregate(rows, f, page[i])) == [Aggregate(rows, f, "S1")];
  }

  /** A group with no sells has sell total 0 and is neither listed nor counted when the
      minimum sell total is 1. */
  lemma SellTotalFilterExample(cast: DateCast)
    ensures FetchOrders([JoinedRow("S1", "C1", "A", Buy, "B-1", None, 5.0, 50.0)],
                        DefaultQuery.(minSellTotal := Some(1.0)), cast) == Ok(RepositoryResult([], 0))
  {
    var rows := [JoinedRow("S1", "C1", "A", Buy, "B-1", None, 5.0, 50.0)];
    var f := BuildFilters(DefaultQuery.(minSellTotal := Some(1.0)), cast).value;
    SingleGroup(rows, f, "S1");
    assert rows[..0] == [];
    assert SellTotal(rows, f, "S1") == 0.0;
    assert (set s | s in GroupIds(rows, f) && Kept(rows, f, s)) == {};
  }
}
