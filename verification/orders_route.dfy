/** `GET /orders`: the query string is checked against `OrdersQuerySchema` (numbers are
    coerced, defaulted and bounded; text filters are optional), empty text filters are dropped,
    and the service's response is sent as JSON. Any failure, of validation or of the query,
    answers 500 with the error. */
module OrdersRoute {
  import opened Wrappers
  import opened OrderRepository
  import opened OrdersService

  /** The query string as received: each parameter absent or given once. */
  datatype RawQuery = RawQuery(
    limit: Option<string>,
    page: Option<string>,
    categoryId: Option<string>,
    subCategoryId: Option<string>,
    startDate: Option<string>,
    endDate: Option<string>,
    orderId: Option<string>,
    grade: Option<string>,
    minSellTotal: Option<string>,
    maxSellTotal: Option<string>)

  /** JavaScript's `Number(text)`, the coercion of `z.coerce.number()`; `None` stands for
      `NaN`, which the schema refuses. */
  type Coerce = string -> Option<real>

  /** The four numeric parameters of the schema. */
  datatype Field = Limit | Page | MinSellTotal | MaxSellTotal

  /** The default of a numeric parameter and the bounds its value must respect. */
  datatype NumberRule = NumberRule(default: real, minimum: real, maximum: Option<real>)

  function Rule(f: Field): (rule: NumberRule)
    ensures rule.minimum <= rule.default
    ensures rule.maximum.Some? ==> rule.default <= rule.maximum.value
  {
    match f
    case Limit => NumberRule(10.0, 1.0, Some(100.0))
    case Page => NumberRule(1.0, 1.0, None)
    case MinSellTotal => NumberRule(0.0, 0.0, None)
    case MaxSellTotal => NumberRule(MaxSafeInteger, 0.0, None)
  }

  datatype IssueKind = NotANumber | TooSmall(minimum: real) | TooBig(maximum: real)

  /** One entry of a failed parse's issue list. */
  datatype Issue = Issue(field: Field, kind: IssueKind)

  function RawNumber(raw: RawQuery, f: Field): Option<string>
  {
    match f
    case Limit => raw.limit
    case Page => raw.page
    case MinSellTotal => raw.minSellTotal
    case MaxSellTotal => raw.maxSellTotal
  }

  /** The number a parameter stands for: its default when absent, its coercion otherwise. */
  function Coerced(text: Option<string>, rule: NumberRule, coerce: Coerce): Option<real>
  {
    if text.None? then Some(rule.default) else coerce(text.value)
  }

  predicate WithinRule(x: real, rule: NumberRule)
  {
    rule.minimum <= x && (rule.maximum.None? || x <= rule.maximum.value)
  }

  /** The parameter `f` passes the schema. */
  predicate Accepted(raw: RawQuery, f: Field, coerce: Coerce)
  {
    var x := Coerced(RawNumber(raw, f), Rule(f), coerce);
    x.Some? && WithinRule(x.value, Rule(f))
  }

  /** `z.coerce.number().min(..).max(..).default(..)` on one parameter: the value, or every
      check it fails. */
  function CheckNumber(raw: RawQuery, f: Field, coerce: Coerce): (r: Result<real, seq<Issue>>)
    ensures r.Ok? <==> Accepted(raw, f, coerce)
    ensures r.Ok? && RawNumber(raw, f).None? ==> r.value == Rule(f).default
    ensures r.Ok? && RawNumber(raw, f).Some? ==> Some(r.value) == coerce(RawNumber(raw, f).value)
    ensures r.Ok? ==> WithinRule(r.value, Rule(f))
    ensures r.Err? ==> |r.error| > 0 && forall i :: 0 <= i < |r.error| ==> r.error[i].field == f
    ensures r.Err? ==> (Issue(f, NotANumber) in r.error <==> Coerced(RawNumber(raw, f), Rule(f), coerce).None?)
  {
    var rule := Rule(f);
    match Coerced(RawNumber(raw, f), rule, coerce)
    case None => Err([Issue(f, NotANumber)])
    case Some(x) =>
      var small := if x < rule.minimum then [Issue(f, TooSmall(rule.minimum))] else [];
      var big := if rule.maximum.Some? && x > rule.maximum.value then [Issue(f, TooBig(rule.maximum.value))] else [];
      if small + big == [] then Ok(x) else Err(small + big)
  }

  function IssuesOf<T>(r: Result<T, seq<Issue>>): seq<Issue>
  {
    if r.Err? then r.error else []
  }

  /** The schema's output: numbers with their defaults applied, text as given. */
  datatype ParsedQuery = ParsedQuery(
    limit: real,
    page: real,
    categoryId: Option<string>,
    subCategoryId: Option<string>,
    startDate: Option<string>,
    endDate: Option<string>,
    orderId: Option<string>,
    grade: Option<string>,
    minSellTotal: real,
    maxSellTotal: real)

  /** `OrdersQuerySchema.parse`: the parsed query, or the issues of every parameter that fails,
      in the schema's order. */
  function ParseQuery(raw: RawQuery, coerce: Coerce): (r: Result<ParsedQuery, seq<Issue>>)
    ensures r.Ok? <==> forall f: Field :: Accepted(raw, f, coerce)
    ensures r.Ok? ==> 1.0 <= r.value.limit <= 100.0 && 1.0 <= r.value.page
    ensures r.Ok? ==> 0.0 <= r.value.minSellTotal && 0.0 <= r.value.maxSellTotal
    ensures r.Ok? ==> r.value.categoryId == raw.categoryId && r.value.subCategoryId == raw.subCategoryId &&
                      r.value.startDate == raw.startDate && r.value.endDate == raw.endDate &&
                      r.value.orderId == raw.orderId && r.value.grade == raw.grade
    ensures r.Err? ==> forall f: Field :: !Accepted(raw, f, coerce) <==> exists i :: 0 <= i < |r.error| && r.error[i].field == f
  {
    var limit := CheckNumber(raw, Limit, coerce);
    var page := CheckNumber(raw, Page, coerce);
    var minSell := CheckNumber(raw, MinSellTotal, coerce);
    var maxSell := CheckNumber(raw, MaxSellTotal, coerce);
    if limit.Ok? && page.Ok? && minSell.Ok? && maxSell.Ok? then
      Ok(ParsedQuery(limit.value, page.value, raw.categoryId, raw.subCategoryId, raw.startDate,
                     raw.endDate, raw.orderId, raw.grade, minSell.value, maxSell.value))
    else
      var issues := IssuesOf(limit) + IssuesOf(page) + IssuesOf(minSell) + IssuesOf(maxSell);
      assert forall f: Field :: !Accepted(raw, f, coerce) <==> exists i :: 0 <= i < |issues| && issues[i].field == f by {
        IssuesBelong(raw, coerce, limit, page, minSell, maxSell);
      }
      Err(issues)
  }

  lemma IssuesBelong(raw: RawQuery, coerce: Coerce, limit: Result<real, seq<Issue>>, page: Result<real, seq<Issue>>,
                     minSell: Result<real, seq<Issue>>, maxSell: Result<real, seq<Issue>>)
    requires limit == CheckNumber(raw, Limit, coerce) && page == CheckNumber(raw, Page, coerce)
    requires minSell == CheckNumber(raw, MinSellTotal, coerce) && maxSell == CheckNumber(raw, MaxSellTotal, coerce)
    ensures var issues := IssuesOf(limit) + IssuesOf(page) + IssuesOf(minSell) + IssuesOf(maxSell);
            forall f: Field :: !Accepted(raw, f, coerce) <==> exists i :: 0 <= i < |issues| && issues[i].field == f
  {
    var a, b, c, d := IssuesOf(limit), IssuesOf(page), IssuesOf(minSell), IssuesOf(maxSell);
    forall f: Field
      ensures !Accepted(raw, f, coerce) <==> Names(a + b + c + d, f)
    {
      NamesConcat(a, b, f);
      NamesConcat(a + b, c, f);
      NamesConcat(a + b + c, d, f);
      OwnIssues(raw, Limit, f, coerce);
      OwnIssues(raw, Page, f, coerce);
      OwnIssues(raw, MinSellTotal, f, coerce);
      OwnIssues(raw, MaxSellTotal, f, coerce);
    }
  }

  /** Some issue of the list is about parameter `f`. */
  predicate Names(issues: seq<Issue>, f: Field)
  {
    exists i :: 0 <= i < |issues| && issues[i].field == f
  }

  lemma NamesConcat(a: seq<Issue>, b: seq<Issue>, f: Field)
    ensures Names(a + b, f) <==> Names(a, f) || Names(b, f)
  {
    if Names(a + b, f) {
      var i :| 0 <= i < |a + b| && (a + b)[i].field == f;
      if i < |a| {
        assert a[i] == (a + b)[i];
      } else {
        assert b[i - |a|] == (a + b)[i];
      }
    }
    if Names(a, f) {
      var i :| 0 <= i < |a| && a[i].field == f;
      assert (a + b)[i] == a[i];
    }
    if Names(b, f) {
      var i :| 0 <= i < |b| && b[i].field == f;
      assert (a + b)[|a| + i] == b[i];
    }
  }

  /** The issues of parameter `g` name `f` exactly when `g` is `f` and is refused. */
  lemma OwnIssues(raw: RawQuery, g: Field, f: Field, coerce: Coerce)
    ensures Names(IssuesOf(CheckNumber(raw, g, coerce)), f) <==> g == f && !Accepted(raw, f, coerce)
  {
    var r := CheckNumber(raw, g, coerce);
    if r.Err? {
      assert r.error[0].field == g;
    }
  }

  /** `...(value && { key: value })`: an absent or empty text filter is left out. */
  function NonEmpty(text: Option<string>): (r: Option<string>)
    ensures r.Some? <==> text.Some? && text.value != ""
    ensures r.Some? ==> r == text
  {
    if text.Some? && text.value != "" then text else None
  }

  /** The `OrdersQuery` the handler passes to the service. The `?? -Infinity` and
      `?? Infinity` fallbacks never apply: the schema always yields both sell bounds. */
  function ToOrdersQuery(p: ParsedQuery): (q: OrdersQuery)
    ensures q.limit == p.limit && q.page == p.page
    ensures q.categoryId == NonEmpty(p.categoryId) && q.subCategoryId == NonEmpty(p.subCategoryId)
    ensures q.startDate == NonEmpty(p.startDate) && q.endDate == NonEmpty(p.endDate)
    ensures q.orderId == NonEmpty(p.orderId) && q.grade == NonEmpty(p.grade)
    ensures q.minSellTotal == Some(p.minSellTotal) && q.maxSellTotal == Some(p.maxSellTotal)
  {
    OrdersQuery(p.limit, p.page, NonEmpty(p.categoryId), NonEmpty(p.subCategoryId), NonEmpty(p.startDate),
                NonEmpty(p.endDate), NonEmpty(p.orderId), NonEmpty(p.grade), Some(p.minSellTotal), Some(p.maxSellTotal))
  }

  /** Why a request failed: its query string, or the database query. */
  datatype RouteError = InvalidQuery(issues: seq<Issue>) | QueryFailed(error: QueryError)

  datatype HttpResponse = Ok200(body: OrdersResponse) | Error500(error: RouteError)

  /** The `/orders` handler over the joined rows of the store. */
  function HandleOrders(rows: seq<JoinedRow>, raw: RawQuery, coerce: Coerce, cast: DateCast): (resp: HttpResponse)
    ensures ParseQuery(raw, coerce).Err? ==> resp == Error500(InvalidQuery(ParseQuery(raw, coerce).error))
    ensures ParseQuery(raw, coerce).Ok? ==>
              var q := ToOrdersQuery(ParseQuery(raw, coerce).value);
              q.limit > 0.0 &&
              (resp.Ok200? <==> GetOrders(rows, q, cast).Ok?) &&
              (resp.Ok200? ==> resp.body == GetOrders(rows, q, cast).value) &&
              (resp.Error500? ==> resp.error == QueryFailed(GetOrders(rows, q, cast).error))
  {
    match ParseQuery(raw, coerce)
    case Err(issues) => Error500(InvalidQuery(issues))
    case Ok(parsed) =>
      match GetOrders(rows, ToOrdersQuery(parsed), cast)
      case Err(e) => Error500(QueryFailed(e))
      case Ok(body) => Ok200(body)
  }

  // ---------------------------------------------------------------------------------------
  // Properties of the handler.

  const NoParameters := RawQuery(None, None, None, None, None, None, None, None, None, None)

  /** With no parameters the query is the first page of ten, sell totals from 0 to
      `MAX_SAFE_INTEGER`, and no filters. */
  lemma DefaultQuery(coerce: Coerce)
    ensures ParseQuery(NoParameters, coerce) ==
            Ok(ParsedQuery(10.0, 1.0, None, None, None, None, None, None, 0.0, MaxSafeInteger))
    ensures ToOrdersQuery(ParseQuery(NoParameters, coerce).value) ==
            OrdersQuery(10.0, 1.0, None, None, None, None, None, None, Some(0.0), Some(MaxSafeInteger))
  {
    assert forall f: Field :: Accepted(NoParameters, f, coerce);
  }

  /** A limit outside 1..100, a page below 1 or a negative sell bound is refused with an issue
      naming that parameter. */
  lemma OutOfRangeRefused(raw: RawQuery, coerce: Coerce, f: Field, x: real)
    requires RawNumber(raw, f).Some? && coerce(RawNumber(raw, f).value) == Some(x)
    requires x < Rule(f).minimum || (f == Limit && x > 100.0)
    ensures ParseQuery(raw, coerce).Err?
    ensures exists i :: 0 <= i < |ParseQuery(raw, coerce).error| && ParseQuery(raw, coerce).error[i].field == f
  {
    assert !Accepted(raw, f, coerce);
  }

  /** The schema does not compare the two sell bounds: a minimum above the maximum is
      accepted and simply selects no group. */
  lemma CrossedBoundsAccepted(raw: RawQuery, coerce: Coerce)
    requires forall f: Field :: Accepted(raw, f, coerce)
    requires Coerced(raw.minSellTotal, Rule(MinSellTotal), coerce) == Some(5.0)
    requires Coerced(raw.maxSellTotal, Rule(MaxSellTotal), coerce) == Some(1.0)
    ensures ParseQuery(raw, coerce).Ok?
    ensures ParseQuery(raw, coerce).value.minSellTotal > ParseQuery(raw, coerce).value.maxSellTotal
  {
    assert RawNumber(raw, MinSellTotal) == raw.minSellTotal && RawNumber(raw, MaxSellTotal) == raw.maxSellTotal;
  }

  /** An empty text filter answers exactly as an absent one. */
  lemma EmptyFilterIsAbsent(rows: seq<JoinedRow>, raw: RawQuery, coerce: Coerce, cast: DateCast)
    ensures HandleOrders(rows, raw.(categoryId := Some("")), coerce, cast) == HandleOrders(rows, raw.(categoryId := None), coerce, cast)
    ensures HandleOrders(rows, raw.(subCategoryId := Some("")), coerce, cast) == HandleOrders(rows, raw.(subCategoryId := None), coerce, cast)
    ensures HandleOrders(rows, raw.(startDate := Some("")), coerce, cast) == HandleOrders(rows, raw.(startDate := None), coerce, cast)
    ensures HandleOrders(rows, raw.(endDate := Some("")), coerce, cast) == HandleOrders(rows, raw.(endDate := None), coerce, cast)
    ensures HandleOrders(rows, raw.(orderId := Some("")), coerce, cast) == HandleOrders(rows, raw.(orderId := None), coerce, cast)
    ensures HandleOrders(rows, raw.(grade := Some("")), coerce, cast) == HandleOrders(rows, raw.(grade := None), coerce, cast)
  {
    SameAnswer(rows, raw.(categoryId := Some("")), raw.(categoryId := None), coerce, cast);
    SameAnswer(rows, raw.(subCategoryId := Some("")), raw.(subCategoryId := None), coerce, cast);
    SameAnswer(rows, raw.(startDate := Some("")), raw.(startDate := None), coerce, cast);
    SameAnswer(rows, raw.(endDate := Some("")), raw.(endDate := None), coerce, cast);
    SameAnswer(rows, raw.(orderId := Some("")), raw.(orderId := None), coerce, cast);
    SameAnswer(rows, raw.(grade := Some("")), raw.(grade := None), coerce, cast);
  }

  /** Two query strings with the same numeric parameters and the same non-empty text
      filters are answered alike. */
  lemma SameAnswer(rows: seq<JoinedRow>, a: RawQuery, b: RawQuery, coerce: Coerce, cast: DateCast)
    requires a.limit == b.limit && a.page == b.page
    requires a.minSellTotal == b.minSellTotal && a.maxSellTotal == b.maxSellTotal
    requires NonEmpty(a.categoryId) == NonEmpty(b.categoryId) && NonEmpty(a.subCategoryId) == NonEmpty(b.subCategoryId)
    requires NonEmpty(a.startDate) == NonEmpty(b.startDate) && NonEmpty(a.endDate) == NonEmpty(b.endDate)
    requires NonEmpty(a.orderId) == NonEmpty(b.orderId) && NonEmpty(a.grade) == NonEmpty(b.grade)
    ensures HandleOrders(rows, a, coerce, cast) == HandleOrders(rows, b, coerce, cast)
  {
    SameParse(a, b, coerce);
  }

  lemma SameParse(a: RawQuery, b: RawQuery, coerce: Coerce)
    requires a.limit == b.limit && a.page == b.page
    requires a.minSellTotal == b.minSellTotal && a.maxSellTotal == b.maxSellTotal
    requires NonEmpty(a.categoryId) == NonEmpty(b.categoryId) && NonEmpty(a.subCategoryId) == NonEmpty(b.subCategoryId)
    requires NonEmpty(a.startDate) == NonEmpty(b.startDate) && NonEmpty(a.endDate) == NonEmpty(b.endDate)
    requires NonEmpty(a.orderId) == NonEmpty(b.orderId) && NonEmpty(a.grade) == NonEmpty(b.grade)
    ensures ParseQuery(a, coerce).Ok? == ParseQuery(b, coerce).Ok?
    ensures ParseQuery(a, coerce).Err? ==> ParseQuery(a, coerce).error == ParseQuery(b, coerce).error
    ensures ParseQuery(a, coerce).Ok? ==> ToOrdersQuery(ParseQuery(a, coerce).value) == ToOrdersQuery(ParseQuery(b, coerce).value)
  {
    SameCheck(a, b, Limit, coerce);
    SameCheck(a, b, Page, coerce);
    SameCheck(a, b, MinSellTotal, coerce);
    SameCheck(a, b, MaxSellTotal, coerce);
    var pa, pb := ParseQuery(a, coerce), ParseQuery(b, coerce);
    if pa.Ok? && pb.Ok? {
      assert pa.value.(categoryId := NonEmpty(pa.value.categoryId), subCategoryId := NonEmpty(pa.value.subCategoryId),
                       startDate := NonEmpty(pa.value.startDate), endDate := NonEmpty(pa.value.endDate),
                       orderId := NonEmpty(pa.value.orderId), grade := NonEmpty(pa.value.grade)) ==
             pb.value.(categoryId := NonEmpty(pb.value.categoryId), subCategoryId := NonEmpty(pb.value.subCategoryId),
                       startDate := NonEmpty(pb.value.startDate), endDate := NonEmpty(pb.value.endDate),
                       orderId := NonEmpty(pb.value.orderId), grade := NonEmpty(pb.value.grade));
    }
  }

  lemma SameCheck(a: RawQuery, b: RawQuery, f: Field, coerce: Coerce)
    requires RawNumber(a, f) == RawNumber(b, f)
    ensures CheckNumber(a, f, coerce) == CheckNumber(b, f, coerce)
  {
  }

  /** A valid request is answered with the page asked for: `currentPage` echoes `page`, the
      page holds at most `limit` entries, and `totalPages` is the number of such pages that
      hold every group. */
  lemma ValidRequestAnswered(rows: seq<JoinedRow>, raw: RawQuery, coerce: Coerce, cast: DateCast)
    requires HandleOrders(rows, raw, coerce, cast).Ok200?
    ensures var body := HandleOrders(rows, raw, coerce, cast).body;
            var parsed := ParseQuery(raw, coerce).value;
            && body.currentPage == parsed.page
            && |body.data| as real <= parsed.limit
            && body.totalPages == TotalPages(body.totalItems, parsed.limit)
  {
    var parsed := ParseQuery(raw, coerce).value;
    var q := ToOrdersQuery(parsed);
    var resp := GetOrders(rows, q, cast).value;
    assert HandleOrders(rows, raw, coerce, cast).body == resp;
    var repo := FetchOrders(rows, ToRepositoryQuery(q), cast).value;
    assert |resp.data| == |repo.rows| <= q.limit.Floor;
    assert resp.totalPages == TotalPages(resp.totalItems, q.limit);
  }
}
