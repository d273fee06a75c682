/** `upsertOrderAndItems` and the loop of `syncOrders`: for each buy transaction and then each
    sell transaction, upsert the order; then, for each category group with a category id,
    normalise its subcategory id, insert placeholder category and subcategory rows if they
    are absent, and upsert one order item per grade line. */
module OrderSync {
  import opened Wrappers
  import opened Feed
  import opened Schema
  import opened Writes
  import opened OrderWrites
  import opened Convert
  import opened Plan
  import CategorySync

  const DefaultGrade := "ทั่วไป"

  function PlaceholderCategoryName(categoryId: string): string
  {
    "หมวดหมู่สำรอง (" + categoryId + ")"
  }

  function PlaceholderSubcategoryName(subcategoryId: string): string
  {
    "กลุ่มย่อยสำรอง (" + subcategoryId + ")"
  }

  /** What the sync takes from its surroundings:
      - `parseNumber` is `parseFloat`;
      - `dateAccepted` and `timeAccepted` say whether PostgreSQL's `date` and `time` input
        accepts a normalised text (month 13 has the right shape and is refused);
      - `timestamp` is `new Date(date + "T" + time)`, `None` for an Invalid Date, which cannot
        be written to the `timestamp` column;
      - `now` is the clock reading `new Date()`. */
  datatype SyncEnv = SyncEnv(
    parseNumber: NumberParser,
    dateAccepted: string -> bool,
    timeAccepted: string -> bool,
    timestamp: (string, string) -> Option<int>,
    now: int)

  /** Whether the order row of a transaction can be written: every date and time it supplies
      is accepted, and so is their combination when both are present. Otherwise the order
      insert throws, and nothing in `syncOrders` catches it. */
  predicate OrderRowAccepted(tx: Transaction, env: SyncEnv)
  {
    var date := ToDateOnly(tx.orderFinishedDate);
    var time := ToTimeOnly(tx.orderFinishedTime);
    && (date.Some? ==> env.dateAccepted(date.value))
    && (time.Some? ==> env.timeAccepted(time.value))
    && (date.Some? && time.Some? ==> env.timestamp(date.value, time.value).Some?)
  }

  predicate AllAccepted(txs: seq<Transaction>, env: SyncEnv)
  {
    forall i :: 0 <= i < |txs| ==> OrderRowAccepted(txs[i], env)
  }

  /** The order columns a transaction supplies, or `None` when its order row is refused.
      `finishedAt` is built from date and time only when both are present; otherwise it is
      the processing time. */
  function OrderPatchFor(tx: Transaction, env: SyncEnv): (r: Option<OrderPatch>)
    ensures r.Some? <==> OrderRowAccepted(tx, env)
    ensures r.Some? ==> r.value.orderFinishedDate == ToDateOnly(tx.orderFinishedDate)
    ensures r.Some? ==> r.value.orderFinishedTime == ToTimeOnly(tx.orderFinishedTime)
    ensures r.Some? ==> r.value.rawPayload == tx
    ensures r.Some? && r.value.orderFinishedDate.Some? && r.value.orderFinishedTime.Some? ==>
              Some(r.value.finishedAt) == env.timestamp(r.value.orderFinishedDate.value, r.value.orderFinishedTime.value)
    ensures r.Some? && (r.value.orderFinishedDate.None? || r.value.orderFinishedTime.None?) ==>
              r.value.finishedAt == env.now
  {
    var date := ToDateOnly(tx.orderFinishedDate);
    var time := ToTimeOnly(tx.orderFinishedTime);
    if !OrderRowAccepted(tx, env) then None
    else if date.Some? && time.Some? then Some(OrderPatch(date, time, env.timestamp(date.value, time.value).value, tx))
    else Some(OrderPatch(date, time, env.now, tx))
  }

  /** The category and (normalised) subcategory a category group is filed under. */
  datatype GroupRef = GroupRef(categoryId: string, subcategoryId: string)

  /** A subcategory id the source treats as missing: absent, empty, or the text of JavaScript's
      `undefined` or `null`. */
  predicate IsMissingSubcategory(v: Option<string>)
  {
    v.None? || v.value in {"", "undefined", "null"}
  }

  /** A group without a category id is skipped (`None`); a missing subcategory id becomes the
      category's synthetic `NONE-<categoryId>`. */
  function GroupTarget(g: RequestItem): (r: Option<GroupRef>)
    ensures r.None? <==> g.categoryId.None? || g.categoryId.value == ""
    ensures r.Some? ==> r.value.categoryId == g.categoryId.value
    ensures r.Some? && IsMissingSubcategory(g.subcategoryId) ==>
              r.value.subcategoryId == CategorySync.NoneSubcategoryId(g.categoryId.value)
    ensures r.Some? && !IsMissingSubcategory(g.subcategoryId) ==> r.value.subcategoryId == g.subcategoryId.value
    ensures r.Some? ==> r.value.subcategoryId != ""
  {
    var categoryId := g.categoryId.GetOr("");
    var subcategoryId := g.subcategoryId.GetOr("");
    if categoryId == "" then None
    else if subcategoryId == "" || subcategoryId == "undefined" || subcategoryId == "null" then
      Some(GroupRef(categoryId, CategorySync.NoneSubcategoryId(categoryId)))
    else Some(GroupRef(categoryId, subcategoryId))
  }

  /** `g.grade || "ทั่วไป"` */
  function GradeOf(line: GradeDetail): (grade: string)
    ensures grade != ""
    ensures line.grade.Some? && line.grade.value != "" ==> grade == line.grade.value
    ensures line.grade.None? || line.grade.value == "" ==> grade == DefaultGrade
  {
    if line.grade.None? || line.grade.value == "" then DefaultGrade else line.grade.value
  }

  /** `g.price ? toNumber(g.price) : 0` */
  function PriceOf(line: GradeDetail, parse: NumberParser): (price: real)
    ensures line.price.None? || line.price.value == "" ==> price == 0.0
    ensures line.price.Some? && line.price.value != "" && parse(line.price.value).None? ==> price == 0.0
    ensures line.price.Some? && line.price.value != "" && parse(line.price.value).Some? ==>
              price == parse(line.price.value).value
  {
    if line.price.None? || line.price.value == "" then 0.0 else ToNumber(line.price, parse)
  }

  /** The order item a grade line stores: quantity and total fall back to 0 when they do not
      parse, and the price is always written. */
  function ItemFor(line: GradeDetail, categoryId: string, parse: NumberParser): (item: OrderItem)
    ensures item.categoryId == categoryId
    ensures item.quantity == parse(line.quantity).GetOr(0.0)
    ensures item.total == parse(line.total).GetOr(0.0)
    ensures item.price == Some(PriceOf(line, parse))
  {
    OrderItem(categoryId, ToNumber(Some(line.quantity), parse), ToNumber(Some(line.total), parse),
              Some(PriceOf(line, parse)))
  }

  function LineWrite(key: OrderKey, ref: GroupRef, line: GradeDetail, parse: NumberParser): StoreWrite
  {
    ItemWrite(Upsert(ItemKey(key, ref.subcategoryId, GradeOf(line)), ItemFor(line, ref.categoryId, parse)))
  }

  /** The item upsert of a grade line, issued only when the item fits its numeric columns: an
      overflow throws inside the `try` around the upsert, which logs it and goes on with the
      next line. */
  function LinePlan(key: OrderKey, ref: GroupRef, line: GradeDetail, parse: NumberParser): seq<StoreWrite>
  {
    if ItemFits(ItemFor(line, ref.categoryId, parse)) then [LineWrite(key, ref, line, parse)] else []
  }

  function LinesPlan(key: OrderKey, ref: GroupRef, lines: seq<GradeDetail>, parse: NumberParser): seq<StoreWrite>
    decreases |lines|
  {
    if |lines| == 0 then []
    else LinesPlan(key, ref, lines[..|lines| - 1], parse) + LinePlan(key, ref, lines[|lines| - 1], parse)
  }

  function PlaceholderWrites(ref: GroupRef): seq<StoreWrite>
  {
    [CategoryWrite(InsertIfAbsent(ref.categoryId, PlaceholderCategoryName(ref.categoryId))),
     SubcategoryWrite(InsertIfAbsent(ref.subcategoryId,
                                     Subcategory(ref.categoryId, PlaceholderSubcategoryName(ref.subcategoryId))))]
  }

  function GroupPlan(key: OrderKey, g: RequestItem, parse: NumberParser): seq<StoreWrite>
  {
    match GroupTarget(g)
    case None => []
    case Some(ref) => PlaceholderWrites(ref) + LinesPlan(key, ref, OrEmpty(g.requestList), parse)
  }

  function GroupsPlan(key: OrderKey, groups: seq<RequestItem>, parse: NumberParser): seq<StoreWrite>
    decreases |groups|
  {
    if |groups| == 0 then []
    else GroupsPlan(key, groups[..|groups| - 1], parse) + GroupPlan(key, groups[|groups| - 1], parse)
  }

  function OrderKeyOf(tx: Transaction, orderType: OrderType): OrderKey
  {
    OrderKey(tx.orderId, orderType)
  }

  /** The order upsert, then the writes of every group. A refused order row throws before
      anything of the transaction is written. */
  function TransactionPlan(tx: Transaction, orderType: OrderType, env: SyncEnv): seq<StoreWrite>
  {
    match OrderPatchFor(tx, env)
    case None => []
    case Some(patch) =>
      [OrderWrite(OrderUpsert(OrderKeyOf(tx, orderType), patch))]
      + GroupsPlan(OrderKeyOf(tx, orderType), OrEmpty(tx.requestList), env.parseNumber)
  }

  function TransactionsPlan(txs: seq<Transaction>, orderType: OrderType, env: SyncEnv): seq<StoreWrite>
    decreases |txs|
  {
    if |txs| == 0 then []
    else TransactionsPlan(txs[..|txs| - 1], orderType, env) + TransactionPlan(txs[|txs| - 1], orderType, env)
  }

  /** The transactions the loop gets through: those before the first refused order row. */
  function AcceptedPrefix(txs: seq<Transaction>, env: SyncEnv): (r: seq<Transaction>)
    ensures r <= txs
    ensures AllAccepted(r, env)
    ensures |r| < |txs| ==> !OrderRowAccepted(txs[|r|], env)
    decreases |txs|
  {
    if |txs| == 0 || !OrderRowAccepted(txs[0], env) then []
    else [txs[0]] + AcceptedPrefix(txs[1..], env)
  }

  /** The transactions of one type whose writes the sync issues: the buys up to the first
      refused one; the sells only when no buy was refused, and then up to the first refused
      sell. */
  function Reached(feed: TransactionFeed, env: SyncEnv, orderType: OrderType): (r: seq<Transaction>)
    ensures r <= Transactions(feed, orderType)
    ensures AllAccepted(r, env)
  {
    var buys := AcceptedPrefix(Transactions(feed, Buy), env);
    if orderType == Buy then buys
    else if |buys| < |Transactions(feed, Buy)| then []
    else AcceptedPrefix(Transactions(feed, Sell), env)
  }

  /** Some order row of the feed is refused, so `syncOrders` throws part-way through. */
  predicate SyncAborts(feed: TransactionFeed, env: SyncEnv)
  {
    !AllAccepted(Transactions(feed, Buy), env) || !AllAccepted(Transactions(feed, Sell), env)
  }

  /** The buy transactions, then the sell transactions, as far as the sync gets. */
  function OrdersPlan(feed: TransactionFeed, env: SyncEnv): seq<StoreWrite>
  {
    TransactionsPlan(Reached(feed, env, Buy), Buy, env)
    + TransactionsPlan(Reached(feed, env, Sell), Sell, env)
  }

  function SyncOrders(st: Store, feed: TransactionFeed, env: SyncEnv): Store
  {
    ApplyPlan(st, OrdersPlan(feed, env))
  }

  /** The transactions of one order type, in feed order. */
  function Transactions(feed: TransactionFeed, orderType: OrderType): seq<Transaction>
  {
    if orderType == Buy then OrEmpty(feed.buyTransaction) else OrEmpty(feed.sellTransaction)
  }

  /** The order upserts a list of transactions asks for, one per transaction, stated without
      the plan. */
  function TransactionUpserts(txs: seq<Transaction>, orderType: OrderType, env: SyncEnv): seq<OrderUpsert>
    requires AllAccepted(txs, env)
  {
    seq(|txs|, i requires 0 <= i < |txs| => OrderUpsert(OrderKeyOf(txs[i], orderType), OrderPatchFor(txs[i], env).value))
  }

  /** Where the sync stops: it gets through every transaction exactly when no order row is
      refused; otherwise it stops right at the first refused one, buys before sells. */
  lemma ReachedMeaning(feed: TransactionFeed, env: SyncEnv)
    ensures !SyncAborts(feed, env) <==>
            Reached(feed, env, Buy) == Transactions(feed, Buy) && Reached(feed, env, Sell) == Transactions(feed, Sell)
    ensures |Reached(feed, env, Buy)| < |Transactions(feed, Buy)| ==>
              && !OrderRowAccepted(Transactions(feed, Buy)[|Reached(feed, env, Buy)|], env)
              && Reached(feed, env, Sell) == []
    ensures |Reached(feed, env, Buy)| == |Transactions(feed, Buy)| ==>
              && Reached(feed, env, Buy) == Transactions(feed, Buy)
              && (|Reached(feed, env, Sell)| < |Transactions(feed, Sell)| ==>
                    !OrderRowAccepted(Transactions(feed, Sell)[|Reached(feed, env, Sell)|], env))
  {
    var buys := Transactions(feed, Buy);
    var sells := Transactions(feed, Sell);
    if |Reached(feed, env, Buy)| < |buys| {
      assert buys[|Reached(feed, env, Buy)|] in buys;
    }
    if |Reached(feed, env, Buy)| == |buys| && |Reached(feed, env, Sell)| < |sells| {
      assert sells[|Reached(feed, env, Sell)|] in sells;
    }
  }

  // ---------------------------------------------------------------------------------------
  // What each table receives.

  /** Besides the order upserts, the order sync only inserts placeholder categories and
      subcategories (never overwriting a row) and upserts items. */
  predicate PlaceholderTables(plan: seq<StoreWrite>)
  {
    && (forall w :: w in CategoryWrites(plan) ==> w == InsertIfAbsent(w.key, PlaceholderCategoryName(w.key)))
    && (forall w :: w in SubcategoryWrites(plan) ==>
          w.InsertIfAbsent? && w.value.subcategoryName == PlaceholderSubcategoryName(w.key))
    && (forall w :: w in ItemWrites(plan) ==> w.Upsert?)
  }

  lemma {:induction false} LinesPlanTables(key: OrderKey, ref: GroupRef, lines: seq<GradeDetail>, parse: NumberParser)
    ensures CategoryWrites(LinesPlan(key, ref, lines, parse)) == []
    ensures SubcategoryWrites(LinesPlan(key, ref, lines, parse)) == []
    ensures OrderUpserts(LinesPlan(key, ref, lines, parse)) == []
    ensures forall w :: w in ItemWrites(LinesPlan(key, ref, lines, parse)) ==> w.Upsert?
    decreases |lines|
  {
    if |lines| > 0 {
      var prefix := LinesPlan(key, ref, lines[..|lines| - 1], parse);
      var last := LinePlan(key, ref, lines[|lines| - 1], parse);
      LinesPlanTables(key, ref, lines[..|lines| - 1], parse);
      LinePlanTables(key, ref, lines[|lines| - 1], parse);
      ProjectionsAppend(prefix, last);
    }
  }

  lemma LinePlanTables(key: OrderKey, ref: GroupRef, line: GradeDetail, parse: NumberParser)
    ensures CategoryWrites(LinePlan(key, ref, line, parse)) == []
    ensures SubcategoryWrites(LinePlan(key, ref, line, parse)) == []
    ensures OrderUpserts(LinePlan(key, ref, line, parse)) == []
    ensures forall w :: w in ItemWrites(LinePlan(key, ref, line, parse)) ==> w.Upsert?
  {
    if ItemFits(ItemFor(line, ref.categoryId, parse)) {
      SingleWriteTables(LineWrite(key, ref, line, parse));
    }
  }

  lemma PlaceholderWritesTables(ref: GroupRef)
    ensures CategoryWrites(PlaceholderWrites(ref)) ==
            [InsertIfAbsent(ref.categoryId, PlaceholderCategoryName(ref.categoryId))]
    ensures SubcategoryWrites(PlaceholderWrites(ref)) ==
            [InsertIfAbsent(ref.subcategoryId, Subcategory(ref.categoryId, PlaceholderSubcategoryName(ref.subcategoryId)))]
    ensures OrderUpserts(PlaceholderWrites(ref)) == []
    ensures ItemWrites(PlaceholderWrites(ref)) == []
  {
    var placeholders := PlaceholderWrites(ref);
    assert placeholders == [placeholders[0]] + [placeholders[1]];
    SingleWriteTables(placeholders[0]);
    SingleWriteTables(placeholders[1]);
    ProjectionsAppend([placeholders[0]], [placeholders[1]]);
  }

  lemma GroupPlanTables(key: OrderKey, g: RequestItem, parse: NumberParser)
    ensures PlaceholderTables(GroupPlan(key, g, parse))
    ensures OrderUpserts(GroupPlan(key, g, parse)) == []
  {
    if GroupTarget(g).Some? {
      var ref := GroupTarget(g).value;
      var placeholders := PlaceholderWrites(ref);
      var lines := LinesPlan(key, ref, OrEmpty(g.requestList), parse);
      assert GroupPlan(key, g, parse) == placeholders + lines;
      PlaceholderWritesTables(ref);
      LinesPlanTables(key, ref, OrEmpty(g.requestList), parse);
      ProjectionsAppend(placeholders, lines);
      assert CategoryWrites(placeholders + lines) == CategoryWrites(placeholders);
      assert SubcategoryWrites(placeholders + lines) == SubcategoryWrites(placeholders);
      assert ItemWrites(placeholders + lines) == ItemWrites(lines);
    }
  }

  lemma {:induction false} GroupsPlanTables(key: OrderKey, groups: seq<RequestItem>, parse: NumberParser)
    ensures PlaceholderTables(GroupsPlan(key, groups, parse))
    ensures OrderUpserts(GroupsPlan(key, groups, parse)) == []
    decreases |groups|
  {
    if |groups| > 0 {
      GroupsPlanTables(key, groups[..|groups| - 1], parse);
      GroupPlanTables(key, groups[|groups| - 1], parse);
      ProjectionsAppend(GroupsPlan(key, groups[..|groups| - 1], parse), GroupPlan(key, groups[|groups| - 1], parse));
    }
  }

  lemma TransactionPlanTables(tx: Transaction, orderType: OrderType, env: SyncEnv)
    ensures PlaceholderTables(TransactionPlan(tx, orderType, env))
    ensures OrderPatchFor(tx, env).None? ==> TransactionPlan(tx, orderType, env) == []
    ensures OrderPatchFor(tx, env).Some? ==>
              OrderUpserts(TransactionPlan(tx, orderType, env)) ==
              [OrderUpsert(OrderKeyOf(tx, orderType), OrderPatchFor(tx, env).value)]
  {
    if OrderPatchFor(tx, env).Some? {
      var w := OrderWrite(OrderUpsert(OrderKeyOf(tx, orderType), OrderPatchFor(tx, env).value));
      SingleWriteTables(w);
      GroupsPlanTables(OrderKeyOf(tx, orderType), OrEmpty(tx.requestList), env.parseNumber);
      ProjectionsAppend([w], GroupsPlan(OrderKeyOf(tx, orderType), OrEmpty(tx.requestList), env.parseNumber));
    }
  }

  lemma PrefixAccepted(txs: seq<Transaction>, env: SyncEnv, n: int)
    requires AllAccepted(txs, env) && 0 <= n <= |txs|
    ensures AllAccepted(txs[..n], env)
  {
    forall i | 0 <= i < n
      ensures OrderRowAccepted(txs[..n][i], env)
    {
      assert txs[..n][i] == txs[i];
    }
  }

  lemma TransactionUpsertsSnoc(txs: seq<Transaction>, orderType: OrderType, env: SyncEnv)
    requires |txs| > 0 && AllAccepted(txs, env) && AllAccepted(txs[..|txs| - 1], env)
    ensures TransactionUpserts(txs, orderType, env) ==
            TransactionUpserts(txs[..|txs| - 1], orderType, env)
            + [OrderUpsert(OrderKeyOf(txs[|txs| - 1], orderType), OrderPatchFor(txs[|txs| - 1], env).value)]
  {
    var prefix := TransactionUpserts(txs[..|txs| - 1], orderType, env);
    var last := OrderUpsert(OrderKeyOf(txs[|txs| - 1], orderType), OrderPatchFor(txs[|txs| - 1], env).value);
    forall i | 0 <= i < |txs|
      ensures TransactionUpserts(txs, orderType, env)[i] == (prefix + [last])[i]
    {
      if i < |txs| - 1 {
        assert txs[..|txs| - 1][i] == txs[i];
      }
    }
  }

  lemma {:induction false} TransactionsPlanTables(txs: seq<Transaction>, orderType: OrderType, env: SyncEnv)
    requires AllAccepted(txs, env)
    ensures PlaceholderTables(TransactionsPlan(txs, orderType, env))
    ensures OrderUpserts(TransactionsPlan(txs, orderType, env)) == TransactionUpserts(txs, orderType, env)
    decreases |txs|
  {
    if |txs| > 0 {
      var prefix := txs[..|txs| - 1];
      PrefixAccepted(txs, env, |txs| - 1);
      TransactionsPlanTables(prefix, orderType, env);
      TransactionPlanTables(txs[|txs| - 1], orderType, env);
      ProjectionsAppend(TransactionsPlan(prefix, orderType, env), TransactionPlan(txs[|txs| - 1], orderType, env));
      TransactionUpsertsSnoc(txs, orderType, env);
    }
  }

  /** The orders table receives one upsert per transaction the sync gets through, buys first,
      then sells. */
  lemma OrdersPlanTables(feed: TransactionFeed, env: SyncEnv)
    ensures PlaceholderTables(OrdersPlan(feed, env))
    ensures OrderUpserts(OrdersPlan(feed, env)) ==
            TransactionUpserts(Reached(feed, env, Buy), Buy, env) + TransactionUpserts(Reached(feed, env, Sell), Sell, env)
  {
    TransactionsPlanTables(Reached(feed, env, Buy), Buy, env);
    TransactionsPlanTables(Reached(feed, env, Sell), Sell, env);
    ProjectionsAppend(TransactionsPlan(Reached(feed, env, Buy), Buy, env), TransactionsPlan(Reached(feed, env, Sell), Sell, env));
  }

  // ---------------------------------------------------------------------------------------
  // The sync's effect on each table.

  /** The orders table after the sync is the upserts of the buys it got through, followed by
      those of the sells it got through. */
  lemma SyncOrdersOrdersTable(st: Store, feed: TransactionFeed, env: SyncEnv)
    ensures SyncOrders(st, feed, env).orders ==
            ApplyUpserts(st.orders, TransactionUpserts(Reached(feed, env, Buy), Buy, env)
                                    + TransactionUpserts(Reached(feed, env, Sell), Sell, env))
  {
    OrdersPlanTables(feed, env);
    ApplyPlanByTable(st, OrdersPlan(feed, env));
  }

  /** Upserts of one order type, then of the other, leave each key where the upserts of its
      own type take it. */
  lemma TypedUpsertsAt(m: map<OrderKey, Order>, buys: seq<OrderUpsert>, sells: seq<OrderUpsert>, k: OrderKey)
    requires forall i :: 0 <= i < |buys| ==> buys[i].key.orderType == Buy
    requires forall i :: 0 <= i < |sells| ==> sells[i].key.orderType == Sell
    ensures var own := if k.orderType == Buy then buys else sells;
            && (k in ApplyUpserts(m, buys + sells) <==> FinalOrder(m, own, k).Some?)
            && (k in ApplyUpserts(m, buys + sells) ==> ApplyUpserts(m, buys + sells)[k] == FinalOrder(m, own, k).value)
  {
    ApplyUpsertsAppend(m, buys, sells);
    var afterBuys := ApplyUpserts(m, buys);
    if k.orderType == Buy {
      ApplyUpsertsOtherKey(afterBuys, sells, k);
      ApplyUpsertsAt(m, buys, k);
    } else {
      ApplyUpsertsOtherKey(m, buys, k);
      ApplyUpsertsAt(afterBuys, sells, k);
      ApplyUpsertsAt(m, sells, k);
    }
  }

  /** Every upsert a list of transactions asks for carries the list's order type. */
  lemma TransactionUpsertsTyped(txs: seq<Transaction>, orderType: OrderType, env: SyncEnv)
    requires AllAccepted(txs, env)
    ensures forall i :: 0 <= i < |TransactionUpserts(txs, orderType, env)| ==>
              TransactionUpserts(txs, orderType, env)[i].key.orderType == orderType
  {
  }

  /** The order stored under a key after the sync is what the transactions of that key's type
      that the sync gets through ask for, in feed order: the last transaction's timestamp and payload, and the last date
      and time that parsed (or the stored ones). Buys never touch a sell order or back. */
  lemma SyncOrdersOrderAt(st: Store, feed: TransactionFeed, env: SyncEnv, k: OrderKey)
    ensures k in SyncOrders(st, feed, env).orders <==>
            FinalOrder(st.orders, TransactionUpserts(Reached(feed, env, k.orderType), k.orderType, env), k).Some?
    ensures k in SyncOrders(st, feed, env).orders ==>
            SyncOrders(st, feed, env).orders[k] ==
            FinalOrder(st.orders, TransactionUpserts(Reached(feed, env, k.orderType), k.orderType, env), k).value
  {
    SyncOrdersOrdersTable(st, feed, env);
    TransactionUpsertsTyped(Reached(feed, env, Buy), Buy, env);
    TransactionUpsertsTyped(Reached(feed, env, Sell), Sell, env);
    TypedUpsertsAt(st.orders, TransactionUpserts(Reached(feed, env, Buy), Buy, env),
                   TransactionUpserts(Reached(feed, env, Sell), Sell, env), k);
  }

  /** The keys of every transaction the sync gets through. */
  function ReachedOrderKeys(feed: TransactionFeed, env: SyncEnv): set<OrderKey>
  {
    (set i | 0 <= i < |Reached(feed, env, Buy)| :: OrderKeyOf(Reached(feed, env, Buy)[i], Buy))
    + (set i | 0 <= i < |Reached(feed, env, Sell)| :: OrderKeyOf(Reached(feed, env, Sell)[i], Sell))
  }

  /** An order key is upserted by a list of transactions exactly when one of them carries its
      order id and the list has its type. */
  lemma TransactionUpsertsKeys(txs: seq<Transaction>, orderType: OrderType, env: SyncEnv, k: OrderKey)
    requires AllAccepted(txs, env)
    ensures LastPatch(TransactionUpserts(txs, orderType, env), k).Some? <==>
            k.orderType == orderType && exists i :: 0 <= i < |txs| && txs[i].orderId == k.externalOrderId
  {
    var us := TransactionUpserts(txs, orderType, env);
    if LastPatch(us, k).Some? {
      var i :| 0 <= i < |us| && us[i].key == k;
      assert txs[i].orderId == k.externalOrderId;
    }
    if k.orderType == orderType && exists i :: 0 <= i < |txs| && txs[i].orderId == k.externalOrderId {
      var i :| 0 <= i < |txs| && txs[i].orderId == k.externalOrderId;
      assert us[i].key == k;
    }
  }

  lemma ReachedOrderKeysAt(feed: TransactionFeed, env: SyncEnv, k: OrderKey)
    ensures k in ReachedOrderKeys(feed, env) <==>
            exists i :: 0 <= i < |Reached(feed, env, k.orderType)| &&
                        Reached(feed, env, k.orderType)[i].orderId == k.externalOrderId
  {
    var txs := Reached(feed, env, k.orderType);
    if exists i :: 0 <= i < |txs| && txs[i].orderId == k.externalOrderId {
      var i :| 0 <= i < |txs| && txs[i].orderId == k.externalOrderId;
      assert k == OrderKeyOf(txs[i], k.orderType);
    }
  }

  /** The sync adds exactly the orders of the transactions it gets through, and removes none. */
  lemma SyncOrdersOrderKeys(st: Store, feed: TransactionFeed, env: SyncEnv)
    ensures SyncOrders(st, feed, env).orders.Keys == st.orders.Keys + ReachedOrderKeys(feed, env)
  {
    var r := SyncOrders(st, feed, env);
    forall k | k in r.orders.Keys + st.orders.Keys + ReachedOrderKeys(feed, env)
      ensures k in r.orders <==> k in st.orders || k in ReachedOrderKeys(feed, env)
    {
      SyncOrdersOrderAt(st, feed, env, k);
      TransactionUpsertsKeys(Reached(feed, env, k.orderType), k.orderType, env, k);
      ReachedOrderKeysAt(feed, env, k);
    }
  }

  /** A transaction the sync gets through that is the last such of its type with its order id
      decides the stored order's timestamp and payload, and its date and time when they parse. */
  lemma LastTransactionWins(st: Store, feed: TransactionFeed, env: SyncEnv, orderType: OrderType, i: int)
    requires 0 <= i < |Reached(feed, env, orderType)|
    requires forall j :: i < j < |Reached(feed, env, orderType)| ==>
               Reached(feed, env, orderType)[j].orderId != Reached(feed, env, orderType)[i].orderId
    ensures OrderKeyOf(Reached(feed, env, orderType)[i], orderType) in SyncOrders(st, feed, env).orders
    ensures var tx := Reached(feed, env, orderType)[i];
            var order := SyncOrders(st, feed, env).orders[OrderKeyOf(tx, orderType)];
            && order.rawPayload == tx
            && order.finishedAt == OrderPatchFor(tx, env).value.finishedAt
            && (ToDateOnly(tx.orderFinishedDate).Some? ==> order.orderFinishedDate == ToDateOnly(tx.orderFinishedDate))
            && (ToTimeOnly(tx.orderFinishedTime).Some? ==> order.orderFinishedTime == ToTimeOnly(tx.orderFinishedTime))
  {
    var txs := Reached(feed, env, orderType);
    var us := TransactionUpserts(txs, orderType, env);
    var k := OrderKeyOf(txs[i], orderType);
    LastPatchAt(us, i);
    SyncOrdersOrderAt(st, feed, env, k);
  }

  /** Category and subcategory rows that existed keep their names: the order sync only ever
      inserts placeholders where nothing is stored. */
  lemma SyncOrdersKeepsNames(st: Store, feed: TransactionFeed, env: SyncEnv)
    ensures forall id :: id in st.categories ==>
              id in SyncOrders(st, feed, env).categories &&
              SyncOrders(st, feed, env).categories[id] == st.categories[id]
    ensures forall id :: id in st.subcategories ==>
              id in SyncOrders(st, feed, env).subcategories &&
              SyncOrders(st, feed, env).subcategories[id] == st.subcategories[id]
  {
    var plan := OrdersPlan(feed, env);
    OrdersPlanTables(feed, env);
    ApplyPlanByTable(st, plan);
    forall id | id in st.categories
      ensures id in SyncOrders(st, feed, env).categories && SyncOrders(st, feed, env).categories[id] == st.categories[id]
    {
      ApplyAllAt(st.categories, CategoryWrites(plan), id);
      NoUpsertOf(CategoryWrites(plan), id);
    }
    forall id | id in st.subcategories
      ensures id in SyncOrders(st, feed, env).subcategories && SyncOrders(st, feed, env).subcategories[id] == st.subcategories[id]
    {
      ApplyAllAt(st.subcategories, SubcategoryWrites(plan), id);
      NoUpsertOf(SubcategoryWrites(plan), id);
    }
  }

  lemma NoUpsertOf<K, V>(ws: seq<Write<K, V>>, k: K)
    requires forall w :: w in ws ==> w.InsertIfAbsent?
    ensures LastUpsert(ws, k).None?
  {
    forall i | 0 <= i < |ws|
      ensures ws[i].InsertIfAbsent?
    {
      assert ws[i] in ws;
    }
  }

  /** A category or subcategory the sync creates carries the placeholder name of its id. */
  lemma SyncOrdersPlaceholderNames(st: Store, feed: TransactionFeed, env: SyncEnv, id: string)
    ensures id in SyncOrders(st, feed, env).categories && id !in st.categories ==>
              SyncOrders(st, feed, env).categories[id] == PlaceholderCategoryName(id)
    ensures id in SyncOrders(st, feed, env).subcategories && id !in st.subcategories ==>
              SyncOrders(st, feed, env).subcategories[id].subcategoryName == PlaceholderSubcategoryName(id)
  {
    var plan := OrdersPlan(feed, env);
    OrdersPlanTables(feed, env);
    ApplyPlanByTable(st, plan);
    ApplyAllAt(st.categories, CategoryWrites(plan), id);
    NoUpsertOf(CategoryWrites(plan), id);
    ApplyAllAt(st.subcategories, SubcategoryWrites(plan), id);
    NoUpsertOf(SubcategoryWrites(plan), id);
    var cats := CategoryWrites(plan);
    if FirstInsert(cats, id).Some? {
      var i :| 0 <= i < |cats| && cats[i] == InsertIfAbsent(id, FirstInsert(cats, id).value);
      assert cats[i] in cats;
    }
    var subs := SubcategoryWrites(plan);
    if FirstInsert(subs, id).Some? {
      var i :| 0 <= i < |subs| && subs[i] == InsertIfAbsent(id, FirstInsert(subs, id).value);
      assert subs[i] in subs;
    }
  }

  /** The order items after the sync: the last item write of a key wins, and an item the
      feed does not mention stays as it was. */
  lemma SyncOrdersItemAt(st: Store, feed: TransactionFeed, env: SyncEnv, k: ItemKey)
    ensures var ws := ItemWrites(OrdersPlan(feed, env));
            k in SyncOrders(st, feed, env).items <==> k in st.items || LastUpsert(ws, k).Some?
    ensures var ws := ItemWrites(OrdersPlan(feed, env));
            LastUpsert(ws, k).Some? ==> SyncOrders(st, feed, env).items[k] == LastUpsert(ws, k).value
    ensures var ws := ItemWrites(OrdersPlan(feed, env));
            LastUpsert(ws, k).None? && k in st.items ==> SyncOrders(st, feed, env).items[k] == st.items[k]
  {
    var plan := OrdersPlan(feed, env);
    var ws := ItemWrites(plan);
    OrdersPlanTables(feed, env);
    ApplyPlanByTable(st, plan);
    ApplyAllAt(st.items, ws, k);
    forall i | 0 <= i < |ws|
      ensures ws[i].Upsert?
    {
      assert ws[i] in ws;
    }
  }

  /** The order sync refuses the same transactions whatever the clock reads. */
  lemma AcceptedPrefixClock(txs: seq<Transaction>, env: SyncEnv, t: int)
    ensures AcceptedPrefix(txs, env.(now := t)) == AcceptedPrefix(txs, env)
    decreases |txs|
  {
    if |txs| > 0 && OrderRowAccepted(txs[0], env) {
      AcceptedPrefixClock(txs[1..], env, t);
    }
  }

  lemma ReachedClock(feed: TransactionFeed, env: SyncEnv, t: int, orderType: OrderType)
    ensures Reached(feed, env.(now := t), orderType) == Reached(feed, env, orderType)
  {
    AcceptedPrefixClock(Transactions(feed, Buy), env, t);
    AcceptedPrefixClock(Transactions(feed, Sell), env, t);
  }

  lemma OrderPatchClock(tx: Transaction, env: SyncEnv, t: int)
    ensures OrderPatchFor(tx, env.(now := t)).Some? <==> OrderPatchFor(tx, env).Some?
    ensures OrderPatchFor(tx, env).Some? ==> SameButStamp(OrderPatchFor(tx, env).value, OrderPatchFor(tx, env.(now := t)).value)
  {
    assert OrderRowAccepted(tx, env.(now := t)) <==> OrderRowAccepted(tx, env);
  }

  lemma TransactionPlanClock(tx: Transaction, orderType: OrderType, env: SyncEnv, t: int)
    ensures PlansRestamped(TransactionPlan(tx, orderType, env), TransactionPlan(tx, orderType, env.(now := t)))
  {
    var later := env.(now := t);
    OrderPatchClock(tx, env, t);
    if OrderPatchFor(tx, env).Some? {
      var key := OrderKeyOf(tx, orderType);
      var groups := GroupsPlan(key, OrEmpty(tx.requestList), env.parseNumber);
      var w := OrderWrite(OrderUpsert(key, OrderPatchFor(tx, env).value));
      var v := OrderWrite(OrderUpsert(key, OrderPatchFor(tx, later).value));
      assert TransactionPlan(tx, orderType, env) == [w] + groups;
      assert TransactionPlan(tx, orderType, later) == [v] + groups;
      OrderWriteRestamped(key, OrderPatchFor(tx, env).value, OrderPatchFor(tx, later).value);
      PlansRestampedReflexive(groups);
      PlansRestampedAppend([w], [v], groups, groups);
    }
  }

  lemma {:induction false} TransactionsPlanClock(txs: seq<Transaction>, orderType: OrderType, env: SyncEnv, t: int)
    ensures PlansRestamped(TransactionsPlan(txs, orderType, env), TransactionsPlan(txs, orderType, env.(now := t)))
    decreases |txs|
  {
    if |txs| > 0 {
      var prefix := txs[..|txs| - 1];
      TransactionsPlanClock(prefix, orderType, env, t);
      TransactionPlanClock(txs[|txs| - 1], orderType, env, t);
      PlansRestampedAppend(TransactionsPlan(prefix, orderType, env), TransactionsPlan(prefix, orderType, env.(now := t)),
                           TransactionPlan(txs[|txs| - 1], orderType, env), TransactionPlan(txs[|txs| - 1], orderType, env.(now := t)));
    }
  }

  /** A run of the order sync at another time issues the same writes, up to the timestamps of
      the orders whose date or time is missing. */
  lemma OrdersPlanClock(feed: TransactionFeed, env: SyncEnv, t: int)
    ensures PlansRestamped(OrdersPlan(feed, env), OrdersPlan(feed, env.(now := t)))
  {
    var later := env.(now := t);
    ReachedClock(feed, env, t, Buy);
    ReachedClock(feed, env, t, Sell);
    TransactionsPlanClock(Reached(feed, env, Buy), Buy, env, t);
    TransactionsPlanClock(Reached(feed, env, Sell), Sell, env, t);
    PlansRestampedAppend(TransactionsPlan(Reached(feed, env, Buy), Buy, env), TransactionsPlan(Reached(feed, later, Buy), Buy, later),
                         TransactionsPlan(Reached(feed, env, Sell), Sell, env), TransactionsPlan(Reached(feed, later, Sell), Sell, later));
  }

  /** Running the order sync again on the same feed, at any later time, gives the store that
      the later run alone gives: the second run upserts every order of the first again, with
      the same dates. */
  lemma SyncOrdersIdempotent(st: Store, feed: TransactionFeed, env: SyncEnv, t: int)
    ensures SyncOrders(SyncOrders(st, feed, env), feed, env.(now := t)) == SyncOrders(st, feed, env.(now := t))
  {
    OrdersPlanClock(feed, env, t);
    ApplyPlanRestamped(st, OrdersPlan(feed, env), OrdersPlan(feed, env.(now := t)));
  }

  // ---------------------------------------------------------------------------------------
  // Every transaction, group and line of the feed lands in the store.

  lemma {:induction false} LinesPlanContains(key: OrderKey, ref: GroupRef, lines: seq<GradeDetail>, parse: NumberParser, l: int)
    requires 0 <= l < |lines| && ItemFits(ItemFor(lines[l], ref.categoryId, parse))
    ensures LineWrite(key, ref, lines[l], parse) in LinesPlan(key, ref, lines, parse)
    decreases |lines|
  {
    if l < |lines| - 1 {
      assert lines[..|lines| - 1][l] == lines[l];
      LinesPlanContains(key, ref, lines[..|lines| - 1], parse, l);
    }
  }

  lemma {:induction false} GroupsPlanContains(key: OrderKey, groups: seq<RequestItem>, parse: NumberParser, j: int)
    requires 0 <= j < |groups|
    ensures forall w :: w in GroupPlan(key, groups[j], parse) ==> w in GroupsPlan(key, groups, parse)
    decreases |groups|
  {
    if j < |groups| - 1 {
      assert groups[..|groups| - 1][j] == groups[j];
      GroupsPlanContains(key, groups[..|groups| - 1], parse, j);
    }
  }

  lemma {:induction false} TransactionsPlanContains(txs: seq<Transaction>, orderType: OrderType, env: SyncEnv, i: int)
    requires 0 <= i < |txs|
    ensures forall w :: w in TransactionPlan(txs[i], orderType, env) ==> w in TransactionsPlan(txs, orderType, env)
    decreases |txs|
  {
    if i < |txs| - 1 {
      assert txs[..|txs| - 1][i] == txs[i];
      TransactionsPlanContains(txs[..|txs| - 1], orderType, env, i);
    }
  }

  lemma OrdersPlanContains(feed: TransactionFeed, env: SyncEnv, orderType: OrderType, i: int)
    requires 0 <= i < |Reached(feed, env, orderType)|
    ensures forall w :: w in TransactionPlan(Reached(feed, env, orderType)[i], orderType, env) ==> w in OrdersPlan(feed, env)
  {
    TransactionsPlanContains(Reached(feed, env, orderType), orderType, env, i);
  }

  /** After the sync, every transaction it gets through has its order; every group of it with
      a category id has its category and (normalised) subcategory, placeholders where the store
      had none; and every grade line of the group whose item fits its columns has its order
      item. */
  lemma SyncOrdersStoresGroup(st: Store, feed: TransactionFeed, env: SyncEnv, orderType: OrderType, i: int, j: int)
    requires 0 <= i < |Reached(feed, env, orderType)|
    requires 0 <= j < |OrEmpty(Reached(feed, env, orderType)[i].requestList)|
    requires GroupTarget(OrEmpty(Reached(feed, env, orderType)[i].requestList)[j]).Some?
    ensures var tx := Reached(feed, env, orderType)[i];
            var g := OrEmpty(tx.requestList)[j];
            var ref := GroupTarget(g).value;
            var r := SyncOrders(st, feed, env);
            && OrderKeyOf(tx, orderType) in r.orders
            && ref.categoryId in r.categories
            && ref.subcategoryId in r.subcategories
            && forall l :: 0 <= l < |OrEmpty(g.requestList)| && ItemFits(ItemFor(OrEmpty(g.requestList)[l], ref.categoryId, env.parseNumber)) ==>
                 ItemKey(OrderKeyOf(tx, orderType), ref.subcategoryId, GradeOf(OrEmpty(g.requestList)[l])) in r.items
  {
    var tx := Reached(feed, env, orderType)[i];
    var key := OrderKeyOf(tx, orderType);
    var groups := OrEmpty(tx.requestList);
    var g := groups[j];
    var ref := GroupTarget(g).value;
    var lines := OrEmpty(g.requestList);
    var plan := OrdersPlan(feed, env);
    assert OrderRowAccepted(tx, env);
    var patch := OrderPatchFor(tx, env).value;
    assert TransactionPlan(tx, orderType, env) ==
           [OrderWrite(OrderUpsert(key, patch))] + GroupsPlan(key, groups, env.parseNumber);
    OrdersPlanContains(feed, env, orderType, i);
    GroupsPlanContains(key, groups, env.parseNumber, j);
    var placeholders := PlaceholderWrites(ref);
    assert GroupPlan(key, g, env.parseNumber) == placeholders + LinesPlan(key, ref, lines, env.parseNumber);
    ApplyPlanHoldsWritten(st, plan, OrderWrite(OrderUpsert(key, patch)));
    ApplyPlanHoldsWritten(st, plan, placeholders[0]);
    ApplyPlanHoldsWritten(st, plan, placeholders[1]);
    forall l | 0 <= l < |lines| && ItemFits(ItemFor(lines[l], ref.categoryId, env.parseNumber))
      ensures ItemKey(key, ref.subcategoryId, GradeOf(lines[l])) in SyncOrders(st, feed, env).items
    {
      LinesPlanContains(key, ref, lines, env.parseNumber, l);
      ApplyPlanHoldsWritten(st, plan, LineWrite(key, ref, lines[l], env.parseNumber));
    }
  }

  // ---------------------------------------------------------------------------------------
  // Foreign keys: every item is written after its order and its placeholder category and
  // subcategory, so no write can fail a foreign-key check.

  lemma {:induction false} LinesPlanKeepsReferences(st: Store, key: OrderKey, ref: GroupRef, lines: seq<GradeDetail>, parse: NumberParser)
    requires key in st.orders && ref.categoryId in st.categories && ref.subcategoryId in st.subcategories
    ensures PlanKeepsReferences(st, LinesPlan(key, ref, lines, parse))
    decreases |lines|
  {
    if |lines| > 0 {
      var prefix := LinesPlan(key, ref, lines[..|lines| - 1], parse);
      var last := LinePlan(key, ref, lines[|lines| - 1], parse);
      LinesPlanKeepsReferences(st, key, ref, lines[..|lines| - 1], parse);
      LinesPlanTables(key, ref, lines[..|lines| - 1], parse);
      ApplyPlanByTable(st, prefix);
      if |last| > 0 {
        assert last[..0] == [];
      }
      PlanKeepsReferencesAppend(st, prefix, last);
    }
  }

  lemma GroupPlanKeepsReferences(st: Store, key: OrderKey, g: RequestItem, parse: NumberParser)
    requires key in st.orders
    ensures PlanKeepsReferences(st, GroupPlan(key, g, parse))
  {
    if GroupTarget(g).Some? {
      var ref := GroupTarget(g).value;
      var placeholders := PlaceholderWrites(ref);
      var w1 := placeholders[0];
      var w2 := placeholders[1];
      assert placeholders == [w1, w2];
      assert [w1, w2][..1] == [w1] && [w1][..0] == [];
      var first := ApplyStoreWrite(st, w1);
      assert ApplyPlan(st, [w1]) == first;
      assert WriteKeepsReferences(first, w2);
      var mid := ApplyStoreWrite(first, w2);
      assert ApplyPlan(st, [w1, w2]) == mid;
      assert PlanKeepsReferences(st, [w1, w2]);
      assert key in mid.orders && ref.categoryId in mid.categories && ref.subcategoryId in mid.subcategories;
      LinesPlanKeepsReferences(mid, key, ref, OrEmpty(g.requestList), parse);
      PlanKeepsReferencesAppend(st, placeholders, LinesPlan(key, ref, OrEmpty(g.requestList), parse));
    }
  }

  lemma {:induction false} GroupsPlanKeepsReferences(st: Store, key: OrderKey, groups: seq<RequestItem>, parse: NumberParser)
    requires key in st.orders
    ensures PlanKeepsReferences(st, GroupsPlan(key, groups, parse))
    decreases |groups|
  {
    if |groups| > 0 {
      var prefix := GroupsPlan(key, groups[..|groups| - 1], parse);
      GroupsPlanKeepsReferences(st, key, groups[..|groups| - 1], parse);
      ApplyPlanGrows(st, prefix);
      GroupPlanKeepsReferences(ApplyPlan(st, prefix), key, groups[|groups| - 1], parse);
      PlanKeepsReferencesAppend(st, prefix, GroupPlan(key, groups[|groups| - 1], parse));
    }
  }

  lemma TransactionPlanKeepsReferences(st: Store, tx: Transaction, orderType: OrderType, env: SyncEnv)
    ensures PlanKeepsReferences(st, TransactionPlan(tx, orderType, env))
  {
    if OrderPatchFor(tx, env).Some? {
      var key := OrderKeyOf(tx, orderType);
      var w := OrderWrite(OrderUpsert(key, OrderPatchFor(tx, env).value));
      assert [w][..0] == [];
      var first := ApplyStoreWrite(st, w);
      assert ApplyPlan(st, [w]) == first;
      assert PlanKeepsReferences(st, []) && WriteKeepsReferences(st, w);
      assert PlanKeepsReferences(st, [w]);
      GroupsPlanKeepsReferences(first, key, OrEmpty(tx.requestList), env.parseNumber);
      PlanKeepsReferencesAppend(st, [w], GroupsPlan(key, OrEmpty(tx.requestList), env.parseNumber));
    }
  }

  lemma {:induction false} TransactionsPlanKeepsReferences(st: Store, txs: seq<Transaction>, orderType: OrderType, env: SyncEnv)
    ensures PlanKeepsReferences(st, TransactionsPlan(txs, orderType, env))
    decreases |txs|
  {
    if |txs| > 0 {
      var prefix := TransactionsPlan(txs[..|txs| - 1], orderType, env);
      TransactionsPlanKeepsReferences(st, txs[..|txs| - 1], orderType, env);
      TransactionPlanKeepsReferences(ApplyPlan(st, prefix), txs[|txs| - 1], orderType, env);
      PlanKeepsReferencesAppend(st, prefix, TransactionPlan(txs[|txs| - 1], orderType, env));
    }
  }

  /** The order sync keeps every foreign key of the store satisfied, whatever the store held
      and whatever ids the feed names. */
  lemma SyncOrdersKeepsReferences(st: Store, feed: TransactionFeed, env: SyncEnv)
    requires ReferencesHold(st)
    ensures ReferencesHold(SyncOrders(st, feed, env))
  {
    var buys := TransactionsPlan(Reached(feed, env, Buy), Buy, env);
    var sells := TransactionsPlan(Reached(feed, env, Sell), Sell, env);
    TransactionsPlanKeepsReferences(st, Reached(feed, env, Buy), Buy, env);
    TransactionsPlanKeepsReferences(ApplyPlan(st, buys), Reached(feed, env, Sell), Sell, env);
    PlanKeepsReferencesAppend(st, buys, sells);
    ApplyPlanKeepsReferences(st, OrdersPlan(feed, env));
  }

  /** The writes the sync plans for a single buy without date or time, with one grade line in
      a category without subcategory: the order, the two placeholders, then the item when it
      fits its columns. */
  lemma SingleLinePlan(env: SyncEnv, orderId: string, categoryId: string, quantity: string, total: string)
    requires categoryId != ""
    ensures var line := GradeDetail(None, quantity, total, None);
            var tx := Transaction(orderId, None, None, Some([RequestItem(Some(categoryId), None, Some([line]))]));
            var noneId := CategorySync.NoneSubcategoryId(categoryId);
            var key := OrderKey(orderId, Buy);
            && OrderPatchFor(tx, env) == Some(OrderPatch(None, None, env.now, tx))
            && OrdersPlan(TransactionFeed(Some([tx]), None), env) ==
               [OrderWrite(OrderUpsert(key, OrderPatch(None, None, env.now, tx))),
                CategoryWrite(InsertIfAbsent(categoryId, PlaceholderCategoryName(categoryId))),
                SubcategoryWrite(InsertIfAbsent(noneId, Subcategory(categoryId, PlaceholderSubcategoryName(noneId))))]
               + LinePlan(key, GroupRef(categoryId, noneId), line, env.parseNumber)
  {
    var line := GradeDetail(None, quantity, total, None);
    var g := RequestItem(Some(categoryId), None, Some([line]));
    var tx := Transaction(orderId, None, None, Some([g]));
    var feed := TransactionFeed(Some([tx]), None);
    var noneId := CategorySync.NoneSubcategoryId(categoryId);
    var key := OrderKey(orderId, Buy);
    var ref := GroupRef(categoryId, noneId);
    var parse := env.parseNumber;
    assert GroupTarget(g) == Some(ref);
    assert OrderRowAccepted(tx, env);
    var ow := OrderWrite(OrderUpsert(key, OrderPatch(None, None, env.now, tx)));
    var cw := CategoryWrite(InsertIfAbsent(categoryId, PlaceholderCategoryName(categoryId)));
    var sw := SubcategoryWrite(InsertIfAbsent(noneId, Subcategory(categoryId, PlaceholderSubcategoryName(noneId))));
    var last := LinePlan(key, ref, line, parse);
    assert [line][..0] == [] && [g][..0] == [] && [tx][..0] == [];
    assert LinesPlan(key, ref, [line], parse) == last;
    assert GroupsPlan(key, [g], parse) == [cw, sw] + last;
    assert TransactionPlan(tx, Buy, env) == [ow, cw, sw] + last;
    assert TransactionsPlan([tx], Buy, env) == [ow, cw, sw] + last;
    assert AcceptedPrefix([tx], env) == [tx];
    assert Reached(feed, env, Buy) == [tx];
    assert Reached(feed, env, Sell) == [];
  }

  /** A buy transaction that names a category the store has never seen, with no subcategory
      and one grade line without grade or price, synced into an empty store: the sync creates
      a placeholder category, its placeholder `NONE-` subcategory, the order stamped with the
      processing time, and one item under the default grade with price 0, unless its quantity
      or total overflows its column, in which case there is no item. */
  lemma SyncUnknownCategory(env: SyncEnv, orderId: string, categoryId: string, quantity: string, total: string)
    requires categoryId != ""
    ensures var line := GradeDetail(None, quantity, total, None);
            var tx := Transaction(orderId, None, None, Some([RequestItem(Some(categoryId), None, Some([line]))]));
            var noneId := CategorySync.NoneSubcategoryId(categoryId);
            var key := OrderKey(orderId, Buy);
            var item := OrderItem(categoryId, env.parseNumber(quantity).GetOr(0.0), env.parseNumber(total).GetOr(0.0), Some(0.0));
            SyncOrders(EmptyStore, TransactionFeed(Some([tx]), None), env) ==
            Store(map[categoryId := PlaceholderCategoryName(categoryId)],
                  map[noneId := Subcategory(categoryId, PlaceholderSubcategoryName(noneId))],
                  map[key := Order(None, None, env.now, tx)],
                  if ItemFits(item) then map[ItemKey(key, noneId, DefaultGrade) := item] else map[])
  {
    var line := GradeDetail(None, quantity, total, None);
    var tx := Transaction(orderId, None, None, Some([RequestItem(Some(categoryId), None, Some([line]))]));
    var noneId := CategorySync.NoneSubcategoryId(categoryId);
    var key := OrderKey(orderId, Buy);
    var parse := env.parseNumber;
    var ref := GroupRef(categoryId, noneId);
    var three := [OrderWrite(OrderUpsert(key, OrderPatch(None, None, env.now, tx))),
                  CategoryWrite(InsertIfAbsent(categoryId, PlaceholderCategoryName(categoryId))),
                  SubcategoryWrite(InsertIfAbsent(noneId, Subcategory(categoryId, PlaceholderSubcategoryName(noneId))))];
    SingleLinePlan(env, orderId, categoryId, quantity, total);
    ApplyPlanAppend(EmptyStore, three, LinePlan(key, ref, line, parse));
    PlaceholdersIntoEmpty(key, OrderPatch(None, None, env.now, tx), categoryId, PlaceholderCategoryName(categoryId),
                          noneId, Subcategory(categoryId, PlaceholderSubcategoryName(noneId)));
    LinePlanStep(ApplyPlan(EmptyStore, three), key, ref, line, parse);
  }

  /** An order, then a category and a subcategory insert, into an empty store. */
  lemma PlaceholdersIntoEmpty(key: OrderKey, patch: OrderPatch, categoryId: string, name: string, subcategoryId: string, sub: Subcategory)
    ensures ApplyPlan(EmptyStore, [OrderWrite(OrderUpsert(key, patch)),
                                   CategoryWrite(InsertIfAbsent(categoryId, name)),
                                   SubcategoryWrite(InsertIfAbsent(subcategoryId, sub))]) ==
            Store(map[categoryId := name], map[subcategoryId := sub],
                  map[key := Order(patch.orderFinishedDate, patch.orderFinishedTime, patch.finishedAt, patch.rawPayload)], map[])
  {
    ApplyThreeWrites(EmptyStore, OrderWrite(OrderUpsert(key, patch)), CategoryWrite(InsertIfAbsent(categoryId, name)),
                     SubcategoryWrite(InsertIfAbsent(subcategoryId, sub)));
  }

  /** The plan of one grade line upserts its item when the item fits, and does nothing else. */
  lemma LinePlanStep(st: Store, key: OrderKey, ref: GroupRef, line: GradeDetail, parse: NumberParser)
    ensures ApplyPlan(st, LinePlan(key, ref, line, parse)) ==
            if ItemFits(ItemFor(line, ref.categoryId, parse))
            then st.(items := st.items[ItemKey(key, ref.subcategoryId, GradeOf(line)) := ItemFor(line, ref.categoryId, parse)])
            else st
  {
    if ItemFits(ItemFor(line, ref.categoryId, parse)) {
      ApplyPlanSnoc(st, [], LineWrite(key, ref, line, parse));
      assert [] + [LineWrite(key, ref, line, parse)] == LinePlan(key, ref, line, parse);
    }
  }
}
