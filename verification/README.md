# Recycling stock report: a Dafny model of the backend core

This project models the backend of a recycling-shop stock report. A one-shot **sync** job reads
two upstream feeds and upserts them into a PostgreSQL store:

- a category feed, holding categories and their subcategories;
- a transaction feed, holding buy and sell orders with their item lines.

A read-only **report** API then serves two things:

- the category tree;
- a paged aggregation of order items per subcategory. For each subcategory it gives buy and sell
  quantities and totals, the stock and money balances, and the latest order.

The model has six parts.

| part | Dafny modules | source |
|---|---|---|
| the store: four tables, their unique keys and foreign keys | `Schema` | `backend/db/schema.ts` |
| sync: feed normalisation, category sync, order sync, the run as a whole | `Feed`, `Convert`, `Writes`, `OrderWrites`, `Plan`, `CategorySync`, `OrderSync`, `Sync` | `backend/db/sync.ts` |
| the aggregation query, including the `ILIKE` order-id filter | `Like`, `Collation`, `OrderRepository` | `backend/src/repository/order.repository.ts` |
| response shaping and paging | `OrdersService` | `backend/src/services/orders.service.ts` |
| query-string validation and the HTTP outcome | `OrdersRoute` | `backend/src/routes/orders.route.ts` |
| the category listing | `CategoriesRepository` | `backend/src/repository/categories.repository.ts` |

## How the system is modelled

**The store.** The store is four finite maps, one per table, each keyed by the table's unique key:

- `categories`: category id to name;
- `subcategories`: subcategory id to parent category and name;
- `orders`: `(external order id, order type)` to the order's columns;
- `order items`: `(order, subcategory, grade)` to the item's columns.

Because the tables are maps, "at most one row per key" holds by construction. The foreign keys
are the predicate `Schema.ReferencesHold`.

An item refers to its order by the order's natural key, not by the serial `orders.id`. The
unique index on `(external_order_id, order_type)` makes the two one-to-one.

**Sync.** Each `db.insert` that sync issues becomes one `StoreWrite`:

- `onConflictDoUpdate` is an `Upsert`;
- `onConflictDoNothing` is an `InsertIfAbsent`;
- the order upsert is an `OrderUpsert`. When the new date or time is undefined, it keeps the old one.

A sync is a plan of such writes, applied in order. The plan depends only on the feed, not on
the store. The lemmas characterise the store after a plan per key:

- the last upsert of a key wins;
- failing that, the existing row stays;
- failing that, the first insert-if-absent wins.

Idempotence and the foreign-key invariant follow from this characterisation.

**The report.** The aggregation query works over a sequence of joined rows, order items joined
with their orders. `JoinRows` builds that sequence from a store. The report depends only on the
multiset of rows, so any join order gives the same answer.

**Behaviour passed in as parameters.**

- Number parsing (`parseFloat`) is the `parseNumber` field of `SyncEnv`.
- PostgreSQL's acceptance of a normalised date or time text is `dateAccepted` and
  `timeAccepted`. A text of the right shape can still be refused, such as month 13.
- `new Date(date + "T" + time)` is `timestamp`, which is `None` for an Invalid Date. Such a
  date cannot be written to the `timestamp` column.
- The clock reading `new Date()` is `now`.
- PostgreSQL's `::date` cast is the `DateCast` function.
- JavaScript's `Number()` coercion in the route is the `Coerce` function. It returns `None` for NaN.
- Text ordering is code-point lexicographic (`Collation`), as under the "C" collation.

**How a run ends.**

- `main` (`backend/db/sync.ts:216-226`) awaits both syncs inside one `try`. A category feed
  that fails to arrive or to validate therefore skips the order sync.
- On the transaction feed, an error status, a failed request or a body that is not JSON
  throws after the category writes are committed. The outcome is `Failed`, but the category
  changes persist.
- A transaction feed that is JSON but fails validation only logs and returns. The outcome is
  `Completed`, with no order writes.
- The order upsert (`backend/db/sync.ts:110-125`) has no `try`. A transaction whose order row
  is refused throws out of the order sync. The writes of earlier transactions persist, no
  later transaction is written, and the outcome is `Failed`.
- An item upsert that overflows a `numeric` column is caught (`backend/db/sync.ts:185-187`).
  That item is skipped and the sync goes on with the next line.

## Model

| member | source | states |
|---|---|---|
| Schema.DeleteOrder | backend/db/schema.ts:40-44 | Deleting an order cascades to exactly that order's items. Every other order keeps its key and its columns, every other item, category and subcategory stays as it was, and the foreign keys still hold afterwards. |
| Schema.ItemFitsMeaning | backend/db/schema.ts:46-48 | An item fits its columns iff its quantity lies strictly between ±(10^14 − 0.00005), and its total and any price strictly between ±(10^16 − 0.005). These are the `numeric(18,4)` and `numeric(18,2)` limits after rounding half away from zero. |
| Writes.Apply | backend/db/sync.ts:73-99 | One `INSERT … ON CONFLICT` adds its key to the table and leaves every other key's row unchanged. |
| Writes.ApplyAllAt | backend/db/sync.ts:72-101 | After a sequence of upserts and insert-if-absents, a key holds the value of its last upsert. Without an upsert it keeps its existing row. Without either it holds its first insert. It is absent only when none of these exists. |
| Writes.ApplyAllIdempotent | backend/db/sync.ts:72-101 | Replaying the same write sequence on its own result changes nothing. |
| Writes.ApplyAllKeepsKeys | backend/db/sync.ts:72-101 | Writes never remove a row, and every written key is present afterwards. |
| Writes.LastUpsert | backend/db/sync.ts:76-79 | The reference value of "last upsert wins": the value of the last upsert of the key, with no later upsert of that key; None when the key is never upserted. |
| Writes.FirstInsert | backend/db/sync.ts:81-85 | The reference value of "first insert wins": the value of some insert-if-absent of the key; None when there is none. |
| OrderWrites.ApplyUpsert | backend/db/sync.ts:110-125 | The order upsert overwrites `finishedAt` and the payload. It replaces the date and time only when they are supplied: an existing order keeps its old ones, and a new order stores NULL. Other orders are untouched. |
| OrderWrites.ApplyUpsertsAt | backend/db/sync.ts:110-125 | After many order upserts, an order's columns come from the last patch of its key, with the date and time from the last patch that supplied them. |
| OrderWrites.LastPatchAt | backend/db/sync.ts:110-125 | The patch of the last transaction for a key is the one that decides the order's finishedAt and payload. |
| OrderWrites.ApplyUpsertsIdempotent | backend/db/sync.ts:110-125 | Replaying the same order upserts changes nothing. |
| OrderWrites.ApplyUpsertsRestamped | backend/db/sync.ts:110-125 | Order upserts issued again with other `finishedAt` stamps, but the same keys, dates, times and payloads, give the orders that the second batch alone gives. |
| OrderWrites.ApplyUpsertsKeepsKeys | backend/db/sync.ts:110-125 | Order upserts never remove an order, and every upserted key is present afterwards. |
| OrderWrites.ApplyUpsertsOtherKey | backend/db/sync.ts:117-118 | Upserts for other `(external id, type)` keys leave an order untouched. |
| Plan.ApplyPlanByTable | backend/db/sync.ts:66-211 | A sync plan acts on each table independently: each table's result depends only on that table's writes, in plan order. |
| Plan.ApplyPlanAppend | backend/db/sync.ts:216-226 | Running two plans one after the other is the same as running their concatenation. |
| Plan.ApplyPlanIdempotent | backend/db/sync.ts:216-226 | Re-running a sync plan on the store it produced changes nothing. |
| Plan.ApplyPlanRestamped | backend/db/sync.ts:216-226 | Re-running a sync plan whose writes differ only in the orders' timestamps gives the store that the second plan alone gives. |
| Plan.ApplyPlanHoldsWritten | backend/db/sync.ts:66-211 | Every row a plan writes is present afterwards. |
| Plan.ApplyPlanGrows | backend/db/sync.ts:66-211 | Sync never deletes a row of any table. |
| Plan.ApplyPlanKeepsReferences | backend/db/schema.ts:19-44 | A plan whose every write names existing parents preserves the foreign keys. |
| Convert.ToNumber | backend/db/sync.ts:48-52 | A missing or unparsable quantity is 0. Otherwise it is the parsed number. |
| Convert.ToDateOnly | backend/db/sync.ts:54-58 | The date is kept exactly when the text starts with `DDDD-DD-DD`, and it is then those 10 characters. |
| Convert.ToTimeOnly | backend/db/sync.ts:60-64 | The time is kept exactly when the text starts with `DD:DD:DD`, and it is then those 8 characters. |
| Convert.ToDateOnlyIdempotent | backend/db/sync.ts:54-58 | Normalising a normalised date changes nothing. |
| Convert.ToTimeOnlyIdempotent | backend/db/sync.ts:60-64 | Normalising a normalised time changes nothing. |
| CategorySync.NoneSubcategoryId | backend/db/sync.ts:82 | The fallback subcategory id is `NONE-` followed by the category id, so it is never empty and is distinct per category. |
| CategorySync.SyncCategoriesCategoryAt | backend/db/sync.ts:72-79 | After a category sync, a category exists iff it existed or is listed. A listed category is named by its last listing, and an unlisted one keeps its name. |
| CategorySync.SyncCategoriesSubcategoryAt | backend/db/sync.ts:81-99 | A listed subcategory takes its last listing's parent and name. An unlisted existing one is unchanged. A `NONE-` row is inserted only when absent. |
| CategorySync.LastListingWins | backend/db/sync.ts:73-79 | When a category id appears several times in the feed, its final name is that of the last occurrence. |
| CategorySync.SyncCategoriesEstablishesFeed | backend/db/sync.ts:72-85 | Every listed category and its `NONE-` subcategory exist after sync. The category is named as listed when no later listing repeats it. |
| CategorySync.SyncCategoriesFeedSubcategories | backend/db/sync.ts:87-99 | Every listed subcategory with a non-empty id is stored as its last listing says. A subcategory with an empty id is skipped. |
| CategorySync.SyncCategoriesKeepsUnlisted | backend/db/sync.ts:87-99 | A stored subcategory that the feed does not list keeps its parent and name. |
| CategorySync.SyncCategoriesIdempotent | backend/db/sync.ts:66-103 | Syncing the same category feed twice gives the same store as syncing it once. |
| CategorySync.SyncCategoriesKeepsReferences | backend/db/sync.ts:72-101 | Category sync preserves the foreign keys, because each subcategory is written after its parent category. |
| CategorySync.SyncSingleCategory | backend/db/sync.ts:72-85 | Syncing one category without subcategories into an empty store stores exactly the category and its `NONE-` subcategory. |
| OrderSync.OrderPatchFor | backend/db/sync.ts:106-124 | An order row is written iff every date and time it supplies is accepted, and their combination is too when both are present. It then stores the normalised date and time and the raw transaction. `finishedAt` combines the date and time when both are present, and is "now" otherwise. |
| OrderSync.GroupTarget | backend/db/sync.ts:130-141 | A request group is skipped iff its category id is empty. A missing subcategory id (including the texts `undefined` and `null`) becomes `NONE-<category>`, and the target subcategory id is never empty. |
| OrderSync.GradeOf | backend/db/sync.ts:162 | An item's grade is the feed grade, or `ทั่วไป` when the feed grade is absent or empty. |
| OrderSync.PriceOf | backend/db/sync.ts:165-175 | The price is 0 when absent or empty. Otherwise it is the parsed price, or 0 when the text does not parse. |
| OrderSync.ItemFor | backend/db/sync.ts:161-184 | An item row records its category, the parsed quantity and total (0 when unparsable) and the price. |
| OrderSync.LinePlanStep | backend/db/sync.ts:161-187 | A grade line stores its item under (order, subcategory, grade) when the item fits its columns. Otherwise the caught overflow leaves the store unchanged. |
| OrderSync.AcceptedPrefix | backend/db/sync.ts:204-211 | The loop gets through a prefix of the transactions whose order rows are all accepted, and the next transaction, if any, is refused. |
| OrderSync.ReachedMeaning | backend/db/sync.ts:204-211 | The sync gets through every buy and sell iff no order row is refused. Otherwise it stops at the first refused buy, writing no sells, or at the first refused sell. |
| OrderSync.OrdersPlanTables | backend/db/sync.ts:204-211 | Order sync upserts the orders of the buy transactions it gets through, then those of the sells. It only inserts-if-absent categories and subcategories, and only upserts items. |
| OrderSync.SyncOrdersOrderAt | backend/db/sync.ts:105-125 | After order sync, each order is the result of the upserts of those transactions of its own type that the sync got through before any refused order row, applied in feed order. |
| OrderSync.SyncOrdersOrdersTable | backend/db/sync.ts:204-211 | The orders table after sync is the store's orders, with the upserts of the buys the sync got through applied, then those of the sells. Placeholder and item writes do not touch it. |
| OrderSync.TypedUpsertsAt | backend/db/sync.ts:105-125 | Because the order key includes the order type, a buy upsert never changes a sell order and a sell upsert never changes a buy order. |
| OrderSync.SyncOrdersOrderKeys | backend/db/sync.ts:206-211 | The orders after sync are exactly the previous orders plus one per (transaction id, buy/sell) among the transactions the sync got through. |
| OrderSync.LastTransactionWins | backend/db/sync.ts:110-125 | When an order id repeats within one side of what the sync got through, the last such transaction decides the stored payload and `finishedAt`, and the date and time it supplies. |
| OrderSync.SyncOrdersKeepsNames | backend/db/sync.ts:143-153 | Order sync never renames an existing category or subcategory. |
| OrderSync.SyncOrdersPlaceholderNames | backend/db/sync.ts:143-153 | A category or subcategory that order sync creates carries the placeholder name built from its id. |
| OrderSync.SyncOrdersItemAt | backend/db/sync.ts:161-187 | An item after order sync is the last item written for its (order, subcategory, grade). Overflowing lines and lines after a refused order row write nothing. Without a write the item is the existing one. |
| OrderSync.SyncOrdersIdempotent | backend/db/sync.ts:105-214 | Syncing the same transaction feed again, with the clock at any reading, gives the store that the second sync alone gives. |
| OrderSync.SyncOrdersStoresGroup | backend/db/sync.ts:130-188 | For every request group with a category id of a transaction the sync got through, the group's order, category and subcategory exist after sync. So does one item per line whose values fit their columns. |
| OrderSync.SyncOrdersKeepsReferences | backend/db/sync.ts:143-184 | Order sync preserves the foreign keys, because the placeholders are inserted before the items that reference them. |
| OrderSync.SyncUnknownCategory | backend/db/sync.ts:105-187 | A transaction naming an unknown category and no subcategory creates the placeholder category and the `NONE-` placeholder subcategory. It also creates the order with `finishedAt` = now. If its quantity and total fit their columns, it creates one item of grade `ทั่วไป` and price 0; otherwise it creates no item. |
| OrderSync.SingleLinePlan | backend/db/sync.ts:105-187 | For one buy without date or time, with one grade line in an unknown category and no subcategory, the sync issues these writes in order: the order upsert stamped now, the placeholder category, the `NONE-` placeholder subcategory, and the item when it fits. |
| Sync.RunSync | backend/db/sync.ts:188-226 | A failed category feed leaves the store as it was and fails. A received category feed is synced. The orders are then synced when their feed is received and valid, as far as the first refused order row. The run fails iff the category feed was not received, or the transaction feed had an error status or no JSON body, or an order row was refused. |
| Sync.RunSyncIdempotent | backend/db/sync.ts:216-226 | Running the whole sync again against the same feeds, with the clock at any reading, gives the same store and outcome as that second run alone. |
| Sync.RefusedDateFailsRun | backend/db/sync.ts:105-125 | A first buy whose date PostgreSQL refuses makes the run fail after the category sync, with no order written. |
| Sync.RunSyncKeepsReferences | backend/db/sync.ts:216-226 | The whole sync preserves the foreign keys. |
| Sync.RunSyncCategoryNames | backend/db/sync.ts:72-79 | After a run with a received category feed, every listed category carries its last listed name. The order sync's placeholders do not overwrite it. |
| Collation.Least | backend/src/repository/order.repository.ts:36 | `MIN(category_id)` is a member of the group and no greater than any other member. |
| Collation.SortedKeys | backend/src/repository/order.repository.ts:53 | `ORDER BY` over unique ids lists each id once, in strictly ascending order. |
| Collation.LeTotal | backend/src/repository/order.repository.ts:48 | The text order is total. |
| Collation.LeTransitive | backend/src/repository/order.repository.ts:48 | The text order is transitive. |
| Collation.LeAntisymmetric | backend/src/repository/order.repository.ts:48 | Two texts that sort no later than each other are equal. |
| Like.LowerText | backend/src/repository/order.repository.ts:22 | Case folding for `ILIKE` maps each character and keeps the length. |
| Like.ContainsPatternWellFormed | backend/src/repository/order.repository.ts:10 | `%x%` is always a well-formed LIKE pattern. |
| Like.AnyRunMatches | backend/src/repository/order.repository.ts:22 | `%` matches iff the rest of the pattern matches some suffix of the text. |
| Like.LiteralsMatch | backend/src/repository/order.repository.ts:22 | A literal prefix matches iff the text starts with it, ignoring case, and the rest matches. |
| Like.ILikeIsSubstring | backend/src/repository/order.repository.ts:10-22 | For an order-id filter without `%`, `_` or `\`, `ILIKE '%x%'` holds iff `x` occurs in the id, ignoring case. |
| Like.UnderscoreIsWildcard | backend/src/repository/order.repository.ts:10-22 | The filter is not escaped: `_` in the filter matches any character, so `AB` matches `_` although it does not contain it. |
| OrderRepository.CastDate | backend/src/repository/order.repository.ts:23-24 | An absent date bound is no bound. A bound that PostgreSQL cannot cast to a date fails the query. |
| OrderRepository.BuildFilters | backend/src/repository/order.repository.ts:6-15 | Filters copy the id and grade filters. An empty order id gives no ILIKE filter. The sell bounds default to 0 and `MAX_SAFE_INTEGER`. Building fails iff a date bound does not cast. |
| OrderRepository.MinCategory | backend/src/repository/order.repository.ts:36 | A group's category is the least category id among its rows. |
| OrderRepository.SortsFirstTotal | backend/src/repository/order.repository.ts:48 | The latest-order ordering (date descending with NULLs first, then id descending) relates any two orders. |
| OrderRepository.SortsFirstTransitive | backend/src/repository/order.repository.ts:48 | The latest-order ordering is transitive. |
| OrderRepository.SortsFirstAntisymmetric | backend/src/repository/order.repository.ts:48 | The latest-order ordering has no ties between distinct (date, id) pairs, so `DISTINCT ON` picks a well-defined row. |
| OrderRepository.LatestIsFirst | backend/src/repository/order.repository.ts:45-49 | A group's latest order comes from one of its rows and sorts no later than every row of the group. A group with no rows has none. |
| OrderRepository.Page | backend/src/repository/order.repository.ts:54 | `LIMIT/OFFSET` returns at most `limit` rows, namely the consecutive rows starting at `offset`, and none past the end. |
| OrderRepository.FetchOrders | backend/src/repository/order.repository.ts:5-81 | The query succeeds iff the date bounds cast and LIMIT and OFFSET are whole, non-negative bigints. The count is the number of kept groups. The page has exactly the expected length and lists the kept groups from the offset on. |
| OrderRepository.KeptGroupsMeaning | backend/src/repository/order.repository.ts:41-43 | A subcategory is reported iff some joined row passes the filters for it and its sell total lies between the bounds, both inclusive. |
| OrderRepository.FetchOrdersSorted | backend/src/repository/order.repository.ts:53 | A page lists subcategories in strictly ascending order, with no repeats. |
| OrderRepository.FetchOrdersPosition | backend/src/repository/order.repository.ts:50-54 | The report's j-th group appears on the page whose window covers j, at position j − offset. |
| OrderRepository.FetchOrdersAtOffset | backend/src/repository/order.repository.ts:49-54 | Re-asking with offset o gives, at index k below the limit, the group at position o + k of the full report. |
| OrderRepository.FiltersIgnoreOffset | backend/src/repository/order.repository.ts:5-15 | The WHERE and HAVING filters do not depend on the offset: only LIMIT/OFFSET uses it. |
| OrderRepository.CountIgnoresPaging | backend/src/repository/order.repository.ts:57-70 | `totalItems` does not depend on `limit` or `offset`. |
| OrderRepository.FetchOrdersRows | backend/src/repository/order.repository.ts:35-52 | Each reported row carries its group's buy and sell sums, a sell total inside the bounds, the least category and the latest order of the group. |
| OrderRepository.GroupSumAppend | backend/src/repository/order.repository.ts:37-40 | `SUM … FILTER` over two batches of rows is the sum of the two batch sums. |
| OrderRepository.GroupSumPermutation | backend/src/repository/order.repository.ts:37-40 | `SUM … FILTER` does not depend on row order. |
| OrderRepository.LatestPermutation | backend/src/repository/order.repository.ts:45-49 | The latest order does not depend on row order. |
| OrderRepository.FetchOrdersPermutation | backend/src/repository/order.repository.ts:27-81 | The whole report does not depend on the order in which the join produces rows. |
| OrderRepository.GroupsPermutation | backend/src/repository/order.repository.ts:27-53 | Joined rows that are equal as a multiset give the same groups, keep the same groups after HAVING, and give every group the same sums, minimum category and latest order. |
| OrderRepository.JoinRows | backend/src/repository/order.repository.ts:29-32 | The join lists each item whose order exists exactly once, with its order's type, id and date, and lists nothing else. |
| OrderRepository.JoinDeterminesReport | backend/src/repository/order.repository.ts:27-33 | Any two listings of the join are permutations of each other and give the same report. |
| OrderRepository.BuyAndSellExample | backend/src/repository/order.repository.ts:35-54 | A subcategory with a buy of 10/100 and a sell of 4/50 reports those four sums, with the sell as the latest order. |
| OrderRepository.SellTotalFilterExample | backend/src/repository/order.repository.ts:43 | A buy-only subcategory has a sell total of 0. It is dropped, and not counted, once the minimum sell total is 1. |
| OrdersService.Offset | backend/src/services/orders.service.ts:5 | Page 1 starts at offset 0, and the page's window ends at `page × limit`. |
| OrdersService.ToRepositoryQuery | backend/src/services/orders.service.ts:5-6 | The repository receives the caller's filters unchanged, plus the computed offset. |
| OrdersService.Ceil | backend/src/services/orders.service.ts:31 | `Math.ceil` gives the least integer at or above its argument. |
| OrdersService.TotalPages | backend/src/services/orders.service.ts:31 | `totalPages` is the least number of pages of `limit` rows that holds every item. It is 0 when there are none. |
| OrdersService.NumberOr0 | backend/src/services/orders.service.ts:9-12 | `Number(x \|\| 0)` is the value when present and 0 when NULL. |
| OrdersService.Shape | backend/src/services/orders.service.ts:8-26 | A response item copies the ids and sums. Its stock balance is bought minus sold quantity, and its money balance is bought minus sold total. |
| OrdersService.Respond | backend/src/services/orders.service.ts:28-33 | The response carries the count, the number of pages, the requested page and one shaped item per row, in order. |
| OrdersService.GetOrders | backend/src/services/orders.service.ts:4-34 | The service succeeds iff the repository does, and passes its error through. On success it returns the shaped page, the count, the page count and the requested page. |
| OrdersService.GetOrdersItems | backend/src/services/orders.service.ts:8-25 | Item i of a page is the report's group at offset + i. Its balances are the differences of that group's buy and sell sums. |
| OrdersService.PagesCoverReport | backend/src/services/orders.service.ts:5-31 | Every reported group j lies on page ⌊j/limit⌋+1, which is within `totalPages`, at position j mod limit. So walking pages 1..totalPages shows the whole report. |
| OrdersService.ThirdOfThreePages | backend/src/services/orders.service.ts:5-31 | With 25 groups and limit 10 there are 3 pages, and page 3 holds the last 5 groups. |
| OrdersService.BalancesExample | backend/src/services/orders.service.ts:8-33 | Buying 10/100 and selling 4/50 gives a stock balance of 6 and a money balance of 50, on a single page. |
| OrdersRoute.Rule | backend/src/routes/orders.route.ts:8-17 | Each numeric parameter's default satisfies its own bounds. |
| OrdersRoute.CheckNumber | backend/src/routes/orders.route.ts:8-17 | A numeric parameter is accepted iff it is absent, or coerces to a number within its bounds. It then has the default or the coerced value. A refused one yields issues naming it, including "not a number" exactly when coercion fails. |
| OrdersRoute.ParseQuery | backend/src/routes/orders.route.ts:7-22 | Parsing succeeds iff all four numbers are accepted. The result then has limit in [1,100], page ≥ 1, non-negative sell bounds and the text filters as given. A failure names exactly the refused parameters. |
| OrdersRoute.NonEmpty | backend/src/routes/orders.route.ts:26-31 | A text filter is passed on iff it is present and non-empty. |
| OrdersRoute.ToOrdersQuery | backend/src/routes/orders.route.ts:23-34 | The service query keeps limit and page, drops empty text filters and always carries both sell bounds. |
| OrdersRoute.HandleOrders | backend/src/routes/orders.route.ts:20-40 | An invalid query string gets a 500 carrying the validation issues. A valid one gets a 200 with the service's answer, or a 500 with the query error. |
| OrdersRoute.DefaultQuery | backend/src/routes/orders.route.ts:8-17 | A request without parameters asks for page 1 of 10 rows, with sell bounds 0 and `MAX_SAFE_INTEGER`. |
| OrdersRoute.OutOfRangeRefused | backend/src/routes/orders.route.ts:8-17 | A limit above 100, or any number below its minimum, refuses the whole request and names that parameter. |
| OrdersRoute.CrossedBoundsAccepted | backend/src/routes/orders.route.ts:16-17 | Validation does not require `minSellTotal ≤ maxSellTotal`. Crossed bounds are accepted. |
| OrdersRoute.EmptyFilterIsAbsent | backend/src/routes/orders.route.ts:26-31 | Sending an empty text filter gets the same HTTP response as not sending it. |
| OrdersRoute.ValidRequestAnswered | backend/src/routes/orders.route.ts:22-35 | A 200 answer reports the requested page, at most `limit` items and `totalPages` = ⌈totalItems / limit⌉. |
| CategoriesRepository.SubcategoryRows | backend/src/repository/categories.repository.ts:11-14 | The subcategory query returns every stored subcategory once, ascending by id. |
| CategoriesRepository.SubsOf | backend/src/repository/categories.repository.ts:16-24 | A category's list holds exactly the entries of the rows whose parent is that category. |
| CategoriesRepository.SubsOfAscending | backend/src/repository/categories.repository.ts:11-24 | Because the rows are sorted, each category's subcategory list is ascending by id. |
| CategoriesRepository.GroupByCategory | backend/src/repository/categories.repository.ts:16-24 | The grouping map has a key for each parent category that some row names, and nothing else. Each key holds that category's rows in row order. |
| CategoriesRepository.ListCategories | backend/src/repository/categories.repository.ts:26-30 | Each listed category carries its name and its grouped subcategories, or none when the map has no entry. |
| CategoriesRepository.FetchCategories | backend/src/repository/categories.repository.ts:5-31 | The listing has one entry per stored category, strictly ascending by id, with its stored name and its subcategories in ascending order. |
| CategoriesRepository.ListPair | backend/src/repository/categories.repository.ts:5-31 | A store with exactly two categories a < b lists a first and b second, each with its stored name and own subcategories. |
| CategoriesRepository.SubsOfStore | backend/src/repository/categories.repository.ts:11-29 | An entry is listed under a category iff the store holds that subcategory with that parent and name. |
| CategoriesRepository.NoSubcategoriesListsNone | backend/src/repository/categories.repository.ts:29 | A category without subcategories is listed with an empty list. |
| CategoriesRepository.OrphansUnlisted | backend/src/repository/categories.repository.ts:26-30 | A subcategory whose parent is missing from the categories table is not listed under any category. |
| CategoriesRepository.ListingExample | backend/src/repository/categories.repository.ts:5-31 | Categories C2 and C1, with two subcategories under C1, list as C1 with S1 and S2, then C2 with none. |

## Left out

- Fetching the feeds, JSON parsing, the feeds' schema validation and console logging are left out. `FeedResponse` says which outcome a request had: received (already parsed), an error status, no JSON body, or JSON that fails validation.
- The `try/catch` around the placeholder inserts (`backend/db/sync.ts:143-156`) is left out. Those inserts are inserts-if-absent whose parent category is written just before, so only a database fault could make them throw. Of the `try/catch` around the item upsert (`backend/db/sync.ts:167-187`), only numeric overflow is modelled (`Schema.ItemFits`). Database faults and texts that PostgreSQL refuses, such as one holding a NUL character, are not modelled.
- OrderPatchFor: one clock reading `now` stands for the `new Date()` that the source takes afresh for every transaction. Within one run, all orders without a full date and time get the same stamp. The idempotence lemmas let the second run read a different clock.
- The serial `orders.id` and `order_items.id` are left out. Items refer to orders by their unique natural key, which makes the `if (!orderDbId) return` guard unreachable.
- `order_items.grade` is nullable in the schema. Sync always writes a non-empty grade, so the model's grade is a plain string.
- Floating point and `toString` are left out. Quantities, totals, prices, limits and pages are exact reals. The stored item keeps the parsed value unrounded, while the column would round it to 4 or 2 decimals. The overflow check does model that rounding.
- Convert.ToNumber: `parseFloat` is an abstract parser, so prefix parsing and NaN are not modelled beyond "does not parse".
- Locale collation is left out. Text ordering is code-point order, and `ILIKE` folds ASCII letters only.
- PostgreSQL's date parsing is the abstract `DateCast`. Dates are compared as their canonical `YYYY-MM-DD` texts.
- The concurrency of `Promise.all` is left out. The two report queries read the same store, and a failure of either fails the call.
- OrdersService.GetOrders requires `limit > 0`, which validation guarantees (limit ≥ 1). The service on its own would divide by zero.
- Repeated query parameters (arrays) are not modelled. `Infinity` produced by coercion is treated like NaN.
- The `?? ±Infinity` fallbacks in the route are unreachable because zod fills both defaults, so the sell bounds are always present.
- The Express server and the categories route and service (which only forward), the frontend proxy and the UI are not part of this model.
- `pool.end()` and process exit are left out.
