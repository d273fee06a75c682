/** `main` of the sync script: the category sync, then the order sync, inside one `try`. A
    thrown error ends the run; the writes already issued stay in the store (there is no
    enclosing transaction). */
module Sync {
  import opened Wrappers
  import opened Feed
  import opened Schema
  import opened Plan
  import opened CategorySync
  import opened OrderSync
  import opened Convert

  /** What a feed request yields: a non-2xx status; no JSON at all (the request itself failed,
      or the body is not JSON and `response.json()` throws); JSON that fails schema
      validation; or a validated body. */
  datatype FeedResponse<T> = HttpError(status: int) | Unreadable | Malformed | Received(body: T)

  /** `Completed` when "All processes completed" is reached; `Failed` when an error reached
      the `catch` of `main`. */
  datatype RunOutcome = Completed | Failed

  datatype RunResult = RunResult(store: Store, outcome: RunOutcome)

  /** The writes a run issues. The category feed must arrive and validate (`parse` throws
      otherwise); an order feed with an error status or without a JSON body throws after the
      category writes; an order feed that fails validation is logged and the run completes
      without order writes; a refused order row throws after the writes before it. */
  function RunPlan(categoryFeed: FeedResponse<CategoryFeed>, orderFeed: FeedResponse<TransactionFeed>, env: SyncEnv): seq<StoreWrite>
  {
    match categoryFeed
    case Received(categories) =>
      CategoryPlan(categories.productList)
      + (if orderFeed.Received? then OrdersPlan(orderFeed.body, env) else [])
    case _ => []
  }

  /** Whether `syncOrders` throws: an error status, no JSON body, or a refused order row. */
  predicate OrderSyncThrows(orderFeed: FeedResponse<TransactionFeed>, env: SyncEnv)
  {
    || orderFeed.HttpError?
    || orderFeed.Unreadable?
    || (orderFeed.Received? && SyncAborts(orderFeed.body, env))
  }

  function RunSync(st: Store, categoryFeed: FeedResponse<CategoryFeed>, orderFeed: FeedResponse<TransactionFeed>, env: SyncEnv): (r: RunResult)
    ensures !categoryFeed.Received? ==> r == RunResult(st, Failed)
    ensures categoryFeed.Received? ==> (r.outcome == Failed <==> OrderSyncThrows(orderFeed, env))
    ensures !orderFeed.Received? ==> r.store.orders == st.orders && r.store.items == st.items
    ensures categoryFeed.Received? && !orderFeed.Received? ==> r.store == SyncCategories(st, categoryFeed.body)
    ensures categoryFeed.Received? && orderFeed.Received? ==>
              r.store == SyncOrders(SyncCategories(st, categoryFeed.body), orderFeed.body, env)
  {
    RunPlanApplies(st, categoryFeed, orderFeed, env);
    RunResult(ApplyPlan(st, RunPlan(categoryFeed, orderFeed, env)),
              if !categoryFeed.Received? || OrderSyncThrows(orderFeed, env) then Failed else Completed)
  }

  lemma RunPlanApplies(st: Store, categoryFeed: FeedResponse<CategoryFeed>, orderFeed: FeedResponse<TransactionFeed>, env: SyncEnv)
    ensures !categoryFeed.Received? ==> ApplyPlan(st, RunPlan(categoryFeed, orderFeed, env)) == st
    ensures !orderFeed.Received? ==>
              ApplyPlan(st, RunPlan(categoryFeed, orderFeed, env)).orders == st.orders &&
              ApplyPlan(st, RunPlan(categoryFeed, orderFeed, env)).items == st.items
    ensures categoryFeed.Received? && !orderFeed.Received? ==>
              ApplyPlan(st, RunPlan(categoryFeed, orderFeed, env)) == SyncCategories(st, categoryFeed.body)
    ensures categoryFeed.Received? && orderFeed.Received? ==>
              ApplyPlan(st, RunPlan(categoryFeed, orderFeed, env)) ==
              SyncOrders(SyncCategories(st, categoryFeed.body), orderFeed.body, env)
  {
    if categoryFeed.Received? {
      var cats := CategoryPlan(categoryFeed.body.productList);
      CategoryPlanTables(categoryFeed.body.productList, "");
      ApplyPlanByTable(st, cats);
      if orderFeed.Received? {
        ApplyPlanAppend(st, cats, OrdersPlan(orderFeed.body, env));
      } else {
        assert RunPlan(categoryFeed, orderFeed, env) == cats;
      }
    }
  }

  /** A run at another time issues the same writes up to the orders' timestamps. */
  lemma RunPlanClock(categoryFeed: FeedResponse<CategoryFeed>, orderFeed: FeedResponse<TransactionFeed>, env: SyncEnv, t: int)
    ensures PlansRestamped(RunPlan(categoryFeed, orderFeed, env), RunPlan(categoryFeed, orderFeed, env.(now := t)))
  {
    if categoryFeed.Received? {
      var cats := CategoryPlan(categoryFeed.body.productList);
      PlansRestampedReflexive(cats);
      if orderFeed.Received? {
        OrdersPlanClock(orderFeed.body, env, t);
        PlansRestampedAppend(cats, cats, OrdersPlan(orderFeed.body, env), OrdersPlan(orderFeed.body, env.(now := t)));
      } else {
        assert RunPlan(categoryFeed, orderFeed, env) == cats + [];
        assert RunPlan(categoryFeed, orderFeed, env.(now := t)) == cats + [];
        PlansRestampedAppend(cats, cats, [], []);
      }
    }
  }

  /** Running the whole sync again with the same feed responses, at any later time, ends as
      that later run alone would: the same outcome and the same store. */
  lemma RunSyncIdempotent(st: Store, categoryFeed: FeedResponse<CategoryFeed>, orderFeed: FeedResponse<TransactionFeed>, env: SyncEnv, t: int)
    ensures var once := RunSync(st, categoryFeed, orderFeed, env);
            RunSync(once.store, categoryFeed, orderFeed, env.(now := t)) == RunSync(st, categoryFeed, orderFeed, env.(now := t))
  {
    RunPlanClock(categoryFeed, orderFeed, env, t);
    ApplyPlanRestamped(st, RunPlan(categoryFeed, orderFeed, env), RunPlan(categoryFeed, orderFeed, env.(now := t)));
  }

  /** A first buy whose date PostgreSQL refuses (a month 13, say) makes the run fail after the
      category writes, with no order written: neither that buy nor any transaction after it. */
  lemma RefusedDateFailsRun(st: Store, categories: CategoryFeed, feed: TransactionFeed, env: SyncEnv)
    requires |Transactions(feed, Buy)| > 0
    requires ToDateOnly(Transactions(feed, Buy)[0].orderFinishedDate).Some?
    requires !env.dateAccepted(ToDateOnly(Transactions(feed, Buy)[0].orderFinishedDate).value)
    ensures RunSync(st, Received(categories), Received(feed), env) == RunResult(SyncCategories(st, categories), Failed)
  {
    var buys := Transactions(feed, Buy);
    assert !OrderRowAccepted(buys[0], env);
    assert AcceptedPrefix(buys, env) == [];
    assert Reached(feed, env, Buy) == [] && Reached(feed, env, Sell) == [];
    assert OrdersPlan(feed, env) == [];
    assert SyncAborts(feed, env);
  }

  /** A run, completed or failed, keeps every foreign key of the store satisfied. */
  lemma RunSyncKeepsReferences(st: Store, categoryFeed: FeedResponse<CategoryFeed>, orderFeed: FeedResponse<TransactionFeed>, env: SyncEnv)
    requires ReferencesHold(st)
    ensures ReferencesHold(RunSync(st, categoryFeed, orderFeed, env).store)
  {
    if categoryFeed.Received? {
      SyncCategoriesKeepsReferences(st, categoryFeed.body);
      if orderFeed.Received? {
        SyncOrdersKeepsReferences(SyncCategories(st, categoryFeed.body), orderFeed.body, env);
      }
    }
  }

  /** After a run that got the category feed, every category it lists carries the name of its
      last listing: the placeholders the order sync inserts never replace a feed name. */
  lemma RunSyncCategoryNames(st: Store, categoryFeed: FeedResponse<CategoryFeed>, orderFeed: FeedResponse<TransactionFeed>, env: SyncEnv, id: string)
    requires categoryFeed.Received? && LastCategoryName(categoryFeed.body.productList, id).Some?
    ensures id in RunSync(st, categoryFeed, orderFeed, env).store.categories
    ensures RunSync(st, categoryFeed, orderFeed, env).store.categories[id] ==
            LastCategoryName(categoryFeed.body.productList, id).value
  {
    var afterCategories := SyncCategories(st, categoryFeed.body);
    SyncCategoriesCategoryAt(st, categoryFeed.body, id);
    if orderFeed.Received? {
      SyncOrdersKeepsNames(afterCategories, orderFeed.body, env);
    }
  }
}
