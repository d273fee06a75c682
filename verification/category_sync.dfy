/** `syncCategories`: for each feed category, upsert the category (its name overwritten),
    insert the synthetic `NONE-<categoryId>` subcategory unless it exists, then upsert each
    feed subcategory that has an id under that category. */
module CategorySync {
  import opened Wrappers
  import opened Feed
  import opened Schema
  import opened Writes
  import opened Plan

  const NoneSubcategoryName := "ไม่ระบุหมวดหมู่ย่อย"
  const UnnamedSubcategoryName := "ไม่มีชื่อกลุ่มย่อย"

  /** The id of the synthetic "unspecified subcategory" of a category. */
  function NoneSubcategoryId(categoryId: string): (r: string)
    ensures |r| == 5 + |categoryId| && r[..5] == "NONE-" && r[5..] == categoryId
  {
    "NONE-" + categoryId
  }

  /** `name || fallback` */
  function NameOr(name: string, fallback: string): string
  {
    if name == "" then fallback else name
  }

  function FeedSubcategoryWrite(categoryId: string, s: FeedSubcategory): seq<StoreWrite>
  {
    if s.subcategoryId == "" then []
    else [SubcategoryWrite(Upsert(s.subcategoryId,
            Subcategory(categoryId, NameOr(s.subcategoryName, UnnamedSubcategoryName))))]
  }

  function FeedSubcategoryWrites(categoryId: string, subs: seq<FeedSubcategory>): seq<StoreWrite>
    decreases |subs|
  {
    if |subs| == 0 then []
    else FeedSubcategoryWrites(categoryId, subs[..|subs| - 1]) + FeedSubcategoryWrite(categoryId, subs[|subs| - 1])
  }

  function CategoryBlock(c: FeedCategory): seq<StoreWrite>
  {
    [CategoryWrite(Upsert(c.categoryId, c.categoryName)),
     SubcategoryWrite(InsertIfAbsent(NoneSubcategoryId(c.categoryId),
                                     Subcategory(c.categoryId, NoneSubcategoryName)))]
    + FeedSubcategoryWrites(c.categoryId, OrEmpty(c.subcategories))
  }

  function CategoryPlan(cats: seq<FeedCategory>): seq<StoreWrite>
    decreases |cats|
  {
    if |cats| == 0 then [] else CategoryPlan(cats[..|cats| - 1]) + CategoryBlock(cats[|cats| - 1])
  }

  function SyncCategories(st: Store, feed: CategoryFeed): Store
  {
    ApplyPlan(st, CategoryPlan(feed.productList))
  }

  // ---------------------------------------------------------------------------------------
  // What the feed asks for, stated without the plan.

  /** The name of the last feed category with id `id`. */
  function LastCategoryName(cats: seq<FeedCategory>, id: string): (r: Option<string>)
    ensures r.Some? <==> exists i :: 0 <= i < |cats| && cats[i].categoryId == id
    decreases |cats|
  {
    if |cats| == 0 then None
    else if cats[|cats| - 1].categoryId == id then Some(cats[|cats| - 1].categoryName)
    else LastCategoryName(cats[..|cats| - 1], id)
  }

  /** The subcategory row the last listing of id `id` in one category's list asks for. */
  function LastListed(categoryId: string, subs: seq<FeedSubcategory>, id: string): (r: Option<Subcategory>)
    ensures r.Some? <==> id != "" && exists j :: 0 <= j < |subs| && subs[j].subcategoryId == id
    ensures r.Some? ==> exists j :: 0 <= j < |subs| && subs[j].subcategoryId == id &&
                          r.value == Subcategory(categoryId, NameOr(subs[j].subcategoryName, UnnamedSubcategoryName))
    decreases |subs|
  {
    if |subs| == 0 then None
    else if id != "" && subs[|subs| - 1].subcategoryId == id then
      Some(Subcategory(categoryId, NameOr(subs[|subs| - 1].subcategoryName, UnnamedSubcategoryName)))
    else LastListed(categoryId, subs[..|subs| - 1], id)
  }

  /** The subcategory row the last listing of id `id` anywhere in the feed asks for: its
      parent is the category it was listed under, an empty name replaced by the default. */
  function LastFeedSubcategory(cats: seq<FeedCategory>, id: string): (r: Option<Subcategory>)
    ensures r.Some? <==> id != "" && exists i, j :: 0 <= i < |cats| && 0 <= j < |OrEmpty(cats[i].subcategories)| &&
                                       OrEmpty(cats[i].subcategories)[j].subcategoryId == id
    ensures r.Some? ==> exists i, j :: 0 <= i < |cats| && 0 <= j < |OrEmpty(cats[i].subcategories)| &&
                          OrEmpty(cats[i].subcategories)[j].subcategoryId == id &&
                          r.value == Subcategory(cats[i].categoryId,
                                                 NameOr(OrEmpty(cats[i].subcategories)[j].subcategoryName, UnnamedSubcategoryName))
    decreases |cats|
  {
    if |cats| == 0 then None
    else
      var c := cats[|cats| - 1];
      var here := LastListed(c.categoryId, OrEmpty(c.subcategories), id);
      if here.Some? then here else LastFeedSubcategory(cats[..|cats| - 1], id)
  }

  /** The synthetic row of the first feed category whose `NONE-` id is `id`. */
  function FirstNoneOwner(cats: seq<FeedCategory>, id: string): (r: Option<Subcategory>)
    ensures r.Some? <==> exists i :: 0 <= i < |cats| && NoneSubcategoryId(cats[i].categoryId) == id
    ensures r.Some? ==> exists i :: 0 <= i < |cats| && NoneSubcategoryId(cats[i].categoryId) == id &&
                          r.value == Subcategory(cats[i].categoryId, NoneSubcategoryName)
    decreases |cats|
  {
    if |cats| == 0 then None
    else
      var earlier := FirstNoneOwner(cats[..|cats| - 1], id);
      if earlier.Some? then earlier
      else if NoneSubcategoryId(cats[|cats| - 1].categoryId) == id then
        Some(Subcategory(cats[|cats| - 1].categoryId, NoneSubcategoryName))
      else None
  }

  // ---------------------------------------------------------------------------------------
  // The plan's writes per table.

  lemma {:induction false} LastUpsertAppend<K, V>(a: seq<Write<K, V>>, b: seq<Write<K, V>>, k: K)
    ensures LastUpsert(a + b, k) == if LastUpsert(b, k).Some? then LastUpsert(b, k) else LastUpsert(a, k)
    decreases |b|
  {
    if |b| == 0 {
      assert a + b == a;
    } else {
      assert (a + b)[..|a + b| - 1] == a + b[..|b| - 1];
      LastUpsertAppend(a, b[..|b| - 1], k);
    }
  }

  lemma {:induction false} FirstInsertAppend<K, V>(a: seq<Write<K, V>>, b: seq<Write<K, V>>, k: K)
    ensures FirstInsert(a + b, k) == if FirstInsert(a, k).Some? then FirstInsert(a, k) else FirstInsert(b, k)
    decreases |b|
  {
    if |b| == 0 {
      assert a + b == a;
    } else {
      assert (a + b)[..|a + b| - 1] == a + b[..|b| - 1];
      FirstInsertAppend(a, b[..|b| - 1], k);
    }
  }

  /** An insert-if-absent in front of writes that insert nothing under `id` decides the first
      insert of `id` alone and leaves its last upsert to the writes behind it. */
  lemma InsertInFront<K, V>(k0: K, v: V, rest: seq<Write<K, V>>, id: K)
    requires FirstInsert(rest, id).None?
    ensures LastUpsert([InsertIfAbsent(k0, v)] + rest, id) == LastUpsert(rest, id)
    ensures FirstInsert([InsertIfAbsent(k0, v)] + rest, id) == if k0 == id then Some(v) else None
  {
    var ins := InsertIfAbsent(k0, v);
    assert [ins][..0] == [];
    LastUpsertAppend([ins], rest, id);
    FirstInsertAppend([ins], rest, id);
  }

  lemma {:induction false} FeedSubcategoryWritesTables(categoryId: string, subs: seq<FeedSubcategory>, id: string)
    ensures CategoryWrites(FeedSubcategoryWrites(categoryId, subs)) == []
    ensures OrderUpserts(FeedSubcategoryWrites(categoryId, subs)) == []
    ensures ItemWrites(FeedSubcategoryWrites(categoryId, subs)) == []
    ensures LastUpsert(SubcategoryWrites(FeedSubcategoryWrites(categoryId, subs)), id) == LastListed(categoryId, subs, id)
    ensures FirstInsert(SubcategoryWrites(FeedSubcategoryWrites(categoryId, subs)), id).None?
    decreases |subs|
  {
    if |subs| > 0 {
      var prefix := FeedSubcategoryWrites(categoryId, subs[..|subs| - 1]);
      var last := FeedSubcategoryWrite(categoryId, subs[|subs| - 1]);
      FeedSubcategoryWritesTables(categoryId, subs[..|subs| - 1], id);
      ProjectionsAppend(prefix, last);
      if last != [] {
        assert last[..0] == [];
      }
      LastUpsertAppend(SubcategoryWrites(prefix), SubcategoryWrites(last), id);
      FirstInsertAppend(SubcategoryWrites(prefix), SubcategoryWrites(last), id);
    }
  }

  lemma CategoryBlockShape(c: FeedCategory)
    ensures CategoryWrites(CategoryBlock(c)) == [Upsert(c.categoryId, c.categoryName)]
    ensures OrderUpserts(CategoryBlock(c)) == []
    ensures ItemWrites(CategoryBlock(c)) == []
    ensures SubcategoryWrites(CategoryBlock(c)) ==
            [InsertIfAbsent(NoneSubcategoryId(c.categoryId), Subcategory(c.categoryId, NoneSubcategoryName))]
            + SubcategoryWrites(FeedSubcategoryWrites(c.categoryId, OrEmpty(c.subcategories)))
  {
    var w1 := CategoryWrite(Upsert(c.categoryId, c.categoryName));
    var w2 := SubcategoryWrite(InsertIfAbsent(NoneSubcategoryId(c.categoryId), Subcategory(c.categoryId, NoneSubcategoryName)));
    var tail := FeedSubcategoryWrites(c.categoryId, OrEmpty(c.subcategories));
    assert CategoryBlock(c) == [w1] + ([w2] + tail);
    SingleWriteTables(w1);
    SingleWriteTables(w2);
    FeedSubcategoryWritesTables(c.categoryId, OrEmpty(c.subcategories), "");
    ProjectionsAppend([w2], tail);
    ProjectionsAppend([w1], [w2] + tail);
  }

  lemma CategoryBlockTables(c: FeedCategory, id: string)
    ensures CategoryWrites(CategoryBlock(c)) == [Upsert(c.categoryId, c.categoryName)]
    ensures OrderUpserts(CategoryBlock(c)) == []
    ensures ItemWrites(CategoryBlock(c)) == []
    ensures LastUpsert(SubcategoryWrites(CategoryBlock(c)), id) ==
            LastListed(c.categoryId, OrEmpty(c.subcategories), id)
    ensures FirstInsert(SubcategoryWrites(CategoryBlock(c)), id) ==
            if NoneSubcategoryId(c.categoryId) == id then Some(Subcategory(c.categoryId, NoneSubcategoryName)) else None
  {
    CategoryBlockShape(c);
    FeedSubcategoryWritesTables(c.categoryId, OrEmpty(c.subcategories), id);
    InsertInFront(NoneSubcategoryId(c.categoryId), Subcategory(c.categoryId, NoneSubcategoryName),
                  SubcategoryWrites(FeedSubcategoryWrites(c.categoryId, OrEmpty(c.subcategories))), id);
  }

  /** The category sync's writes, table by table, in terms of the feed alone. */
  lemma {:induction false} CategoryPlanTables(cats: seq<FeedCategory>, id: string)
    ensures OrderUpserts(CategoryPlan(cats)) == []
    ensures ItemWrites(CategoryPlan(cats)) == []
    ensures LastUpsert(CategoryWrites(CategoryPlan(cats)), id) == LastCategoryName(cats, id)
    ensures FirstInsert(CategoryWrites(CategoryPlan(cats)), id).None?
    ensures LastUpsert(SubcategoryWrites(CategoryPlan(cats)), id) == LastFeedSubcategory(cats, id)
    ensures FirstInsert(SubcategoryWrites(CategoryPlan(cats)), id) == FirstNoneOwner(cats, id)
    decreases |cats|
  {
    if |cats| > 0 {
      var prefix := CategoryPlan(cats[..|cats| - 1]);
      var block := CategoryBlock(cats[|cats| - 1]);
      CategoryPlanTables(cats[..|cats| - 1], id);
      CategoryBlockTables(cats[|cats| - 1], id);
      ProjectionsAppend(prefix, block);
      assert [Upsert(cats[|cats| - 1].categoryId, cats[|cats| - 1].categoryName)][..0] == [];
      LastUpsertAppend(CategoryWrites(prefix), CategoryWrites(block), id);
      FirstInsertAppend(CategoryWrites(prefix), CategoryWrites(block), id);
      LastUpsertAppend(SubcategoryWrites(prefix), SubcategoryWrites(block), id);
      FirstInsertAppend(SubcategoryWrites(prefix), SubcategoryWrites(block), id);
    }
  }

  // ---------------------------------------------------------------------------------------
  // Properties of the category sync.

  /** Each category ends up with the name of its last listing in the feed; categories the feed
      does not list are untouched; no other category appears. */
  lemma SyncCategoriesCategoryAt(st: Store, feed: CategoryFeed, id: string)
    ensures var r := SyncCategories(st, feed);
      && (id in r.categories <==> id in st.categories || LastCategoryName(feed.productList, id).Some?)
      && (LastCategoryName(feed.productList, id).Some? ==>
            r.categories[id] == LastCategoryName(feed.productList, id).value)
      && (LastCategoryName(feed.productList, id).None? && id in st.categories ==>
            r.categories[id] == st.categories[id])
  {
    var plan := CategoryPlan(feed.productList);
    ApplyPlanByTable(st, plan);
    CategoryPlanTables(feed.productList, id);
    ApplyAllAt(st.categories, CategoryWrites(plan), id);
  }

  /** Each subcategory ends up as its last listing in the feed asks; without one, an existing
      row is untouched; without that, the synthetic `NONE-` row of the first category owning
      that id is created. */
  lemma SyncCategoriesSubcategoryAt(st: Store, feed: CategoryFeed, id: string)
    ensures var r := SyncCategories(st, feed);
      var listed := LastFeedSubcategory(feed.productList, id);
      && (id in r.subcategories <==>
            id in st.subcategories || listed.Some? || FirstNoneOwner(feed.productList, id).Some?)
      && (listed.Some? ==> r.subcategories[id] == listed.value)
      && (listed.None? && id in st.subcategories ==> r.subcategories[id] == st.subcategories[id])
      && (listed.None? && id !in st.subcategories && FirstNoneOwner(feed.productList, id).Some? ==>
            r.subcategories[id] == FirstNoneOwner(feed.productList, id).value)
  {
    var plan := CategoryPlan(feed.productList);
    ApplyPlanByTable(st, plan);
    CategoryPlanTables(feed.productList, id);
    ApplyAllAt(st.subcategories, SubcategoryWrites(plan), id);
  }

  /** A category's listing that no later listing of the same id follows decides its name. */
  lemma {:induction false} LastListingWins(cats: seq<FeedCategory>, i: int)
    requires 0 <= i < |cats|
    requires forall j :: i < j < |cats| ==> cats[j].categoryId != cats[i].categoryId
    ensures LastCategoryName(cats, cats[i].categoryId) == Some(cats[i].categoryName)
    decreases |cats|
  {
    if i < |cats| - 1 {
      var prefix := cats[..|cats| - 1];
      assert prefix[i] == cats[i];
      LastListingWins(prefix, i);
    }
  }

  /** After the category sync every feed category exists, named as its last listing says, and
      has its synthetic `NONE-<categoryId>` subcategory; the store stays free of dangling
      references. */
  lemma SyncCategoriesEstablishesFeed(st: Store, feed: CategoryFeed, i: int)
    requires 0 <= i < |feed.productList|
    ensures var c := feed.productList[i];
      var r := SyncCategories(st, feed);
      && c.categoryId in r.categories
      && NoneSubcategoryId(c.categoryId) in r.subcategories
      && ((forall j :: i < j < |feed.productList| ==> feed.productList[j].categoryId != c.categoryId) ==>
            r.categories[c.categoryId] == c.categoryName)
  {
    var c := feed.productList[i];
    SyncCategoriesCategoryAt(st, feed, c.categoryId);
    SyncCategoriesSubcategoryAt(st, feed, NoneSubcategoryId(c.categoryId));
    assert FirstNoneOwner(feed.productList, NoneSubcategoryId(c.categoryId)).Some?;
    if forall j :: i < j < |feed.productList| ==> feed.productList[j].categoryId != c.categoryId {
      LastListingWins(feed.productList, i);
    }
  }

  /** A feed subcategory with an id is stored under the category that lists it (its last
      listing, when it is listed more than once), with an empty name replaced by the default;
      one with an empty id is skipped, so the row with id "" is never written. */
  lemma SyncCategoriesFeedSubcategories(st: Store, feed: CategoryFeed, i: int, j: int)
    requires 0 <= i < |feed.productList| && 0 <= j < |OrEmpty(feed.productList[i].subcategories)|
    ensures var s := OrEmpty(feed.productList[i].subcategories)[j];
      var r := SyncCategories(st, feed);
      && (s.subcategoryId != "" ==>
            && s.subcategoryId in r.subcategories
            && r.subcategories[s.subcategoryId] == LastFeedSubcategory(feed.productList, s.subcategoryId).value)
      && ("" in r.subcategories <==> "" in st.subcategories)
      && ("" in st.subcategories ==> r.subcategories[""] == st.subcategories[""])
  {
    var s := OrEmpty(feed.productList[i].subcategories)[j];
    SyncCategoriesSubcategoryAt(st, feed, s.subcategoryId);
    SyncCategoriesSubcategoryAt(st, feed, "");
  }

  /** A subcategory already stored that the feed does not list keeps its row, so in
      particular an existing `NONE-` row is not reset. */
  lemma SyncCategoriesKeepsUnlisted(st: Store, feed: CategoryFeed, id: string)
    requires id in st.subcategories
    requires forall i, j :: 0 <= i < |feed.productList| && 0 <= j < |OrEmpty(feed.productList[i].subcategories)| ==>
               OrEmpty(feed.productList[i].subcategories)[j].subcategoryId != id
    ensures id in SyncCategories(st, feed).subcategories
    ensures SyncCategories(st, feed).subcategories[id] == st.subcategories[id]
  {
    SyncCategoriesSubcategoryAt(st, feed, id);
  }

  /** Running the category sync twice on the same feed gives the store of running it once. */
  lemma SyncCategoriesIdempotent(st: Store, feed: CategoryFeed)
    ensures SyncCategories(SyncCategories(st, feed), feed) == SyncCategories(st, feed)
  {
    ApplyPlanIdempotent(st, CategoryPlan(feed.productList));
  }

  lemma {:induction false} FeedSubcategoryWritesKeepReferences(st: Store, categoryId: string, subs: seq<FeedSubcategory>)
    requires categoryId in st.categories
    ensures PlanKeepsReferences(st, FeedSubcategoryWrites(categoryId, subs))
    ensures ApplyPlan(st, FeedSubcategoryWrites(categoryId, subs)).categories == st.categories
    decreases |subs|
  {
    if |subs| > 0 {
      var prefix := FeedSubcategoryWrites(categoryId, subs[..|subs| - 1]);
      var last := FeedSubcategoryWrite(categoryId, subs[|subs| - 1]);
      FeedSubcategoryWritesKeepReferences(st, categoryId, subs[..|subs| - 1]);
      PlanKeepsReferencesAppend(st, prefix, last);
      ApplyPlanAppend(st, prefix, last);
      if last != [] {
        assert last[..0] == [];
      }
    }
  }

  lemma CategoryBlockKeepsReferences(st: Store, c: FeedCategory)
    ensures PlanKeepsReferences(st, CategoryBlock(c))
  {
    var w1 := CategoryWrite(Upsert(c.categoryId, c.categoryName));
    var w2 := SubcategoryWrite(InsertIfAbsent(NoneSubcategoryId(c.categoryId), Subcategory(c.categoryId, NoneSubcategoryName)));
    var tail := FeedSubcategoryWrites(c.categoryId, OrEmpty(c.subcategories));
    assert CategoryBlock(c) == [w1, w2] + tail;
    assert [w1, w2][..1] == [w1] && [w1][..0] == [];
    var first := ApplyStoreWrite(st, w1);
    assert ApplyPlan(st, [w1]) == first;
    assert c.categoryId in first.categories;
    assert WriteKeepsReferences(first, w2);
    var mid := ApplyStoreWrite(first, w2);
    assert ApplyPlan(st, [w1, w2]) == mid;
    assert PlanKeepsReferences(st, [w1, w2]);
    assert c.categoryId in mid.categories;
    FeedSubcategoryWritesKeepReferences(mid, c.categoryId, OrEmpty(c.subcategories));
    PlanKeepsReferencesAppend(st, [w1, w2], tail);
  }

  /** No write of the category sync can fail a foreign-key check, whatever the store holds:
      each subcategory is written after the category it references. */
  lemma {:induction false} CategoryPlanKeepsReferences(st: Store, cats: seq<FeedCategory>)
    ensures PlanKeepsReferences(st, CategoryPlan(cats))
    decreases |cats|
  {
    if |cats| > 0 {
      var prefix := CategoryPlan(cats[..|cats| - 1]);
      CategoryPlanKeepsReferences(st, cats[..|cats| - 1]);
      CategoryBlockKeepsReferences(ApplyPlan(st, prefix), cats[|cats| - 1]);
      PlanKeepsReferencesAppend(st, prefix, CategoryBlock(cats[|cats| - 1]));
    }
  }

  /** The category sync keeps every foreign key of the store satisfied. */
  lemma SyncCategoriesKeepsReferences(st: Store, feed: CategoryFeed)
    requires ReferencesHold(st)
    ensures ReferencesHold(SyncCategories(st, feed))
  {
    CategoryPlanKeepsReferences(st, feed.productList);
    ApplyPlanKeepsReferences(st, CategoryPlan(feed.productList));
  }

  /** A feed with one category and no subcategories, into an empty store, leaves exactly that
      category and its synthetic `NONE-` subcategory. */
  lemma SyncSingleCategory(id: string, name: string)
    ensures SyncCategories(EmptyStore, CategoryFeed([FeedCategory(id, name, None)])) ==
            EmptyStore.(categories := map[id := name],
                        subcategories := map[NoneSubcategoryId(id) := Subcategory(id, NoneSubcategoryName)])
  {
    var c := FeedCategory(id, name, None);
    var cats := [c];
    assert cats[..0] == [];
    var w1 := CategoryWrite(Upsert(id, name));
    var w2 := SubcategoryWrite(InsertIfAbsent(NoneSubcategoryId(id), Subcategory(id, NoneSubcategoryName)));
    assert FeedSubcategoryWrites(id, OrEmpty(c.subcategories)) == [];
    assert CategoryBlock(c) == [w1, w2];
    assert CategoryPlan(cats) == CategoryPlan(cats[..0]) + CategoryBlock(c);
    assert CategoryPlan(cats) == [w1, w2];
    assert [w1, w2][..1] == [w1] && [w1][..0] == [];
    var first := ApplyStoreWrite(EmptyStore, w1);
    assert ApplyPlan(EmptyStore, [w1]) == first;
    assert first == EmptyStore.(categories := map[id := name]);
    assert ApplyPlan(EmptyStore, [w1, w2]) == ApplyStoreWrite(first, w2);
    assert SyncCategories(EmptyStore, CategoryFeed(cats)) == ApplyPlan(EmptyStore, [w1, w2]);
  }
}
