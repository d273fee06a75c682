/** A sync run as the ordered list of writes it issues against the store (one entry per
    `db.insert(…)` of the source), and what applying that list does to each table. */
module Plan {
  import opened Wrappers
  import opened Schema
  import opened Writes
  import opened OrderWrites

  datatype StoreWrite =
    | CategoryWrite(c: Write<string, string>)
    | SubcategoryWrite(s: Write<string, Subcategory>)
    | OrderWrite(o: OrderUpsert)
    | ItemWrite(i: Write<ItemKey, OrderItem>)

  function ApplyStoreWrite(st: Store, w: StoreWrite): Store
  {
    match w
    case CategoryWrite(c) => st.(categories := Apply(st.categories, c))
    case SubcategoryWrite(s) => st.(subcategories := Apply(st.subcategories, s))
    case OrderWrite(o) => st.(orders := ApplyUpsert(st.orders, o))
    case ItemWrite(i) => st.(items := Apply(st.items, i))
  }

  /** The writes issued one after another, first to last. */
  function ApplyPlan(st: Store, plan: seq<StoreWrite>): Store
    decreases |plan|
  {
    if |plan| == 0 then st else ApplyStoreWrite(ApplyPlan(st, plan[..|plan| - 1]), plan[|plan| - 1])
  }

  function CategoryWrites(plan: seq<StoreWrite>): seq<Write<string, string>>
    decreases |plan|
  {
    if |plan| == 0 then []
    else CategoryWrites(plan[..|plan| - 1]) + (if plan[|plan| - 1].CategoryWrite? then [plan[|plan| - 1].c] else [])
  }

  function SubcategoryWrites(plan: seq<StoreWrite>): seq<Write<string, Subcategory>>
    decreases |plan|
  {
    if |plan| == 0 then []
    else SubcategoryWrites(plan[..|plan| - 1]) + (if plan[|plan| - 1].SubcategoryWrite? then [plan[|plan| - 1].s] else [])
  }

  function OrderUpserts(plan: seq<StoreWrite>): seq<OrderUpsert>
    decreases |plan|
  {
    if |plan| == 0 then []
    else OrderUpserts(plan[..|plan| - 1]) + (if plan[|plan| - 1].OrderWrite? then [plan[|plan| - 1].o] else [])
  }

  function ItemWrites(plan: seq<StoreWrite>): seq<Write<ItemKey, OrderItem>>
    decreases |plan|
  {
    if |plan| == 0 then []
    else ItemWrites(plan[..|plan| - 1]) + (if plan[|plan| - 1].ItemWrite? then [plan[|plan| - 1].i] else [])
  }

  lemma {:induction false} CategoriesByTable(st: Store, plan: seq<StoreWrite>)
    ensures ApplyPlan(st, plan).categories == ApplyAll(st.categories, CategoryWrites(plan))
    decreases |plan|
  {
    if |plan| > 0 {
      var prefix := plan[..|plan| - 1];
      var w := plan[|plan| - 1];
      CategoriesByTable(st, prefix);
      var before := ApplyPlan(st, prefix);
      assert ApplyPlan(st, plan) == ApplyStoreWrite(before, w);
      if w.CategoryWrite? {
        var ws := CategoryWrites(plan);
        assert ws == CategoryWrites(prefix) + [w.c];
        assert ws[..|ws| - 1] == CategoryWrites(prefix);
        assert ApplyAll(st.categories, ws) == Apply(ApplyAll(st.categories, CategoryWrites(prefix)), w.c);
      } else {
        assert CategoryWrites(plan) == CategoryWrites(prefix);
        assert ApplyStoreWrite(before, w).categories == before.categories;
      }
    }
  }

  lemma {:induction false} SubcategoriesByTable(st: Store, plan: seq<StoreWrite>)
    ensures ApplyPlan(st, plan).subcategories == ApplyAll(st.subcategories, SubcategoryWrites(plan))
    decreases |plan|
  {
    if |plan| > 0 {
      var prefix := plan[..|plan| - 1];
      var w := plan[|plan| - 1];
      SubcategoriesByTable(st, prefix);
      var before := ApplyPlan(st, prefix);
      assert ApplyPlan(st, plan) == ApplyStoreWrite(before, w);
      if w.SubcategoryWrite? {
        var ws := SubcategoryWrites(plan);
        assert ws == SubcategoryWrites(prefix) + [w.s];
        assert ws[..|ws| - 1] == SubcategoryWrites(prefix);
        assert ApplyAll(st.subcategories, ws) == Apply(ApplyAll(st.subcategories, SubcategoryWrites(prefix)), w.s);
      } else {
        assert SubcategoryWrites(plan) == SubcategoryWrites(prefix);
        assert ApplyStoreWrite(before, w).subcategories == before.subcategories;
      }
    }
  }

  lemma {:induction false} OrdersByTable(st: Store, plan: seq<StoreWrite>)
    ensures ApplyPlan(st, plan).orders == ApplyUpserts(st.orders, OrderUpserts(plan))
    decreases |plan|
  {
    if |plan| > 0 {
      var prefix := plan[..|plan| - 1];
      var w := plan[|plan| - 1];
      OrdersByTable(st, prefix);
      var before := ApplyPlan(st, prefix);
      assert ApplyPlan(st, plan) == ApplyStoreWrite(before, w);
      if w.OrderWrite? {
        var ws := OrderUpserts(plan);
        assert ws == OrderUpserts(prefix) + [w.o];
        assert ws[..|ws| - 1] == OrderUpserts(prefix);
        assert ApplyUpserts(st.orders, ws) == ApplyUpsert(ApplyUpserts(st.orders, OrderUpserts(prefix)), w.o);
      } else {
        assert OrderUpserts(plan) == OrderUpserts(prefix);
        assert ApplyStoreWrite(before, w).orders == before.orders;
      }
    }
  }

  lemma {:induction false} ItemsByTable(st: Store, plan: seq<StoreWrite>)
    ensures ApplyPlan(st, plan).items == ApplyAll(st.items, ItemWrites(plan))
    decreases |plan|
  {
    if |plan| > 0 {
      var prefix := plan[..|plan| - 1];
      var w := plan[|plan| - 1];
      ItemsByTable(st, prefix);
      var before := ApplyPlan(st, prefix);
      assert ApplyPlan(st, plan) == ApplyStoreWrite(before, w);
      if w.ItemWrite? {
        var ws := ItemWrites(plan);
        assert ws == ItemWrites(prefix) + [w.i];
        assert ws[..|ws| - 1] == ItemWrites(prefix);
        assert ApplyAll(st.items, ws) == Apply(ApplyAll(st.items, ItemWrites(prefix)), w.i);
      } else {
        assert ItemWrites(plan) == ItemWrites(prefix);
        assert ApplyStoreWrite(before, w).items == before.items;
      }
    }
  }

  /** The tables are independent: a plan acts on each table through that table's own writes,
      in their original order. */
  lemma ApplyPlanByTable(st: Store, plan: seq<StoreWrite>)
    ensures ApplyPlan(st, plan) == Store(
      ApplyAll(st.categories, CategoryWrites(plan)),
      ApplyAll(st.subcategories, SubcategoryWrites(plan)),
      ApplyUpserts(st.orders, OrderUpserts(plan)),
      ApplyAll(st.items, ItemWrites(plan)))
  {
    CategoriesByTable(st, plan);
    SubcategoriesByTable(st, plan);
    OrdersByTable(st, plan);
    ItemsByTable(st, plan);
  }

  lemma SingleWriteTables(w: StoreWrite)
    ensures CategoryWrites([w]) == if w.CategoryWrite? then [w.c] else []
    ensures SubcategoryWrites([w]) == if w.SubcategoryWrite? then [w.s] else []
    ensures OrderUpserts([w]) == if w.OrderWrite? then [w.o] else []
    ensures ItemWrites([w]) == if w.ItemWrite? then [w.i] else []
  {
    assert [w][..0] == [];
  }

  /** A write appended to a plan is issued after the rest of it. */
  lemma ApplyPlanSnoc(st: Store, plan: seq<StoreWrite>, w: StoreWrite)
    ensures ApplyPlan(st, plan + [w]) == ApplyStoreWrite(ApplyPlan(st, plan), w)
  {
    assert (plan + [w])[..|plan|] == plan;
  }

  /** A plan of three writes is those writes issued in turn. */
  lemma ApplyThreeWrites(st: Store, a: StoreWrite, b: StoreWrite, c: StoreWrite)
    ensures ApplyPlan(st, [a, b, c]) == ApplyStoreWrite(ApplyStoreWrite(ApplyStoreWrite(st, a), b), c)
  {
    ApplyPlanSnoc(st, [], a);
    assert [] + [a] == [a];
    ApplyPlanSnoc(st, [a], b);
    assert [a] + [b] == [a, b];
    ApplyPlanSnoc(st, [a, b], c);
    assert [a, b] + [c] == [a, b, c];
  }

  lemma {:induction false} CategoryWritesAppend(a: seq<StoreWrite>, b: seq<StoreWrite>)
    ensures CategoryWrites(a + b) == CategoryWrites(a) + CategoryWrites(b)
    decreases |b|
  {
    if |b| == 0 {
      assert a + b == a;
    } else {
      var front := b[..|b| - 1];
      assert (a + b)[..|a + b| - 1] == a + front;
      assert (a + b)[|a + b| - 1] == b[|b| - 1];
      CategoryWritesAppend(a, front);
    }
  }

  lemma {:induction false} SubcategoryWritesAppend(a: seq<StoreWrite>, b: seq<StoreWrite>)
    ensures SubcategoryWrites(a + b) == SubcategoryWrites(a) + SubcategoryWrites(b)
    decreases |b|
  {
    if |b| == 0 {
      assert a + b == a;
    } else {
      var front := b[..|b| - 1];
      assert (a + b)[..|a + b| - 1] == a + front;
      assert (a + b)[|a + b| - 1] == b[|b| - 1];
      SubcategoryWritesAppend(a, front);
    }
  }

  lemma {:induction false} OrderUpsertsAppend(a: seq<StoreWrite>, b: seq<StoreWrite>)
    ensures OrderUpserts(a + b) == OrderUpserts(a) + OrderUpserts(b)
    decreases |b|
  {
    if |b| == 0 {
      assert a + b == a;
    } else {
      var front := b[..|b| - 1];
      assert (a + b)[..|a + b| - 1] == a + front;
      assert (a + b)[|a + b| - 1] == b[|b| - 1];
      OrderUpsertsAppend(a, front);
    }
  }

  lemma {:induction false} ItemWritesAppend(a: seq<StoreWrite>, b: seq<StoreWrite>)
    ensures ItemWrites(a + b) == ItemWrites(a) + ItemWrites(b)
    decreases |b|
  {
    if |b| == 0 {
      assert a + b == a;
    } else {
      var front := b[..|b| - 1];
      assert (a + b)[..|a + b| - 1] == a + front;
      assert (a + b)[|a + b| - 1] == b[|b| - 1];
      ItemWritesAppend(a, front);
    }
  }

  /** Projecting a concatenated plan onto each table concatenates the projections. */
  lemma ProjectionsAppend(a: seq<StoreWrite>, b: seq<StoreWrite>)
    ensures CategoryWrites(a + b) == CategoryWrites(a) + CategoryWrites(b)
    ensures SubcategoryWrites(a + b) == SubcategoryWrites(a) + SubcategoryWrites(b)
    ensures OrderUpserts(a + b) == OrderUpserts(a) + OrderUpserts(b)
    ensures ItemWrites(a + b) == ItemWrites(a) + ItemWrites(b)
  {
    CategoryWritesAppend(a, b);
    SubcategoryWritesAppend(a, b);
    OrderUpsertsAppend(a, b);
    ItemWritesAppend(a, b);
  }

  lemma {:induction false} ApplyPlanAppend(st: Store, a: seq<StoreWrite>, b: seq<StoreWrite>)
    ensures ApplyPlan(st, a + b) == ApplyPlan(ApplyPlan(st, a), b)
    decreases |b|
  {
    if |b| == 0 {
      assert a + b == a;
    } else {
      assert (a + b)[..|a + b| - 1] == a + b[..|b| - 1];
      ApplyPlanAppend(st, a, b[..|b| - 1]);
    }
  }

  /** Issuing the same writes again leaves the store as it is: every sync run converges. */
  lemma ApplyPlanIdempotent(st: Store, plan: seq<StoreWrite>)
    ensures ApplyPlan(ApplyPlan(st, plan), plan) == ApplyPlan(st, plan)
  {
    var once := ApplyPlan(st, plan);
    ApplyPlanByTable(st, plan);
    ApplyPlanByTable(once, plan);
    ApplyAllIdempotent(st.categories, CategoryWrites(plan));
    ApplyAllIdempotent(st.subcategories, SubcategoryWrites(plan));
    ApplyUpsertsIdempotent(st.orders, OrderUpserts(plan));
    ApplyAllIdempotent(st.items, ItemWrites(plan));
  }

  /** Two plans that issue the same category, subcategory and item writes, and the same
      order upserts up to their timestamps. */
  predicate PlansRestamped(a: seq<StoreWrite>, b: seq<StoreWrite>)
  {
    && CategoryWrites(a) == CategoryWrites(b)
    && SubcategoryWrites(a) == SubcategoryWrites(b)
    && ItemWrites(a) == ItemWrites(b)
    && Restamped(OrderUpserts(a), OrderUpserts(b))
  }

  lemma PlansRestampedReflexive(a: seq<StoreWrite>)
    ensures PlansRestamped(a, a)
  {
  }

  lemma OrderWriteRestamped(key: OrderKey, p: OrderPatch, q: OrderPatch)
    requires SameButStamp(p, q)
    ensures PlansRestamped([OrderWrite(OrderUpsert(key, p))], [OrderWrite(OrderUpsert(key, q))])
  {
    SingleWriteTables(OrderWrite(OrderUpsert(key, p)));
    SingleWriteTables(OrderWrite(OrderUpsert(key, q)));
  }

  lemma PlansRestampedAppend(a: seq<StoreWrite>, b: seq<StoreWrite>, a2: seq<StoreWrite>, b2: seq<StoreWrite>)
    requires PlansRestamped(a, b) && PlansRestamped(a2, b2)
    ensures PlansRestamped(a + a2, b + b2)
  {
    ProjectionsAppend(a, a2);
    ProjectionsAppend(b, b2);
    RestampedAppend(OrderUpserts(a), OrderUpserts(b), OrderUpserts(a2), OrderUpserts(b2));
  }

  /** Issuing a plan again with other timestamps gives the store of issuing only the second
      plan: a later run, reading a later clock, converges on what it alone would produce. */
  lemma ApplyPlanRestamped(st: Store, a: seq<StoreWrite>, b: seq<StoreWrite>)
    requires PlansRestamped(a, b)
    ensures ApplyPlan(ApplyPlan(st, a), b) == ApplyPlan(st, b)
  {
    var once := ApplyPlan(st, a);
    ApplyPlanByTable(st, a);
    ApplyPlanByTable(once, b);
    ApplyPlanByTable(st, b);
    ApplyAllIdempotent(st.categories, CategoryWrites(b));
    ApplyAllIdempotent(st.subcategories, SubcategoryWrites(b));
    ApplyUpsertsRestamped(st.orders, OrderUpserts(a), OrderUpserts(b));
    ApplyAllIdempotent(st.items, ItemWrites(b));
  }

  /** Every write of a plan shows up in the projection onto its table. */
  lemma {:induction false} ProjectionsContain(plan: seq<StoreWrite>, w: StoreWrite)
    requires w in plan
    ensures w.CategoryWrite? ==> w.c in CategoryWrites(plan)
    ensures w.SubcategoryWrite? ==> w.s in SubcategoryWrites(plan)
    ensures w.OrderWrite? ==> w.o in OrderUpserts(plan)
    ensures w.ItemWrite? ==> w.i in ItemWrites(plan)
    decreases |plan|
  {
    var n := |plan|;
    if plan[n - 1] != w {
      var i :| 0 <= i < n && plan[i] == w;
      assert plan[..n - 1][i] == w;
      ProjectionsContain(plan[..n - 1], w);
    }
  }

  /** Whatever row a plan writes is present once the plan has run. */
  lemma ApplyPlanHoldsWritten(st: Store, plan: seq<StoreWrite>, w: StoreWrite)
    requires w in plan
    ensures w.CategoryWrite? ==> w.c.key in ApplyPlan(st, plan).categories
    ensures w.SubcategoryWrite? ==> w.s.key in ApplyPlan(st, plan).subcategories
    ensures w.OrderWrite? ==> w.o.key in ApplyPlan(st, plan).orders
    ensures w.ItemWrite? ==> w.i.key in ApplyPlan(st, plan).items
  {
    ProjectionsContain(plan, w);
    ApplyPlanByTable(st, plan);
    ApplyAllKeepsKeys(st.categories, CategoryWrites(plan));
    ApplyAllKeepsKeys(st.subcategories, SubcategoryWrites(plan));
    ApplyUpsertsKeepsKeys(st.orders, OrderUpserts(plan));
    ApplyAllKeepsKeys(st.items, ItemWrites(plan));
  }

  /** No table loses a row. */
  predicate Grows(before: Store, after: Store)
  {
    && before.categories.Keys <= after.categories.Keys
    && before.subcategories.Keys <= after.subcategories.Keys
    && before.orders.Keys <= after.orders.Keys
    && before.items.Keys <= after.items.Keys
  }

  lemma ApplyPlanGrows(st: Store, plan: seq<StoreWrite>)
    ensures Grows(st, ApplyPlan(st, plan))
  {
    ApplyPlanByTable(st, plan);
    ApplyAllKeepsKeys(st.categories, CategoryWrites(plan));
    ApplyAllKeepsKeys(st.subcategories, SubcategoryWrites(plan));
    ApplyUpsertsKeepsKeys(st.orders, OrderUpserts(plan));
    ApplyAllKeepsKeys(st.items, ItemWrites(plan));
  }

  /** The write would pass PostgreSQL's foreign-key checks in store `st`: whatever row it
      inserts or updates references rows that exist. An insert that hits a conflict writes
      nothing and so checks nothing. */
  predicate WriteKeepsReferences(st: Store, w: StoreWrite)
  {
    match w
    case CategoryWrite(_) => true
    case OrderWrite(_) => true
    case SubcategoryWrite(s) =>
      (s.InsertIfAbsent? && s.key in st.subcategories) || s.value.categoryId in st.categories
    case ItemWrite(i) =>
      || (i.InsertIfAbsent? && i.key in st.items)
      || (&& i.key.order in st.orders
          && i.key.subcategoryId in st.subcategories
          && i.value.categoryId in st.categories)
  }

  /** Every write of the plan passes the foreign-key checks at the moment it is issued. */
  predicate PlanKeepsReferences(st: Store, plan: seq<StoreWrite>)
    decreases |plan|
  {
    |plan| == 0 ||
    (PlanKeepsReferences(st, plan[..|plan| - 1]) &&
     WriteKeepsReferences(ApplyPlan(st, plan[..|plan| - 1]), plan[|plan| - 1]))
  }

  lemma {:induction false} PlanKeepsReferencesAppend(st: Store, a: seq<StoreWrite>, b: seq<StoreWrite>)
    ensures PlanKeepsReferences(st, a + b) <==>
            PlanKeepsReferences(st, a) && PlanKeepsReferences(ApplyPlan(st, a), b)
    decreases |b|
  {
    if |b| == 0 {
      assert a + b == a;
    } else {
      var b' := b[..|b| - 1];
      assert (a + b)[..|a + b| - 1] == a + b';
      PlanKeepsReferencesAppend(st, a, b');
      ApplyPlanAppend(st, a, b');
    }
  }

  lemma WriteKeepsReferencesHold(st: Store, w: StoreWrite)
    requires ReferencesHold(st) && WriteKeepsReferences(st, w)
    ensures ReferencesHold(ApplyStoreWrite(st, w))
  {
  }

  /** A plan whose every write passes the foreign-key checks keeps the foreign keys of the store. */
  lemma {:induction false} ApplyPlanKeepsReferences(st: Store, plan: seq<StoreWrite>)
    requires ReferencesHold(st) && PlanKeepsReferences(st, plan)
    ensures ReferencesHold(ApplyPlan(st, plan))
    decreases |plan|
  {
    if |plan| > 0 {
      ApplyPlanKeepsReferences(st, plan[..|plan| - 1]);
      WriteKeepsReferencesHold(ApplyPlan(st, plan[..|plan| - 1]), plan[|plan| - 1]);
    }
  }
}
