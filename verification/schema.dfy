/** The four tables of the relational store. Each table is a map keyed by its unique key, so
    "at most one row per key" holds by construction; the foreign keys are the predicate
    `ReferencesHold`. Order items reference their order by the order's natural key
    `(externalOrderId, orderType)`, which the unique index makes a one-to-one stand-in for
    the serial `orders.id` column. */
module Schema {
  import opened Wrappers
  import opened Feed

  datatype OrderType = Buy | Sell

  /** The unique index `orders_external_order_id_type_ux`. */
  datatype OrderKey = OrderKey(externalOrderId: string, orderType: OrderType)

  datatype Subcategory = Subcategory(categoryId: string, subcategoryName: string)

  /** `finishedAt` is an abstract timestamp; `rawPayload` keeps the transaction the row came from. */
  datatype Order = Order(
    orderFinishedDate: Option<string>,
    orderFinishedTime: Option<string>,
    finishedAt: int,
    rawPayload: Transaction)

  /** The unique index `order_items_order_sub_grade_ux`. */
  datatype ItemKey = ItemKey(order: OrderKey, subcategoryId: string, grade: string)

  /** `quantity` and `total` are NOT NULL, `price` is nullable. */
  datatype OrderItem = OrderItem(categoryId: string, quantity: real, total: real, price: Option<real>)

  function Pow10(n: nat): (r: nat)
    ensures r >= 1
  {
    if n == 0 then 1 else 10 * Pow10(n - 1)
  }

  function Magnitude(x: real): (m: real)
    ensures m >= 0.0 && (m == x || m == -x)
  {
    if x < 0.0 then -x else x
  }

  /** Whether a value fits a `numeric(precision, scale)` column. PostgreSQL rounds it half away
      from zero to `scale` fractional digits and refuses it ("numeric field overflow") unless
      the rounded magnitude is below 10^(precision - scale). */
  predicate FitsNumeric(x: real, precision: nat, scale: nat)
  {
    (Scaled(x, scale) + 0.5).Floor < Pow10(precision)
  }

  /** The magnitude in units of the last digit kept. */
  function Scaled(x: real, scale: nat): real
  {
    Magnitude(x) * Pow10(scale) as real
  }

  /** `quantity` is `numeric(18, 4)`; `total` and `price` are `numeric(18, 2)`. */
  predicate ItemFits(item: OrderItem)
  {
    && FitsNumeric(item.quantity, 18, 4)
    && FitsNumeric(item.total, 18, 2)
    && (item.price.Some? ==> FitsNumeric(item.price.value, 18, 2))
  }

  /** The column bounds without rounding: a quantity fits exactly when its magnitude is below
      10^14 - 0.00005, a total or price when below 10^16 - 0.005. */
  lemma ItemFitsMeaning(item: OrderItem)
    ensures ItemFits(item) <==>
            && -99999999999999.99995 < item.quantity < 99999999999999.99995
            && -9999999999999999.995 < item.total < 9999999999999999.995
            && (item.price.Some? ==> -9999999999999999.995 < item.price.value < 9999999999999999.995)
  {
    Pow10Values();
    FitsNumericBound(item.quantity, 18, 4);
    FitsNumericBound(item.total, 18, 2);
    if item.price.Some? {
      FitsNumericBound(item.price.value, 18, 2);
    }
  }

  lemma Pow10Values()
    ensures Pow10(2) == 100 && Pow10(4) == 10000 && Pow10(18) == 1000000000000000000
  {
    assert Pow10(4) == 10000;
    assert Pow10(8) == 100000000;
    assert Pow10(12) == 1000000000000;
    assert Pow10(16) == 10000000000000000;
  }

  /** Rounding to the scale and comparing with the limit is comparing the scaled magnitude
      with the limit less half a unit. */
  lemma FitsNumericBound(x: real, precision: nat, scale: nat)
    ensures FitsNumeric(x, precision, scale) <==> Scaled(x, scale) < Pow10(precision) as real - 0.5
  {
    FloorLess(Scaled(x, scale) + 0.5, Pow10(precision));
  }

  lemma FloorLess(y: real, n: int)
    ensures y.Floor < n <==> y < n as real
  {
  }

  datatype Store = Store(
    categories: map<string, string>,
    subcategories: map<string, Subcategory>,
    orders: map<OrderKey, Order>,
    items: map<ItemKey, OrderItem>)

  const EmptyStore := Store(map[], map[], map[], map[])

  /** The foreign keys: a subcategory's category exists; an item's order, category and
      subcategory exist. */
  predicate ReferencesHold(st: Store)
  {
    && (forall s :: s in st.subcategories ==> st.subcategories[s].categoryId in st.categories)
    && (forall k :: k in st.items ==>
          && k.order in st.orders
          && k.subcategoryId in st.subcategories
          && st.items[k].categoryId in st.categories)
  }

  /** Deleting an order; `ON DELETE CASCADE` removes the order's items with it. */
  function DeleteOrder(st: Store, key: OrderKey): (r: Store)
    ensures key !in r.orders && r.orders.Keys == st.orders.Keys - {key}
    ensures forall k :: k in r.orders ==> r.orders[k] == st.orders[k]
    ensures forall k :: k in r.items ==> k.order != key
    ensures forall k :: k in st.items && k.order != key ==> k in r.items && r.items[k] == st.items[k]
    ensures r.categories == st.categories && r.subcategories == st.subcategories
    ensures ReferencesHold(st) ==> ReferencesHold(r)
  {
    st.(orders := st.orders - {key},
        items := map k | k in st.items && k.order != key :: st.items[k])
  }
}
