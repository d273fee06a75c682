/** The two external feeds after validation. Numbers-or-strings have already been turned
    into strings, as the feed schemas' `stringOrNumber` transform does; optional-or-null
    fields are `Option`s. Validation itself is not modelled: a feed reaches the model either
    as one of these records or as a failure (see `Sync.FeedResponse`). */
module Feed {
  import opened Wrappers

  datatype FeedSubcategory = FeedSubcategory(subcategoryId: string, subcategoryName: string)

  datatype FeedCategory = FeedCategory(
    categoryId: string,
    categoryName: string,
    subcategories: Option<seq<FeedSubcategory>>)

  datatype CategoryFeed = CategoryFeed(productList: seq<FeedCategory>)

  /** One grade line of a transaction: `quantity` and `total` are required, the rest optional. */
  datatype GradeDetail = GradeDetail(
    grade: Option<string>,
    quantity: string,
    total: string,
    price: Option<string>)

  /** A category group of a transaction (the feed's `categoryID` / `subCategoryID`). */
  datatype RequestItem = RequestItem(
    categoryId: Option<string>,
    subcategoryId: Option<string>,
    requestList: Option<seq<GradeDetail>>)

  datatype Transaction = Transaction(
    orderId: string,
    orderFinishedDate: Option<string>,
    orderFinishedTime: Option<string>,
    requestList: Option<seq<RequestItem>>)

  datatype TransactionFeed = TransactionFeed(
    buyTransaction: Option<seq<Transaction>>,
    sellTransaction: Option<seq<Transaction>>)

  /** The source's `list || []`. */
  function OrEmpty<T>(xs: Option<seq<T>>): seq<T>
  {
    xs.GetOr([])
  }
}
