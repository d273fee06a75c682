/** `fetchCategoriesFromDB`: the categories in ascending id order, each with the list of its
    subcategories in ascending id order. The subcategories are read once, sorted, and
    distributed into a map from category id to list; a category absent from the map gets an
    empty list. */
module CategoriesRepository {
  import opened Schema
  import opened Collation

  /** A row of `SELECT * FROM subcategories`. */
  datatype SubRow = SubRow(subcategoryId: string, categoryId: string, subcategoryName: string)

  datatype SubcategoryEntry = SubcategoryEntry(subcategoryId: string, subcategoryName: string)

  datatype CategoryEntry = CategoryEntry(categoryId: string, categoryName: string, subcategories: seq<SubcategoryEntry>)

  predicate AscendingRows(rows: seq<SubRow>)
  {
    forall i, j :: 0 <= i < j < |rows| ==> Lt(rows[i].subcategoryId, rows[j].subcategoryId)
  }

  predicate AscendingEntries(es: seq<SubcategoryEntry>)
  {
    forall i, j :: 0 <= i < j < |es| ==> Lt(es[i].subcategoryId, es[j].subcategoryId)
  }

  function RowOf(st: Store, s: string): SubRow
    requires s in st.subcategories
  {
    SubRow(s, st.subcategories[s].categoryId, st.subcategories[s].subcategoryName)
  }

  /** `SELECT * FROM subcategories ORDER BY subcategory_id ASC` */
  function SubcategoryRows(st: Store): (rows: seq<SubRow>)
    ensures |rows| == |st.subcategories.Keys|
    ensures AscendingRows(rows)
    ensures forall i :: 0 <= i < |rows| ==> rows[i].subcategoryId in st.subcategories && rows[i] == RowOf(st, rows[i].subcategoryId)
  {
    var ids := SortedKeys(st.subcategories.Keys);
    assert forall i :: 0 <= i < |ids| ==> ids[i] in ids;
    var rows := seq(|ids|, i requires 0 <= i < |ids| => RowOf(st, ids[i]));
    assert forall i :: 0 <= i < |ids| ==> rows[i] == RowOf(st, ids[i]) && rows[i].subcategoryId == ids[i];
    rows
  }

  /** Every stored subcategory has its row. */
  lemma SubcategoryRowsComplete(st: Store, s: string)
    requires s in st.subcategories
    ensures RowOf(st, s) in SubcategoryRows(st)
  {
    var ids := SortedKeys(st.subcategories.Keys);
    var i :| 0 <= i < |ids| && ids[i] == s;
    assert SubcategoryRows(st)[i] == RowOf(st, s);
  }

  function EntryOf(r: SubRow): SubcategoryEntry
  {
    SubcategoryEntry(r.subcategoryId, r.subcategoryName)
  }

  /** The entries of the rows that belong to category `c`, in row order. */
  function SubsOf(rows: seq<SubRow>, c: string): (es: seq<SubcategoryEntry>)
    ensures forall e :: e in es <==> exists j :: 0 <= j < |rows| && rows[j].categoryId == c && e == EntryOf(rows[j])
    decreases |rows|
  {
    if |rows| == 0 then []
    else
      var prefix := rows[..|rows| - 1];
      var last := rows[|rows| - 1];
      var es := SubsOf(prefix, c) + (if last.categoryId == c then [EntryOf(last)] else []);
      assert forall j :: 0 <= j < |prefix| ==> prefix[j] == rows[j];
      es
  }

  /** A category no row belongs to has no entries. */
  lemma SubsOfNone(rows: seq<SubRow>, c: string)
    requires forall j :: 0 <= j < |rows| ==> rows[j].categoryId != c
    ensures SubsOf(rows, c) == []
  {
  }

  /** Keeping the rows of one category keeps their order. */
  lemma {:induction false} SubsOfAscending(rows: seq<SubRow>, c: string)
    requires AscendingRows(rows)
    ensures AscendingEntries(SubsOf(rows, c))
    decreases |rows|
  {
    if |rows| > 0 {
      var prefix := rows[..|rows| - 1];
      var last := rows[|rows| - 1];
      assert AscendingRows(prefix);
      SubsOfAscending(prefix, c);
      var head := SubsOf(prefix, c);
      if last.categoryId == c {
        forall i | 0 <= i < |head|
          ensures Lt(head[i].subcategoryId, last.subcategoryId)
        {
          assert head[i] in head;
          var j :| 0 <= j < |prefix| && prefix[j].categoryId == c && head[i] == EntryOf(prefix[j]);
          assert prefix[j] == rows[j];
        }
      }
    }
  }

  /** Reading one more row adds its entry to its own category's list only. */
  lemma SubsOfSnoc(rows: seq<SubRow>, i: int, c: string)
    requires 0 <= i < |rows|
    ensures SubsOf(rows[..i + 1], c) == SubsOf(rows[..i], c) + if rows[i].categoryId == c then [EntryOf(rows[i])] else []
  {
    assert rows[..i + 1][..i] == rows[..i];
  }

  /** The map after reading the first `i` rows. */
  ghost predicate GroupedUpTo(rows: seq<SubRow>, i: int, m: map<string, seq<SubcategoryEntry>>)
    requires 0 <= i <= |rows|
  {
    && (forall c :: c in m <==> exists j :: 0 <= j < i && rows[j].categoryId == c)
    && (forall c :: c in m ==> m[c] == SubsOf(rows[..i], c))
  }

  /** One iteration of the grouping loop keeps the map in step with the rows read. */
  lemma GroupStep(rows: seq<SubRow>, i: int, m: map<string, seq<SubcategoryEntry>>)
    requires 0 <= i < |rows| && GroupedUpTo(rows, i, m)
    ensures var s := rows[i];
            GroupedUpTo(rows, i + 1, m[s.categoryId := (if s.categoryId in m then m[s.categoryId] else []) + [EntryOf(s)]])
  {
    var s := rows[i];
    var next := m[s.categoryId := (if s.categoryId in m then m[s.categoryId] else []) + [EntryOf(s)]];
    if s.categoryId !in m {
      SubsOfNone(rows[..i], s.categoryId);
    }
    forall c
      ensures c in next <==> exists j :: 0 <= j < i + 1 && rows[j].categoryId == c
    {
      if c == s.categoryId {
        assert rows[i].categoryId == c;
      } else if j :| 0 <= j < i + 1 && rows[j].categoryId == c {
        assert j < i;
      }
    }
    forall c | c in next
      ensures next[c] == SubsOf(rows[..i + 1], c)
    {
      SubsOfSnoc(rows, i, c);
    }
  }

  /** The loop over the sorted subcategories that fills the map: each category id that some
      row names maps to that category's entries, in row order. */
  method GroupByCategory(rows: seq<SubRow>) returns (m: map<string, seq<SubcategoryEntry>>)
    ensures forall c :: c in m <==> exists j :: 0 <= j < |rows| && rows[j].categoryId == c
    ensures forall c :: c in m ==> m[c] == SubsOf(rows, c)
  {
    m := map[];
    for i := 0 to |rows|
      invariant GroupedUpTo(rows, i, m)
    {
      var s := rows[i];
      var arr := if s.categoryId in m then m[s.categoryId] else [];
      var next := m[s.categoryId := arr + [EntryOf(s)]];
      GroupStep(rows, i, m);
      m := next;
    }
    assert rows[..|rows|] == rows;
  }

  /** `cats.map(...)`: each category with the map's list for it, or an empty list. */
  method ListCategories(ids: seq<string>, names: map<string, string>, m: map<string, seq<SubcategoryEntry>>, subs: seq<SubRow>)
    returns (entries: seq<CategoryEntry>)
    requires forall k :: 0 <= k < |ids| ==> ids[k] in names
    requires forall c :: c in m <==> exists j :: 0 <= j < |subs| && subs[j].categoryId == c
    requires forall c :: c in m ==> m[c] == SubsOf(subs, c)
    ensures |entries| == |ids|
    ensures forall k :: 0 <= k < |ids| ==> entries[k] == CategoryEntry(ids[k], names[ids[k]], SubsOf(subs, ids[k]))
  {
    entries := [];
    for i := 0 to |ids|
      invariant |entries| == i
      invariant forall k :: 0 <= k < i ==> entries[k] == CategoryEntry(ids[k], names[ids[k]], SubsOf(subs, ids[k]))
    {
      var c := ids[i];
      if c !in m {
        SubsOfNone(subs, c);
      }
      entries := entries + [CategoryEntry(c, names[c], if c in m then m[c] else [])];
    }
  }

  /** The listing: one entry per category in ascending id order, with its name and its own
      subcategories in ascending id order. */
  method FetchCategories(st: Store) returns (entries: seq<CategoryEntry>)
    ensures |entries| == |st.categories.Keys|
    ensures forall i, j :: 0 <= i < j < |entries| ==> Lt(entries[i].categoryId, entries[j].categoryId)
    ensures forall c :: c in st.categories ==> exists i :: 0 <= i < |entries| && entries[i].categoryId == c
    ensures forall i :: 0 <= i < |entries| ==>
              && entries[i].categoryId in st.categories
              && entries[i].categoryName == st.categories[entries[i].categoryId]
              && entries[i].subcategories == SubsOf(SubcategoryRows(st), entries[i].categoryId)
              && AscendingEntries(entries[i].subcategories)
  {
    var ids := SortedKeys(st.categories.Keys);
    entries := ListWithSubcategories(ids, st.categories, SubcategoryRows(st));
    EveryIdListed(ids, entries, st.categories.Keys);
  }

  /** Listing the ids in order lists every id of the set they enumerate. */
  lemma EveryIdListed(ids: seq<string>, entries: seq<CategoryEntry>, keys: set<string>)
    requires |entries| == |ids| && forall k :: 0 <= k < |ids| ==> entries[k].categoryId == ids[k]
    requires forall c :: c in ids <==> c in keys
    ensures forall c :: c in keys ==> exists i :: 0 <= i < |entries| && entries[i].categoryId == c
  {
    forall c | c in keys
      ensures exists i :: 0 <= i < |entries| && entries[i].categoryId == c
    {
      var i :| 0 <= i < |ids| && ids[i] == c;
      assert entries[i].categoryId == c;
    }
  }

  /** Grouping followed by listing: each category with its own subcategories, which stay in
      ascending id order when the rows are. */
  method ListWithSubcategories(ids: seq<string>, names: map<string, string>, subs: seq<SubRow>)
    returns (entries: seq<CategoryEntry>)
    requires forall k :: 0 <= k < |ids| ==> ids[k] in names
    requires AscendingRows(subs)
    ensures |entries| == |ids|
    ensures forall k :: 0 <= k < |ids| ==> entries[k] == CategoryEntry(ids[k], names[ids[k]], SubsOf(subs, ids[k]))
    ensures forall k :: 0 <= k < |ids| ==> AscendingEntries(entries[k].subcategories)
  {
    var m := GroupByCategory(subs);
    entries := ListCategories(ids, names, m, subs);
    forall k | 0 <= k < |ids|
      ensures AscendingEntries(entries[k].subcategories)
    {
      SubsOfAscending(subs, ids[k]);
    }
  }

  // ---------------------------------------------------------------------------------------
  // Properties of the listing.

  /** The subcategories listed under category `c` are exactly the stored subcategories whose
      parent is `c`, with their ids and names as stored. */
  lemma SubsOfStore(st: Store, c: string, e: SubcategoryEntry)
    ensures e in SubsOf(SubcategoryRows(st), c) <==>
            e.subcategoryId in st.subcategories && st.subcategories[e.subcategoryId] == Subcategory(c, e.subcategoryName)
  {
    var rows := SubcategoryRows(st);
    if e.subcategoryId in st.subcategories && st.subcategories[e.subcategoryId] == Subcategory(c, e.subcategoryName) {
      var r := RowOf(st, e.subcategoryId);
      SubcategoryRowsComplete(st, e.subcategoryId);
      var j :| 0 <= j < |rows| && rows[j] == r;
      assert rows[j].categoryId == c && e == EntryOf(rows[j]);
    }
  }

  /** A category without subcategories lists none. */
  lemma NoSubcategoriesListsNone(st: Store, c: string)
    requires forall s :: s in st.subcategories ==> st.subcategories[s].categoryId != c
    ensures SubsOf(SubcategoryRows(st), c) == []
  {
    var rows := SubcategoryRows(st);
    SubsOfNone(rows, c);
  }

  /** A subcategory whose parent is not a stored category is listed under no category. */
  lemma OrphansUnlisted(st: Store, s: string, c: string)
    requires s in st.subcategories && st.subcategories[s].categoryId !in st.categories
    requires c in st.categories
    ensures forall e :: e in SubsOf(SubcategoryRows(st), c) ==> e.subcategoryId != s
  {
    forall e | e in SubsOf(SubcategoryRows(st), c)
      ensures e.subcategoryId != s
    {
      SubsOfStore(st, c, e);
    }
  }

  /** One category with two subcategories, and a second category with none. */
  const ExampleStore := EmptyStore.(categories := map["C2" := "second", "C1" := "first"],
                                    subcategories := map["S2" := Subcategory("C1", "two"), "S1" := Subcategory("C1", "one")])

  /** A store with two subcategories lists them in their id order. */
  lemma RowsOfPair(st: Store, a: string, b: string)
    requires st.subcategories.Keys == {a, b} && Lt(a, b)
    ensures SubcategoryRows(st) == [RowOf(st, a), RowOf(st, b)]
  {
    var rows := SubcategoryRows(st);
    assert |{a, b}| == 2;
    OrderedPair(rows[0].subcategoryId, rows[1].subcategoryId, a, b);
  }

  lemma ExampleRows()
    ensures SubcategoryRows(ExampleStore) == [SubRow("S1", "C1", "one"), SubRow("S2", "C1", "two")]
  {
    assert ExampleStore.subcategories.Keys == {"S1", "S2"};
    assert Lt("S1", "S2");
    RowsOfPair(ExampleStore, "S1", "S2");
  }

  /** Of two rows, those of category `c` are listed under it, in row order. */
  lemma SubsOfPair(r1: SubRow, r2: SubRow, c: string)
    ensures SubsOf([r1, r2], c) ==
            (if r1.categoryId == c then [EntryOf(r1)] else []) + (if r2.categoryId == c then [EntryOf(r2)] else [])
  {
    assert [r1, r2][..1] == [r1] && [r1][..0] == [];
    assert SubsOf([r1], c) == if r1.categoryId == c then [EntryOf(r1)] else [];
  }

  lemma ExampleSubcategories()
    ensures SubsOf(SubcategoryRows(ExampleStore), "C1") == [SubcategoryEntry("S1", "one"), SubcategoryEntry("S2", "two")]
  {
    ExampleRows();
    SubsOfPair(SubRow("S1", "C1", "one"), SubRow("S2", "C1", "two"), "C1");
  }

  /** The example store has two categories, in this id order. */
  lemma ExampleCategories()
    ensures ExampleStore.categories.Keys == {"C1", "C2"} && Lt("C1", "C2")
  {
  }

  /** The example's second category has no subcategories. */
  lemma ExampleSecondEmpty()
    ensures SubsOf(SubcategoryRows(ExampleStore), "C2") == []
  {
    ExampleRows();
    SubsOfPair(SubRow("S1", "C1", "one"), SubRow("S2", "C1", "two"), "C2");
  }

  /** A store with two categories lists them in their id order, each with its own
      subcategories. */
  method ListPair(st: Store, a: string, b: string) returns (entries: seq<CategoryEntry>)
    requires st.categories.Keys == {a, b} && Lt(a, b)
    ensures |entries| == 2
    ensures entries[0] == CategoryEntry(a, st.categories[a], SubsOf(SubcategoryRows(st), a))
    ensures entries[1] == CategoryEntry(b, st.categories[b], SubsOf(SubcategoryRows(st), b))
  {
    assert |{a, b}| == 2;
    entries := FetchCategories(st);
    OrderedPair(entries[0].categoryId, entries[1].categoryId, a, b);
  }

  /** The listing of the example store: `C1` with `S1` then `S2`, then `C2` with nothing. */
  method ListingExample() returns (entries: seq<CategoryEntry>)
    ensures |entries| == 2
    ensures entries[0].categoryId == "C1" && entries[1].categoryId == "C2"
    ensures entries[0].subcategories == [SubcategoryEntry("S1", "one"), SubcategoryEntry("S2", "two")]
    ensures entries[1].subcategories == []
  {
    ExampleCategories();
    entries := ListPair(ExampleStore, "C1", "C2");
    ExampleSubcategories();
    ExampleSecondEmpty();
  }
}
