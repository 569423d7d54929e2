/**
 * The meaning of the library queries: `libraryQuery` (manga) and
 * `animelibQuery` (anime) produce one row per favourite item and linked
 * category, with the item's unread and read chapter counts (unseen and seen
 * episodes); `getCategoriesForMangaQuery` / `getCategoriesForAnimeQuery` list
 * the categories linked to one item. The tables are in-memory sequences; the
 * two media share one model, with chapters/episodes as sub-items and the
 * read/seen column as their flag.
 */
module LibraryQueries {
  import opened Text
  import opened Sequences

  /** A row of the manga (anime) table: the columns the queries read. */
  datatype Item = Item(id: int, title: string, favorite: int)

  /** A row of the chapter (episode) table: its owner and its read (seen) column. */
  datatype SubItem = SubItem(ownerId: int, consumed: int)

  /** A row of manga_categories (anime_categories). */
  datatype CategoryLink = CategoryLink(itemId: int, categoryId: int)

  /** A row of the category table. */
  datatype Category = Category(id: int, name: string)

  /** A row of the inner selection `M`: the item with its two computed counts. */
  datatype Entry = Entry(item: Item, unreadCount: nat, readCount: nat)

  /** A result row: `M.*` and the category column (0 when the item has no category). */
  datatype Row = Row(item: Item, unreadCount: nat, readCount: nat, category: int)

  // ---------------------------------------------------------------------------
  // Counting: the two grouped sub-selects C and R, joined with COALESCE(…, 0)

  predicate Flagged(s: SubItem, id: int, flag: int) {
    s.ownerId == id && s.consumed == flag
  }

  /**
   * COUNT(*) of the sub-items of item `id` whose flag column equals `flag`;
   * an item with no such sub-item has no group, and COALESCE makes that 0.
   */
  function CountFlagged(subs: seq<SubItem>, id: int, flag: int): (r: nat)
    ensures r <= |subs|
    ensures r == 0 <==> forall k :: 0 <= k < |subs| ==> !Flagged(subs[k], id, flag)
    decreases |subs|
  {
    if subs == [] then 0
    else CountFlagged(subs[..|subs| - 1], id, flag) + (if Flagged(subs[|subs| - 1], id, flag) then 1 else 0)
  }

  /** The positions of the sub-items of `id` with flag `flag`: the rows COUNT(*) counts. */
  ghost function FlaggedPositions(subs: seq<SubItem>, id: int, flag: int): set<int> {
    set i | 0 <= i < |subs| && Flagged(subs[i], id, flag)
  }

  /** The number of sub-items that belong to `id`, whatever their flag. */
  function CountOwned(subs: seq<SubItem>, id: int): nat
    decreases |subs|
  {
    if subs == [] then 0
    else CountOwned(subs[..|subs| - 1], id) + (if subs[|subs| - 1].ownerId == id then 1 else 0)
  }

  /** The count is the number of matching sub-item rows. */
  lemma {:induction false} CountFlaggedIsCardinality(subs: seq<SubItem>, id: int, flag: int)
    ensures CountFlagged(subs, id, flag) == |FlaggedPositions(subs, id, flag)|
    decreases |subs|
  {
    if subs != [] {
      var n := |subs| - 1;
      var p := subs[..n];
      CountFlaggedIsCardinality(p, id, flag);
      assert FlaggedPositions(subs, id, flag)
          == FlaggedPositions(p, id, flag) + (if Flagged(subs[n], id, flag) then {n} else {});
    }
  }

  /**
   * Unread and read together never exceed the item's sub-items, and equal
   * them when every flag is 0 or 1; an item without sub-items counts 0 and 0.
   */
  lemma {:induction false} CountsCoverOwned(subs: seq<SubItem>, id: int)
    ensures CountFlagged(subs, id, 0) + CountFlagged(subs, id, 1) <= CountOwned(subs, id)
    ensures (forall i :: 0 <= i < |subs| ==> subs[i].consumed in {0, 1})
        ==> CountFlagged(subs, id, 0) + CountFlagged(subs, id, 1) == CountOwned(subs, id)
    ensures CountOwned(subs, id) == 0 ==> CountFlagged(subs, id, 0) == 0 && CountFlagged(subs, id, 1) == 0
    decreases |subs|
  {
    if subs != [] {
      CountsCoverOwned(subs[..|subs| - 1], id);
    }
  }

  // ---------------------------------------------------------------------------
  // The inner selection M: WHERE favorite = 1, GROUP BY id, ORDER BY title

  /** `WHERE favorite = 1`. */
  function Favourites(items: seq<Item>): (r: seq<Item>)
    ensures forall x :: x in r <==> x in items && x.favorite == 1
    decreases |items|
  {
    if items == [] then []
    else (if items[0].favorite == 1 then [items[0]] else []) + Favourites(items[1..])
  }

  function Ids(items: seq<Item>): set<int> {
    set x | x in items :: x.id
  }

  predicate UniqueIds(items: seq<Item>) {
    forall i, j :: 0 <= i < j < |items| ==> items[i].id != items[j].id
  }

  /** In a table keyed by id, two rows with the same id are the same row. */
  lemma SameIdSameItem(items: seq<Item>, a: Item, b: Item)
    requires UniqueIds(items) && a in items && b in items && a.id == b.id
    ensures a == b
  {
    var i :| 0 <= i < |items| && items[i] == a;
    var j :| 0 <= j < |items| && items[j] == b;
    assert !(i < j) && !(j < i);
  }

  /** `GROUP BY id`: one row per id; the first row of each id stands for its group. */
  function GroupById(items: seq<Item>): (r: seq<Item>)
    ensures UniqueIds(r)
    ensures forall x :: x in r ==> x in items
    ensures Ids(r) == Ids(items)
    decreases |items|
  {
    if items == [] then []
    else
      var p := items[..|items| - 1];
      var g := GroupById(p);
      var x := items[|items| - 1];
      assert items == p + [x];
      assert Ids(items) == Ids(p) + {x.id};
      if x.id in Ids(g) then g
      else
        assert Ids(g + [x]) == Ids(g) + {x.id};
        g + [x]
  }

  /** On a table whose ids are unique (a primary key), grouping keeps every row. */
  lemma {:induction false} GroupByIdOfUnique(items: seq<Item>)
    requires UniqueIds(items)
    ensures GroupById(items) == items
    decreases |items|
  {
    if items != [] {
      var p := items[..|items| - 1];
      GroupByIdOfUnique(p);
      var x := items[|items| - 1];
      assert x.id !in Ids(p);
    }
  }

  /** Filtering a table keyed by id keeps the ids unique. */
  lemma {:induction false} FavouritesKeepUniqueIds(items: seq<Item>)
    requires UniqueIds(items)
    ensures UniqueIds(Favourites(items))
    decreases |items|
  {
    if items != [] {
      FavouritesKeepUniqueIds(items[1..]);
    }
  }

  /** On the primary-keyed item table, GROUP BY id changes nothing: M sorts the favourites themselves. */
  lemma GroupByIdOfKeyedFavourites(items: seq<Item>)
    requires UniqueIds(items)
    ensures GroupById(Favourites(items)) == Favourites(items)
  {
    FavouritesKeepUniqueIds(items);
    GroupByIdOfUnique(Favourites(items));
  }

  /** The item with the two computed columns. */
  function EntryOf(item: Item, subs: seq<SubItem>): Entry {
    Entry(item, CountFlagged(subs, item.id, 0), CountFlagged(subs, item.id, 1))
  }

  function Entries(items: seq<Item>, subs: seq<SubItem>): seq<Entry> {
    seq(|items|, i requires 0 <= i < |items| => EntryOf(items[i], subs))
  }

  /** `ORDER BY title`. */
  function TitleLe(a: Entry, b: Entry): bool {
    LexLe(a.item.title, b.item.title)
  }

  /**
   * The sub-select `M`: every id appears at most once (GROUP BY id), and the
   * rows are in ascending title order (ORDER BY title).
   */
  function InnerSelection(items: seq<Item>, subs: seq<SubItem>): (r: seq<Entry>)
    ensures UniqueEntryIds(r)
    ensures EntryTitlesAscending(r)
  {
    var es := Entries(GroupById(Favourites(items)), subs);
    var differ := (a: Entry, b: Entry) => a.item.id != b.item.id;
    assert Pairwise(es, differ);
    SortByPairwise(es, TitleLe, differ);
    TitleLeTotalPreorder();
    SortBySorted(es, TitleLe);
    SortBy(es, TitleLe)
  }

  lemma TitleLeTotalPreorder()
    ensures TotalPreorder(TitleLe)
  {
    forall a, b ensures TitleLe(a, b) || TitleLe(b, a) {
      LexLeTotal(a.item.title, b.item.title);
    }
    forall a, b, c | TitleLe(a, b) && TitleLe(b, c) ensures TitleLe(a, c) {
      LexLeTransitive(a.item.title, b.item.title, c.item.title);
    }
  }

  predicate UniqueEntryIds(es: seq<Entry>) {
    forall i, j :: 0 <= i < j < |es| ==> es[i].item.id != es[j].item.id
  }

  /** Every row of the inner selection is a favourite item with its own counts. */
  lemma InnerSelectionRows(items: seq<Item>, subs: seq<SubItem>)
    ensures forall e :: e in InnerSelection(items, subs) ==>
      e.item in items && e.item.favorite == 1 && e == EntryOf(e.item, subs)
  {
    var es := Entries(GroupById(Favourites(items)), subs);
    forall e | e in InnerSelection(items, subs)
      ensures e.item in items && e.item.favorite == 1 && e == EntryOf(e.item, subs)
    {
      assert e in multiset(es);
    }
  }

  /** Every favourite item has a row in the inner selection. */
  lemma InnerSelectionCovers(items: seq<Item>, subs: seq<SubItem>, x: Item)
    requires x in items && x.favorite == 1
    ensures exists e :: e in InnerSelection(items, subs) && e.item.id == x.id
  {
    var g := GroupById(Favourites(items));
    var es := Entries(g, subs);
    assert x in Favourites(items);
    assert x.id in Ids(g);
    var y :| y in g && y.id == x.id;
    var j :| 0 <= j < |g| && g[j] == y;
    assert es[j] in multiset(InnerSelection(items, subs));
  }


  // ---------------------------------------------------------------------------
  // The outer LEFT JOIN with the category links

  /** The category ids linked to `id`, in link-table order. */
  function LinkedCategories(links: seq<CategoryLink>, id: int): seq<int>
    decreases |links|
  {
    if links == [] then []
    else (if links[0].itemId == id then [links[0].categoryId] else []) + LinkedCategories(links[1..], id)
  }

  /** The joined rows of `e`: one per link whose item id matches. */
  function MatchingRows(e: Entry, links: seq<CategoryLink>): seq<Row>
    decreases |links|
  {
    if links == [] then []
    else
      (if links[0].itemId == e.item.id then [Row(e.item, e.unreadCount, e.readCount, links[0].categoryId)] else [])
      + MatchingRows(e, links[1..])
  }

  /** LEFT JOIN for one row of M: with no match, one row whose category is COALESCE(NULL, 0). */
  function JoinEntry(e: Entry, links: seq<CategoryLink>): (r: seq<Row>)
    ensures |r| >= 1
    ensures forall row :: row in r ==> Counts(row) == e
  {
    MatchingRowsAreLinks(e, links);
    var matched := MatchingRows(e, links);
    if matched == [] then [Row(e.item, e.unreadCount, e.readCount, 0)] else matched
  }


  /** The outer LEFT JOIN: each row of M in turn, with its joined rows. */
  function CategoryJoin(es: seq<Entry>, links: seq<CategoryLink>): (r: seq<Row>)
    ensures |r| >= |es|
    ensures forall row :: row in r ==> Counts(row) in es
    decreases |es|
  {
    if es == [] then [] else JoinEntry(es[0], links) + CategoryJoin(es[1..], links)
  }

  /**
   * The result of the library query over the three tables: every row is a
   * favourite item with its own counts, and the rows are in ascending title
   * order.
   */
  function LibraryView(items: seq<Item>, subs: seq<SubItem>, links: seq<CategoryLink>): (rows: seq<Row>)
    ensures forall r :: r in rows ==> r.item in items && r.item.favorite == 1
    ensures forall r :: r in rows ==>
      r.unreadCount == CountFlagged(subs, r.item.id, 0) && r.readCount == CountFlagged(subs, r.item.id, 1)
    ensures RowTitlesAscending(rows)
  {
    var m := InnerSelection(items, subs);
    InnerSelectionRows(items, subs);
    JoinKeepsTitleOrder(m, links);
    CategoryJoin(m, links)
  }

  function Counts(r: Row): Entry {
    Entry(r.item, r.unreadCount, r.readCount)
  }

  /** The rows of one item. */
  function RowsOf(rows: seq<Row>, id: int): seq<Row>
    decreases |rows|
  {
    if rows == [] then [] else (if rows[0].item.id == id then [rows[0]] else []) + RowsOf(rows[1..], id)
  }

  /** The rows matched for `e` carry `e` and the linked categories, in order. */
  lemma {:induction false} MatchingRowsAreLinks(e: Entry, links: seq<CategoryLink>)
    ensures var cats := LinkedCategories(links, e.item.id);
      MatchingRows(e, links) == seq(|cats|, k requires 0 <= k < |cats| => Row(e.item, e.unreadCount, e.readCount, cats[k]))
    decreases |links|
  {
    if links != [] {
      MatchingRowsAreLinks(e, links[1..]);
    }
  }

  lemma {:induction false} RowsOfAppend(a: seq<Row>, b: seq<Row>, id: int)
    ensures RowsOf(a + b, id) == RowsOf(a, id) + RowsOf(b, id)
    decreases |a|
  {
    if a != [] {
      RowsOfAppend(a[1..], b, id);
      var h := if a[0].item.id == id then [a[0]] else [];
      assert (a + b)[0] == a[0];
      assert (a + b)[1..] == a[1..] + b;
      calc {
        RowsOf(a + b, id);
        h + RowsOf(a[1..] + b, id);
        h + (RowsOf(a[1..], id) + RowsOf(b, id));
        (h + RowsOf(a[1..], id)) + RowsOf(b, id);
        RowsOf(a, id) + RowsOf(b, id);
      }
    } else {
      assert a + b == b;
    }
  }

  lemma {:induction false} RowsOfSameItem(rows: seq<Row>, id: int)
    requires forall r :: r in rows ==> r.item.id == id
    ensures RowsOf(rows, id) == rows
    decreases |rows|
  {
    if rows != [] {
      RowsOfSameItem(rows[1..], id);
    }
  }

  lemma {:induction false} RowsOfOtherItem(rows: seq<Row>, id: int)
    requires forall r :: r in rows ==> r.item.id != id
    ensures RowsOf(rows, id) == []
    decreases |rows|
  {
    if rows != [] {
      RowsOfOtherItem(rows[1..], id);
    }
  }


  /** The joined rows of the item `id` are those of its single row in M. */
  lemma {:induction false} RowsOfJoin(es: seq<Entry>, links: seq<CategoryLink>, e: Entry)
    requires UniqueEntryIds(es) && e in es
    ensures RowsOf(CategoryJoin(es, links), e.item.id) == JoinEntry(e, links)
    decreases |es|
  {
    var id := e.item.id;
    var head := JoinEntry(es[0], links);
    RowsOfAppend(head, CategoryJoin(es[1..], links), id);
    if es[0] == e {
      RowsOfSameItem(head, id);
      forall r | r in CategoryJoin(es[1..], links) ensures r.item.id != id {
        var k :| 0 <= k < |es[1..]| && es[1..][k] == Counts(r);
        assert es[k + 1] == Counts(r);
      }
      RowsOfOtherItem(CategoryJoin(es[1..], links), id);
    } else {
      assert es[0].item.id != id by {
        var k :| 0 <= k < |es| && es[k] == e;
      }
      RowsOfOtherItem(head, id);
      RowsOfJoin(es[1..], links, e);
    }
  }

  /**
   * A favourite item gives exactly one row with category 0 when it has no
   * category link, and otherwise exactly one row per link, with the linked
   * category ids in link order; all its rows carry the same counts.
   */
  lemma RowsPerFavourite(items: seq<Item>, subs: seq<SubItem>, links: seq<CategoryLink>, x: Item)
    requires UniqueIds(items) && x in items && x.favorite == 1
    ensures var rows := RowsOf(LibraryView(items, subs, links), x.id);
      var cats := LinkedCategories(links, x.id);
      var unread, read := CountFlagged(subs, x.id, 0), CountFlagged(subs, x.id, 1);
      rows == if cats == [] then [Row(x, unread, read, 0)]
              else seq(|cats|, k requires 0 <= k < |cats| => Row(x, unread, read, cats[k]))
  {
    var m := InnerSelection(items, subs);
    InnerSelectionRows(items, subs);
    InnerSelectionCovers(items, subs, x);
    var e :| e in m && e.item.id == x.id;
    SameIdSameItem(items, e.item, x);
    RowsOfJoin(m, links, e);
    MatchingRowsAreLinks(e, links);
  }

  /** No row belongs to an item that is missing or is not a favourite. */
  lemma RowsOfNonFavourite(items: seq<Item>, subs: seq<SubItem>, links: seq<CategoryLink>, id: int)
    requires forall x :: x in items && x.id == id ==> x.favorite != 1
    ensures RowsOf(LibraryView(items, subs, links), id) == []
  {
    RowsOfOtherItem(LibraryView(items, subs, links), id);
  }

  /** Rows in ascending title order. */
  predicate RowTitlesAscending(rows: seq<Row>) {
    forall i, j :: 0 <= i < j < |rows| ==> LexLe(rows[i].item.title, rows[j].item.title)
  }

  /** Entries in ascending title order. */
  predicate EntryTitlesAscending(es: seq<Entry>) {
    forall i, j :: 0 <= i < j < |es| ==> LexLe(es[i].item.title, es[j].item.title)
  }

  lemma {:induction false} JoinKeepsTitleOrder(es: seq<Entry>, links: seq<CategoryLink>)
    requires EntryTitlesAscending(es)
    ensures RowTitlesAscending(CategoryJoin(es, links))
    decreases |es|
  {
    if es != [] {
      var head := JoinEntry(es[0], links);
      var tail := CategoryJoin(es[1..], links);
      assert EntryTitlesAscending(es[1..]) by {
        forall i, j | 0 <= i < j < |es[1..]| ensures LexLe(es[1..][i].item.title, es[1..][j].item.title) {
          assert es[1..][i] == es[i + 1] && es[1..][j] == es[j + 1];
        }
      }
      JoinKeepsTitleOrder(es[1..], links);
        LexLeReflexive(es[0].item.title);
      var rows := head + tail;
      assert CategoryJoin(es, links) == rows;
      forall i, j | 0 <= i < j < |rows| ensures LexLe(rows[i].item.title, rows[j].item.title) {
        if j < |head| {
          assert rows[i] in head && rows[j] in head;
          assert Counts(rows[i]) == es[0] && Counts(rows[j]) == es[0];
        } else if i < |head| {
          assert rows[i] in head;
          assert Counts(rows[i]) == es[0];
          assert rows[j] == tail[j - |head|];
          assert rows[j] in tail;
          var k :| 0 <= k < |es[1..]| && es[1..][k] == Counts(rows[j]);
          assert es[k + 1] == Counts(rows[j]);
          assert LexLe(es[0].item.title, es[k + 1].item.title);
        } else {
          assert rows[i] == tail[i - |head|] && rows[j] == tail[j - |head|];
        }
      }
    }
  }

  // ---------------------------------------------------------------------------
  // The two queries of the source

  /** `libraryQuery`: mangas, chapters with their read column, manga_categories. */
  function LibraryQuery(mangas: seq<Item>, chapters: seq<SubItem>, mangaCategories: seq<CategoryLink>): (rows: seq<Row>)
    ensures forall r :: r in rows ==> r.item in mangas && r.item.favorite == 1
    ensures forall r :: r in rows ==>
      r.unreadCount == |FlaggedPositions(chapters, r.item.id, 0)| && r.readCount == |FlaggedPositions(chapters, r.item.id, 1)|
  {
    forall r | r in LibraryView(mangas, chapters, mangaCategories)
      ensures r.unreadCount == |FlaggedPositions(chapters, r.item.id, 0)| && r.readCount == |FlaggedPositions(chapters, r.item.id, 1)|
    {
      CountFlaggedIsCardinality(chapters, r.item.id, 0);
      CountFlaggedIsCardinality(chapters, r.item.id, 1);
    }
    LibraryView(mangas, chapters, mangaCategories)
  }

  /**
   * `animelibQuery`: the same computation over animes, episodes with their
   * seen column, and anime_categories.
   */
  function AnimelibQuery(animes: seq<Item>, episodes: seq<SubItem>, animeCategories: seq<CategoryLink>): (rows: seq<Row>)
    ensures rows == LibraryQuery(animes, episodes, animeCategories)
  {
    LibraryView(animes, episodes, animeCategories)
  }

  // ---------------------------------------------------------------------------
  // Categories of one item: an inner JOIN of category with the link table

  /**
   * `getCategoriesForMangaQuery` / `getCategoriesForAnimeQuery` with `?` bound
   * to `id`: each category, once for each of its links to `id`.
   */
  function CategoriesOf(categories: seq<Category>, links: seq<CategoryLink>, id: int): (r: seq<Category>)
    ensures forall c :: c in r <==> c in categories && exists l :: l in links && l.itemId == id && l.categoryId == c.id
    decreases |categories|
  {
    if categories == [] then []
    else JoinCategory(categories[0], links, id) + CategoriesOf(categories[1..], links, id)
  }

  /** `c` repeated for every link of `id` to it. */
  function JoinCategory(c: Category, links: seq<CategoryLink>, id: int): (r: seq<Category>)
    ensures forall d :: d in r <==> d == c && exists l :: l in links && l.itemId == id && l.categoryId == c.id
    ensures r != [] <==> exists l :: l in links && l.itemId == id && l.categoryId == c.id
    decreases |links|
  {
    if links == [] then []
    else
      assert forall l :: l in links <==> l == links[0] || l in links[1..];
      (if links[0].itemId == id && links[0].categoryId == c.id then [c] else []) + JoinCategory(c, links[1..], id)
  }

  /** An item without links has no categories (the join is an inner one). */
  lemma {:induction false} CategoriesOfUnlinked(categories: seq<Category>, links: seq<CategoryLink>, id: int)
    requires forall l :: l in links ==> l.itemId != id
    ensures CategoriesOf(categories, links, id) == []
    decreases |categories|
  {
    if categories != [] {
      CategoriesOfUnlinked(categories[1..], links, id);
    }
  }
}
