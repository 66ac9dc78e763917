/**
 * The public feed page: the fetched item list is narrowed by a case-insensitive
 * search over item name or place and by an exact category (with the sentinel
 * "All"), then shown six items per page; the page state is kept in range.
 */
module HomeFeed {
  import opened Wrappers
  import Seqs
  import Text
  import PaginationControl

  const ItemsPerPage: nat := 6
  /** The category value that switches the category filter off. */
  const AllCategories: string := "All"
  const LoadError: string := "\U{274C} Failed to load items"

  datatype ItemKind = Found | Lost

  datatype FeedItem = FeedItem(
    id: string, itemName: string, description: string, category: string,
    kind: ItemKind, postedBy: string, datetime: string, place: string,
    photoUrl: Option<string>)

  predicate MatchesSearch(item: FeedItem, search: string)
  {
    Text.ContainsIgnoringCase(item.itemName, search) || Text.ContainsIgnoringCase(item.place, search)
  }

  predicate MatchesCategory(item: FeedItem, category: string)
  {
    category == AllCategories || item.category == category
  }

  predicate IsShown(item: FeedItem, search: string, category: string)
  {
    MatchesSearch(item, search) && MatchesCategory(item, category)
  }

  /** `filteredFeeds`. */
  function FilteredFeeds(items: seq<FeedItem>, search: string, category: string): seq<FeedItem>
  {
    Seqs.Filter(items, item => IsShown(item, search, category))
  }

  /**
   * Every shown item has the lower-cased search text inside its lower-cased name
   * or place, and passes the category test; every such item of the input is shown,
   * as many times as it occurs there, and no other; the order of the input is kept.
   */
  lemma FilteredFeedsExact(items: seq<FeedItem>, search: string, category: string)
    ensures var r := FilteredFeeds(items, search, category);
      && (forall i :: 0 <= i < |r| ==>
            (Text.Includes(Text.Lower(r[i].itemName), Text.Lower(search))
             || Text.Includes(Text.Lower(r[i].place), Text.Lower(search)))
            && (category == AllCategories || r[i].category == category))
      && (forall i :: 0 <= i < |items| && IsShown(items[i], search, category) ==> items[i] in r)
      && (forall x :: multiset(r)[x] == if IsShown(x, search, category) then multiset(items)[x] else 0)
      && Seqs.IsSubsequence(r, items)
  {
    Seqs.FilterIsSubsequence(items, item => IsShown(item, search, category));
    Seqs.FilterCounts(items, item => IsShown(item, search, category));
  }

  /** With category "All" the category test passes for every item, so only the search narrows. */
  lemma AllDisablesCategoryFilter(items: seq<FeedItem>, search: string)
    ensures FilteredFeeds(items, search, AllCategories)
         == Seqs.Filter(items, item => MatchesSearch(item, search))
  {
    SameFilter(items, item => IsShown(item, search, AllCategories), item => MatchesSearch(item, search));
  }

  lemma {:induction false} SameFilter(items: seq<FeedItem>, f: FeedItem -> bool, g: FeedItem -> bool)
    requires forall x :: f(x) == g(x)
    ensures Seqs.Filter(items, f) == Seqs.Filter(items, g)
    decreases |items|
  {
    if items != [] {
      SameFilter(items[1..], f, g);
    }
  }

  /** An empty search with category "All" leaves the item list unchanged. */
  lemma EmptySearchAllCategoriesIsIdentity(items: seq<FeedItem>)
    ensures FilteredFeeds(items, "", AllCategories) == items
  {
    forall i | 0 <= i < |items|
      ensures IsShown(items[i], "", AllCategories)
    {
      Text.IncludesEmpty(Text.Lower(items[i].itemName));
    }
    Seqs.FilterKeepsAll(items, item => IsShown(item, "", AllCategories));
  }

  /** Applying the same search and category to the result changes nothing. */
  lemma FilteredFeedsIdempotent(items: seq<FeedItem>, search: string, category: string)
    ensures FilteredFeeds(FilteredFeeds(items, search, category), search, category)
         == FilteredFeeds(items, search, category)
  {
    Seqs.FilterIdempotent(items, item => IsShown(item, search, category));
  }

  function CategoryValues(items: seq<FeedItem>): (r: seq<string>)
    ensures |r| == |items| && forall i :: 0 <= i < |items| ==> r[i] == items[i].category
  {
    seq(|items|, i requires 0 <= i < |items| => items[i].category)
  }

  /** `categories`: "All" followed by the distinct item categories. */
  function Categories(items: seq<FeedItem>): seq<string>
  {
    [AllCategories] + Seqs.Distinct(CategoryValues(items))
  }

  /**
   * The option list starts with "All"; the rest are exactly the item categories,
   * each once, in the order in which each first appears among the items.
   */
  lemma CategoryOptions(items: seq<FeedItem>)
    ensures var r := Categories(items); var cats := CategoryValues(items);
      && |r| >= 1 && r[0] == AllCategories
      && (forall i :: 1 <= i < |r| ==> exists j :: 0 <= j < |items| && items[j].category == r[i])
      && (forall j :: 0 <= j < |items| ==> items[j].category in r[1..])
      && Seqs.NoDuplicates(r[1..])
      && (forall i, k :: 1 <= i < k < |r| ==> Seqs.FirstIndex(cats, r[i]) < Seqs.FirstIndex(cats, r[k]))
  {
    var cats := CategoryValues(items);
    var r := Categories(items);
    var d := Seqs.Distinct(cats);
    assert r[1..] == d;
    assert forall i :: 1 <= i < |r| ==> r[i] == d[i - 1];
    assert forall i :: 1 <= i < |r| ==> exists j :: 0 <= j < |items| && items[j].category == r[i] by {
      forall i | 1 <= i < |r|
        ensures exists j :: 0 <= j < |items| && items[j].category == r[i]
      {
        var j :| 0 <= j < |cats| && cats[j] == d[i - 1];
        assert items[j].category == r[i];
      }
    }
    Seqs.DistinctFirstAppearanceOrder(cats);
  }

  /** `totalPages = Math.ceil(filteredFeeds.length / ITEMS_PER_PAGE)`. */
  function TotalPages(filtered: seq<FeedItem>): nat
  {
    Seqs.PageCount(|filtered|, ItemsPerPage)
  }

  /** `paginatedFeeds`. */
  function PaginatedFeeds(filtered: seq<FeedItem>, currentPage: int): seq<FeedItem>
  {
    Seqs.Page(filtered, ItemsPerPage, currentPage)
  }

  /** The page count is the least number of six-item pages that hold the filtered list. */
  lemma TotalPagesIsCeiling(filtered: seq<FeedItem>)
    ensures |filtered| <= TotalPages(filtered) * 6
    ensures TotalPages(filtered) == 0 || (TotalPages(filtered) - 1) * 6 < |filtered|
  {
  }

  /**
   * The page shown is `filtered[(p-1)*6 .. p*6)` clipped to the list, with at most
   * six items, and at least one when `p` is a page that exists.
   */
  lemma PaginatedFeedsSlice(filtered: seq<FeedItem>, currentPage: int)
    requires 1 <= currentPage
    ensures PaginatedFeeds(filtered, currentPage)
         == filtered[Seqs.Min((currentPage - 1) * 6, |filtered|)..Seqs.Min(currentPage * 6, |filtered|)]
    ensures |PaginatedFeeds(filtered, currentPage)| <= 6
    ensures currentPage <= TotalPages(filtered) ==> |PaginatedFeeds(filtered, currentPage)| >= 1
  {
    Seqs.PageIsClippedSlice(filtered, ItemsPerPage, currentPage);
    if currentPage <= TotalPages(filtered) {
      Seqs.PageInRangeNotEmpty(filtered, ItemsPerPage, currentPage);
    }
  }

  /** Pages 1..totalPages laid end to end give the filtered list back exactly. */
  lemma FeedPagesPartition(filtered: seq<FeedItem>)
    ensures Seqs.Pages(filtered, ItemsPerPage, TotalPages(filtered)) == filtered
  {
    Seqs.PagesPartition(filtered, ItemsPerPage);
  }

  /** The state of the feed page component. */
  class HomePage {
    var items: seq<FeedItem>
    var search: string
    var category: string
    var currentPage: int
    var loading: bool
    var error: string
    /** Whether the mount-time fetch has completed; the fetch effect runs once. */
    ghost var fetched: bool

    function Filtered(): seq<FeedItem>
      reads this
    {
      FilteredFeeds(items, search, category)
    }

    function PageCount(): nat
      reads this
    {
      TotalPages(Filtered())
    }

    /** The cards rendered: none while loading, otherwise the current page. */
    function Cards(): seq<FeedItem>
      reads this
    {
      if loading then [] else PaginatedFeeds(Filtered(), currentPage)
    }

    function Control(): Option<PaginationControl.Control>
      reads this
    {
      PaginationControl.Render(currentPage, PageCount())
    }

    /** The current page is 1, or a page that exists; before the fetch there are no items. */
    ghost predicate Valid()
      reads this
    {
      && 1 <= currentPage
      && (currentPage == 1 || currentPage <= PageCount())
      && (!fetched ==> items == [])
    }

    constructor ()
      ensures Valid() && !fetched
      ensures items == [] && search == "" && category == AllCategories && currentPage == 1
      ensures !loading && error == ""
    {
      items, search, category, currentPage := [], "", AllCategories, 1;
      loading, error := false, "";
      fetched := false;
    }

    /** Start of the mount-time fetch of `/items`. */
    method StartFetch()
      requires !fetched
      modifies this`loading, this`error
      ensures loading && error == ""
    {
      loading, error := true, "";
    }

    /** The fetch settles: the received items on success, the error message on failure; loading ends either way. */
    method FinishFetch(received: Option<seq<FeedItem>>)
      requires Valid() && !fetched
      modifies this
      ensures Valid() && fetched && !loading
      ensures items == (if received.Some? then received.value else old(items))
      ensures error == (if received.Some? then old(error) else LoadError)
      ensures search == old(search) && category == old(category) && currentPage == old(currentPage)
    {
      if received.Some? {
        items := received.value;
      } else {
        error := LoadError;
      }
      loading := false;
      fetched := true;
    }

    /** `handlePageChange`: moves only to a page that exists. */
    method HandlePageChange(page: int)
      requires Valid()
      modifies this`currentPage
      ensures Valid()
      ensures currentPage == if 1 <= page <= PageCount() then page else old(currentPage)
    {
      if 1 <= page && page <= PageCount() {
        currentPage := page;
      }
    }

    /** Typing in the search box: new search text, back to page 1. */
    method OnSearchChange(value: string)
      requires Valid()
      modifies this`search, this`currentPage
      ensures Valid()
      ensures search == value && currentPage == 1
    {
      search := value;
      currentPage := 1;
    }

    /** Choosing a category: new category, back to page 1. */
    method OnCategoryChange(value: string)
      requires Valid()
      modifies this`category, this`currentPage
      ensures Valid()
      ensures category == value && currentPage == 1
    {
      category := value;
      currentPage := 1;
    }

    /** A click on the rendered control, passed to `handlePageChange`; disabled buttons do nothing. */
    method OnControlClick(click: PaginationControl.Click)
      requires Valid()
      modifies this`currentPage
      ensures Valid()
      ensures Control().None? ==> currentPage == old(currentPage)
      ensures old(Control()).Some? ==>
        var p := PaginationControl.Request(old(Control()).value, click);
        currentPage == if p.Some? then p.value else old(currentPage)
    {
      var c := Control();
      if c.Some? {
        var p := PaginationControl.Request(c.value, click);
        if p.Some? {
          PaginationControl.RequestsStayInRange(currentPage, PageCount(), click);
          HandlePageChange(p.value);
        }
      }
    }
  }

  /** In a valid state the cards shown are at most six, and at least one once loaded with a non-empty result. */
  lemma ValidStateShowsAPage(h: HomePage)
    requires h.Valid()
    ensures |h.Cards()| <= 6
    ensures !h.loading && |h.Filtered()| > 0 ==> |h.Cards()| >= 1
  {
    PaginatedFeedsSlice(h.Filtered(), h.currentPage);
  }
}
