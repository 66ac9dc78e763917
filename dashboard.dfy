/**
 * The owner's dashboard: the owner's posts narrowed by a case-insensitive search
 * over the item name alone, four per page, with a loading / error / empty /
 * list view.
 */
module Dashboard {
  import opened Wrappers
  import Seqs
  import Text
  import PaginationControl

  const PostsPerPage: nat := 4
  const LoadError: string := "\U{274C} Failed to load items."

  datatype PostStatus = Active | Claimed

  /** A post as the dashboard's item type declares it: there is no place and no category. */
  datatype Post = Post(
    id: string, itemName: string, description: string, photoUrl: string,
    status: PostStatus, postedBy: string)

  predicate NameMatches(post: Post, search: string)
  {
    Text.ContainsIgnoringCase(post.itemName, search)
  }

  /** `filteredPosts`. */
  function FilteredPosts(posts: seq<Post>, search: string): seq<Post>
  {
    Seqs.Filter(posts, post => NameMatches(post, search))
  }

  /**
   * The result is exactly the posts whose lower-cased name contains the lower-cased
   * search text, each as many times as it occurs among the posts, in their original order.
   */
  lemma FilteredPostsExact(posts: seq<Post>, search: string)
    ensures var r := FilteredPosts(posts, search);
      && (forall i :: 0 <= i < |r| ==> Text.Includes(Text.Lower(r[i].itemName), Text.Lower(search)))
      && (forall i :: 0 <= i < |posts| && Text.Includes(Text.Lower(posts[i].itemName), Text.Lower(search))
            ==> posts[i] in r)
      && (forall x :: multiset(r)[x]
            == if Text.Includes(Text.Lower(x.itemName), Text.Lower(search)) then multiset(posts)[x] else 0)
      && Seqs.IsSubsequence(r, posts)
  {
    Seqs.FilterIsSubsequence(posts, post => NameMatches(post, search));
    Seqs.FilterCounts(posts, post => NameMatches(post, search));
  }

  /** An empty search returns all posts unchanged. */
  lemma EmptySearchIsIdentity(posts: seq<Post>)
    ensures FilteredPosts(posts, "") == posts
  {
    forall i | 0 <= i < |posts|
      ensures NameMatches(posts[i], "")
    {
      Text.IncludesEmpty(Text.Lower(posts[i].itemName));
    }
    Seqs.FilterKeepsAll(posts, post => NameMatches(post, ""));
  }

  /** `totalPages = Math.ceil(filteredPosts.length / itemsPerPage)`. */
  function TotalPages(filtered: seq<Post>): nat
  {
    Seqs.PageCount(|filtered|, PostsPerPage)
  }

  /** `paginatedPosts`: the slice from `(currentPage - 1) * 4` of length four. */
  function PaginatedPosts(filtered: seq<Post>, currentPage: int): seq<Post>
  {
    var start := (currentPage - 1) * PostsPerPage;
    Seqs.JsSlice(filtered, start, start + PostsPerPage)
  }

  /**
   * Four posts to a page: the page count is the ceiling of the length over four,
   * the visible slice starts at `(currentPage - 1) * 4`, holds at most four posts,
   * and the pages together are the filtered list.
   */
  lemma DashboardPaging(filtered: seq<Post>, currentPage: int)
    requires 1 <= currentPage
    ensures |filtered| <= TotalPages(filtered) * 4
    ensures TotalPages(filtered) == 0 || (TotalPages(filtered) - 1) * 4 < |filtered|
    ensures PaginatedPosts(filtered, currentPage)
         == filtered[Seqs.Min((currentPage - 1) * 4, |filtered|)..Seqs.Min(currentPage * 4, |filtered|)]
    ensures |PaginatedPosts(filtered, currentPage)| <= 4
    ensures Seqs.Pages(filtered, PostsPerPage, TotalPages(filtered)) == filtered
  {
    assert PaginatedPosts(filtered, currentPage) == Seqs.Page(filtered, PostsPerPage, currentPage);
    Seqs.PageIsClippedSlice(filtered, PostsPerPage, currentPage);
    Seqs.PagesPartition(filtered, PostsPerPage);
  }

  /** The four branches of the dashboard body. */
  datatype View =
    | LoadingView
    | ErrorView(message: string)
    | NoItemsView
    | ListView(posts: seq<Post>, control: Option<PaginationControl.Control>)

  /** The branch the page renders, tested in the order loading, error, empty result. */
  function Render(loading: bool, error: string, filtered: seq<Post>, currentPage: int): View
  {
    if loading then LoadingView
    else if error != "" then ErrorView(error)
    else if |filtered| == 0 then NoItemsView
    else ListView(PaginatedPosts(filtered, currentPage),
                  PaginationControl.Render(currentPage, TotalPages(filtered)))
  }

  /**
   * "No items found." is shown exactly when not loading, without an error, and the
   * filtered list is empty; with an empty list neither posts nor the control are shown.
   */
  lemma EmptyResultBranch(loading: bool, error: string, filtered: seq<Post>, currentPage: int)
    ensures Render(loading, error, filtered, currentPage).NoItemsView?
        <==> !loading && error == "" && |filtered| == 0
    ensures |filtered| == 0 ==> !Render(loading, error, filtered, currentPage).ListView?
    ensures Render(loading, error, filtered, currentPage).ListView? ==>
              Render(loading, error, filtered, currentPage).posts == PaginatedPosts(filtered, currentPage)
  {
  }

  /** The state of the dashboard component. */
  class DashboardPage {
    var posts: seq<Post>
    var search: string
    var loading: bool
    var error: string
    var currentPage: int
    /** Whether the mount-time fetch has completed; the fetch effect runs once. */
    ghost var fetched: bool

    function Filtered(): seq<Post>
      reads this
    {
      FilteredPosts(posts, search)
    }

    function PageCount(): nat
      reads this
    {
      TotalPages(Filtered())
    }

    function View(): View
      reads this
    {
      Render(loading, error, Filtered(), currentPage)
    }

    ghost predicate Valid()
      reads this
    {
      && 1 <= currentPage
      && (currentPage == 1 || currentPage <= PageCount())
      && (!fetched ==> posts == [])
    }

    constructor ()
      ensures Valid() && !fetched
      ensures posts == [] && search == "" && !loading && error == "" && currentPage == 1
    {
      posts, search, loading, error, currentPage := [], "", false, "", 1;
      fetched := false;
    }

    /** Start of `fetchItems` on mount. */
    method StartFetch()
      requires !fetched
      modifies this`loading, this`error
      ensures loading && error == ""
    {
      loading, error := true, "";
    }

    /** `fetchItems` settles: the owner's posts on success, the error message on failure; loading ends either way. */
    method FinishFetch(received: Option<seq<Post>>)
      requires Valid() && !fetched
      modifies this
      ensures Valid() && fetched && !loading
      ensures posts == (if received.Some? then received.value else old(posts))
      ensures error == (if received.Some? then old(error) else LoadError)
      ensures search == old(search) && currentPage == old(currentPage)
    {
      if received.Some? {
        posts := received.value;
      } else {
        error := LoadError;
      }
      loading := false;
      fetched := true;
    }

    /** Typing in the search box: new search text, back to page 1. */
    method OnSearchChange(value: string)
      requires Valid()
      modifies this`search, this`currentPage
      ensures Valid()
      ensures search == value && currentPage == 1
    {
      search := value;
      currentPage := 1;
    }

    /** `onPageChange={setCurrentPage}`: the page is taken as given, without a range check. */
    method OnPageChange(page: int)
      modifies this`currentPage
      ensures currentPage == page
    {
      currentPage := page;
    }

    /**
     * A click on the control, which is rendered only in the list branch of the view.
     * The setter is unguarded, but enabled buttons only request existing pages.
     */
    method OnControlClick(click: PaginationControl.Click)
      requires Valid()
      modifies this`currentPage
      ensures Valid()
      ensures !old(View()).ListView? ==> currentPage == old(currentPage)
      ensures old(View()).ListView? ==>
        var c := old(View()).control;
        currentPage ==
          if c.Some? && PaginationControl.Request(c.value, click).Some?
          then PaginationControl.Request(c.value, click).value
          else old(currentPage)
    {
      var v := View();
      if v.ListView? && v.control.Some? {
        var p := PaginationControl.Request(v.control.value, click);
        if p.Some? {
          PaginationControl.RequestsStayInRange(currentPage, PageCount(), click);
          OnPageChange(p.value);
        }
      }
    }
  }
}
