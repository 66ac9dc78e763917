# FoundItZone front-end logic in Dafny

FoundItZone is a lost-and-found web front end. This project models the logic inside its
page components and proves properties about it:

- **Public feed** (`src/app/home/page.tsx`, module `HomeFeed`). Fetched items are narrowed
  by a case-insensitive substring search over the item name or the place. They are also
  narrowed by an exact category match, where the category `"All"` switches that test off.
  The category option list is `"All"` followed by the distinct item categories. Results
  are shown six per page. The page-change handler moves only to a page that exists, and
  editing the search or the category goes back to page 1. The component state is the
  class `HomeFeed.HomePage`.
- **Owner dashboard** (`src/app/dashboard/page.tsx`, module `Dashboard`). The owner's
  posts are narrowed by a case-insensitive search over the item name alone. They are shown
  four per page, with a loading, error, "No items found." or list branch. The component
  state is the class `Dashboard.DashboardPage`.
- **Pagination control** (`src/components/Pagination.tsx`, module `PaginationControl`).
  The control is a pure function of `currentPage` and `totalPages`. It shows whether the
  control renders at all, which page buttons it offers, which one is highlighted, when
  Previous and Next are disabled, and which page each button requests.
- **Found-item form** (`src/app/home/found/page.tsx`, module `FoundForm`). It covers:
  - the form record and its updates: one typed field, the chosen photo, the identity
    prefill, and the reset after a successful submission;
  - the checks before submitting. First, the browser's own constraint validation: the
    submit button is disabled while loading, the six text inputs marked `required` must be
    non-empty, and the file input must hold a file. Then `handleSubmit`'s checks: a photo
    is required, and an optional phone must match `^\d{10,15}$`;
  - the `Object.entries`/`FormData.append` loop that builds the multipart field list.

  The component state is the class `FoundForm.FoundFormPage`.

Shared pieces:
- `Seqs` holds the order-preserving filter, subsequences, de-duplication in
  first-appearance order, JavaScript's `Array.prototype.slice`, and ceiling page counts
  and pages.
- `Text` holds lower-casing and JavaScript's `String.prototype.includes`.
- `Wrappers` holds `Option`.

Fetching is split into `StartFetch` and `FinishFetch(outcome)`. Submitting is split into
`BeginSubmit` and `FinishSubmit(response)`. The split shows the `await` boundary where
`loading` is observable. Each page's ghost field `fetched` records that the mount-time
fetch runs once. This lets the in-range page invariant `Valid()` survive the arrival of
the items.

If an item's category is literally `"All"`, the option list shows `"All"` twice, and both
entries switch the category filter off. The model keeps this behaviour as written, so
`CategoryOptions` promises no duplicates only after the leading `"All"`.

## Model

| member | source | states |
|---|---|---|
| HomeFeed.FilteredFeedsExact | src/app/home/page.tsx:84-91 | every shown item has the lower-cased search text inside its lower-cased name or place, and is in the selected category unless the category is "All"; every input item passing both tests is shown, with as many copies as the input has, and no failing item is; the result is an order-preserving subsequence of the items, so it is fixed exactly |
| HomeFeed.AllDisablesCategoryFilter | src/app/home/page.tsx:89 | with category "All" the result is the search-only filter of the items |
| HomeFeed.EmptySearchAllCategoriesIsIdentity | src/app/home/page.tsx:84-91 | empty search with category "All" returns the item list unchanged |
| HomeFeed.FilteredFeedsIdempotent | src/app/home/page.tsx:84-91 | filtering the result again with the same search and category changes nothing |
| HomeFeed.CategoryOptions | src/app/home/page.tsx:81 | the option list starts with "All"; the rest are item categories, every item category appears among them, none twice, in order of first appearance among the items |
| HomeFeed.TotalPagesIsCeiling | src/app/home/page.tsx:94 | the page count is the least number of six-item pages that hold the filtered list |
| HomeFeed.PaginatedFeedsSlice | src/app/home/page.tsx:95-98 | page p is filtered[(p-1)*6 .. p*6) clipped to the list, has at most 6 items, and at least one when p ≤ totalPages |
| HomeFeed.FeedPagesPartition | src/app/home/page.tsx:94-98 | pages 1..totalPages concatenated give the filtered list exactly |
| HomeFeed.HomePage.constructor | src/app/home/page.tsx:29-34 | initial state: no items, empty search, category "All", page 1, not loading, no error; the page invariant holds |
| HomeFeed.HomePage.StartFetch | src/app/home/page.tsx:37-40 | the one mount-time fetch starts, before any result has arrived, with loading set and the error cleared |
| HomeFeed.HomePage.FinishFetch | src/app/home/page.tsx:41-49 | on success the items are the received list, on failure the error is "❌ Failed to load items"; loading ends either way; the page invariant is kept |
| HomeFeed.HomePage.HandlePageChange | src/app/home/page.tsx:100-102 | the current page becomes `page` exactly when 1 ≤ page ≤ totalPages, otherwise it is unchanged; the page stays in range |
| HomeFeed.HomePage.OnSearchChange | src/app/home/page.tsx:116-119 | the search becomes the typed text and the page resets to 1 |
| HomeFeed.HomePage.OnCategoryChange | src/app/home/page.tsx:125-128 | the category becomes the chosen one and the page resets to 1 |
| HomeFeed.HomePage.OnControlClick | src/app/home/page.tsx:162-166 | a click moves to the page the pressed enabled button requests, disabled buttons do nothing, and the page stays in range |
| HomeFeed.ValidStateShowsAPage | src/app/home/page.tsx:145-158 | in an in-range state at most six cards are shown, and at least one once loading is over and the filtered list is non-empty |
| Dashboard.FilteredPostsExact | src/app/dashboard/page.tsx:63-67 | the result is exactly the posts whose lower-cased name contains the lower-cased search text, every copy of each, in their original order; nothing else about a post is consulted |
| Dashboard.EmptySearchIsIdentity | src/app/dashboard/page.tsx:63-67 | an empty search returns all posts unchanged |
| Dashboard.DashboardPaging | src/app/dashboard/page.tsx:69-73 | page count is ceil(n/4); the visible slice is filtered[(p-1)*4 .. p*4) clipped, at most 4 posts; the pages concatenated give the filtered list |
| Dashboard.EmptyResultBranch | src/app/dashboard/page.tsx:91-98 | "No items found." shows exactly when not loading, no error and the filtered list is empty; with an empty list no posts and no control are shown; the list branch shows the current page |
| Dashboard.DashboardPage.constructor | src/app/dashboard/page.tsx:32-36 | initial state: no posts, empty search, not loading, no error, page 1 |
| Dashboard.DashboardPage.StartFetch | src/app/dashboard/page.tsx:42-48 | the one mount-time fetch starts, before any result has arrived, with loading set and the error cleared |
| Dashboard.DashboardPage.FinishFetch | src/app/dashboard/page.tsx:49-60 | on success the posts are the received list, on failure the error is "❌ Failed to load items."; loading ends either way |
| Dashboard.DashboardPage.OnSearchChange | src/app/dashboard/page.tsx:85-88 | the search becomes the typed text and the page resets to 1 |
| Dashboard.DashboardPage.OnPageChange | src/app/dashboard/page.tsx:134 | the unguarded setter takes any page as given |
| Dashboard.DashboardPage.OnControlClick | src/app/dashboard/page.tsx:91-136 | the control exists only in the list branch, so a click while loading, on error or with no items changes nothing; in the list branch a click moves to the page the pressed enabled button requests, and despite the unguarded setter the page stays in range |
| PaginationControl.RenderedIffSeveralPages | src/components/Pagination.tsx:15 | the control renders exactly when totalPages > 1 |
| PaginationControl.PageButtonsNumbered | src/components/Pagination.tsx:30-31 | there are totalPages page buttons numbered 1..totalPages in ascending order, button k requesting k |
| PaginationControl.ActiveButton | src/components/Pagination.tsx:32 | a button is active iff its number is currentPage; at most one is active, exactly one when currentPage is in range |
| PaginationControl.PreviousAndNext | src/components/Pagination.tsx:23-55 | Previous is disabled iff currentPage = 1 and otherwise requests currentPage-1; Next is disabled iff currentPage = totalPages and otherwise requests currentPage+1; page button k requests k |
| PaginationControl.RequestsStayInRange | src/components/Pagination.tsx:23-55 | from an in-range page every enabled button requests a page in 1..totalPages |
| Text.Includes | src/app/home/page.tsx:87-88 | `includes` holds iff the needle occurs at some position of the haystack |
| Seqs.FilterCounts | src/app/home/page.tsx:85 | `Array.filter` keeps every copy of each passing value and no copy of a failing one |
| Seqs.FilterIsSubsequence | src/app/home/page.tsx:85 | `Array.filter` keeps the relative order of the input |
| Seqs.DistinctFirstAppearanceOrder | src/app/home/page.tsx:81 | `new Set` keeps the values in order of first appearance |
| FoundForm.MatchesDigitRun | src/app/home/found/page.tsx:79 | the matcher accepts exactly the strings of min to max decimal digits |
| FoundForm.ValidateAcceptsExactly | src/app/home/found/page.tsx:74-82 | a record passes iff it has a photo and its phone is missing, empty, or 10 to 15 decimal digits; a missing photo is reported first, whatever the phone |
| FoundForm.SetTextChangesOnlyThatField | src/app/home/found/page.tsx:59-62 | editing an input sets that field to the text and leaves every other field unchanged |
| FoundForm.IdentityPrefill | src/app/home/found/page.tsx:48-56 | foundBy, email and name come from the user's id, primary email and full name, falling back to ''; other fields are untouched |
| FoundForm.ResetKeepsOnlyIdentity | src/app/home/found/page.tsx:109-121 | after a successful submission foundBy, email and name keep their values and every other field is back to its initial value, datetime being the current time |
| FoundForm.ResetRecordNeedsNewPhoto | src/app/home/found/page.tsx:74-77 | a record just reset has no photo and is refused until a new one is chosen |
| FoundForm.BuildFormData | src/app/home/found/page.tsx:87-96 | the append loop produces exactly the specified field list |
| FoundForm.SerialisedLookup | src/app/home/found/page.tsx:88-95 | the part under a field's key is the photo as a file, any other value as its text, and none for an undefined or null value |
| FoundForm.SerialisedInFieldOrder | src/app/home/found/page.tsx:88 | the parts come in the record's field order, each key at most once |
| FoundForm.SerialiseRoundTrip | src/app/home/found/page.tsx:87-96 | reading the parts back gives the record that was serialised: nothing but undefined/null is dropped |
| FoundForm.FoundFormPage.constructor | src/app/home/found/page.tsx:30-46 | the form starts with empty texts, the current time as datetime, no photo, not loading |
| FoundForm.FoundFormPage.PrefillIdentity | src/app/home/found/page.tsx:48-57 | with a signed-in user the identity fields are filled in; without one the record is unchanged |
| FoundForm.FoundFormPage.HandleChange | src/app/home/found/page.tsx:59-62 | only the named field changes, to the typed text |
| FoundForm.FoundFormPage.HandleFileChange | src/app/home/found/page.tsx:64-69 | the first selected file becomes the photo; with no selection the record is unchanged |
| FoundForm.FoundFormPage.BeginSubmit | src/app/home/found/page.tsx:74-96 | a failing check is reported with its message and nothing is sent; a passing record sets loading and sends its serialised field list |
| FoundForm.ResetRecordNotSubmittable | src/app/home/found/page.tsx:109-121 | a record just reset has empty required inputs, so the browser does not submit it as it stands |
| FoundForm.FoundFormPage.Submit | src/app/home/found/page.tsx:135-183 | pressing submit does nothing while loading (the button is disabled), with an empty required text input, or with no file in the required file input; otherwise `handleSubmit` rejects or sends as `BeginSubmit` states |
| FoundForm.FoundFormPage.FinishSubmit | src/app/home/found/page.tsx:102-127 | on success the record is reset and "Item submitted successfully" reported; on failure the record is kept and the server's error or "Submission failed ❌" reported; loading ends either way |

## Left out

- HTTP through `axiosInstance` (`GET /items`, `GET /items/user/my`, `POST /items`, `POST /clerk-user`): fetched lists and request outcomes are parameters (`FinishFetch`, `FinishSubmit`). A response without a `data` array is not modelled.
- The Clerk user sync effect (src/app/home/page.tsx:56-78): it only posts to the server and logs.
- Clerk identity and tokens: the user is an `Option<User>` parameter, and the dashboard's bearer token is not modelled.
- Toasts, `router.push`, `window.scrollTo`, clearing the file input, and `console` output. A toast's text is returned as a value; the other effects are not modelled.
- JSX rendering and styling. The home loading and error paragraphs (src/app/home/page.tsx:141-142) are not modelled, except that cards are hidden while loading (`HomePage.Cards`). `FeedCard`, images and the "View Claims" link are presentational.
- The claim approve/reject workflow and each post's claims list: they are not part of the components modelled.
- Text.Lower: folds ASCII letters only; full Unicode `toLowerCase`, with its multi-character and locale-specific mappings, is not modelled.
- Seqs.PageCount: `Math.ceil` over a floating-point division is modelled as exact integer ceiling division; for list lengths a browser can hold the two agree.
- FoundForm.InitialRecord: `new Date().toISOString().slice(0, 16)` is the parameter `now`, so the wall clock is not modelled.
- FoundForm.FoundFormPage.HandleChange: a file picked into a text field is not modelled, since `handleChange` only receives strings; the photo changes only through `HandleFileChange`.
- FoundForm.FoundFormPage.Submit: whether the file input holds a file is the parameter `fileChosen`, not derived from `data.photo`; the two can differ in a browser (the input is cleared after a submission, or a cancelled selection leaves the input empty but keeps the earlier photo). Only presence is checked for the required inputs; the `datetime-local` input's format check is not modelled.
- FoundForm.Decode: the server side is not part of this model; `Decode` is the reading that makes the round trip state that no field is lost.
- Concurrency between overlapping fetches or submissions is not modelled. Each request is a start step followed by one completion step.
