/** The pagination controller of the news screen: its state, and the two handlers the list
    calls back into (mount / pull-to-refresh, and end-reached). Every handler runs to
    completion as one step; the remote calls are the index response and item oracle it is
    given. */
module Controller {
  import opened Wrappers
  import opened News
  import opened Slice
  import opened Page

  /** Number of stories materialised per page. */
  const PAGE_SIZE: nat := 10

  /** The screen's controller state: the materialised list, the two busy flags, the page
      cursor and the story index. */
  datatype State = State(
    news: seq<NewsItem>,
    loading: bool,
    loadingMore: bool,
    currentPage: nat,
    allStoryIds: seq<StoryId>
  )

  /** The state before mount. */
  function Init(): State {
    State(news := [], loading := true, loadingMore := false, currentPage := 0, allStoryIds := [])
  }

  /** The reset pull-to-refresh performs before anything is fetched. */
  function BeginRefresh(s: State): (r: State)
    ensures r.loading && r.news == [] && r.currentPage == 0
    ensures r.loadingMore == s.loadingMore && r.allStoryIds == s.allStoryIds
  {
    s.(loading := true, currentPage := 0, news := [])
  }

  /** The index is fetched on refresh, or when none is held yet. */
  predicate FetchesIndex(s: State, isRefresh: bool) {
    isRefresh || |s.allStoryIds| == 0
  }

  /** The ids of the first page of an index. */
  function FirstPageIds(index: seq<StoryId>): (r: seq<StoryId>)
    ensures r == index[..Min(PAGE_SIZE, |index|)]
  {
    JsSlice(index, 0, PAGE_SIZE)
  }

  /** Mount (`isRefresh` false) and pull-to-refresh (`isRefresh` true). `index` is what the
      top-stories endpoint would answer and is consulted only when the index is fetched. */
  function FetchHackerNews(s: State, isRefresh: bool, index: Option<seq<StoryId>>, item: ItemOracle): (r: State)
    // the spinner always stops, on success and on failure alike
    ensures !r.loading
    ensures r.loadingMore == s.loadingMore
    // with an index already held and no refresh, nothing is fetched and nothing else changes
    ensures !FetchesIndex(s, isRefresh) ==> r == s.(loading := false)
    // a fetched index replaces the held one, even when its first page then fails
    ensures FetchesIndex(s, isRefresh) && index.Some? ==> r.allStoryIds == index.value
    ensures FetchesIndex(s, isRefresh) && index.None? ==> r.allStoryIds == s.allStoryIds
    // a complete first page becomes the list, in index order, and the cursor moves to 1
    ensures FetchesIndex(s, isRefresh) && index.Some? && AllAvailable(FirstPageIds(index.value), item) ==>
              && r.currentPage == 1
              && Materialized(r.news, index.value[..Min(PAGE_SIZE, |index.value|)], item)
    // any failure keeps the list and cursor as they were after the refresh reset (if any)
    ensures FetchesIndex(s, isRefresh) && !(index.Some? && AllAvailable(FirstPageIds(index.value), item)) ==>
              && r.news == (if isRefresh then [] else s.news)
              && r.currentPage == (if isRefresh then 0 else s.currentPage)
  {
    var started := if isRefresh then BeginRefresh(s) else s;
    var finished :=
      if !FetchesIndex(s, isRefresh) then started
      else
        match index
        case None => started
        case Some(ids) =>
          var withIndex := started.(allStoryIds := ids);
          match MaterializePage(FirstPageIds(ids), item)
          case None => withIndex
          case Some(items) => withIndex.(news := items, currentPage := 1);
    finished.(loading := false)
  }

  /** End-reached is ignored while a page is in flight or when the index is exhausted. */
  predicate LoadMoreBlocked(s: State) {
    s.loadingMore || s.currentPage * PAGE_SIZE >= |s.allStoryIds|
  }

  /** The ids of the page after the cursor: `[currentPage*PAGE_SIZE, currentPage*PAGE_SIZE + PAGE_SIZE)`
      clipped to the index. */
  function NextPageIds(s: State): (r: seq<StoryId>)
    ensures |r| <= PAGE_SIZE
    ensures |r| > 0 <==> s.currentPage * PAGE_SIZE < |s.allStoryIds|
    ensures s.currentPage * PAGE_SIZE < |s.allStoryIds| ==>
              r == s.allStoryIds[s.currentPage * PAGE_SIZE..Min(s.currentPage * PAGE_SIZE + PAGE_SIZE, |s.allStoryIds|)]
  {
    var startIndex := s.currentPage * PAGE_SIZE;
    var endIndex := startIndex + PAGE_SIZE;
    JsSlice(s.allStoryIds, startIndex, endIndex)
  }

  /** The first half of a load-more: the busy flag goes up before the page is requested. */
  function StartLoadMore(s: State): (r: State)
    ensures r.loadingMore && LoadMoreBlocked(r)
    ensures r.(loadingMore := s.loadingMore) == s
  {
    s.(loadingMore := true)
  }

  /** The second half of a load-more, given the outcome of the page join: a resolved page is
      appended and advances the cursor; either way the busy flag comes down. */
  function FinishLoadMore(s: State, page: Option<seq<NewsItem>>): (r: State)
    ensures !r.loadingMore && r.loading == s.loading && r.allStoryIds == s.allStoryIds
    ensures page.Some? ==> r.news == s.news + page.value && r.currentPage == s.currentPage + 1
    ensures page.None? ==> r.news == s.news && r.currentPage == s.currentPage
  {
    var appended := match page
      case None => s
      case Some(items) => s.(news := s.news + items, currentPage := s.currentPage + 1);
    appended.(loadingMore := false)
  }

  /** End-reached: guard, request the next slice, append it, advance the cursor. */
  function LoadMoreNews(s: State, item: ItemOracle): (r: State)
    // a blocked signal issues no fetch and changes nothing
    ensures LoadMoreBlocked(s) ==> r == s
    // a failed page leaves the state exactly as it was
    ensures !LoadMoreBlocked(s) && !AllAvailable(NextPageIds(s), item) ==> r == s
    // a complete page extends the list by the slice's records in slice order
    ensures !LoadMoreBlocked(s) && AllAvailable(NextPageIds(s), item) ==>
              && |s.news| <= |r.news|
              && r.news[..|s.news|] == s.news
              && Materialized(r.news[|s.news|..], NextPageIds(s), item)
              && r.currentPage == s.currentPage + 1
              && !r.loadingMore
              && r.loading == s.loading
              && r.allStoryIds == s.allStoryIds
  {
    if LoadMoreBlocked(s) then s
    else FinishLoadMore(StartLoadMore(s), MaterializePage(NextPageIds(s), item))
  }
}
