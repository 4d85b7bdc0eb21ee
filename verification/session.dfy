/** The invariant that ties the materialised list to the story index, and the sessions of
    the screen: one mount followed by any mix of pull-to-refresh and end-reached signals. */
module Session {
  import opened Wrappers
  import opened News
  import opened Slice
  import opened Page
  import opened Controller

  /** How many ids of the index the cursor has covered. */
  function Loaded(s: State): nat {
    Min(s.currentPage * PAGE_SIZE, |s.allStoryIds|)
  }

  /** The list is exactly the records for the covered prefix of the index, in index order. */
  ghost predicate Inv(s: State, item: ItemOracle) {
    Materialized(s.news, s.allStoryIds[..Loaded(s)], item)
  }

  /** The invariant bounds the list by the index. */
  lemma InvBoundsList(s: State, item: ItemOracle)
    requires Inv(s, item)
    ensures |s.news| == Loaded(s) <= |s.allStoryIds|
    ensures |s.news| <= s.currentPage * PAGE_SIZE
  {
  }

  /** Mount and refresh keep the invariant. A mount (a fetch without refresh) is assumed to
      find either no cursor or an index already held, which holds of the one mount a session
      performs. */
  lemma FetchPreservesInv(s: State, isRefresh: bool, index: Option<seq<StoryId>>, item: ItemOracle)
    requires Inv(s, item)
    requires isRefresh || s.currentPage == 0 || |s.allStoryIds| > 0
    ensures Inv(FetchHackerNews(s, isRefresh, index, item), item)
  {
  }

  /** End-reached keeps the invariant: the appended slice is exactly the next run of the index. */
  lemma LoadMorePreservesInv(s: State, item: ItemOracle)
    requires Inv(s, item)
    ensures Inv(LoadMoreNews(s, item), item)
  {
  }

  /** The signals the list delivers after mount. `index` is the top-stories answer a refresh
      would receive. */
  datatype Event = Refresh(index: Option<seq<StoryId>>) | EndReached

  function Step(s: State, e: Event, item: ItemOracle): State {
    match e
    case Refresh(index) => FetchHackerNews(s, true, index, item)
    case EndReached => LoadMoreNews(s, item)
  }

  function Run(s: State, events: seq<Event>, item: ItemOracle): State
    decreases |events|
  {
    if events == [] then s else Run(Step(s, events[0], item), events[1..], item)
  }

  /** The state after mounting with `mountIndex` as the first top-stories answer and then
      delivering `events`. */
  function Session(mountIndex: Option<seq<StoryId>>, events: seq<Event>, item: ItemOracle): State {
    Run(FetchHackerNews(Init(), false, mountIndex, item), events, item)
  }

  lemma {:induction false} RunPreservesInv(s: State, events: seq<Event>, item: ItemOracle)
    requires Inv(s, item)
    ensures Inv(Run(s, events, item), item)
    decreases |events|
  {
    if events != [] {
      match events[0] {
        case Refresh(index) => FetchPreservesInv(s, true, index, item);
        case EndReached => LoadMorePreservesInv(s, item);
      }
      RunPreservesInv(Step(s, events[0], item), events[1..], item);
    }
  }

  /** Every state a session reaches holds exactly the records for the covered prefix of the
      index, and never more records than the index has ids. */
  lemma SessionInv(mountIndex: Option<seq<StoryId>>, events: seq<Event>, item: ItemOracle)
    ensures Inv(Session(mountIndex, events, item), item)
    ensures |Session(mountIndex, events, item).news| <= |Session(mountIndex, events, item).allStoryIds|
  {
    FetchPreservesInv(Init(), false, mountIndex, item);
    RunPreservesInv(FetchHackerNews(Init(), false, mountIndex, item), events, item);
    InvBoundsList(Session(mountIndex, events, item), item);
  }

  /** Applying end-reached `n` times in a row, as the list does while the user keeps scrolling. */
  function EndReachedTimes(s: State, n: nat, item: ItemOracle): State
    decreases n
  {
    if n == 0 then s else EndReachedTimes(LoadMoreNews(s, item), n - 1, item)
  }

  /** While a page is in flight, once the raised flag is the state the handler reads, any
      number of further end-reached signals are ignored, so the load that resolves appends
      exactly one page. */
  lemma {:induction false} InFlightSignalsIgnored(s: State, n: nat, item: ItemOracle, later: ItemOracle)
    requires !LoadMoreBlocked(s)
    ensures EndReachedTimes(StartLoadMore(s), n, later) == StartLoadMore(s)
    ensures FinishLoadMore(EndReachedTimes(StartLoadMore(s), n, later), MaterializePage(NextPageIds(s), item))
            == LoadMoreNews(s, item)
  {
    if n > 0 {
      InFlightSignalsIgnored(s, n - 1, item, later);
    }
  }

  /** A mount after an index was already received, but with no stories in it, is not covered by
      the invariant: a later fetch without refresh keeps the cursor at 1 while a failed first
      page leaves the list empty. The screen mounts once, so no session reaches this. */
  lemma RepeatedMountBreaksInv(item: ItemOracle)
    requires forall id :: item(id).None?
    ensures var mounted := FetchHackerNews(Init(), false, Some([]), item);
            && Inv(mounted, item)
            && !Inv(FetchHackerNews(mounted, false, Some([7]), item), item)
  {
  }

  /** A 25-story index, every story available: the mount shows stories 1-10, end-reached
      brings 11-20, then the last 5, and a further end-reached changes nothing. */
  lemma TwentyFiveStoryWalkthrough(item: ItemOracle)
    requires forall id :: item(id).Some?
    ensures var ids := seq(25, i => i + 1);
            var s1 := FetchHackerNews(Init(), false, Some(ids), item);
            var s2 := LoadMoreNews(s1, item);
            var s3 := LoadMoreNews(s2, item);
            && s1.currentPage == 1 && |s1.news| == 10
            && s2.currentPage == 2 && |s2.news| == 20
            && s3.currentPage == 3 && |s3.news| == 25
            && LoadMoreNews(s3, item) == s3
  {
  }
}
