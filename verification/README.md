# Hacker News top-stories screen: pagination controller

This project models the pagination controller of a single mobile screen. The screen lists the
current Hacker News top stories, loads them ten at a time as the user scrolls, and supports
pull-to-refresh. The controller's state is:

- the materialised list (`news`);
- the two busy flags (`loading`, `loadingMore`);
- the page cursor (`currentPage`);
- the story index (`allStoryIds`).

The controller has two handlers:

- `fetchHackerNews(isRefresh)` runs on mount and on pull-to-refresh. On refresh it resets the
  state first. It fetches the index when refreshing or when none is held yet, and then
  materialises the first page.
- `loadMoreNews` runs on end-reached. It checks the re-entrancy and exhaustion guard,
  materialises the next slice of the index, appends it and advances the cursor.

A page is materialised by fetching every id and joining the fetches with `Promise.all`. The join
is all-or-nothing and keeps the records in the order of the ids.

The network is an injected oracle:

- the top-stories answer is an `Option<seq<StoryId>>` passed to the fetch handler;
- the item endpoint is a total function `StoryId -> Option<NewsItem>`.

In both, `None` means the promise rejects. Each handler is a pure function from state and oracle
to the new state, and runs as one atomic step. The two halves of a load-more
(`StartLoadMore`, `FinishLoadMore`) are also exposed separately. This lets the model state what
happens to end-reached signals that arrive while a page is in flight.

Modules:

- `Wrappers` (wrappers.dfy): `Option`.
- `News` (news.dfy): `NewsItem` and the item oracle type.
- `Slice` (slice.dfy): JavaScript `Array.prototype.slice`.
- `Page` (page.dfy): the page join, both as a reference function and as a settle-order-driven
  `Promise.all`.
- `Controller` (controller.dfy): the state and the handlers.
- `Session` (session.dfy): the list/index invariant and whole sessions.

A session is one mount followed by any sequence of refresh and end-reached signals. The item
oracle is fixed for the whole session, so "the items for an id" has one meaning. The central
invariant `Session.Inv` says that `news` is exactly the records for
`allStoryIds[..min(currentPage*PAGE_SIZE, |allStoryIds|)]`, in index order. Every state of every
session satisfies it.

Two details of the code:

- `LoadMoreBlocked` is the guard at app/index.tsx:60: `loadingMore`, or the cursor has covered
  the index. It does not test `loading`. While `loading` is true, app/index.tsx:121-128 renders
  the spinner in place of the list, so no end-reached signal arrives during a mount or refresh.
- The item endpoint's `by` field is named `author` here, because `by` is a Dafny keyword.

## Model

| member | source | states |
|---|---|---|
| Slice.JsSlice | app/index.tsx:67-69 | `slice(start, end)` clamps both bounds to the length and is empty when the end is at or before the start; otherwise it is the run of the array that starts at `start` |
| Page.MaterializePage | app/index.tsx:41-47 | the page join resolves exactly when every id's fetch resolves, and then holds each id's record at that id's position (input order), so one failing item rejects the whole page |
| Page.MaterializedUnique | app/index.tsx:47-48 | the records of a resolved page are determined by its ids: two materialisations of the same ids are equal |
| Page.MaterializedAppend | app/index.tsx:76-77 | appending a materialised page to a materialised list materialises the concatenated ids |
| Page.PromiseAll | app/index.tsx:71-76 | whatever order the fetches settle in (any sequence of positions, with unmentioned positions settling last in index order, which covers every permutation), writing each record into its id's slot and rejecting on the first failure yields the reference join |
| Controller.BeginRefresh | app/index.tsx:28-32 | before anything is fetched, refresh raises `loading`, empties the list and resets the cursor to 0, touching nothing else |
| Controller.FirstPageIds | app/index.tsx:41 | the first page is the index's prefix of length `min(PAGE_SIZE, index.length)` |
| Controller.FetchHackerNews | app/index.tsx:26-57 | `loading` ends false on every path; without refresh and with an index held nothing is fetched and only `loading` changes; a fetched index replaces the held one; a complete first page becomes the list in index order with cursor 1; any failure keeps the list and cursor as the refresh reset (or the prior state) left them; the index is fetched exactly when `Controller.FetchesIndex` holds (refresh, or no index held, line 35) |
| Controller.NextPageIds | app/index.tsx:67-69 | the next slice has at most `PAGE_SIZE` ids, is non-empty exactly when the cursor has not covered the index, and is the index run from `currentPage*PAGE_SIZE` up to `min(currentPage*PAGE_SIZE + PAGE_SIZE, allStoryIds.length)` |
| Controller.StartLoadMore | app/index.tsx:64 | the busy flag is raised before the page is requested, which blocks further end-reached signals; every other field, `loading` included, is untouched |
| Controller.FinishLoadMore | app/index.tsx:76-83 | a resolved page is appended and advances the cursor by one, a rejected page leaves list and cursor alone, and the busy flag ends false on both paths |
| Controller.LoadMoreNews | app/index.tsx:59-84 | a signal blocked by `Controller.LoadMoreBlocked` (busy, or `currentPage*PAGE_SIZE >= allStoryIds.length`, line 60) changes nothing; a failed page leaves the state exactly as it was; a complete page keeps the old list as a prefix, appends the slice's records in slice order and advances the cursor by exactly one |
| Session.InvBoundsList | app/index.tsx:60 | under the invariant the list has exactly as many records as the cursor covers, never more than the index has ids and never more than `currentPage*PAGE_SIZE` |
| Session.FetchPreservesInv | app/index.tsx:26-57 | refresh, and a mount that finds no cursor or an index already held, keep the list equal to the records for the covered prefix of the index, on success and on every failure |
| Session.LoadMorePreservesInv | app/index.tsx:59-84 | end-reached keeps the list equal to the records for the covered prefix, including when blocked or when the page fails |
| Session.RunPreservesInv | app/index.tsx:147-149 | any sequence of refresh and end-reached signals keeps the invariant |
| Session.SessionInv | app/index.tsx:15-24 | starting from `Controller.Init` (the initial state of lines 15-19: empty list and index, cursor 0, `loading` true, `loadingMore` false), after the single mount of lines 22-24 and any later signals, the list is the records for the first `min(currentPage*PAGE_SIZE, allStoryIds.length)` ids, in index order, and is no longer than the index |
| Session.InFlightSignalsIgnored | app/index.tsx:60-64 | once the raised busy flag is the state the handler reads, any number of further end-reached signals before the page resolves are ignored, so exactly one page is appended |
| Session.RepeatedMountBreaksInv | app/index.tsx:35 | the invariant needs the non-refresh fetch to run only once: after a mount that received an empty index, a second one with a failing first page leaves cursor 1 over an empty list |
| Session.TwentyFiveStoryWalkthrough | app/index.tsx:59-84 | with a 25-story index and every item available, mount gives 10 records at cursor 1, end-reached gives 20 at cursor 2, then 25 at cursor 3, and a further end-reached changes nothing |

## Left out

- HTTP and JSON decoding (`fetch`, `.json()`, app/index.tsx:36-37, 43-44, 72-73) are replaced by
  the oracle. A `null` body, which the item endpoint returns for a deleted story, resolves rather
  than rejects in the code. Here it is whatever the oracle answers for that id.
- Concurrency is not modelled. Each handler is one atomic step. This leaves out the issue order
  of the parallel fetches and the unguarded race between a refresh and an in-flight load-more.
  The settle order of one page's fetches is modelled (`Page.PromiseAll`).
- React `useState` closure staleness and update batching are not modelled. Every handler reads
  the current state.
- Session.InFlightSignalsIgnored: the guard at app/index.tsx:60 reads `loadingMore` and
  `currentPage` from the last rendered state. Two end-reached calls that arrive before the
  re-render after line 64 both pass the guard and request the same slice. The functional updates
  at lines 77-78 then append that page twice and advance the cursor by 2, which breaks
  `Session.Inv`. The lemma holds only because every handler here reads the current state.
- Rendering is not modelled: the item row, the footer, the loading screen, styling and the
  `FlatList` props such as `onEndReachedThreshold` (app/index.tsx:92-155). The list only
  delivers the signals modelled by `Session.Event`.
- `Linking.openURL` and the url-present tap check (app/index.tsx:86-90, 99) are left out,
  because they are a foreign call.
- Date formatting with `toLocaleDateString` (app/index.tsx:105) is left out, because it depends
  on the locale and on floating point.
- `console.error` logging on the failure paths is left out, because it does not affect the state.
- Session.SessionInv: the item oracle is fixed for the whole session, so a story whose record
  changes between two fetches is not modelled.
