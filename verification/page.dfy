/** The per-page join: every id of a page is fetched, and the page resolves only when all
    of them do, with the records in the order of the ids (`Promise.all`). */
module Page {
  import opened Wrappers
  import opened News

  /** `news` holds, position by position, the records the item endpoint gives for `ids`. */
  ghost predicate Materialized(news: seq<NewsItem>, ids: seq<StoryId>, item: ItemOracle) {
    |news| == |ids| && forall i :: 0 <= i < |ids| ==> item(ids[i]) == Some(news[i])
  }

  /** Every id of the page can be fetched. */
  ghost predicate AllAvailable(ids: seq<StoryId>, item: ItemOracle) {
    forall i :: 0 <= i < |ids| ==> item(ids[i]).Some?
  }

  /** Reference join: all-or-nothing, results kept in input order. */
  function MaterializePage(ids: seq<StoryId>, item: ItemOracle): (r: Option<seq<NewsItem>>)
    ensures r.Some? <==> AllAvailable(ids, item)
    ensures r.Some? ==> Materialized(r.value, ids, item)
  {
    if ids == [] then Some([])
    else
      match item(ids[0])
      case None => None
      case Some(head) =>
        match MaterializePage(ids[1..], item)
        case None => None
        case Some(tail) => Some([head] + tail)
  }

  /** The records for a page are determined by its ids. */
  lemma MaterializedUnique(a: seq<NewsItem>, b: seq<NewsItem>, ids: seq<StoryId>, item: ItemOracle)
    requires Materialized(a, ids, item) && Materialized(b, ids, item)
    ensures a == b
  {
  }

  /** Materialising two runs of ids one after the other materialises their concatenation. */
  lemma MaterializedAppend(na: seq<NewsItem>, a: seq<StoryId>, nb: seq<NewsItem>, b: seq<StoryId>, item: ItemOracle)
    requires Materialized(na, a, item) && Materialized(nb, b, item)
    ensures Materialized(na + nb, a + b, item)
  {
  }

  /** The payloads of a sequence of filled slots. */
  function Filled<T>(slots: seq<Option<T>>): (r: seq<T>)
    requires forall j :: 0 <= j < |slots| ==> slots[j].Some?
    ensures |r| == |slots|
    ensures forall j :: 0 <= j < |r| ==> slots[j] == Some(r[j])
  {
    if slots == [] then [] else [slots[0].value] + Filled(slots[1..])
  }

  /** `Promise.all` as it runs: the page's fetches settle one at a time, each resolved record
      is written into the slot of its id, and the first rejection rejects the whole page.
      `order` is the order in which positions settle; a position out of range or already
      settled is skipped, and positions it never mentions settle afterwards in index order,
      so every permutation of the page is one such order. Whatever the order, the outcome is
      the reference join's. */
  method PromiseAll(ids: seq<StoryId>, item: ItemOracle, order: seq<nat>) returns (r: Option<seq<NewsItem>>)
    ensures r == MaterializePage(ids, item)
  {
    var slots: seq<Option<NewsItem>> := seq(|ids|, _ => None);
    var rejected := false;
    var k := 0;
    while k < |order| && !rejected
      invariant 0 <= k <= |order|
      invariant |slots| == |ids|
      invariant forall j :: 0 <= j < |ids| && slots[j].Some? ==> item(ids[j]) == slots[j]
      invariant rejected ==> !AllAvailable(ids, item)
    {
      var p := order[k];
      if p < |ids| && slots[p].None? {
        match item(ids[p]) {
          case None => rejected := true;
          case Some(record) => slots := slots[p := Some(record)];
        }
      }
      k := k + 1;
    }
    var j := 0;
    while j < |ids| && !rejected
      invariant 0 <= j <= |ids|
      invariant |slots| == |ids|
      invariant forall i :: 0 <= i < |ids| && slots[i].Some? ==> item(ids[i]) == slots[i]
      invariant !rejected ==> forall i :: 0 <= i < j ==> slots[i].Some?
      invariant rejected ==> !AllAvailable(ids, item)
    {
      if slots[j].None? {
        match item(ids[j]) {
          case None => rejected := true;
          case Some(record) => slots := slots[j := Some(record)];
        }
      }
      j := j + 1;
    }
    if rejected {
      r := None;
    } else {
      var items := Filled(slots);
      MaterializedUnique(items, MaterializePage(ids, item).value, ids, item);
      r := Some(items);
    }
  }
}
