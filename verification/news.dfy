/** The record the screen materialises for each story, and the shape of the remote item lookup. */
module News {
  import opened Wrappers

  /** Identifier of a story in the remote top-stories ranking. */
  type StoryId = int

  /** One story as fetched from the item endpoint; `url` is absent for text posts and
      `author` is the endpoint's `by` field. */
  datatype NewsItem = NewsItem(
    id: StoryId,
    title: string,
    url: Option<string>,
    author: string,
    time: int,
    score: int
  )

  /** The item endpoint: the record for an id, or `None` when that fetch rejects. */
  type ItemOracle = StoryId -> Option<NewsItem>
}
