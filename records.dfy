/**
 * The records the dashboard passes between its stages: the articles of a
 * headlines response as decoded JSON, the headline rows built from them, and
 * the labelled prediction rows that are written to and read back from the
 * batch store.
 */
module Records {

  /** A value that may be Python's None. */
  datatype Option<+T> = None | Some(value: T)

  /**
   * One key of a decoded JSON object: missing altogether, present with the
   * value null, or present with a value. `dict.get(key, default)` yields the
   * default only for a missing key; a null value comes back as None.
   */
  datatype Field<+T> = Absent | Null | Present(value: T)

  /** The nested `source` object of an article; only its `name` is used. */
  datatype Source = Source(name: Field<string>)

  /**
   * One element of the response's `articles` list. `publishedAt` is taken
   * as an already-parsed instant (seconds on a common clock).
   */
  datatype Article = Article(
    title: Field<string>,
    url: Field<string>,
    source: Field<Source>,
    publishedAt: Field<int>)

  /** A parsed timestamp; NaT is what an unparseable or null value becomes. */
  datatype Stamp = NaT | At(instant: int)

  /** A record identifier: the article url, a fresh token, or None. */
  type Id = Option<string>

  /** A row of a freshly fetched batch, before labelling. */
  datatype Headline = Headline(
    id: Id,
    source: Option<string>,
    title: string,
    publishedAt: Stamp)

  /** A labelled row, as written to a batch file and read back by the loader. */
  datatype Prediction = Prediction(
    id: Id,
    source: Option<string>,
    title: string,
    publishedAt: Stamp,
    sentiment: string,
    probPos: real)
}
