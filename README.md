# News sentiment dashboard — a Dafny model of its record-processing rules

The dashboard fetches top headlines from a news service, labels each title
Positive, Negative or Neutral from a polarity score, stores every labelled
batch as one file, and shows the most recent rows with summary counts. This
project models the rules applied to the records on the way:

- **Fetch** (`fetch.dfy`, module `Fetch`): from a headlines response, keep the
  articles whose title is non-empty and not `"[Removed]"`, in order, and build
  one row per kept article with the field defaults (id = url or a fresh token,
  source = the source's name or `"Unknown"`, publication time = the article's
  or the fetch time). A failed exchange or a missing, null or empty article
  list gives the empty batch. `FetchNews` is the loop that builds the rows; it
  is proved equal to the specification function `Rows`, and `Rows` is
  characterised by the kept positions (`KeptIndices`).
- **Labelling** (`classifier.dfy`, module `Classifier`): a polarity `p` is
  Positive iff `p > 0.1`, Negative iff `p < -0.1`, Neutral otherwise; the
  positivity score is `(p + 1) / 2`; a scorer failure gives Neutral and 0.5.
  `ClassifySentiment` is the loop that builds the two new columns; an empty
  batch gives nothing.
- **Recency load** (`load.dfy`, module `Load`): at most the fifty newest
  batches are consulted, unreadable ones are skipped, the rest are
  concatenated newest batch first, rows with an id seen earlier are dropped,
  and the rows are sorted newest first and cut to `n`. `LoadRecent` is the
  loop that collects the readable batches followed by the pipeline; the
  lemmas state distinct ids, sortedness, the length `min(n, distinct ids)`,
  first-occurrence selection, the newest-`n` property and which batches count.
- **Summary counts** (`metrics.dfy`, module `Metrics`): the number of rows
  and of rows per label.
- **Fetch button** (`dashboard.dfy`, module `Dashboard`): fetch, then label a
  non-empty batch.

`records.dfy` (module `Records`) holds the shared record types. A JSON key is
a `Field` — absent, null, or present — because `dict.get(key, default)` falls
back to the default only for an absent key: an article whose `url` is null
gets the id None, and a source whose `name` is null gets the source None.
Publication times are already-parsed instants (`Stamp`); null parses to NaT,
which sorts after every real time.

The external pieces are parameters: the uuid4 generator is `tokenAt` (a token
per article position), the clock is `clock` (its reading when article i's
row is built, so articles without a publication time get the time of their
own row), the polarity scorer is `scorer`
(a title maps to a polarity in [-1, 1] or to a failure), and the batch store
is the list of batches newest first, each readable (its rows) or not.

## Model

| member | source | states |
|---|---|---|
| `Fetch.MakeHeadline` | app.py:43-48 | a kept row's title is the article's title (non-empty, not "[Removed]"); id is the url when the key exists (None when null) and the given token when absent; source is the name, None for a null name, "Unknown" when the source is absent, null or nameless; publication time is the article's, NaT for null, the fetch time when absent |
| `Fetch.KeptIndicesExact` | app.py:41-42 | the kept positions are exactly the positions of articles with a usable title, strictly increasing |
| `Fetch.RowsFollowKeptArticles` | app.py:40-49 | the batch has one row per kept article, never more rows than articles, and row k is built from the k-th kept article (order preserved) |
| `Fetch.NoUsableTitleNoRows` | app.py:41-49 | when no article has a usable title the batch is empty |
| `Fetch.FetchNews` | app.py:31-52 | the loop yields exactly the specified batch (empty on failure or a missing, null or empty article list) and every row's title is non-empty and not "[Removed]" |
| `Classifier.LabelOf` | app.py:69-74 | Positive iff p > 0.1, Negative iff p < -0.1, Neutral iff -0.1 <= p <= 0.1 |
| `Classifier.PositivityScore` | app.py:77-78 | for p in [-1, 1] the score lies in [0, 1]; it is above 0.55 exactly for Positive and below 0.45 exactly for Negative; it inverts to p = 2q - 1 |
| `Classifier.Classify` | app.py:64-81 | a polarity p gets LabelOf(p) and PositivityScore(p); a failure gives exactly (Neutral, 0.5); for any scorer answer the score is in [0, 1] and agrees with the label's band |
| `Classifier.FailureReadsAsZeroPolarity` | app.py:79-81 | the failure default equals the result for polarity 0 |
| `Classifier.WorkedPolarities` | app.py:69-78 | polarity 0.05 gives Neutral/0.525, 0.5 gives Positive/0.75, -0.3 gives Negative/0.35 |
| `Classifier.ClassifySentiment` | app.py:55-84 | None exactly for an empty batch; otherwise one row per title in input order, each the input row with the label and score of its title, every label one of the three names and every score in [0, 1] |
| `Load.Consulted` | app.py:97-101 | the consulted batches are the newest-first list's prefix of length min(50, number of batches) |
| `Load.Head` | app.py:120 | `head(n)` is a prefix of length min(n, length) |
| `Load.FirstIndex` | app.py:117 | the position found carries the id and no earlier row does |
| `Load.DedupFromSpec` | app.py:117 | dropping duplicates leaves pairwise distinct ids, exactly the ids not already seen, each row being the first row with its id |
| `Load.SortSpec` | app.py:120 | sorting orders rows newest first (NaT last) and is a permutation that keeps ids and their distinctness |
| `Load.RankedSpec` | app.py:116-120 | the sorted deduplicated rows are sorted, have distinct ids, one per loaded id, each the first loaded row with that id |
| `Load.RecentDistinctAndSorted` | app.py:116-120 | the loaded result has pairwise distinct ids and is sorted by publication time, newest first |
| `Load.RecentLength` | app.py:116-120 | the result has min(n, number of distinct loaded ids) rows |
| `Load.RecentKeepsFirstOccurrence` | app.py:116-117 | each returned row is the first row with its id in the concatenation (newest batch first, then row order) |
| `Load.RecentIsNewest` | app.py:120 | an id left out of the result has no first row newer than any returned row |
| `Load.RecentComplete` | app.py:116-120 | when n covers all distinct ids, every loaded id appears in the result exactly once |
| `Load.UnreadableSkipped` | app.py:107-111 | an unreadable batch contributes nothing, wherever it stands |
| `Load.ConcatAppend` | app.py:116 | the concatenation keeps earlier batches' rows before later ones' |
| `Load.OlderBatchesIgnored` | app.py:97-101 | batches beyond the newest fifty never affect the result |
| `Load.NothingReadableNothingLoaded` | app.py:103-114 | with no batches, or only unreadable ones among the newest fifty, the result is empty |
| `Load.RecentRowsFromBatches` | app.py:97-116 | every returned row is a row of a readable batch among the newest fifty |
| `Load.NewestBatchWins` | app.py:106-117 | a returned row whose id occurs in the newest batch is that batch's first row with the id |
| `Load.LoadRecent` | app.py:93-120 | the loop over the newest fifty batches followed by concat, drop-duplicates, sort and head computes exactly the specified result |
| `Metrics.Count` | app.py:168-176 | a label count is at most the number of rows, and zero exactly when no row carries the label |
| `Metrics.CountAppend` | app.py:168-176 | counting distributes over joining rows |
| `Metrics.CountsPartition` | app.py:165-177 | the three label counts sum to at most the total, and to exactly the total iff every row carries one of the three labels |
| `Metrics.Summarize` | app.py:161-177 | the total is the row count, each of the three fields is the count of its own label, and the three cover the total exactly when every row is labelled |
| `Metrics.PageSummary` | app.py:158-165 | the rendered page loads the default 200 rows, so its total is min(200, number of distinct stored ids) |
| `Metrics.LoadedCountsCoverTotal` | app.py:158-177 | when every stored row is labelled, the counts of the loaded rows sum to the total |
| `Dashboard.Refresh` | app.py:144-155 | "no headlines" exactly when the fetched batch is empty; otherwise the batch is labelled row for row; the labelling-failure message is unreachable |

## Left out

- HTTP request, status check and JSON decoding (app.py:31-34): network I/O; the response is an input, `Failed` standing for every exception the block catches.
- The `pageSize` limit sent to the service and the two sidebar sliders: the service decides how many articles come back, and the refresh interval drives nothing.
- JSON values of unexpected types: only strings, objects and null are modelled. A falsy non-object source (`""`, `0`, `false`, `[]`) reads as "Unknown" like a null one; a truthy non-object source, or an element of `articles` that is null or not an object, makes the fetch fail as a whole and return the empty batch (app.py:42-52). A list of `Article` values cannot hold such elements, so these cases are not modelled.
- TextBlob polarity (app.py:65-66): a foreign library; it is the `scorer` parameter.
- uuid4 (app.py:44): the `tokenAt` parameter; freshness is not needed by any property here.
- IEEE-754 rounding at the 0.1 thresholds and in `(p + 1) / 2`: the model uses exact reals.
- Writing the batch file (app.py:86-88), listing the store by modification time (app.py:97-101) and reading a file (app.py:109): file-system I/O; the store is a newest-first list of batches, each readable or not.
- Timestamp parsing with `pd.to_datetime(errors='coerce')` (app.py:118): publication times are already-parsed instants or NaT, and the fetch-time default shares their clock.
- Load.SortNewestFirst: pandas' default sort is not stable; the model's insertion sort fixes one order among equal times, and no contract states that order.
- Classifier.ClassifySentiment: the source adds the two columns to the caller's frame in place and returns that frame; the model returns the labelled batch as a new value, which is the only frame the caller uses afterwards.
- The empty frame's column list (app.py:104, app.py:114): an empty result is the empty sequence.
- Display: tables, charts, `strftime`, `round(3)` and messages (app.py:123-243).
