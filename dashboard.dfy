/**
 * What one press of the fetch button does: fetch a batch, label it when it
 * is not empty, and report the outcome.
 */
module Dashboard {
  import opened Records
  import Fetch
  import Classifier

  /** The three messages the fetch button can end with. */
  datatype Outcome = NoHeadlines | Processed(batch: seq<Prediction>) | ClassifyFailed

  /**
   * Fetches and labels one batch. The labelling-failure message can never be
   * shown: a non-empty batch is always labelled, row for row.
   */
  method Refresh(response: Fetch.Response, tokenAt: nat -> string, clock: nat -> int, scorer: string -> Classifier.Score)
    returns (outcome: Outcome)
    ensures !outcome.ClassifyFailed?
    ensures outcome.NoHeadlines? <==> Fetch.Fetched(response, tokenAt, clock) == []
    ensures outcome.Processed? ==>
              var rows := Fetch.Fetched(response, tokenAt, clock);
              |outcome.batch| == |rows| &&
              forall i :: 0 <= i < |rows| ==>
                outcome.batch[i] == Classifier.Labelled(rows[i], Classifier.Classify(scorer(rows[i].title)))
  {
    var dfNew := Fetch.FetchNews(response, tokenAt, clock);
    if dfNew != [] {
      var out := Classifier.ClassifySentiment(dfNew, scorer);
      if out.Some? {
        outcome := Processed(out.value);
      } else {
        outcome := ClassifyFailed;
      }
    } else {
      outcome := NoHeadlines;
    }
  }
}
