/**
 * The summary counts shown above the headline table: how many loaded rows
 * there are, and how many carry each of the three labels.
 */
module Metrics {
  import opened Records
  import Classifier
  import Load

  /** The number of rows whose `sentiment` column equals `name`. */
  function Count(rows: seq<Prediction>, name: string): (c: nat)
    ensures c <= |rows|
    ensures c == 0 <==> forall i :: 0 <= i < |rows| ==> rows[i].sentiment != name
    decreases |rows|
  {
    if rows == [] then 0
    else (if rows[0].sentiment == name then 1 else 0) + Count(rows[1..], name)
  }

  /** Counting distributes over joining two lists of rows. */
  lemma {:induction false} CountAppend(rows: seq<Prediction>, more: seq<Prediction>, name: string)
    ensures Count(rows + more, name) == Count(rows, name) + Count(more, name)
    decreases |rows|
  {
    if rows != [] {
      assert (rows + more)[1..] == rows[1..] + more;
      CountAppend(rows[1..], more, name);
    } else {
      assert rows + more == more;
    }
  }

  /** Every row carries one of the three label texts. */
  predicate AllLabelled(rows: seq<Prediction>)
  {
    forall i :: 0 <= i < |rows| ==> rows[i].sentiment in Classifier.LabelNames
  }

  /** The first row contributes to at most one label count, and to one exactly when it is labelled. */
  lemma CountsStep(rows: seq<Prediction>)
    requires rows != []
    ensures var t, s := rows[1..], rows[0].sentiment;
            Count(rows, "Positive") + Count(rows, "Negative") + Count(rows, "Neutral")
            == (if s in Classifier.LabelNames then 1 else 0)
               + Count(t, "Positive") + Count(t, "Negative") + Count(t, "Neutral")
  {
  }

  lemma AllLabelledStep(rows: seq<Prediction>)
    requires rows != []
    ensures AllLabelled(rows) <==> rows[0].sentiment in Classifier.LabelNames && AllLabelled(rows[1..])
  {
  }

  /**
   * The three label counts never exceed the total, and add up to it exactly
   * when every row carries one of the three labels.
   */
  lemma {:induction false} CountsPartition(rows: seq<Prediction>)
    ensures Count(rows, "Positive") + Count(rows, "Negative") + Count(rows, "Neutral") <= |rows|
    ensures AllLabelled(rows) <==>
              Count(rows, "Positive") + Count(rows, "Negative") + Count(rows, "Neutral") == |rows|
    decreases |rows|
  {
    if rows != [] {
      CountsPartition(rows[1..]);
      CountsStep(rows);
      AllLabelledStep(rows);
    }
  }

  datatype Summary = Summary(total: nat, positive: nat, negative: nat, neutral: nat)

  /** The four metrics the dashboard shows for the loaded rows. */
  function Summarize(rows: seq<Prediction>): (m: Summary)
    ensures m.total == |rows|
    ensures m.positive == Count(rows, "Positive")
    ensures m.negative == Count(rows, "Negative")
    ensures m.neutral == Count(rows, "Neutral")
    ensures m.positive + m.negative + m.neutral <= m.total
    ensures AllLabelled(rows) <==> m.positive + m.negative + m.neutral == m.total
  {
    CountsPartition(rows);
    Summary(|rows|, Count(rows, "Positive"), Count(rows, "Negative"), Count(rows, "Neutral"))
  }

  /**
   * When every stored batch holds only labelled rows, the counts of the
   * loaded rows cover the total.
   */
  lemma LoadedCountsCoverTotal(batches: seq<Load.Batch>, n: nat)
    requires forall i, k :: 0 <= i < |batches| && batches[i].Readable? && 0 <= k < |batches[i].rows| ==>
               batches[i].rows[k].sentiment in Classifier.LabelNames
    ensures var m := Summarize(Load.Recent(batches, n));
            m.positive + m.negative + m.neutral == m.total
  {
    var rows := Load.Recent(batches, n);
    forall k | 0 <= k < |rows| ensures rows[k].sentiment in Classifier.LabelNames {
      Load.RecentRowsFromBatches(batches, n, k);
      var i :| 0 <= i < |batches| && i < Load.MaxBatches && batches[i].Readable? && rows[k] in batches[i].rows;
      var q :| 0 <= q < |batches[i].rows| && batches[i].rows[q] == rows[k];
    }
  }

  /**
   * The metrics of the rendered page, which loads the default number of
   * rows: the total never exceeds that number, and it is the number of
   * distinct stored ids when there are fewer.
   */
  function PageSummary(batches: seq<Load.Batch>): (m: Summary)
    ensures var ids := |Load.Ids(Load.Loaded(batches))|;
            m.total == if ids <= Load.DefaultLimit then ids else Load.DefaultLimit
    ensures m.total <= Load.DefaultLimit
  {
    Load.RecentLength(batches, Load.DefaultLimit);
    Summarize(Load.Recent(batches, Load.DefaultLimit))
  }
}
