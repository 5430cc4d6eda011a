/**
 * Sentiment labelling of a fetched batch: each title's polarity is mapped
 * to a label by fixed thresholds and rescaled to a positivity score; a title
 * the scorer fails on gets the neutral default.
 */
module Classifier {
  import opened Records

  datatype Sentiment = Positive | Negative | Neutral

  /** Polarities strictly beyond plus or minus this value are not neutral. */
  const Threshold: real := 0.1

  /** A polarity as the scoring library reports it. */
  type Polarity = p: real | -1.0 <= p <= 1.0

  /** The scorer's answer for one title: a polarity, or a raised exception. */
  datatype Score = Scored(polarity: Polarity) | Failed

  /** The label text stored in the `sentiment` column. */
  function Name(s: Sentiment): string
  {
    match s
    case Positive => "Positive"
    case Negative => "Negative"
    case Neutral => "Neutral"
  }

  /** The three label texts a stored row can carry after labelling. */
  const LabelNames: set<string> := {"Positive", "Negative", "Neutral"}

  /** The label of a polarity. */
  function LabelOf(p: real): (s: Sentiment)
    ensures s == Positive <==> p > Threshold
    ensures s == Negative <==> p < -Threshold
    ensures s == Neutral <==> -Threshold <= p <= Threshold
  {
    if p > Threshold then Positive
    else if p < -Threshold then Negative
    else Neutral
  }

  /**
   * The positivity score: the polarity rescaled from [-1, 1] onto [0, 1].
   * It agrees with the label: above 0.55 exactly for Positive, below 0.45
   * exactly for Negative.
   */
  function PositivityScore(p: real): (q: real)
    ensures -1.0 <= p <= 1.0 ==> 0.0 <= q <= 1.0
    ensures LabelOf(p) == Positive <==> q > 0.55
    ensures LabelOf(p) == Negative <==> q < 0.45
    ensures p == 2.0 * q - 1.0
  {
    (p + 1.0) / 2.0
  }

  /**
   * The label and score for one title. Whatever the scorer answers, the
   * score lies in [0, 1] and the label is the one the score's band implies;
   * a polarity gets its threshold label and its rescaled score, and a
   * failure gives Neutral and 0.5.
   */
  function Classify(s: Score): (c: (Sentiment, real))
    ensures 0.0 <= c.1 <= 1.0
    ensures c.0 == Positive <==> c.1 > 0.55
    ensures c.0 == Negative <==> c.1 < 0.45
    ensures s.Scored? ==> c == (LabelOf(s.polarity), PositivityScore(s.polarity))
    ensures s.Failed? ==> c == (Neutral, 0.5)
  {
    match s
    case Scored(p) => (LabelOf(p), PositivityScore(p))
    case Failed => (Neutral, 0.5)
  }

  /** A failed score is indistinguishable from a polarity of exactly zero. */
  lemma FailureReadsAsZeroPolarity()
    ensures Classify(Failed) == Classify(Scored(0.0))
  {
  }

  /** The worked polarities 0.05, 0.5 and -0.3. */
  lemma WorkedPolarities()
    ensures Classify(Scored(0.05)) == (Neutral, 0.525)
    ensures Classify(Scored(0.5)) == (Positive, 0.75)
    ensures Classify(Scored(-0.3)) == (Negative, 0.35)
  {
  }

  /** A headline row with its label and score attached. */
  function Labelled(h: Headline, c: (Sentiment, real)): Prediction
  {
    Prediction(h.id, h.source, h.title, h.publishedAt, Name(c.0), c.1)
  }

  /**
   * Labels a batch: nothing for an empty batch, otherwise one label and one
   * score per title, in the batch's order, attached to the rows. The result
   * is the batch that gets persisted.
   */
  method ClassifySentiment(batch: seq<Headline>, scorer: string -> Score) returns (out: Option<seq<Prediction>>)
    ensures out.None? <==> batch == []
    ensures out.Some? ==> |out.value| == |batch|
    ensures out.Some? ==> forall i :: 0 <= i < |batch| ==>
              out.value[i] == Labelled(batch[i], Classify(scorer(batch[i].title)))
    ensures out.Some? ==> forall i :: 0 <= i < |batch| ==>
              out.value[i].sentiment in LabelNames && 0.0 <= out.value[i].probPos <= 1.0
  {
    if batch == [] {
      return None;
    }
    var sentiments: seq<string> := [];
    var probPos: seq<real> := [];
    for i := 0 to |batch|
      invariant |sentiments| == |probPos| == i
      invariant forall j :: 0 <= j < i ==>
                  (Name(Classify(scorer(batch[j].title)).0), Classify(scorer(batch[j].title)).1)
                  == (sentiments[j], probPos[j])
    {
      var score := scorer(batch[i].title);
      match score {
        case Scored(polarity) =>
          var sentiment := if polarity > Threshold then Positive
                           else if polarity < -Threshold then Negative
                           else Neutral;
          sentiments := sentiments + [Name(sentiment)];
          probPos := probPos + [(polarity + 1.0) / 2.0];
        case Failed =>
          sentiments := sentiments + ["Neutral"];
          probPos := probPos + [0.5];
      }
    }
    var rows := seq(|batch|, i requires 0 <= i < |batch| =>
      Prediction(batch[i].id, batch[i].source, batch[i].title, batch[i].publishedAt, sentiments[i], probPos[i]));
    out := Some(rows);
  }
}
