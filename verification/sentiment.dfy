/** The `sentiment_display` template tag: a sentiment score as a human-readable label. */
module SentimentTag {
  import opened Wrappers

  const Negative: string := "Negative"
  const Neutral: string := "Neutral"
  const Positive: string := "Positive"

  /** No score gives no label; otherwise the sign of the score picks one of three labels. */
  function SentimentDisplay(score: Option<real>): (r: Option<string>)
    ensures score.None? <==> r.None?
    ensures r.Some? ==> r.value in {Negative, Neutral, Positive}
  {
    match score
    case None => None
    case Some(x) =>
      if x < 0.0 then Some(Negative)
      else if x > 0.0 then Some(Positive)
      else Some(Neutral)
  }

  /** Position of a label on the polarity scale: Negative < Neutral < Positive. */
  function Rank(text: string): int
  {
    if text == Negative then -1 else if text == Positive then 1 else 0
  }

  /** Each label is produced by exactly one region of scores: the sign decides. */
  lemma LabelBySign(x: real)
    ensures SentimentDisplay(Some(x)) == Some(Negative) <==> x < 0.0
    ensures SentimentDisplay(Some(x)) == Some(Neutral) <==> x == 0.0
    ensures SentimentDisplay(Some(x)) == Some(Positive) <==> x > 0.0
  {
  }

  /** A higher score never gets a lower label. */
  lemma LabelMonotone(x: real, y: real)
    requires x <= y
    ensures Rank(SentimentDisplay(Some(x)).value) <= Rank(SentimentDisplay(Some(y)).value)
  {
  }
}
