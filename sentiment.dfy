/** Sentiment labels and the sentiment report. The polarity a message gets
    from its text analyser is an abstract number; only its sign matters. */
module Sentiment {

  datatype Label = Positive | Neutral | Negative

  /** `analyze_sentiment`: the sign of the polarity picks the label. */
  function Analyze(polarity: real): Label
  {
    if polarity > 0.0 then Positive else if polarity < 0.0 then Negative else Neutral
  }

  /** Each label stands for exactly one sign of the polarity. */
  lemma AnalyzeBySign(polarity: real)
    ensures Analyze(polarity) == Positive <==> polarity > 0.0
    ensures Analyze(polarity) == Negative <==> polarity < 0.0
    ensures Analyze(polarity) == Neutral <==> polarity == 0.0
  {
  }

  /** `count_documents({"sentiment": l})` over the sentiment log. */
  function CountLabel(log: seq<Label>, l: Label): nat
    decreases |log|
  {
    if log == [] then 0 else (if log[0] == l then 1 else 0) + CountLabel(log[1..], l)
  }

  /** Every logged message carries exactly one of the three labels. */
  lemma {:induction false} CountsPartition(log: seq<Label>)
    ensures CountLabel(log, Positive) + CountLabel(log, Neutral) + CountLabel(log, Negative) == |log|
    decreases |log|
  {
    if log != [] {
      CountsPartition(log[1..]);
    }
  }

  /** What `sentiment_report` shows. */
  datatype Report = NoData | Summary(positive: nat, neutral: nat, negative: nat, total: nat)

  /** `sentiment_report`: nothing to report on an empty log; otherwise the
      number of messages with each label, which together make up the total. */
  function SentimentReport(log: seq<Label>): (r: Report)
    ensures r.NoData? <==> log == []
    ensures r.Summary? ==> r.total == |log| && r.positive + r.neutral + r.negative == r.total
    ensures r.Summary? ==>
      && r.positive == CountLabel(log, Positive)
      && r.neutral == CountLabel(log, Neutral)
      && r.negative == CountLabel(log, Negative)
  {
    if log == [] then NoData
    else
      CountsPartition(log);
      Summary(CountLabel(log, Positive), CountLabel(log, Neutral), CountLabel(log, Negative), |log|)
  }
}
