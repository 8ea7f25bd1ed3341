/**
 The inference worker of ml/sentilyzer_ml/server.py over the student backend of
 ml/sentilyzer_ml/onnx_backend.py. The two heads of the model are uninterpreted
 functions of one text and of one (text, aspect) pair.
 */
module Worker {
  import opened Wrappers
  import opened Domain
  import opened Batching

  datatype Config = Config(
    maxBatch: nat,
    maxTextChars: nat,
    docHead: string -> Score,
    aspectHead: (string, string) -> Score)
  {
    function Truncate(text: string): string {
      if |text| <= maxTextChars then text else text[..maxTextChars]
    }

    /** What the worker answers for one text, wherever it is sent. */
    function TextScore(text: string): Score { docHead(Truncate(text)) }

    /** What the worker answers for one pair, wherever it is sent. */
    function PairScore(text: string, aspect: string): AspectScore {
      AspectScore(aspect, aspectHead(Truncate(text), aspect))
    }
  }

  /** A response, or the RESOURCE_EXHAUSTED and other status codes. */
  datatype Reply<T> = Answer(rows: seq<T>) | Exhausted | Failed

  function Map<A, B>(f: A -> B, xs: seq<A>): (r: seq<B>)
    ensures |r| == |xs| && forall i :: 0 <= i < |xs| ==> r[i] == f(xs[i])
  {
    seq(|xs|, i requires 0 <= i < |xs| => f(xs[i]))
  }

  function TotalAspects(inputs: seq<AspectInput>): nat {
    if inputs == [] then 0 else |inputs[0].aspects| + TotalAspects(inputs[1..])
  }

  function ScoreRow(config: Config, input: AspectInput): seq<AspectScore> {
    Map((aspect: string) => config.PairScore(input.text, aspect), input.aspects)
  }

  function Classify(config: Config, texts: seq<string>): Reply<Score> {
    if |texts| > config.maxBatch then Exhausted
    else Answer(Map((text: string) => config.TextScore(text), texts))
  }

  function ClassifyAspects(config: Config, inputs: seq<AspectInput>): Reply<seq<AspectScore>> {
    if TotalAspects(inputs) > config.maxBatch * 4 then Exhausted
    else Answer(Map((input: AspectInput) => ScoreRow(config, input), inputs))
  }

  /* ---------- the student backend ---------- */

  lemma {:induction false} TotalAspectsSnoc(inputs: seq<AspectInput>, input: AspectInput)
    ensures TotalAspects(inputs + [input]) == TotalAspects(inputs) + |input.aspects|
  {
    if inputs == [] {
      assert inputs + [input] == [input];
    } else {
      assert (inputs + [input])[1..] == inputs[1..] + [input];
      TotalAspectsSnoc(inputs[1..], input);
    }
  }

  /** classify_aspects: one flat list of pairs goes through the model, and the recorded
      spans cut its output back into rows. */
  method BackendClassifyAspects(aspectHead: (string, string) -> Score, items: seq<AspectInput>)
      returns (out: seq<seq<AspectScore>>)
    ensures |out| == |items|
    ensures forall i :: 0 <= i < |items| ==>
        && |out[i]| == |items[i].aspects|
        && forall j :: 0 <= j < |out[i]| ==>
             out[i][j] == AspectScore(items[i].aspects[j], aspectHead(items[i].text, items[i].aspects[j]))
  {
    var flat: seq<(string, string)> := [];
    var spans: seq<(nat, nat)> := [];
    for i := 0 to |items|
      invariant |spans| == i
      invariant forall k :: 0 <= k < i ==> SpanHolds(flat, spans[k], items[k])
    {
      ghost var flat0 := flat;
      var start := |flat|;
      for j := 0 to |items[i].aspects|
        invariant |flat| == start + j && flat0 <= flat
        invariant forall k :: 0 <= k < j ==> flat[start + k] == (items[i].text, items[i].aspects[k])
      {
        flat := flat + [(items[i].text, items[i].aspects[j])];
      }
      spans := spans + [(start, |flat|)];
    }
    if |flat| == 0 {
      out := seq(|items|, _ => []);
      forall i | 0 <= i < |items| ensures |items[i].aspects| == 0 {
        assert SpanHolds(flat, spans[i], items[i]);
      }
      return;
    }
    var scores := Map((pair: (string, string)) => aspectHead(pair.0, pair.1), flat);
    out := [];
    for i := 0 to |items|
      invariant |out| == i
      invariant forall k :: 0 <= k < i ==>
          && |out[k]| == |items[k].aspects|
          && forall j :: 0 <= j < |out[k]| ==>
               out[k][j] == AspectScore(items[k].aspects[j], aspectHead(items[k].text, items[k].aspects[j]))
    {
      assert SpanHolds(flat, spans[i], items[i]);
      var start, row := spans[i].0, [];
      for offset := 0 to |items[i].aspects|
        invariant |row| == offset
        invariant forall j :: 0 <= j < offset ==>
            row[j] == AspectScore(items[i].aspects[j], aspectHead(items[i].text, items[i].aspects[j]))
      {
        row := row + [AspectScore(items[i].aspects[offset], scores[start + offset])];
      }
      out := out + [row];
    }
  }

  ghost predicate SpanHolds(flat: seq<(string, string)>, span: (nat, nat), item: AspectInput) {
    && span.0 <= span.1 <= |flat| && span.1 - span.0 == |item.aspects|
    && forall k :: 0 <= k < |item.aspects| ==> flat[span.0 + k] == (item.text, item.aspects[k])
  }

  /** The servicer: truncate, refuse more than four times the batch limit, score, and
      copy the rows into the response. */
  method ServeAspects(config: Config, inputs: seq<AspectInput>) returns (reply: Reply<seq<AspectScore>>)
    ensures reply == ClassifyAspects(config, inputs)
  {
    var items: seq<AspectInput> := [];
    var total := 0;
    for i := 0 to |inputs|
      invariant |items| == i && total == TotalAspects(inputs[..i])
      invariant forall k :: 0 <= k < i ==>
          items[k] == AspectInput(config.Truncate(inputs[k].text), inputs[k].aspects)
    {
      assert inputs[..i + 1] == inputs[..i] + [inputs[i]];
      TotalAspectsSnoc(inputs[..i], inputs[i]);
      items := items + [AspectInput(config.Truncate(inputs[i].text), inputs[i].aspects)];
      total := total + |inputs[i].aspects|;
    }
    assert inputs[..|inputs|] == inputs;
    if total > config.maxBatch * 4 {
      return Exhausted;
    }
    var results := BackendClassifyAspects(config.aspectHead, items);
    forall i | 0 <= i < |inputs| ensures results[i] == ScoreRow(config, inputs[i]) {
      assert |results[i]| == |inputs[i].aspects|;
    }
    reply := Answer(results);
    assert results == Map((input: AspectInput) => ScoreRow(config, input), inputs);
  }
}
