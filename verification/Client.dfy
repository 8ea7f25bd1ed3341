/**
 The batching inference client of api/internal/inference/client.go.

 The remote worker is a function of the call's number and its request, so it may answer
 the same request differently each time, miscount, refuse or fail.
 */
module Client {
  import opened Wrappers
  import opened Domain
  import opened Batching
  import opened Worker

  datatype ClientError =
    | BatchRejected(sent: nat, limit: nat)
    | CallFailed(sent: nat, total: nat)
    | Miscounted(got: nat, want: nat)

  const ASPECT_BATCH_MULTIPLE := 4

  type Stub<!Q, !R> = (nat, seq<Q>) -> Reply<R>

  /* ---------- Classify ---------- */

  function Select(texts: seq<string>, window: seq<nat>): (r: seq<string>)
    requires Within(window, |texts|)
    ensures |r| == |window| && forall i :: 0 <= i < |window| ==> r[i] == texts[window[i]]
  {
    seq(|window|, i requires 0 <= i < |window| => texts[window[i]])
  }

  /** All texts in length order, cut into batches. */
  function Batches(texts: seq<string>, limit: pos): seq<seq<string>> {
    LengthOrderInRange(texts);
    Chunks(Select(texts, LengthOrder(texts)), limit)
  }

  /** The worker answered this batch with one score per text. */
  predicate Answered(stub: Stub<string, Score>, call: nat, batch: seq<string>) {
    stub(call, batch).Answer? && |stub(call, batch).rows| == |batch|
  }

  function FailureOf(reply: Reply<Score>, batch: seq<string>, total: nat, limit: nat): ClientError {
    match reply
    case Exhausted => BatchRejected(|batch|, limit)
    case Failed => CallFailed(|batch|, total)
    case Answer(rows) => Miscounted(|rows|, |batch|)
  }

  /** The scores of the first calls, end to end. */
  function Gathered(stub: Stub<string, Score>, batches: seq<seq<string>>, calls: nat): seq<Score>
    requires calls <= |batches|
    requires forall k :: 0 <= k < calls ==> Answered(stub, k, batches[k])
  {
    if calls == 0 then []
    else
      assert Answered(stub, calls - 1, batches[calls - 1]);
      Gathered(stub, batches, calls - 1) + stub(calls - 1, batches[calls - 1]).rows
  }

  /** The result is either every batch's answer put back in the caller's order, or the first
      bad answer's error, with no call after it: a miscounted answer never shifts a score. */
  ghost predicate ResultFor(
    order: seq<nat>, batches: seq<seq<string>>, limit: pos, stub: Stub<string, Score>,
    r: Result<seq<Score>, ClientError>, calls: seq<seq<string>>)
  {
    && calls <= batches
    && match r
       case Ok(scores) =>
         && calls == batches && |scores| == |order|
         && (forall k :: 0 <= k < |batches| ==> Answered(stub, k, batches[k]))
         && var got := Gathered(stub, batches, |batches|);
            && |got| == |order|
            && forall p :: 0 <= p < |order| ==> order[p] < |order| && scores[order[p]] == got[p]
       case Err(e) =>
         && calls != []
         && var last := |calls| - 1;
            && (forall k :: 0 <= k < last ==> Answered(stub, k, batches[k]))
            && !Answered(stub, last, batches[last])
            && e == FailureOf(stub(last, batches[last]), batches[last], |order|, limit)
  }

  /** The first scores gathered stand in the slots the order names. */
  ghost predicate Placed(out: array<Score>, order: seq<nat>, got: seq<Score>)
    reads out
  {
    && IsInjection(order, out.Length) && |got| <= |order|
    && forall p :: 0 <= p < |got| ==> out[order[p]] == got[p]
  }

  /** Puts one batch's scores into the slots its window names. */
  method Scatter(out: array<Score>, window: seq<nat>, rows: seq<Score>, ghost order: seq<nat>, ghost got: seq<Score>)
    requires Placed(out, order, got)
    requires |got| + |window| <= |order| && window == order[|got|..|got| + |window|]
    requires |rows| == |window|
    modifies out
    ensures Placed(out, order, got + rows)
  {
    for i := 0 to |rows|
      invariant Placed(out, order, got + rows[..i])
    {
      assert window[i] == order[|got| + i];
      out[window[i]] := rows[i];
      assert got + rows[..i + 1] == got + rows[..i] + [rows[i]];
    }
    assert rows[..|rows|] == rows;
  }

  /** The ranges cut the order into the windows of the batches. */
  ghost predicate IsPlan(texts: seq<string>, order: seq<nat>, ranges: seq<(nat, nat)>, batches: seq<seq<string>>) {
    && IsInjection(order, |texts|)
    && |ranges| == |batches|
    && (forall k :: 0 <= k < |ranges| ==>
          && (if k == 0 then 0 else ranges[k - 1].1) == ranges[k].0 < ranges[k].1 <= |texts|
          && Select(texts, order[ranges[k].0..ranges[k].1]) == batches[k])
    && (if ranges == [] then 0 else ranges[|ranges| - 1].1) == |texts|
  }

  lemma RangesArePlan(texts: seq<string>, order: seq<nat>, limit: pos)
    requires IsInjection(order, |texts|)
    ensures IsPlan(texts, order, RangesFrom(0, |texts|, limit), Chunks(Select(texts, order), limit))
  {
    var sorted := Select(texts, order);
    RangesAreConsecutive(0, |texts|, limit);
    RangesCutChunks(sorted, 0, limit);
    assert sorted[0..] == sorted;
    CutsArePlan(texts, order, RangesFrom(0, |texts|, limit), Chunks(sorted, limit));
  }

  lemma CutsArePlan(texts: seq<string>, order: seq<nat>, ranges: seq<(nat, nat)>, batches: seq<seq<string>>)
    requires IsInjection(order, |texts|)
    requires |ranges| == |batches|
    requires forall k :: 0 <= k < |ranges| ==>
        (if k == 0 then 0 else ranges[k - 1].1) == ranges[k].0 < ranges[k].1 <= |texts|
    requires forall k :: 0 <= k < |ranges| ==> Select(texts, order)[ranges[k].0..ranges[k].1] == batches[k]
    requires (if ranges == [] then 0 else ranges[|ranges| - 1].1) == |texts|
    ensures IsPlan(texts, order, ranges, batches)
  {
    forall k | 0 <= k < |ranges| ensures Select(texts, order[ranges[k].0..ranges[k].1]) == batches[k] {
      SelectSlice(texts, order, ranges[k].0, ranges[k].1);
    }
  }

  lemma SelectSlice(texts: seq<string>, order: seq<nat>, lo: nat, hi: nat)
    requires Within(order, |texts|) && lo <= hi <= |order|
    ensures Select(texts, order[lo..hi]) == Select(texts, order)[lo..hi]
  {
  }

  /** One round trip: send the k-th batch and put its scores in place, or report why not. */
  method SendBatch(texts: seq<string>, order: seq<nat>, window: seq<nat>, limit: pos, call: nat,
                   stub: Stub<string, Score>, out: array<Score>, ghost got: seq<Score>)
      returns (batch: seq<string>, failure: Option<ClientError>)
    requires Placed(out, order, got) && out.Length == |texts|
    requires |got| + |window| <= |order| && window == order[|got|..|got| + |window|]
    requires Within(window, |texts|)
    modifies out
    ensures batch == Select(texts, window)
    ensures failure.None? <==> Answered(stub, call, batch)
    ensures failure.Some? ==> failure.value == FailureOf(stub(call, batch), batch, |order|, limit)
    ensures failure.None? ==> Placed(out, order, got + stub(call, batch).rows)
  {
    batch := Select(texts, window);
    var reply := stub(call, batch);
    if !reply.Answer? || |reply.rows| != |batch| {
      return batch, Some(FailureOf(reply, batch, |texts|, limit));
    }
    Scatter(out, window, reply.rows, order, got);
    failure := None;
  }

  /** The first k batches went out and came back well. */
  ghost predicate SentUpTo(out: array<Score>, order: seq<nat>, ranges: seq<(nat, nat)>, batches: seq<seq<string>>,
                           stub: Stub<string, Score>, k: nat, calls: seq<seq<string>>, got: seq<Score>)
    reads out
  {
    && k <= |ranges| == |batches| && calls == batches[..k]
    && (forall i :: 0 <= i < k ==> Answered(stub, i, batches[i]))
    && got == Gathered(stub, batches, k)
    && |got| == (if k == 0 then 0 else ranges[k - 1].1)
    && Placed(out, order, got)
  }

  lemma OneMoreBatch(stub: Stub<string, Score>, batches: seq<seq<string>>, k: nat)
    requires k < |batches| && forall i :: 0 <= i <= k ==> Answered(stub, i, batches[i])
    ensures Gathered(stub, batches, k + 1) == Gathered(stub, batches, k) + stub(k, batches[k]).rows
    ensures batches[..k + 1] == batches[..k] + [batches[k]]
  {
  }

  lemma FailedAt(order: seq<nat>, batches: seq<seq<string>>, limit: pos, stub: Stub<string, Score>, k: nat)
    requires k < |batches| && !Answered(stub, k, batches[k])
    requires forall i :: 0 <= i < k ==> Answered(stub, i, batches[i])
    ensures ResultFor(order, batches, limit, stub,
                      Err(FailureOf(stub(k, batches[k]), batches[k], |order|, limit)), batches[..k] + [batches[k]])
  {
    assert batches[..k] + [batches[k]] == batches[..k + 1];
  }

  method SendBatches(texts: seq<string>, order: seq<nat>, ranges: seq<(nat, nat)>, limit: pos,
                     stub: Stub<string, Score>, ghost batches: seq<seq<string>>)
      returns (r: Result<seq<Score>, ClientError>, calls: seq<seq<string>>)
    requires IsPlan(texts, order, ranges, batches)
    ensures ResultFor(order, batches, limit, stub, r, calls)
  {
    calls := [];
    var out := new Score[|texts|];
    ghost var got: seq<Score> := [];
    for k := 0 to |ranges|
      invariant SentUpTo(out, order, ranges, batches, stub, k, calls, got)
    {
      var window := order[ranges[k].0..ranges[k].1];
      var batch, failure := SendBatch(texts, order, window, limit, k, stub, out, got);
      calls := calls + [batch];
      if failure.Some? {
        FailedAt(order, batches, limit, stub, k);
        return Err(failure.value), calls;
      }
      OneMoreBatch(stub, batches, k);
      got := got + stub(k, batch).rows;
    }
    r := Ok(out[..]);
  }

  method Classify(texts: seq<string>, maxBatch: pos, stub: Stub<string, Score>)
      returns (r: Result<seq<Score>, ClientError>, calls: seq<seq<string>>)
    ensures ResultFor(LengthOrder(texts), Batches(texts, maxBatch), maxBatch, stub, r, calls)
  {
    var order := LengthOrder(texts);
    LengthOrderCorrect(texts);
    if |texts| == 0 {
      return Ok([]), [];
    }
    var ranges := ChunkRanges(|order|, maxBatch);
    RangesArePlan(texts, order, maxBatch);
    r, calls := SendBatches(texts, order, ranges, maxBatch, stub, Batches(texts, maxBatch));
  }

  /** The ranges start at zero, follow one another and end at n. */
  lemma {:induction false} RangesAreConsecutive(start: nat, n: nat, max: pos)
    requires start <= n
    ensures var r := RangesFrom(start, n, max);
            && (r != [] ==> r[0].0 == start && r[|r| - 1].1 == n)
            && (r == [] <==> start == n)
            && forall k :: 0 <= k < |r| ==> (if k == 0 then start else r[k - 1].1) == r[k].0 < r[k].1 <= n
    decreases n - start
  {
    if n - start > max {
      RangesAreConsecutive(start + max, n, max);
    } else if start < n {
      assert RangesFrom(start + max, n, max) == [];
    }
  }

  /** What goes over the wire: batches within the limit, only the last one short, which laid
      end to end are all the texts, each index once, in non-decreasing length. */
  lemma BatchesCorrect(texts: seq<string>, limit: pos)
    ensures IsPermutation(LengthOrder(texts), |texts|)
    ensures Flatten(Batches(texts, limit)) == Select(texts, LengthOrder(texts))
    ensures forall p, q :: 0 <= p < q < |texts| ==>
        LengthAt(texts, LengthOrder(texts)[p]) <= LengthAt(texts, LengthOrder(texts)[q])
    ensures forall k :: 0 <= k < |Batches(texts, limit)| ==> 1 <= |Batches(texts, limit)[k]| <= limit
    ensures forall k :: 0 <= k < |Batches(texts, limit)| - 1 ==> |Batches(texts, limit)[k]| == limit
    ensures texts != [] ==> Batches(texts, limit) != [] && |Batches(texts, limit)[0]| == Min(|texts|, limit)
  {
    LengthOrderCorrect(texts);
    ChunksPartition(Select(texts, LengthOrder(texts)), limit);
  }

  lemma {:induction false} GatheredPointwise(stub: Stub<string, Score>, f: string -> Score,
                                             batches: seq<seq<string>>, calls: nat)
    requires calls <= |batches|
    requires forall k :: 0 <= k < calls ==> stub(k, batches[k]) == Answer(Map(f, batches[k]))
    ensures forall k :: 0 <= k < calls ==> Answered(stub, k, batches[k])
    ensures Gathered(stub, batches, calls) == Map(f, Flatten(batches[..calls]))
  {
    if calls > 0 {
      GatheredPointwise(stub, f, batches, calls - 1);
      assert batches[..calls] == batches[..calls - 1] + [batches[calls - 1]];
      FlattenSnoc(batches[..calls - 1], batches[calls - 1]);
    }
  }

  /** Classify refines a plain map: if every batch that is sent gets the pointwise answer,
      score i belongs to text i. */
  lemma ClassifyRefinesMap(texts: seq<string>, limit: pos, stub: Stub<string, Score>, f: string -> Score,
                           r: Result<seq<Score>, ClientError>, calls: seq<seq<string>>)
    requires ResultFor(LengthOrder(texts), Batches(texts, limit), limit, stub, r, calls)
    requires forall k :: 0 <= k < |calls| ==> stub(k, calls[k]) == Answer(Map(f, calls[k]))
    ensures r == Ok(Map(f, texts)) && calls == Batches(texts, limit)
  {
    BatchesCorrect(texts, limit);
    MapInAnyOrder(texts, LengthOrder(texts), Batches(texts, limit), limit, stub, f, r, calls);
  }

  lemma MapInAnyOrder(texts: seq<string>, order: seq<nat>, batches: seq<seq<string>>, limit: pos,
                      stub: Stub<string, Score>, f: string -> Score,
                      r: Result<seq<Score>, ClientError>, calls: seq<seq<string>>)
    requires IsPermutation(order, |texts|) && Flatten(batches) == Select(texts, order)
    requires ResultFor(order, batches, limit, stub, r, calls)
    requires forall k :: 0 <= k < |calls| ==> stub(k, calls[k]) == Answer(Map(f, calls[k]))
    ensures r == Ok(Map(f, texts)) && calls == batches
  {
    assert forall k :: 0 <= k < |calls| ==> calls[k] == batches[k] && Answered(stub, k, calls[k]);
    if r.Ok? {
      GatheredPointwise(stub, f, batches, |batches|);
      assert batches[..|batches|] == batches;
      Unpermute(texts, order, f, Gathered(stub, batches, |batches|), r.value);
    }
  }

  lemma Unpermute(texts: seq<string>, order: seq<nat>, f: string -> Score, got: seq<Score>, scores: seq<Score>)
    requires IsPermutation(order, |texts|) && got == Map(f, Select(texts, order))
    requires |scores| == |texts| && forall p :: 0 <= p < |order| ==> scores[order[p]] == got[p]
    ensures scores == Map(f, texts)
  {
    forall i | 0 <= i < |texts| ensures scores[i] == f(texts[i]) {
      assert i in order;
      var p :| 0 <= p < |order| && order[p] == i;
    }
  }

  /** What an error says: the last batch sent, the only one not answered with a score a text, was
      refused, and the error names its size and the client's limit; or failed, and it names its
      size and how many texts there were; or was miscounted, and it names both counts. */
  lemma ClassifyErrorSays(texts: seq<string>, limit: pos, stub: Stub<string, Score>,
                          r: Result<seq<Score>, ClientError>, calls: seq<seq<string>>)
    requires ResultFor(LengthOrder(texts), Batches(texts, limit), limit, stub, r, calls) && r.Err?
    ensures calls != [] && calls <= Batches(texts, limit)
    ensures forall k :: 0 <= k < |calls| - 1 ==> stub(k, calls[k]).Answer? && |stub(k, calls[k]).rows| == |calls[k]|
    ensures var last := |calls| - 1;
            var sent, reply := |calls[last]|, stub(last, calls[last]);
            && (reply.Exhausted? ==> r.error == BatchRejected(sent, limit))
            && (reply.Failed? ==> r.error == CallFailed(sent, |texts|))
            && (reply.Answer? ==> |reply.rows| != sent && r.error == Miscounted(|reply.rows|, sent))
  {
    LengthOrderCorrect(texts);
    var batches := Batches(texts, limit);
    assert forall k :: 0 <= k < |calls| ==> calls[k] == batches[k];
    assert forall k :: 0 <= k < |calls| - 1 ==> Answered(stub, k, batches[k]);
  }

  function TextStub(config: Config): Stub<string, Score> {
    (call: nat, batch: seq<string>) => Worker.Classify(config, batch)
  }

  /** Against the worker itself: the scores come back pointwise exactly when the client's
      largest batch fits the worker's ceiling; otherwise the first call is refused and the
      error names both limits. */
  lemma ClassifyEndToEnd(texts: seq<string>, limit: pos, config: Config,
                         r: Result<seq<Score>, ClientError>, calls: seq<seq<string>>)
    requires ResultFor(LengthOrder(texts), Batches(texts, limit), limit, TextStub(config), r, calls)
    ensures r.Ok? <==> Min(|texts|, limit) <= config.maxBatch
    ensures r.Ok? ==> r.value == Map((text: string) => config.TextScore(text), texts)
    ensures r.Err? ==> r.error == BatchRejected(Min(|texts|, limit), limit) && |calls| == 1
  {
    var stub, batches := TextStub(config), Batches(texts, limit);
    BatchesCorrect(texts, limit);
    var f := (text: string) => config.TextScore(text);
    if Min(|texts|, limit) <= config.maxBatch {
      forall k | 0 <= k < |calls| ensures stub(k, calls[k]) == Answer(Map(f, calls[k])) {
        assert |batches[k]| <= Min(|texts|, limit) by { BatchNoLongerThanAll(texts, limit, k); }
      }
      ClassifyRefinesMap(texts, limit, stub, f, r, calls);
      assert r.value == Map((text: string) => config.TextScore(text), texts);
    } else {
      assert stub(0, batches[0]) == Exhausted;
      assert !Answered(stub, 0, batches[0]);
    }
  }

  /** And those scores are the head's answers, each for its own text as far as the worker reads it. */
  lemma EachTextIsScored(texts: seq<string>, limit: pos, config: Config,
                         r: Result<seq<Score>, ClientError>, calls: seq<seq<string>>, i: nat)
    requires ResultFor(LengthOrder(texts), Batches(texts, limit), limit, TextStub(config), r, calls)
    requires r.Ok? && i < |texts|
    ensures |r.value| == |texts| && r.value[i] == config.docHead(texts[i][..Min(|texts[i]|, config.maxTextChars)])
  {
    ClassifyEndToEnd(texts, limit, config, r, calls);
    assert texts[i][..|texts[i]|] == texts[i];
  }

  lemma BatchNoLongerThanAll(texts: seq<string>, limit: pos, k: nat)
    requires k < |Batches(texts, limit)|
    ensures |Batches(texts, limit)[k]| <= |texts|
  {
    LengthOrderCorrect(texts);
    var sorted := Select(texts, LengthOrder(texts));
    RangesCutChunks(sorted, 0, limit);
    assert sorted[0..] == sorted;
  }
}
