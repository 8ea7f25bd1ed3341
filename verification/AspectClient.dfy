/**
 ClassifyAspects of api/internal/inference/client.go: (document, aspect) pairs cut into
 requests under the worker's cumulative ceiling, and the rows scattered back.
 */
module AspectClient {
  import opened Wrappers
  import opened Domain
  import opened Batching
  import opened Worker
  import opened Client

  datatype AspectError =
    | PairsRejected(sent: nat, limit: nat)
    | PairsFailed(sent: nat, total: nat)
    | RowsMiscounted(got: nat, want: nat)
    | ScoresMiscounted(got: nat, want: nat)

  type Row = seq<AspectScore>

  /* ---------- requests ---------- */

  predicate AllValid(items: seq<AspectInput>, refs: seq<AspectRef>) {
    forall k :: 0 <= k < |refs| ==> ValidRef(items, refs[k])
  }

  /** A group goes out as its document's text with the aspects it names. */
  function InputOf(items: seq<AspectInput>, group: seq<AspectRef>): (input: AspectInput)
    requires group != [] && AllValid(items, group)
    ensures |input.aspects| == |group|
  {
    AspectInput(items[group[0].item].text,
                seq(|group|, k requires 0 <= k < |group| => items[group[k].item].aspects[group[k].pos]))
  }

  predicate ValidGroups(items: seq<AspectInput>, groups: seq<seq<AspectRef>>) {
    forall g :: 0 <= g < |groups| ==> groups[g] != [] && AllValid(items, groups[g])
  }

  function RequestOf(items: seq<AspectInput>, groups: seq<seq<AspectRef>>): (r: seq<AspectInput>)
    requires ValidGroups(items, groups)
    ensures |r| == |groups| && forall g :: 0 <= g < |groups| ==> r[g] == InputOf(items, groups[g])
  {
    seq(|groups|, g requires 0 <= g < |groups| => InputOf(items, groups[g]))
  }

  lemma GroupsAreValid(items: seq<AspectInput>, refs: seq<AspectRef>)
    requires AllValid(items, refs)
    ensures ValidGroups(items, Groups(refs))
  {
    var groups := Groups(refs);
    GroupsCorrect(refs);
    forall g, k | 0 <= g < |groups| && 0 <= k < |groups[g]| ensures ValidRef(items, groups[g][k]) {
      FlattenSplit(groups, g);
      assert refs[|Flatten(groups[..g])| + k] == groups[g][k];
    }
  }

  /** The request one window of references becomes. */
  function WindowRequest(items: seq<AspectInput>, window: seq<AspectRef>): seq<AspectInput>
    requires AllValid(items, window)
  {
    GroupsAreValid(items, window);
    RequestOf(items, Groups(window))
  }

  /* ---------- results ---------- */

  predicate RowsFit(rows: seq<Row>, request: seq<AspectInput>) {
    |rows| == |request| && forall g :: 0 <= g < |rows| ==> |rows[g]| == |request[g].aspects|
  }

  predicate PairsAnswered(stub: Stub<AspectInput, Row>, call: nat, request: seq<AspectInput>) {
    stub(call, request).Answer? && RowsFit(stub(call, request).rows, request)
  }

  ghost predicate IsFailureOf(e: AspectError, reply: Reply<Row>, request: seq<AspectInput>,
                              sent: nat, total: nat, limit: nat)
  {
    match reply
    case Exhausted => e == PairsRejected(sent, limit)
    case Failed => e == PairsFailed(sent, total)
    case Answer(rows) =>
      if |rows| != |request| then e == RowsMiscounted(|rows|, |request|)
      else IsFirstMiscount(e, rows, request)
  }

  ghost predicate IsFirstMiscount(e: AspectError, rows: seq<Row>, request: seq<AspectInput>)
    requires |rows| == |request|
  {
    exists g ::
      && 0 <= g < |rows| && |rows[g]| != |request[g].aspects|
      && (forall h :: 0 <= h < g ==> |rows[h]| == |request[h].aspects|)
      && e == ScoresMiscounted(|rows[g]|, |request[g].aspects|)
  }

  predicate ShapeOf(items: seq<AspectInput>, out: seq<Row>) {
    |out| == |items| && forall i :: 0 <= i < |items| ==> |out[i]| == |items[i].aspects|
  }

  /** Slots of the caller's output, none twice. */
  ghost predicate AreSlots(items: seq<AspectInput>, refs: seq<AspectRef>) {
    && AllValid(items, refs)
    && (forall p, q :: 0 <= p < q < |refs| ==> refs[p] != refs[q])
  }

  /** The first scores gathered stand in the slots the references name. */
  ghost predicate PairsPlaced(items: seq<AspectInput>, out: seq<Row>, refs: seq<AspectRef>, got: Row) {
    && ShapeOf(items, out) && AreSlots(items, refs) && |got| <= |refs|
    && forall p :: 0 <= p < |got| ==> out[refs[p].item][refs[p].pos] == got[p]
  }

  function Windows(items: seq<AspectInput>, limit: pos): seq<seq<AspectRef>> {
    Chunks(Refs(items), limit)
  }

  /** One request per window. */
  ghost predicate RequestsFor(items: seq<AspectInput>, windows: seq<seq<AspectRef>>, requests: seq<seq<AspectInput>>) {
    && |requests| == |windows|
    && forall k :: 0 <= k < |windows| ==>
         AllValid(items, windows[k]) && requests[k] == WindowRequest(items, windows[k])
  }

  /** The scores of the first calls, end to end. */
  function PairsGathered(stub: Stub<AspectInput, Row>, requests: seq<seq<AspectInput>>, calls: nat): Row
    requires calls <= |requests|
    requires forall k :: 0 <= k < calls ==> PairsAnswered(stub, k, requests[k])
  {
    if calls == 0 then []
    else
      assert PairsAnswered(stub, calls - 1, requests[calls - 1]);
      PairsGathered(stub, requests, calls - 1) + Flatten(stub(calls - 1, requests[calls - 1]).rows)
  }

  /** Either every answer put back in the slots its references name, or the first bad
      answer's error with no call after it. */
  ghost predicate PairsResultFor(
    items: seq<AspectInput>, refs: seq<AspectRef>, windows: seq<seq<AspectRef>>,
    requests: seq<seq<AspectInput>>, limit: pos, stub: Stub<AspectInput, Row>,
    r: Result<seq<Row>, AspectError>, calls: seq<seq<AspectInput>>)
  {
    && calls <= requests && |requests| == |windows|
    && match r
       case Ok(out) =>
         && calls == requests
         && (forall k :: 0 <= k < |requests| ==> PairsAnswered(stub, k, requests[k]))
         && var got := PairsGathered(stub, requests, |requests|);
            |got| == |refs| && PairsPlaced(items, out, refs, got)
       case Err(e) =>
         && calls != []
         && var last := |calls| - 1;
            && (forall k :: 0 <= k < last ==> PairsAnswered(stub, k, requests[k]))
            && !PairsAnswered(stub, last, requests[last])
            && IsFailureOf(e, stub(last, requests[last]), requests[last], |windows[last]|, |refs|, limit)
  }

  /* ---------- the client ---------- */

  method ScatterRow(items: seq<AspectInput>, out: seq<Row>, group: seq<AspectRef>, row: Row,
                    ghost refs: seq<AspectRef>, ghost got: Row)
      returns (out': seq<Row>)
    requires PairsPlaced(items, out, refs, got) && |row| == |group|
    requires |got| + |group| <= |refs| && group == refs[|got|..|got| + |group|]
    ensures PairsPlaced(items, out', refs, got + row)
  {
    out' := out;
    for k := 0 to |group|
      invariant PairsPlaced(items, out', refs, got + row[..k])
    {
      var ref := group[k];
      assert ref == refs[|got| + k];
      out' := out'[ref.item := out'[ref.item][ref.pos := row[k]]];
      assert got + row[..k + 1] == got + row[..k] + [row[k]];
    }
    assert row[..|row|] == row;
  }

  /** The next group is the next stretch of references. */
  lemma NextGroup(groups: seq<seq<AspectRef>>, rows: seq<Row>, g: nat, refs: seq<AspectRef>, got: Row)
    requires g < |groups| == |rows| && |rows[g]| == |groups[g]|
    requires |Flatten(rows[..g])| == |Flatten(groups[..g])|
    requires |got| + |Flatten(groups)| <= |refs|
    requires Flatten(groups) == refs[|got|..|got| + |Flatten(groups)|]
    ensures var placed := got + Flatten(rows[..g]);
            && |placed| + |groups[g]| <= |refs|
            && groups[g] == refs[|placed|..|placed| + |groups[g]|]
            && got + Flatten(rows[..g + 1]) == placed + rows[g]
            && |Flatten(rows[..g + 1])| == |Flatten(groups[..g + 1])|
  {
    FlattenSplit(groups, g);
    MiddleOfSlice(refs, |got|, Flatten(groups[..g]), groups[g], Flatten(groups[g + 1..]));
    assert rows[..g + 1] == rows[..g] + [rows[g]] && groups[..g + 1] == groups[..g] + [groups[g]];
    FlattenSnoc(rows[..g], rows[g]);
    FlattenSnoc(groups[..g], groups[g]);
  }

  /** Row by row: a row of the wrong length stops the whole call. */
  method ScatterGroups(items: seq<AspectInput>, out: seq<Row>, groups: seq<seq<AspectRef>>, rows: seq<Row>,
                       ghost refs: seq<AspectRef>, ghost got: Row)
      returns (out': seq<Row>, failure: Option<AspectError>)
    requires PairsPlaced(items, out, refs, got) && ValidGroups(items, groups)
    requires |rows| == |groups|
    requires |got| + |Flatten(groups)| <= |refs|
    requires Flatten(groups) == refs[|got|..|got| + |Flatten(groups)|]
    ensures failure.None? <==> RowsFit(rows, RequestOf(items, groups))
    ensures failure.Some? ==> IsFirstMiscount(failure.value, rows, RequestOf(items, groups))
    ensures failure.None? ==>
        |Flatten(rows)| == |Flatten(groups)| && PairsPlaced(items, out', refs, got + Flatten(rows))
  {
    out' := out;
    for g := 0 to |groups|
      invariant forall h :: 0 <= h < g ==> |rows[h]| == |groups[h]|
      invariant |Flatten(rows[..g])| == |Flatten(groups[..g])|
      invariant PairsPlaced(items, out', refs, got + Flatten(rows[..g]))
    {
      if |rows[g]| != |groups[g]| {
        return out', Some(ScoresMiscounted(|rows[g]|, |groups[g]|));
      }
      NextGroup(groups, rows, g, refs, got);
      ghost var placed := got + Flatten(rows[..g]);
      out' := ScatterRow(items, out', groups[g], rows[g], refs, placed);
    }
    assert rows[..|rows|] == rows && groups[..|groups|] == groups;
    failure := None;
  }

  /** One round trip for one window. */
  method SendWindow(items: seq<AspectInput>, window: seq<AspectRef>, limit: pos, call: nat,
                    stub: Stub<AspectInput, Row>, out: seq<Row>, ghost refs: seq<AspectRef>, ghost got: Row,
                    total: nat)
      returns (out': seq<Row>, request: seq<AspectInput>, failure: Option<AspectError>)
    requires PairsPlaced(items, out, refs, got) && AllValid(items, window) && total == |refs|
    requires |got| + |window| <= |refs| && window == refs[|got|..|got| + |window|]
    ensures request == WindowRequest(items, window)
    ensures failure.None? <==> PairsAnswered(stub, call, request)
    ensures failure.Some? ==>
        IsFailureOf(failure.value, stub(call, request), request, |window|, |refs|, limit)
    ensures failure.None? ==>
        && |Flatten(stub(call, request).rows)| == |window|
        && PairsPlaced(items, out', refs, got + Flatten(stub(call, request).rows))
  {
    var groups := GroupByItem(window);
    GroupsCorrect(window);
    GroupsAreValid(items, window);
    request := RequestOf(items, groups);
    var reply := stub(call, request);
    out' := out;
    match reply
    case Exhausted => failure := Some(PairsRejected(|window|, limit));
    case Failed => failure := Some(PairsFailed(|window|, total));
    case Answer(rows) =>
      if |rows| != |groups| {
        failure := Some(RowsMiscounted(|rows|, |groups|));
      } else {
        out', failure := ScatterGroups(items, out, groups, rows, refs, got);
      }
  }

  /** The k-th range starts where the one before it ends, and is not empty. */
  predicate IsCut(ranges: seq<(nat, nat)>, k: nat, n: nat)
    requires k < |ranges|
  {
    (if k == 0 then 0 else ranges[k - 1].1) == ranges[k].0 < ranges[k].1 <= n
  }

  ghost predicate IsWindowPlan(refs: seq<AspectRef>, ranges: seq<(nat, nat)>, windows: seq<seq<AspectRef>>) {
    && |ranges| == |windows|
    && (forall k :: 0 <= k < |ranges| ==>
          && IsCut(ranges, k, |refs|)
          && refs[ranges[k].0..ranges[k].1] == windows[k])
    && (if ranges == [] then 0 else ranges[|ranges| - 1].1) == |refs|
  }

  /** The first calls were answered, and got is what they answered. */
  ghost predicate AnsweredSoFar(stub: Stub<AspectInput, Row>, requests: seq<seq<AspectInput>>,
                                calls: seq<seq<AspectInput>>, got: Row)
  {
    && calls <= requests
    && (forall k :: 0 <= k < |calls| ==> PairsAnswered(stub, k, requests[k]))
    && got == PairsGathered(stub, requests, |calls|)
  }

  lemma WindowAt(items: seq<AspectInput>, refs: seq<AspectRef>, ranges: seq<(nat, nat)>,
                 windows: seq<seq<AspectRef>>, requests: seq<seq<AspectInput>>, k: nat)
    requires IsWindowPlan(refs, ranges, windows) && RequestsFor(items, windows, requests) && k < |ranges|
    ensures IsCut(ranges, k, |refs|)
    ensures refs[ranges[k].0..ranges[k].1] == windows[k] && AllValid(items, windows[k])
    ensures k < |requests| && requests[k] == WindowRequest(items, windows[k])
  {
    assert IsCut(ranges, k, |refs|);
    assert AllValid(items, windows[k]) && requests[k] == WindowRequest(items, windows[k]);
  }

  lemma OneMoreAnswer(stub: Stub<AspectInput, Row>, requests: seq<seq<AspectInput>>,
                      calls: seq<seq<AspectInput>>, got: Row)
    requires AnsweredSoFar(stub, requests, calls, got) && |calls| < |requests|
    requires PairsAnswered(stub, |calls|, requests[|calls|])
    ensures var request := requests[|calls|];
            AnsweredSoFar(stub, requests, calls + [request], got + Flatten(stub(|calls|, request).rows))
  {
  }

  lemma StopAtFailure(items: seq<AspectInput>, refs: seq<AspectRef>, windows: seq<seq<AspectRef>>,
                      requests: seq<seq<AspectInput>>, limit: pos, stub: Stub<AspectInput, Row>,
                      calls: seq<seq<AspectInput>>, got: Row, e: AspectError)
    requires AnsweredSoFar(stub, requests, calls, got) && |calls| < |requests| == |windows|
    requires !PairsAnswered(stub, |calls|, requests[|calls|])
    requires IsFailureOf(e, stub(|calls|, requests[|calls|]), requests[|calls|],
                         |windows[|calls|]|, |refs|, limit)
    ensures PairsResultFor(items, refs, windows, requests, limit, stub, Err(e), calls + [requests[|calls|]])
  {
  }

  lemma AllAnswered(items: seq<AspectInput>, refs: seq<AspectRef>, windows: seq<seq<AspectRef>>,
                    requests: seq<seq<AspectInput>>, limit: pos, stub: Stub<AspectInput, Row>,
                    calls: seq<seq<AspectInput>>, got: Row, out: seq<Row>)
    requires AnsweredSoFar(stub, requests, calls, got) && |calls| == |requests| == |windows|
    requires |got| == |refs| && PairsPlaced(items, out, refs, got)
    ensures PairsResultFor(items, refs, windows, requests, limit, stub, Ok(out), calls)
  {
  }

  /** Everything one iteration needs and keeps. */
  ghost predicate Progress(items: seq<AspectInput>, refs: seq<AspectRef>, ranges: seq<(nat, nat)>,
                           requests: seq<seq<AspectInput>>, stub: Stub<AspectInput, Row>,
                           k: nat, calls: seq<seq<AspectInput>>, rows: seq<Row>, got: Row)
  {
    && k <= |ranges| && |calls| == k
    && AnsweredSoFar(stub, requests, calls, got)
    && |got| == (if k == 0 then 0 else ranges[k - 1].1)
    && PairsPlaced(items, rows, refs, got)
  }

  lemma WindowFollows(refs: seq<AspectRef>, ranges: seq<(nat, nat)>, k: nat, got: Row)
    requires k < |ranges| && IsCut(ranges, k, |refs|) && |got| == if k == 0 then 0 else ranges[k - 1].1
    ensures var window := refs[ranges[k].0..ranges[k].1];
            |got| + |window| == ranges[k].1 <= |refs| && window == refs[|got|..|got| + |window|]
  {
  }

  lemma WindowDone(items: seq<AspectInput>, refs: seq<AspectRef>, ranges: seq<(nat, nat)>,
                   requests: seq<seq<AspectInput>>, stub: Stub<AspectInput, Row>,
                   k: nat, calls: seq<seq<AspectInput>>, got: Row, rows': seq<Row>)
    requires k < |ranges| && |calls| == k < |requests| && IsCut(ranges, k, |refs|)
    requires AnsweredSoFar(stub, requests, calls, got) && PairsAnswered(stub, k, requests[k])
    requires |got| == if k == 0 then 0 else ranges[k - 1].1
    requires |Flatten(stub(k, requests[k]).rows)| == ranges[k].1 - ranges[k].0
    requires PairsPlaced(items, rows', refs, got + Flatten(stub(k, requests[k]).rows))
    ensures Progress(items, refs, ranges, requests, stub, k + 1, calls + [requests[k]], rows',
                     got + Flatten(stub(k, requests[k]).rows))
  {
    OneMoreAnswer(stub, requests, calls, got);
  }

  /** The next window is done, or its failure is the result. */
  ghost predicate IsNext(items: seq<AspectInput>, refs: seq<AspectRef>, ranges: seq<(nat, nat)>,
                         windows: seq<seq<AspectRef>>, requests: seq<seq<AspectInput>>, limit: pos,
                         stub: Stub<AspectInput, Row>, k: nat, calls: seq<seq<AspectInput>>, rows: seq<Row>,
                         failure: Option<AspectError>, got: Row)
  {
    if failure.None? then Progress(items, refs, ranges, requests, stub, k + 1, calls, rows, got)
    else PairsResultFor(items, refs, windows, requests, limit, stub, Err(failure.value), calls)
  }

  lemma AfterWindow(items: seq<AspectInput>, refs: seq<AspectRef>, ranges: seq<(nat, nat)>,
                    windows: seq<seq<AspectRef>>, requests: seq<seq<AspectInput>>, limit: pos,
                    stub: Stub<AspectInput, Row>, k: nat, calls: seq<seq<AspectInput>>, rows': seq<Row>,
                    failure: Option<AspectError>, got: Row) returns (got': Row)
    requires k < |ranges| == |requests| == |windows| && |calls| == k && IsCut(ranges, k, |refs|)
    requires AnsweredSoFar(stub, requests, calls, got) && |got| == if k == 0 then 0 else ranges[k - 1].1
    requires |windows[k]| == ranges[k].1 - ranges[k].0
    requires failure.None? <==> PairsAnswered(stub, k, requests[k])
    requires failure.Some? ==>
        IsFailureOf(failure.value, stub(k, requests[k]), requests[k], |windows[k]|, |refs|, limit)
    requires failure.None? ==>
        && |Flatten(stub(k, requests[k]).rows)| == |windows[k]|
        && PairsPlaced(items, rows', refs, got + Flatten(stub(k, requests[k]).rows))
    ensures IsNext(items, refs, ranges, windows, requests, limit, stub, k, calls + [requests[k]], rows', failure, got')
  {
    got' := got;
    if failure.Some? {
      StopAtFailure(items, refs, windows, requests, limit, stub, calls, got, failure.value);
    } else {
      WindowDone(items, refs, ranges, requests, stub, k, calls, got, rows');
      got' := got + Flatten(stub(k, requests[k]).rows);
    }
  }

  method NextWindow(items: seq<AspectInput>, refs: seq<AspectRef>, ranges: seq<(nat, nat)>, limit: pos,
                    stub: Stub<AspectInput, Row>, k: nat, calls: seq<seq<AspectInput>>, rows: seq<Row>,
                    ghost windows: seq<seq<AspectRef>>, ghost requests: seq<seq<AspectInput>>, ghost got: Row)
      returns (calls': seq<seq<AspectInput>>, rows': seq<Row>, failure: Option<AspectError>, ghost got': Row)
    requires Progress(items, refs, ranges, requests, stub, k, calls, rows, got)
    requires k < |ranges| == |requests| == |windows| && IsCut(ranges, k, |refs|)
    requires refs[ranges[k].0..ranges[k].1] == windows[k] && AllValid(items, windows[k])
    requires requests[k] == WindowRequest(items, windows[k])
    ensures IsNext(items, refs, ranges, windows, requests, limit, stub, k, calls', rows', failure, got')
  {
    WindowFollows(refs, ranges, k, got);
    var request;
    rows', request, failure := SendWindow(items, refs[ranges[k].0..ranges[k].1], limit, k, stub, rows, refs, got, |refs|);
    calls' := calls + [request];
    got' := AfterWindow(items, refs, ranges, windows, requests, limit, stub, k, calls, rows', failure, got);
  }

  method SendWindows(items: seq<AspectInput>, refs: seq<AspectRef>, ranges: seq<(nat, nat)>, limit: pos,
                     stub: Stub<AspectInput, Row>, out: seq<Row>,
                     ghost windows: seq<seq<AspectRef>>, ghost requests: seq<seq<AspectInput>>)
      returns (r: Result<seq<Row>, AspectError>, calls: seq<seq<AspectInput>>)
    requires AreSlots(items, refs) && ShapeOf(items, out)
    requires IsWindowPlan(refs, ranges, windows) && RequestsFor(items, windows, requests)
    ensures PairsResultFor(items, refs, windows, requests, limit, stub, r, calls)
  {
    calls := [];
    var rows := out;
    ghost var got: Row := [];
    for k := 0 to |ranges|
      invariant Progress(items, refs, ranges, requests, stub, k, calls, rows, got)
    {
      WindowAt(items, refs, ranges, windows, requests, k);
      var failure;
      calls, rows, failure, got := NextWindow(items, refs, ranges, limit, stub, k, calls, rows,
                                              windows, requests, got);
      if failure.Some? {
        return Err(failure.value), calls;
      }
    }
    AllAnswered(items, refs, windows, requests, limit, stub, calls, got, rows);
    r := Ok(rows);
  }

  function WindowRequests(items: seq<AspectInput>, limit: pos): (requests: seq<seq<AspectInput>>)
    ensures RequestsFor(items, Windows(items, limit), requests)
  {
    RefsAreSlots(items);
    WindowPlan(items, Refs(items), limit);
    var windows := Windows(items, limit);
    seq(|windows|, k requires 0 <= k < |windows| && AllValid(items, windows[k]) => WindowRequest(items, windows[k]))
  }

  lemma NoItemsNoRefs(items: seq<AspectInput>)
    ensures items == [] ==> Refs(items) == []
  {
    RefsAreSlots(items);
    if Refs(items) != [] {
      assert ValidRef(items, Refs(items)[0]);
    }
  }

  /** No pair, no request: the rows are as they were made. */
  lemma NothingToSend(items: seq<AspectInput>, limit: pos, stub: Stub<AspectInput, Row>, out: seq<Row>)
    requires ShapeOf(items, out) && (items == [] || Refs(items) == [])
    ensures PairsResultFor(items, Refs(items), Windows(items, limit), WindowRequests(items, limit),
                           limit, stub, Ok(out), [])
  {
    RefsAreSlots(items);
    NoItemsNoRefs(items);
    assert Windows(items, limit) == [];
  }

  method ClassifyAspects(items: seq<AspectInput>, maxBatch: pos, stub: Stub<AspectInput, Row>, zero: AspectScore)
      returns (r: Result<seq<Row>, AspectError>, calls: seq<seq<AspectInput>>)
    ensures var limit := maxBatch * ASPECT_BATCH_MULTIPLE;
            PairsResultFor(items, Refs(items), Windows(items, limit), WindowRequests(items, limit),
                           limit, stub, r, calls)
  {
    var limit := maxBatch * ASPECT_BATCH_MULTIPLE;
    RefsAreSlots(items);
    ghost var windows, requests := Windows(items, limit), WindowRequests(items, limit);
    if |items| == 0 {
      NothingToSend(items, limit, stub, []);
      return Ok([]), [];
    }
    var out := seq(|items|, i requires 0 <= i < |items| => seq(|items[i].aspects|, _ => zero));
    var refs := AspectRefs(items);
    if |refs| == 0 {
      NothingToSend(items, limit, stub, out);
      return Ok(out), [];
    }
    var ranges := ChunkRanges(|refs|, limit);
    WindowPlan(items, refs, limit);
    r, calls := SendWindows(items, refs, ranges, limit, stub, out, windows, requests);
  }

  lemma RefsAreSlots(items: seq<AspectInput>)
    ensures AreSlots(items, Refs(items))
  {
    RefsCorrect(items);
    forall k | 0 <= k < |Refs(items)| ensures ValidRef(items, Refs(items)[k]) {
      assert Refs(items)[k] in Refs(items);
    }
  }

  lemma WindowPlan(items: seq<AspectInput>, refs: seq<AspectRef>, limit: pos)
    requires AreSlots(items, refs)
    ensures IsWindowPlan(refs, RangesFrom(0, |refs|, limit), Chunks(refs, limit))
    ensures forall k :: 0 <= k < |Chunks(refs, limit)| ==> AllValid(items, Chunks(refs, limit)[k])
  {
    RangesAreConsecutive(0, |refs|, limit);
    RangesCutChunks(refs, 0, limit);
    var ranges, windows := RangesFrom(0, |refs|, limit), Chunks(refs, limit);
    assert refs[0..] == refs;
    forall k | 0 <= k < |windows|
      ensures AllValid(items, windows[k]) && IsCut(ranges, k, |refs|) && refs[ranges[k].0..ranges[k].1] == windows[k]
    {
      SliceIsValid(items, refs, ranges[k].0, ranges[k].1);
    }
  }

  lemma SliceIsValid(items: seq<AspectInput>, refs: seq<AspectRef>, lo: nat, hi: nat)
    requires AllValid(items, refs) && lo <= hi <= |refs|
    ensures AllValid(items, refs[lo..hi])
  {
  }

  /* ---------- what is sent, and what comes back ---------- */

  /** A value for each pair of one input, in its order. */
  function RowOf<T>(h: (string, string) -> T, input: AspectInput): (r: seq<T>)
    ensures |r| == |input.aspects| && forall j :: 0 <= j < |r| ==> r[j] == h(input.text, input.aspects[j])
  {
    seq(|input.aspects|, j requires 0 <= j < |input.aspects| => h(input.text, input.aspects[j]))
  }

  function RowsOf<T>(h: (string, string) -> T, request: seq<AspectInput>): (r: seq<seq<T>>)
    ensures |r| == |request| && forall g :: 0 <= g < |r| ==> r[g] == RowOf(h, request[g])
  {
    seq(|request|, g requires 0 <= g < |request| => RowOf(h, request[g]))
  }

  /** A value for each reference, of its own document's text and its own aspect. */
  function RefValues<T>(items: seq<AspectInput>, h: (string, string) -> T, refs: seq<AspectRef>): (r: seq<T>)
    requires AllValid(items, refs)
    ensures |r| == |refs|
    ensures forall k :: 0 <= k < |r| ==>
        r[k] == h(items[refs[k].item].text, items[refs[k].item].aspects[refs[k].pos])
  {
    seq(|refs|, k requires 0 <= k < |refs| =>
      h(items[refs[k].item].text, items[refs[k].item].aspects[refs[k].pos]))
  }

  /** Regrouping keeps every pair with its own text, in order: the rows of a request laid end
      to end are the values of the references it was made from. */
  lemma {:induction false} RowsFollowRefs<T>(items: seq<AspectInput>, h: (string, string) -> T,
                                             groups: seq<seq<AspectRef>>)
    requires ValidGroups(items, groups) && forall g :: 0 <= g < |groups| ==> IsRun(groups[g])
    requires AllValid(items, Flatten(groups))
    ensures Flatten(RowsOf(h, RequestOf(items, groups))) == RefValues(items, h, Flatten(groups))
  {
    var rows := RowsOf(h, RequestOf(items, groups));
    if groups != [] {
      var rest := groups[1..];
      assert Flatten(groups) == groups[0] + Flatten(rest);
      forall k | 0 <= k < |Flatten(rest)| ensures ValidRef(items, Flatten(rest)[k]) {
        assert Flatten(rest)[k] == Flatten(groups)[|groups[0]| + k];
      }
      RowsFollowRefs(items, h, rest);
      assert rows[1..] == RowsOf(h, RequestOf(items, rest));
      assert IsRun(groups[0]);
      assert rows[0] == RefValues(items, h, groups[0]);
    }
  }

  lemma WindowRowsFollowRefs<T>(items: seq<AspectInput>, h: (string, string) -> T, window: seq<AspectRef>)
    requires AllValid(items, window)
    ensures Flatten(RowsOf(h, WindowRequest(items, window))) == RefValues(items, h, window)
  {
    GroupsCorrect(window);
    GroupsAreValid(items, window);
    RowsFollowRefs(items, h, Groups(window));
  }

  lemma {:induction false} TotalIsFlattenedLength<T>(h: (string, string) -> T, request: seq<AspectInput>)
    ensures TotalAspects(request) == |Flatten(RowsOf(h, request))|
  {
    if request != [] {
      TotalIsFlattenedLength(h, request[1..]);
      assert RowsOf(h, request)[1..] == RowsOf(h, request[1..]);
    }
  }

  function PairsIn(request: seq<AspectInput>): seq<(string, string)> {
    Flatten(RowsOf((text: string, aspect: string) => (text, aspect), request))
  }

  function AllPairs(items: seq<AspectInput>): seq<(string, string)> {
    RefsAreSlots(items);
    RefValues(items, (text: string, aspect: string) => (text, aspect), Refs(items))
  }

  function PairsPerRequest(requests: seq<seq<AspectInput>>): (r: seq<seq<(string, string)>>)
    ensures |r| == |requests| && forall k :: 0 <= k < |r| ==> r[k] == PairsIn(requests[k])
  {
    seq(|requests|, k requires 0 <= k < |requests| => PairsIn(requests[k]))
  }

  lemma {:induction false} ValuesOfChunks<T>(items: seq<AspectInput>, h: (string, string) -> T,
                                             windows: seq<seq<AspectRef>>, values: seq<seq<T>>)
    requires |values| == |windows| && AllValid(items, Flatten(windows))
    requires forall k :: 0 <= k < |windows| ==>
        AllValid(items, windows[k]) && values[k] == RefValues(items, h, windows[k])
    ensures Flatten(values) == RefValues(items, h, Flatten(windows))
  {
    if windows != [] {
      assert Flatten(windows) == windows[0] + Flatten(windows[1..]);
      forall k | 0 <= k < |Flatten(windows[1..])| ensures ValidRef(items, Flatten(windows[1..])[k]) {
        assert Flatten(windows[1..])[k] == Flatten(windows)[|windows[0]| + k];
      }
      ValuesOfChunks(items, h, windows[1..], values[1..]);
    }
  }

  /** Each pair is sent exactly once, beside its own text, and no request holds more pairs
      than the limit, even when one document alone has more. */
  lemma RequestsCorrect(items: seq<AspectInput>, limit: pos)
    ensures Flatten(PairsPerRequest(WindowRequests(items, limit))) == AllPairs(items)
    ensures forall k :: 0 <= k < |WindowRequests(items, limit)| ==>
        1 <= TotalAspects(WindowRequests(items, limit)[k]) <= Min(|Refs(items)|, limit)
    ensures Refs(items) != [] ==>
        && WindowRequests(items, limit) != []
        && TotalAspects(WindowRequests(items, limit)[0]) == Min(|Refs(items)|, limit)
    ensures forall ref :: ref in Refs(items) <==> ValidRef(items, ref)
    ensures forall p, q :: 0 <= p < q < |Refs(items)| ==> Refs(items)[p] != Refs(items)[q]
  {
    var windows, requests := Windows(items, limit), WindowRequests(items, limit);
    var pair := (text: string, aspect: string) => (text, aspect);
    RefsAreSlots(items);
    RefsCorrect(items);
    ChunksPartition(Refs(items), limit);
    forall k | 0 <= k < |windows|
      ensures PairsPerRequest(requests)[k] == RefValues(items, pair, windows[k])
      ensures TotalAspects(requests[k]) == |windows[k]| <= |Refs(items)|
    {
      assert AllValid(items, windows[k]) && requests[k] == WindowRequest(items, windows[k]);
      WindowRowsFollowRefs(items, pair, windows[k]);
      TotalIsFlattenedLength(pair, requests[k]);
      FlattenSplit(windows, k);
    }
    ValuesOfChunks(items, pair, windows, PairsPerRequest(requests));
  }

  lemma {:induction false} PairsGatheredPointwise(
    items: seq<AspectInput>, h: (string, string) -> AspectScore, stub: Stub<AspectInput, Row>,
    windows: seq<seq<AspectRef>>, requests: seq<seq<AspectInput>>, calls: nat)
    requires RequestsFor(items, windows, requests) && calls <= |requests|
    requires forall k :: 0 <= k < calls ==> stub(k, requests[k]) == Answer(RowsOf(h, requests[k]))
    requires AllValid(items, Flatten(windows[..calls]))
    ensures forall k :: 0 <= k < calls ==> PairsAnswered(stub, k, requests[k])
    ensures PairsGathered(stub, requests, calls) == RefValues(items, h, Flatten(windows[..calls]))
  {
    if calls > 0 {
      var last := calls - 1;
      assert windows[..calls] == windows[..last] + [windows[last]];
      FlattenSnoc(windows[..last], windows[last]);
      forall k | 0 <= k < |Flatten(windows[..last])| ensures ValidRef(items, Flatten(windows[..last])[k]) {
        assert Flatten(windows[..last])[k] == Flatten(windows[..calls])[k];
      }
      PairsGatheredPointwise(items, h, stub, windows, requests, last);
      assert AllValid(items, windows[last]) && requests[last] == WindowRequest(items, windows[last]);
      WindowRowsFollowRefs(items, h, windows[last]);
    }
  }

  /** Aspect scoring refines a pointwise map: if every request sent gets the pointwise answer,
      out[i][j] is the answer for text i and aspect j of i. */
  lemma AspectsRefineMap(items: seq<AspectInput>, limit: pos, stub: Stub<AspectInput, Row>,
                         h: (string, string) -> AspectScore,
                         r: Result<seq<Row>, AspectError>, calls: seq<seq<AspectInput>>)
    requires PairsResultFor(items, Refs(items), Windows(items, limit), WindowRequests(items, limit),
                            limit, stub, r, calls)
    requires forall k :: 0 <= k < |calls| ==> stub(k, calls[k]) == Answer(RowsOf(h, calls[k]))
    ensures r == Ok(RowsOf(h, items))
  {
    var refs, windows, requests := Refs(items), Windows(items, limit), WindowRequests(items, limit);
    PointwiseNeverFails(items, refs, windows, requests, limit, stub, h, r, calls);
    RefsAreSlots(items);
    ChunksPartition(refs, limit);
    assert windows[..|windows|] == windows;
    PairsGatheredPointwise(items, h, stub, windows, requests, |requests|);
    PlacedEverywhere(items, h, r.value);
  }

  lemma PointwiseNeverFails(items: seq<AspectInput>, refs: seq<AspectRef>, windows: seq<seq<AspectRef>>,
                            requests: seq<seq<AspectInput>>, limit: pos, stub: Stub<AspectInput, Row>,
                            h: (string, string) -> AspectScore,
                            r: Result<seq<Row>, AspectError>, calls: seq<seq<AspectInput>>)
    requires PairsResultFor(items, refs, windows, requests, limit, stub, r, calls)
    requires forall k :: 0 <= k < |calls| ==> stub(k, calls[k]) == Answer(RowsOf(h, calls[k]))
    ensures r.Ok? && calls == requests
  {
    assert forall k :: 0 <= k < |calls| ==> calls[k] == requests[k] && PairsAnswered(stub, k, calls[k]);
  }

  lemma PlacedEverywhere(items: seq<AspectInput>, h: (string, string) -> AspectScore, out: seq<Row>)
    requires AllValid(items, Refs(items))
    requires PairsPlaced(items, out, Refs(items), RefValues(items, h, Refs(items)))
    ensures out == RowsOf(h, items)
  {
    RefsCorrect(items);
    forall i | 0 <= i < |items| ensures out[i] == RowOf(h, items[i]) {
      forall j | 0 <= j < |items[i].aspects| ensures out[i][j] == h(items[i].text, items[i].aspects[j]) {
        assert AspectRef(i, j) in Refs(items);
        var p :| 0 <= p < |Refs(items)| && Refs(items)[p] == AspectRef(i, j);
      }
    }
  }

  function PairStub(config: Config): Stub<AspectInput, Row> {
    (call: nat, request: seq<AspectInput>) => Worker.ClassifyAspects(config, request)
  }

  /** The aspect head's answer for the text as far as the worker reads it, under the aspect's name. */
  function ScoredPair(config: Config, text: string, aspect: string): AspectScore {
    AspectScore(aspect, config.aspectHead(text[..Min(|text|, config.maxTextChars)], aspect))
  }

  lemma WorkerReadsAsFar(config: Config, text: string, aspect: string)
    ensures config.PairScore(text, aspect) == ScoredPair(config, text, aspect)
  {
    assert text[..|text|] == text;
  }

  /** What an error says, as for texts; a row of the wrong length is named by the first such row. */
  lemma PairsErrorSays(items: seq<AspectInput>, limit: pos, stub: Stub<AspectInput, Row>,
                       r: Result<seq<Row>, AspectError>, calls: seq<seq<AspectInput>>)
    requires PairsResultFor(items, Refs(items), Windows(items, limit), WindowRequests(items, limit), limit, stub, r, calls)
    requires r.Err?
    ensures calls != [] && calls <= WindowRequests(items, limit)
    ensures forall k :: 0 <= k < |calls| - 1 ==> PairsAnswered(stub, k, calls[k])
    ensures var last := |calls| - 1;
            var sent, reply := calls[last], stub(last, calls[last]);
            && (reply.Exhausted? ==> r.error == PairsRejected(TotalAspects(sent), limit))
            && (reply.Failed? ==> r.error == PairsFailed(TotalAspects(sent), |Refs(items)|))
            && (reply.Answer? && |reply.rows| != |sent| ==> r.error == RowsMiscounted(|reply.rows|, |sent|))
            && (reply.Answer? && |reply.rows| == |sent| ==>
                  exists g :: 0 <= g < |sent| && |reply.rows[g]| != |sent[g].aspects|
                    && (forall h :: 0 <= h < g ==> |reply.rows[h]| == |sent[h].aspects|)
                    && r.error == ScoresMiscounted(|reply.rows[g]|, |sent[g].aspects|))
  {
    var windows, requests := Windows(items, limit), WindowRequests(items, limit);
    assert forall k :: 0 <= k < |calls| ==> calls[k] == requests[k];
    assert forall k :: 0 <= k < |calls| - 1 ==> PairsAnswered(stub, k, requests[k]);
    RequestHoldsItsWindow(items, limit, |calls| - 1);
  }

  lemma RequestHoldsItsWindow(items: seq<AspectInput>, limit: pos, k: nat)
    requires k < |WindowRequests(items, limit)|
    ensures k < |Windows(items, limit)| && TotalAspects(WindowRequests(items, limit)[k]) == |Windows(items, limit)[k]|
  {
    var windows, requests := Windows(items, limit), WindowRequests(items, limit);
    var pair := (text: string, aspect: string) => (text, aspect);
    assert AllValid(items, windows[k]) && requests[k] == WindowRequest(items, windows[k]);
    WindowRowsFollowRefs(items, pair, windows[k]);
    TotalIsFlattenedLength(pair, requests[k]);
  }

  /** Against the worker itself: pointwise exactly when the largest request fits the worker's
      cumulative ceiling, so always when the client's limit is no larger than the worker's. */
  lemma AspectsEndToEnd(items: seq<AspectInput>, maxBatch: pos, config: Config,
                        r: Result<seq<Row>, AspectError>, calls: seq<seq<AspectInput>>)
    requires var limit := maxBatch * ASPECT_BATCH_MULTIPLE;
             PairsResultFor(items, Refs(items), Windows(items, limit), WindowRequests(items, limit),
                            limit, PairStub(config), r, calls)
    ensures r.Ok? <==> Min(|Refs(items)|, maxBatch * 4) <= config.maxBatch * 4
    ensures r.Ok? ==>
        && |r.value| == |items|
        && forall i :: 0 <= i < |items| ==>
             && |r.value[i]| == |items[i].aspects|
             && forall j :: 0 <= j < |r.value[i]| ==>
                  r.value[i][j] == config.PairScore(items[i].text, items[i].aspects[j])
                                == ScoredPair(config, items[i].text, items[i].aspects[j])
    ensures maxBatch <= config.maxBatch ==> r.Ok?
    ensures r.Err? ==> r.error == PairsRejected(Min(|Refs(items)|, maxBatch * 4), maxBatch * 4) && |calls| == 1
  {
    var limit := maxBatch * ASPECT_BATCH_MULTIPLE;
    var stub, requests := PairStub(config), WindowRequests(items, limit);
    var h := (text: string, aspect: string) => config.PairScore(text, aspect);
    RequestsCorrect(items, limit);
    if Min(|Refs(items)|, limit) <= config.maxBatch * 4 {
      forall k | 0 <= k < |calls| ensures stub(k, calls[k]) == Answer(RowsOf(h, calls[k])) {
        assert calls[k] == requests[k];
        WorkerAnswersRows(config, calls[k]);
      }
      AspectsRefineMap(items, limit, stub, h, r, calls);
      forall text, aspect ensures config.PairScore(text, aspect) == ScoredPair(config, text, aspect) {
        WorkerReadsAsFar(config, text, aspect);
      }
    } else {
      RequestHoldsItsWindow(items, limit, 0);
      assert stub(0, requests[0]) == Exhausted;
      assert !PairsAnswered(stub, 0, requests[0]);
    }
  }

  lemma WorkerAnswersRows(config: Config, request: seq<AspectInput>)
    requires TotalAspects(request) <= config.maxBatch * 4
    ensures Worker.ClassifyAspects(config, request)
         == Answer(RowsOf((text: string, aspect: string) => config.PairScore(text, aspect), request))
  {
    var h := (text: string, aspect: string) => config.PairScore(text, aspect);
    forall g | 0 <= g < |request| ensures ScoreRow(config, request[g]) == RowOf(h, request[g]) {}
    assert Map((input: AspectInput) => ScoreRow(config, input), request) == RowsOf(h, request);
  }
}
