/** Teacher labelling of the training set: ml/sentilyzer_ml/pipeline/label.py. */
module Label {
  import opened Wrappers
  import opened Orders
  import opened Batching
  import opened Labelling

  type DocKey = (string, string)

  type Doc = Item<DocKey, string>

  const LONG_TEXT := 1200

  /** Shortest text first, then by key. */
  function WorkOrder(): (Doc, Doc) -> bool {
    (a: Doc, b: Doc) =>
      if |a.input| != |b.input| then |a.input| < |b.input|
      else if a.key.0 != b.key.0 then LexLeq(a.key.0, b.key.0)
      else LexLeq(a.key.1, b.key.1)
  }

  function Todo<P>(train: seq<Doc>, rows: seq<LabelRow<DocKey, P>>, version: string): seq<Doc> {
    Sort(WorkOrder(), Unlabelled(train, rows, version))
  }

  /** What the environment does to a run: the teacher's answers, call by call, and how many
      flushes land before a kill. */
  datatype LabelLife<!P> = LabelLife(ask: (nat, seq<string>) -> seq<P>, flushes: Option<nat>)

  /** Batches of near-maximal texts are half size. */
  predicate BatchFits(batch: seq<string>, batchSize: pos) {
    && 1 <= |batch| <= batchSize
    && ((exists t :: t in batch && |t| > 1200) ==> |batch| <= (batchSize + 1) / 2)
  }

  method LongestLength(chunk: seq<Doc>) returns (longest: nat)
    ensures forall i :: 0 <= i < |chunk| ==> |chunk[i].input| <= longest
    ensures chunk != [] ==> exists i :: 0 <= i < |chunk| && |chunk[i].input| == longest
  {
    longest := 0;
    for i := 0 to |chunk|
      invariant forall k :: 0 <= k < i ==> |chunk[k].input| <= longest
      invariant if i == 0 then longest == 0 else exists k :: 0 <= k < i && |chunk[k].input| == longest
    {
      if |chunk[i].input| > longest || i == 0 {
        longest := |chunk[i].input|;
      }
    }
  }

  predicate HoldsLongText(chunk: seq<Doc>) {
    exists i :: 0 <= i < |chunk| && |chunk[i].input| > 1200
  }

  /** A chunk of two or more that holds a long text is cut in half, any other is sent whole. */
  method PartsOf(chunk: seq<Doc>, batchSize: pos) returns (parts: seq<seq<Doc>>)
    requires 1 <= |chunk| <= batchSize
    ensures |parts| == if HoldsLongText(chunk) && |chunk| > 1 then 2 else 1
    ensures |parts| == 2 ==> |parts[0]| == |chunk| / 2
    ensures Flatten(parts) == chunk
    ensures forall k :: 0 <= k < |parts| ==> BatchFits(Inputs(parts[k]), batchSize)
  {
    var longest := LongestLength(chunk);
    if longest > LONG_TEXT && |chunk| > 1 {
      var mid := |chunk| / 2;
      parts := [chunk[..mid], chunk[mid..]];
      assert Flatten([chunk[mid..]]) == chunk[mid..] + Flatten([]);
      assert parts[1..] == [chunk[mid..]];
      assert chunk == chunk[..mid] + chunk[mid..];
    } else {
      parts := [chunk];
      assert Flatten([chunk]) == chunk + Flatten([]);
      forall t | t in Inputs(chunk) && |t| > LONG_TEXT ensures |chunk| == 1 {
        var i :| 0 <= i < |chunk| && Inputs(chunk)[i] == t;
        assert |chunk[i].input| <= longest;
      }
    }
  }

  predicate AllFit(batches: seq<seq<string>>, batchSize: pos) {
    forall k :: 0 <= k < |batches| ==> BatchFits(batches[k], batchSize)
  }

  /** One call of the teacher. */
  method LabelPart<P(!new)>(part: seq<Doc>, version: string, ask: (nat, seq<string>) -> seq<P>,
                            call: nat, ghost teach: string -> P)
      returns (rows: seq<LabelRow<DocKey, P>>, miscount: Option<LabelOutcome>)
    requires Frozen(ask, teach)
    ensures miscount.None? ==> rows == LabelsOf(part, teach, version) && |ask(call, Inputs(part))| == |part|
    ensures miscount.Some? ==>
        miscount.value == TeacherMiscounted(|ask(call, Inputs(part))|, |part|) && |ask(call, Inputs(part))| != |part|
  {
    rows := [];
    var preds := ask(call, Inputs(part));
    if |preds| != |part| {
      return [], Some(TeacherMiscounted(|preds|, |part|));
    }
    for i := 0 to |part|
      invariant rows == LabelsOf(part[..i], teach, version)
    {
      rows := rows + [LabelRow(part[i].key, preds[i], version)];
      assert part[..i + 1] == part[..i] + [part[i]];
    }
    assert part[..|part|] == part;
    miscount := None;
  }

  /** From this call on, each batch got as many answers as it has texts. */
  ghost predicate CountedFrom<P(!new)>(ask: (nat, seq<string>) -> seq<P>, base: nat, batches: seq<seq<string>>) {
    forall k :: 0 <= k < |batches| ==> |ask(base + k, batches[k])| == |batches[k]|
  }

  /** Every batch did but the last, and the outcome names its two counts. */
  ghost predicate MiscountedLast<P(!new)>(ask: (nat, seq<string>) -> seq<P>, base: nat, batches: seq<seq<string>>,
                                          outcome: LabelOutcome)
  {
    && batches != []
    && var last := |batches| - 1;
       && CountedFrom(ask, base, batches[..last])
       && outcome == TeacherMiscounted(|ask(base + last, batches[last])|, |batches[last]|)
       && outcome.got != outcome.want
  }

  /** Why a run ends as it does: it finishes if the teacher never miscounts and no kill comes
      before its last flush, is killed after exactly the flushes it was granted, and fails at the
      first batch that is miscounted. */
  ghost predicate EndsBecause<P(!new)>(life: LabelLife<P>, flushEvery: pos, todo: nat,
                                       outcome: LabelOutcome, newly: nat, batches: seq<seq<string>>)
  {
    match outcome
    case Finished =>
      CountedFrom(life.ask, 0, batches) && (life.flushes.Some? ==> life.flushes.value * flushEvery >= todo)
    case Killed =>
      CountedFrom(life.ask, 0, batches) && life.flushes.Some? && newly == life.flushes.value * flushEvery < todo
    case TeacherMiscounted(_, _) => MiscountedLast(life.ask, 0, batches, outcome)
  }

  lemma CountedAppend<P(!new)>(ask: (nat, seq<string>) -> seq<P>, a: seq<seq<string>>, b: seq<seq<string>>)
    requires CountedFrom(ask, 0, a)
    ensures CountedFrom(ask, |a|, b) ==> CountedFrom(ask, 0, a + b)
    ensures forall outcome :: MiscountedLast(ask, |a|, b, outcome) ==> MiscountedLast(ask, 0, a + b, outcome)
  {
    if b != [] {
      var last := |b| - 1;
      assert (a + b)[..|a + b| - 1] == a + b[..last];
      assert forall k :: |a| <= k < |a + b| ==> (a + b)[k] == b[k - |a|];
    }
  }

  lemma OneMoreCounted<P(!new)>(ask: (nat, seq<string>) -> seq<P>, base: nat, batches: seq<seq<string>>, batch: seq<string>)
    requires CountedFrom(ask, base, batches)
    ensures |ask(base + |batches|, batch)| == |batch| ==> CountedFrom(ask, base, batches + [batch])
    ensures |ask(base + |batches|, batch)| != |batch| ==>
        MiscountedLast(ask, base, batches + [batch], TeacherMiscounted(|ask(base + |batches|, batch)|, |batch|))
  {
    assert (batches + [batch])[..|batches|] == batches;
  }

  /** A run that stops before the flush of a window: the teacher miscounted, or it was killed. */
  lemma StopsBecause<P(!new)>(life: LabelLife<P>, flushEvery: pos, todo: nat, flushes: nat, done: nat,
                              batches: seq<seq<string>>, more: seq<seq<string>>, miscount: Option<LabelOutcome>)
    requires CountedFrom(life.ask, 0, batches) && done == flushes * flushEvery < todo
    requires miscount.Some? ==> MiscountedLast(life.ask, |batches|, more, miscount.value)
    requires miscount.None? ==> CountedFrom(life.ask, |batches|, more) && life.flushes == Some(flushes)
    ensures EndsBecause(life, flushEvery, todo, if miscount.Some? then miscount.value else Killed, done, batches + more)
  {
    CountedAppend(life.ask, batches, more);
  }

  /** A run that flushes its last window. */
  lemma FinishesBecause<P(!new)>(life: LabelLife<P>, flushEvery: pos, todo: nat, flushes: nat, batches: seq<seq<string>>)
    requires CountedFrom(life.ask, 0, batches) && flushes * flushEvery >= todo
    requires life.flushes.Some? ==> life.flushes.value >= flushes
    ensures EndsBecause(life, flushEvery, todo, Finished, todo, batches)
  {
    MoreFlushesReachFurther(flushes, life.flushes.GetOr(flushes), flushEvery);
  }

  /** What the parts of a chunk are: pieces of the window from start, small enough to send. */
  ghost predicate ArePartsAt(window: seq<Doc>, start: nat, parts: seq<seq<Doc>>, batchSize: pos) {
    && start + |Flatten(parts)| <= |window| && Flatten(parts) == window[start..start + |Flatten(parts)|]
    && forall k :: 0 <= k < |parts| ==> BatchFits(Inputs(parts[k]), batchSize)
  }

  /** What sending the next part makes of the work done so far. */
  lemma PartGoesOut<P(!new)>(window: seq<Doc>, start: nat, parts: seq<seq<Doc>>, k: nat, version: string,
                             batchSize: pos, teach: string -> P,
                             rows: seq<LabelRow<DocKey, P>>, batches: seq<seq<string>>)
    requires ArePartsAt(window, start, parts, batchSize) && k < |parts| && AllFit(batches, batchSize)
    requires WindowProgress(window, start + |Flatten(parts[..k])|, teach, version, rows, batches)
    ensures var batches' := batches + [Inputs(parts[k])];
            && AllFit(batches', batchSize)
            && WindowProgress(window, start + |Flatten(parts[..k + 1])|, teach, version,
                              rows + LabelsOf(parts[k], teach, version), batches')
            && Flatten(batches') <= Inputs(window)
  {
    PartAt(window, start, parts, k);
    WindowGrows(window, start + |Flatten(parts[..k])|, parts[k], teach, version, rows, batches);
  }

  /** The next part of one chunk; a batch that was miscounted is among those asked. */
  method LabelNextPart<P(!new)>(window: seq<Doc>, ghost start: nat, parts: seq<seq<Doc>>, k: nat, version: string,
                                ask: (nat, seq<string>) -> seq<P>, call: nat, batchSize: pos, ghost teach: string -> P,
                                rows: seq<LabelRow<DocKey, P>>, batches: seq<seq<string>>, ghost base: nat)
      returns (rows': seq<LabelRow<DocKey, P>>, batches': seq<seq<string>>, miscount: Option<LabelOutcome>)
    requires Frozen(ask, teach) && ArePartsAt(window, start, parts, batchSize) && k < |parts|
    requires WindowProgress(window, start + |Flatten(parts[..k])|, teach, version, rows, batches)
    requires AllFit(batches, batchSize) && call == base + |batches| && CountedFrom(ask, base, batches)
    ensures miscount.None? ==> |batches'| == |batches| + 1 && CountedFrom(ask, base, batches')
    ensures miscount.Some? ==> MiscountedLast(ask, base, batches', miscount.value)
    ensures AllFit(batches', batchSize)
    ensures miscount.None? ==>
        WindowProgress(window, start + |Flatten(parts[..k + 1])|, teach, version, rows', batches')
    ensures miscount.Some? ==> miscount.value.TeacherMiscounted? && Flatten(batches') <= Inputs(window)
  {
    PartGoesOut(window, start, parts, k, version, batchSize, teach, rows, batches);
    var more;
    more, miscount := LabelPart(parts[k], version, ask, call, teach);
    rows', batches' := rows + more, batches + [Inputs(parts[k])];
    OneMoreCounted(ask, base, batches, Inputs(parts[k]));
  }

  /** The parts of one chunk, in order. */
  method LabelParts<P(!new)>(window: seq<Doc>, start: nat, parts: seq<seq<Doc>>, version: string,
                             ask: (nat, seq<string>) -> seq<P>, call: nat, batchSize: pos, ghost teach: string -> P,
                             rows: seq<LabelRow<DocKey, P>>, batches: seq<seq<string>>, ghost base: nat)
      returns (rows': seq<LabelRow<DocKey, P>>, batches': seq<seq<string>>, miscount: Option<LabelOutcome>)
    requires Frozen(ask, teach) && WindowProgress(window, start, teach, version, rows, batches)
    requires ArePartsAt(window, start, parts, batchSize) && AllFit(batches, batchSize)
    requires call == base + |batches| && CountedFrom(ask, base, batches)
    ensures miscount.None? ==> CountedFrom(ask, base, batches')
    ensures miscount.Some? ==> MiscountedLast(ask, base, batches', miscount.value)
    ensures AllFit(batches', batchSize)
    ensures miscount.None? ==>
        WindowProgress(window, start + |Flatten(parts)|, teach, version, rows', batches')
    ensures miscount.Some? ==> miscount.value.TeacherMiscounted? && Flatten(batches') <= Inputs(window)
  {
    rows', batches' := rows, batches;
    for k := 0 to |parts|
      invariant WindowProgress(window, start + |Flatten(parts[..k])|, teach, version, rows', batches')
      invariant AllFit(batches', batchSize) && |batches'| == |batches| + k && CountedFrom(ask, base, batches')
    {
      rows', batches', miscount :=
        LabelNextPart(window, start, parts, k, version, ask, call + k, batchSize, teach, rows', batches', base);
      if miscount.Some? {
        return;
      }
    }
    assert parts[..|parts|] == parts;
    miscount := None;
  }

  lemma PartAt(window: seq<Doc>, start: nat, parts: seq<seq<Doc>>, k: nat)
    requires k < |parts|
    requires start + |Flatten(parts)| <= |window| && Flatten(parts) == window[start..start + |Flatten(parts)|]
    ensures var done := start + |Flatten(parts[..k])|;
            && done + |parts[k]| <= start + |Flatten(parts)|
            && parts[k] == window[done..done + |parts[k]|]
            && done + |parts[k]| == start + |Flatten(parts[..k + 1])|
  {
    FlattenSplit(parts, k);
    MiddleOfSlice(window, start, Flatten(parts[..k]), parts[k], Flatten(parts[k + 1..]));
    assert parts[..k + 1] == parts[..k] + [parts[k]];
    FlattenSnoc(parts[..k], parts[k]);
  }

  /** All chunks of one window. */
  method LabelWindow<P(!new)>(window: seq<Doc>, version: string, ask: (nat, seq<string>) -> seq<P>,
                              call: nat, batchSize: pos, ghost teach: string -> P)
      returns (rows: seq<LabelRow<DocKey, P>>, batches: seq<seq<string>>, miscount: Option<LabelOutcome>)
    requires Frozen(ask, teach)
    ensures miscount.None? ==> WindowProgress(window, |window|, teach, version, rows, batches)
    ensures miscount.Some? ==> miscount.value.TeacherMiscounted? && Flatten(batches) <= Inputs(window)
    ensures AllFit(batches, batchSize)
    ensures miscount.None? ==> CountedFrom(ask, call, batches)
    ensures miscount.Some? ==> MiscountedLast(ask, call, batches, miscount.value)
  {
    rows, batches := [], [];
    var start := 0;
    while start < |window|
      invariant start <= |window|
      invariant WindowProgress(window, start, teach, version, rows, batches) && AllFit(batches, batchSize)
      invariant CountedFrom(ask, call, batches)
    {
      var chunk := window[start..Min(start + batchSize, |window|)];
      var parts := PartsOf(chunk, batchSize);
      rows, batches, miscount :=
        LabelParts(window, start, parts, version, ask, call + |batches|, batchSize, teach, rows, batches, call);
      if miscount.Some? {
        return;
      }
      start := start + |chunk|;
    }
    miscount := None;
  }

  /** The run between windows. */
  ghost predicate RunningAt<P(!new)>(
    todo: seq<Doc>, teach: string -> P, version: string, flushEvery: pos, batchSize: pos, life: LabelLife<P>,
    before: seq<LabelRow<DocKey, P>>, now: seq<LabelRow<DocKey, P>>, flushes: nat, done: nat, batches: seq<seq<string>>)
  {
    && RunProgress(todo, teach, version, flushEvery, before, now, flushes, done, batches)
    && AllFit(batches, batchSize) && CountedFrom(life.ask, 0, batches)
    && (life.flushes.Some? ==> life.flushes.value >= flushes)
  }

  /** What a run leaves behind, and why it ended. */
  ghost predicate RunEnds<P(!new)>(
    todo: seq<Doc>, teach: string -> P, version: string, flushEvery: pos, batchSize: pos, life: LabelLife<P>,
    before: seq<LabelRow<DocKey, P>>, after: seq<LabelRow<DocKey, P>>,
    outcome: LabelOutcome, newly: nat, batches: seq<seq<string>>)
  {
    && RunLeaves(todo, teach, version, flushEvery, before, after, outcome, newly, batches)
    && AllFit(batches, batchSize) && EndsBecause(life, flushEvery, |todo|, outcome, newly, batches)
  }

  function NextTodo(todo: seq<Doc>, done: nat, flushEvery: pos): seq<Doc>
    requires done <= |todo|
  {
    todo[done..Min(done + flushEvery, |todo|)]
  }

  lemma WindowFlushed<P(!new)>(
    todo: seq<Doc>, teach: string -> P, version: string, flushEvery: pos, batchSize: pos, life: LabelLife<P>,
    before: seq<LabelRow<DocKey, P>>, now: seq<LabelRow<DocKey, P>>, flushes: nat, done: nat, batches: seq<seq<string>>,
    rows: seq<LabelRow<DocKey, P>>, more: seq<seq<string>>)
    requires RunningAt(todo, teach, version, flushEvery, batchSize, life, before, now, flushes, done, batches)
    requires done < |todo| && life.flushes != Some(flushes)
    requires var window := NextTodo(todo, done, flushEvery); WindowProgress(window, |window|, teach, version, rows, more)
    requires AllFit(more, batchSize) && CountedFrom(life.ask, |batches|, more)
    ensures |rows| == |NextTodo(todo, done, flushEvery)| > 0 && done + |rows| <= |todo|
    ensures RunningAt(todo, teach, version, flushEvery, batchSize, life, before, now + rows,
                      flushes + 1, done + |rows|, batches + more)
  {
    FlushedWindow(todo, teach, version, flushEvery, before, now, flushes, done, batches,
                  NextTodo(todo, done, flushEvery), rows, more);
    CountedAppend(life.ask, batches, more);
  }

  lemma WindowStopped<P(!new)>(
    todo: seq<Doc>, teach: string -> P, version: string, flushEvery: pos, batchSize: pos, life: LabelLife<P>,
    before: seq<LabelRow<DocKey, P>>, now: seq<LabelRow<DocKey, P>>, flushes: nat, done: nat, batches: seq<seq<string>>,
    more: seq<seq<string>>, miscount: Option<LabelOutcome>)
    requires RunningAt(todo, teach, version, flushEvery, batchSize, life, before, now, flushes, done, batches)
    requires done < |todo| && Flatten(more) <= Inputs(NextTodo(todo, done, flushEvery)) && AllFit(more, batchSize)
    requires miscount.Some? ==>
        miscount.value.TeacherMiscounted? && MiscountedLast(life.ask, |batches|, more, miscount.value)
    requires miscount.None? ==> CountedFrom(life.ask, |batches|, more) && life.flushes == Some(flushes)
    ensures RunEnds(todo, teach, version, flushEvery, batchSize, life, before, now,
                    if miscount.Some? then miscount.value else Killed, done, batches + more)
  {
    StopsBecause(life, flushEvery, |todo|, flushes, done, batches, more, miscount);
    StoppedRun(todo, teach, version, flushEvery, before, now, flushes, done, batches, more,
               if miscount.Some? then miscount.value else Killed);
  }

  lemma LastWindowFlushed<P(!new)>(
    todo: seq<Doc>, teach: string -> P, version: string, flushEvery: pos, batchSize: pos, life: LabelLife<P>,
    before: seq<LabelRow<DocKey, P>>, now: seq<LabelRow<DocKey, P>>, flushes: nat, batches: seq<seq<string>>)
    requires RunningAt(todo, teach, version, flushEvery, batchSize, life, before, now, flushes, |todo|, batches)
    ensures RunEnds(todo, teach, version, flushEvery, batchSize, life, before, now, Finished, |todo|, batches)
  {
    FinishedRun(todo, teach, version, flushEvery, before, now, flushes, |todo|, batches);
    FinishesBecause(life, flushEvery, |todo|, flushes, batches);
  }

  /** The flush loop over the texts still to be labelled. */
  method LabelTodo<P(!new)>(
      todo: seq<Doc>, file: LabelFile<DocKey, P>, batchSize: pos, version: string, flushEvery: pos,
      life: LabelLife<P>, ghost teach: string -> P)
      returns (outcome: LabelOutcome, newly: nat, batches: seq<seq<string>>)
    requires Frozen(life.ask, teach)
    modifies file
    ensures RunEnds(todo, teach, version, flushEvery, batchSize, life, old(file.Rows()), file.Rows(),
                    outcome, newly, batches)
    ensures newly == 0 ==> file.content == old(file.content)
  {
    ghost var before := file.Rows();
    newly, batches := 0, [];
    var flushes := 0;
    while newly < |todo|
      invariant newly <= |todo|
      invariant RunningAt(todo, teach, version, flushEvery, batchSize, life, before, file.Rows(), flushes, newly, batches)
      invariant newly == 0 ==> file.content == old(file.content)
    {
      var window := NextTodo(todo, newly, flushEvery);
      var rows, more, miscount := LabelWindow(window, version, life.ask, |batches|, batchSize, teach);
      if miscount.Some? || life.flushes == Some(flushes) {
        outcome := if miscount.Some? then miscount.value else Killed;
        assert window[..|window|] == window;
        WindowStopped(todo, teach, version, flushEvery, batchSize, life, before, file.Rows(),
                      flushes, newly, batches, more, miscount);
        return outcome, newly, batches + more;
      }
      WindowFlushed(todo, teach, version, flushEvery, batchSize, life, before, file.Rows(),
                    flushes, newly, batches, rows, more);
      file.Append(rows);
      newly, batches, flushes := newly + |rows|, batches + more, flushes + 1;
    }
    LastWindowFlushed(todo, teach, version, flushEvery, batchSize, life, before, file.Rows(), flushes, batches);
    outcome := Finished;
  }

  /** label_training_set, run once against one environment. */
  method LabelTrainingSet<P(!new)>(
      train: seq<Doc>, file: LabelFile<DocKey, P>, batchSize: pos, version: string, flushEvery: pos,
      life: LabelLife<P>, ghost teach: string -> P)
      returns (outcome: LabelOutcome, stats: LabelStats, batches: seq<seq<string>>)
    requires Frozen(life.ask, teach)
    modifies file
    ensures RunLeaves(Todo(train, old(file.Rows()), version), teach, version, flushEvery,
                      old(file.Rows()), file.Rows(), outcome, stats.newly, batches)
    ensures stats.total == |train|
    ensures stats.already == |train| - |Unlabelled(train, old(file.Rows()), version)|
    ensures stats.newly == 0 ==> file.content == old(file.content)
    ensures AllFit(batches, batchSize)
    ensures EndsBecause(life, flushEvery, |Todo(train, old(file.Rows()), version)|, outcome, stats.newly, batches)
  {
    var todo := Todo(train, file.Rows(), version);
    var newly;
    outcome, newly, batches := LabelTodo(todo, file, batchSize, version, flushEvery, life, teach);
    stats := LabelStats(|train|, |train| - |todo|, newly);
  }
}
