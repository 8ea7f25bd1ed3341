/**
 Teacher labelling of (document, aspect) pairs: ml/sentilyzer_ml/pipeline/label_aspects.py.
 The miner and md5 are uninterpreted functions.
 */
module LabelAspects {
  import opened Wrappers
  import opened Orders
  import opened Batching
  import opened Labelling
  import opened Label

  /** (platform, doc_id, aspect), shown to the teacher as (text, aspect). */
  type PairKey = (string, string, string)

  type Pair = Item<PairKey, (string, string)>

  const MAX_ASPECTS_PER_DOC := 2
  const SEPARATOR := "\U{1F}"

  datatype MineConfig = MineConfig(
    mine: string -> seq<string>, md5: string -> string, mineDocsCap: nat, maxPairs: nat)

  /* ---------- the capped pair set ---------- */

  function MineOrder(md5: string -> string): (Doc, Doc) -> bool {
    (a: Doc, b: Doc) =>
      var ha, hb := md5(a.key.0 + SEPARATOR + a.key.1), md5(b.key.0 + SEPARATOR + b.key.1);
      if ha != hb then LexLeq(ha, hb)
      else if a.key.0 != b.key.0 then LexLeq(a.key.0, b.key.0)
      else LexLeq(a.key.1, b.key.1)
  }

  function DocsToMine(train: seq<Doc>, cfg: MineConfig): seq<Doc> {
    Sort(MineOrder(cfg.md5), train)[..Min(|train|, cfg.mineDocsCap)]
  }

  /** First occurrences, in order. */
  function FirstDistinct(xs: seq<string>): (r: seq<string>)
    ensures forall x :: x in r <==> x in xs
    ensures forall i, j :: 0 <= i < j < |r| ==> r[i] != r[j]
  {
    if xs == [] then []
    else
      var before, last := FirstDistinct(xs[..|xs| - 1]), xs[|xs| - 1];
      assert xs == xs[..|xs| - 1] + [last];
      if last in before then before else before + [last]
  }

  function AspectsOf(text: string, cfg: MineConfig): (r: seq<string>)
    ensures |r| <= MAX_ASPECTS_PER_DOC && forall i, j :: 0 <= i < j < |r| ==> r[i] != r[j]
  {
    var all := FirstDistinct(cfg.mine(text));
    all[..Min(|all|, MAX_ASPECTS_PER_DOC)]
  }

  /** Nothing before it in the list is the same. */
  predicate OccursFirst(xs: seq<string>, i: nat)
    requires i < |xs|
  {
    forall j :: 0 <= j < i ==> xs[j] != xs[i]
  }

  /** The positions of first occurrences, in order, all of them. */
  ghost predicate AreFirsts(xs: seq<string>, at: seq<nat>) {
    && (forall k :: 0 <= k < |at| ==> at[k] < |xs| && OccursFirst(xs, at[k]))
    && (forall k, l :: 0 <= k < l < |at| ==> at[k] < at[l])
    && (forall i :: 0 <= i < |xs| && OccursFirst(xs, i) ==> i in at)
  }

  ghost predicate ArePicked(xs: seq<string>, at: seq<nat>, r: seq<string>) {
    |r| == |at| && forall k :: 0 <= k < |r| ==> at[k] < |xs| && r[k] == xs[at[k]]
  }

  lemma OccursFirstSnoc(xs: seq<string>, x: string, i: nat)
    requires i <= |xs|
    ensures OccursFirst(xs + [x], i) <==> if i < |xs| then OccursFirst(xs, i) else x !in xs
  {
    var all := xs + [x];
    assert forall j :: 0 <= j < |xs| ==> all[j] == xs[j];
  }

  lemma FirstsSnoc(xs: seq<string>, x: string, at: seq<nat>)
    requires AreFirsts(xs, at)
    ensures AreFirsts(xs + [x], if x in xs then at else at + [|xs|])
  {
    var next := if x in xs then at else at + [|xs|];
    forall k | 0 <= k < |next| ensures next[k] < |xs| + 1 && OccursFirst(xs + [x], next[k]) {
      OccursFirstSnoc(xs, x, next[k]);
    }
    forall i | 0 <= i < |xs| + 1 && OccursFirst(xs + [x], i) ensures i in next {
      OccursFirstSnoc(xs, x, i);
      assert x !in xs ==> next[|at|] == |xs|;
      assert i in at ==> i in next;
    }
  }

  lemma PickedSnoc(xs: seq<string>, x: string, at: seq<nat>, r: seq<string>)
    requires ArePicked(xs, at, r)
    ensures ArePicked(xs + [x], at, r) && ArePicked(xs + [x], at + [|xs|], r + [x])
  {
  }

  ghost predicate PicksFirsts(xs: seq<string>, at: seq<nat>, r: seq<string>) {
    AreFirsts(xs, at) && ArePicked(xs, at, r)
  }

  lemma PicksFirstsSnoc(xs: seq<string>, x: string, at: seq<nat>, r: seq<string>)
    requires PicksFirsts(xs, at, r)
    ensures if x in xs then PicksFirsts(xs + [x], at, r) else PicksFirsts(xs + [x], at + [|xs|], r + [x])
  {
    FirstsSnoc(xs, x, at);
    PickedSnoc(xs, x, at, r);
  }

  lemma SnocFirst(xs: seq<string>, x: string)
    ensures FirstDistinct(xs + [x]) == if x in xs then FirstDistinct(xs) else FirstDistinct(xs) + [x]
  {
    assert (xs + [x])[..|xs|] == xs;
  }

  lemma {:induction false} FirstDistinctInOrder(xs: seq<string>) returns (at: seq<nat>)
    ensures PicksFirsts(xs, at, FirstDistinct(xs))
  {
    at := [];
    if xs != [] {
      var init, last := xs[..|xs| - 1], xs[|xs| - 1];
      var before := FirstDistinctInOrder(init);
      PicksFirstsSnoc(init, last, before, FirstDistinct(init));
      SnocFirst(init, last);
      SplitLast(xs);
      at := if last in init then before else before + [|init|];
    }
  }

  lemma SplitLast(xs: seq<string>)
    requires xs != []
    ensures xs[..|xs| - 1] + [xs[|xs| - 1]] == xs
  {
  }

  /** A document's aspects are the first two different ones mined from its text, in the order they
      were mined; fewer only if no more were. */
  lemma AspectsAreTheFirstTwo(text: string, cfg: MineConfig) returns (at: seq<nat>)
    ensures AreFirsts(cfg.mine(text), at)
    ensures |AspectsOf(text, cfg)| == if |at| < 2 then |at| else 2
    ensures forall k :: 0 <= k < |AspectsOf(text, cfg)| ==>
        at[k] < |cfg.mine(text)| && AspectsOf(text, cfg)[k] == cfg.mine(text)[at[k]]
  {
    at := FirstDistinctInOrder(cfg.mine(text));
  }

  function PairsOfDoc(d: Doc, cfg: MineConfig): (r: seq<Pair>)
    ensures |r| == |AspectsOf(d.input, cfg)|
    ensures forall k :: 0 <= k < |r| ==>
        r[k] == Item((d.key.0, d.key.1, AspectsOf(d.input, cfg)[k]), (d.input, AspectsOf(d.input, cfg)[k]))
  {
    var aspects := AspectsOf(d.input, cfg);
    seq(|aspects|, k requires 0 <= k < |aspects| =>
      Item((d.key.0, d.key.1, aspects[k]), (d.input, aspects[k])))
  }

  function PairRows(docs: seq<Doc>, cfg: MineConfig): seq<Pair> {
    if docs == [] then []
    else PairRows(docs[..|docs| - 1], cfg) + PairsOfDoc(docs[|docs| - 1], cfg)
  }

  method MinePairs(docs: seq<Doc>, cfg: MineConfig) returns (pairs: seq<Pair>)
    ensures pairs == PairRows(docs, cfg)
  {
    pairs := [];
    for i := 0 to |docs|
      invariant pairs == PairRows(docs[..i], cfg)
    {
      assert docs[..i + 1][..i] == docs[..i];
      var aspects := AspectsOf(docs[i].input, cfg);
      ghost var before := pairs;
      for k := 0 to |aspects|
        invariant pairs == before + PairsOfDoc(docs[i], cfg)[..k]
      {
        pairs := pairs + [Item((docs[i].key.0, docs[i].key.1, aspects[k]), (docs[i].input, aspects[k]))];
      }
    }
    assert docs[..|docs|] == docs;
  }

  function ByPairHash(md5: string -> string): (Pair, Pair) -> bool {
    (a: Pair, b: Pair) =>
      LexLeq(md5(a.key.0 + SEPARATOR + a.key.1 + SEPARATOR + a.key.2),
             md5(b.key.0 + SEPARATOR + b.key.1 + SEPARATOR + b.key.2))
  }

  /** The pairs the labeller will ever ask about. */
  function CappedPairs(train: seq<Doc>, cfg: MineConfig): seq<Pair> {
    var pairs := PairRows(DocsToMine(train, cfg), cfg);
    Sort(ByPairHash(cfg.md5), pairs)[..Min(|pairs|, cfg.maxPairs)]
  }

  function PairWorkOrder(): (Pair, Pair) -> bool {
    (a: Pair, b: Pair) =>
      if |a.input.0| != |b.input.0| then |a.input.0| < |b.input.0|
      else if a.key.0 != b.key.0 then LexLeq(a.key.0, b.key.0)
      else if a.key.1 != b.key.1 then LexLeq(a.key.1, b.key.1)
      else LexLeq(a.key.2, b.key.2)
  }

  function PairTodo<P>(capped: seq<Pair>, rows: seq<LabelRow<PairKey, P>>, version: string): seq<Pair> {
    Sort(PairWorkOrder(), Unlabelled(capped, rows, version))
  }

  /* ---------- one run ---------- */

  /** The teacher answers a list of rows, one per pair, each holding one score per aspect asked:
      one. It may return the wrong number of rows, or a row of the wrong length. */
  datatype PairLife<!P> = PairLife(
    ask: (nat, seq<(string, string)>) -> seq<seq<P>>, flushes: Option<nat>)

  ghost predicate FrozenRows<P(!new)>(ask: (nat, seq<(string, string)>) -> seq<seq<P>>, teach: ((string, string)) -> P) {
    forall call, inputs, i ::
      0 <= i < |inputs| == |ask(call, inputs)| && |ask(call, inputs)[i]| == 1
      ==> ask(call, inputs)[i][0] == teach(inputs[i])
  }

  /** The answer is one row a pair, of one score each. */
  predicate OneEach<P>(rows: seq<seq<P>>, n: nat) {
    |rows| == n && forall i :: 0 <= i < n ==> |rows[i]| == 1
  }

  /** What the error says of a bad answer: the number of rows, or the first row's that is not one. */
  ghost predicate NamesMiscount<P(!new)>(rows: seq<seq<P>>, n: nat, outcome: LabelOutcome) {
    if |rows| != n then outcome == TeacherMiscounted(|rows|, n)
    else exists i ::
      && 0 <= i < n && |rows[i]| != 1 && outcome == TeacherMiscounted(|rows[i]|, 1)
      && forall j :: 0 <= j < i ==> |rows[j]| == 1
  }

  ghost predicate PairsCountedFrom<P(!new)>(ask: (nat, seq<(string, string)>) -> seq<seq<P>>, base: nat,
                                            batches: seq<seq<(string, string)>>)
  {
    forall k :: 0 <= k < |batches| ==> OneEach(ask(base + k, batches[k]), |batches[k]|)
  }

  ghost predicate PairsMiscountedLast<P(!new)>(ask: (nat, seq<(string, string)>) -> seq<seq<P>>, base: nat,
                                               batches: seq<seq<(string, string)>>, outcome: LabelOutcome)
  {
    && batches != []
    && var last := |batches| - 1;
       PairsCountedFrom(ask, base, batches[..last])
       && NamesMiscount(ask(base + last, batches[last]), |batches[last]|, outcome)
  }

  /** Why a run of the pair labeller ends as it does, likewise. */
  ghost predicate PairsEndBecause<P(!new)>(life: PairLife<P>, flushEvery: pos, todo: nat, outcome: LabelOutcome,
                                           newly: nat, batches: seq<seq<(string, string)>>)
  {
    match outcome
    case Finished =>
      PairsCountedFrom(life.ask, 0, batches) && (life.flushes.Some? ==> life.flushes.value * flushEvery >= todo)
    case Killed =>
      PairsCountedFrom(life.ask, 0, batches) && life.flushes.Some? && newly == life.flushes.value * flushEvery < todo
    case TeacherMiscounted(_, _) => PairsMiscountedLast(life.ask, 0, batches, outcome)
  }

  lemma PairsCountedAppend<P(!new)>(ask: (nat, seq<(string, string)>) -> seq<seq<P>>,
                                    a: seq<seq<(string, string)>>, b: seq<seq<(string, string)>>)
    requires PairsCountedFrom(ask, 0, a)
    ensures PairsCountedFrom(ask, |a|, b) ==> PairsCountedFrom(ask, 0, a + b)
    ensures forall outcome :: PairsMiscountedLast(ask, |a|, b, outcome) ==> PairsMiscountedLast(ask, 0, a + b, outcome)
  {
    if b != [] {
      var last := |b| - 1;
      assert (a + b)[..|a + b| - 1] == a + b[..last];
      assert forall k :: |a| <= k < |a + b| ==> (a + b)[k] == b[k - |a|];
    }
  }

  lemma PairsStopBecause<P(!new)>(life: PairLife<P>, flushEvery: pos, todo: nat, flushes: nat, done: nat,
                                  batches: seq<seq<(string, string)>>, more: seq<seq<(string, string)>>,
                                  miscount: Option<LabelOutcome>)
    requires PairsCountedFrom(life.ask, 0, batches) && done == flushes * flushEvery < todo
    requires miscount.Some? ==>
        miscount.value.TeacherMiscounted? && PairsMiscountedLast(life.ask, |batches|, more, miscount.value)
    requires miscount.None? ==> PairsCountedFrom(life.ask, |batches|, more) && life.flushes == Some(flushes)
    ensures PairsEndBecause(life, flushEvery, todo, if miscount.Some? then miscount.value else Killed, done, batches + more)
  {
    PairsCountedAppend(life.ask, batches, more);
  }

  lemma PairsFinishBecause<P(!new)>(life: PairLife<P>, flushEvery: pos, todo: nat, flushes: nat,
                                    batches: seq<seq<(string, string)>>)
    requires PairsCountedFrom(life.ask, 0, batches) && flushes * flushEvery >= todo
    requires life.flushes.Some? ==> life.flushes.value >= flushes
    ensures PairsEndBecause(life, flushEvery, todo, Finished, todo, batches)
  {
    MoreFlushesReachFurther(flushes, life.flushes.GetOr(flushes), flushEvery);
  }

  /** Nothing is left to label. */
  lemma NothingToLabel<P(!new)>(train: seq<Doc>, cfg: MineConfig, rows: seq<LabelRow<PairKey, P>>, version: string,
                                flushEvery: pos, life: PairLife<P>, teach: ((string, string)) -> P)
    requires PairTodo(CappedPairs(train, cfg), rows, version) == []
    ensures RunLeaves(PairTodo(CappedPairs(train, cfg), rows, version), teach, version, flushEvery,
                      rows, rows, Finished, 0, [])
    ensures PairsEndBecause(life, flushEvery, |PairTodo(CappedPairs(train, cfg), rows, version)|, Finished, 0, [])
    ensures |Unlabelled(CappedPairs(train, cfg), rows, version)| == 0
  {
    var todo := PairTodo(CappedPairs(train, cfg), rows, version);
    assert rows + LabelsOf(todo[..0], teach, version) == rows;
    PairsFinishBecause(life, flushEvery, 0, 0, []);
  }

  lemma NoPairsNoTodo<P(!new)>(train: seq<Doc>, cfg: MineConfig, rows: seq<LabelRow<PairKey, P>>, version: string)
    requires PairRows(DocsToMine(train, cfg), cfg) == []
    ensures CappedPairs(train, cfg) == [] && PairTodo(CappedPairs(train, cfg), rows, version) == []
  {
  }

  method LabelChunk<P(!new)>(chunk: seq<Pair>, version: string,
                             ask: (nat, seq<(string, string)>) -> seq<seq<P>>, call: nat,
                             ghost teach: ((string, string)) -> P)
      returns (rows: seq<LabelRow<PairKey, P>>, miscount: Option<LabelOutcome>)
    requires FrozenRows(ask, teach)
    ensures miscount.None? ==> rows == LabelsOf(chunk, teach, version)
    ensures miscount.None? <==>
        |ask(call, Inputs(chunk))| == |chunk| && forall i :: 0 <= i < |chunk| ==> |ask(call, Inputs(chunk))[i]| == 1
    ensures miscount.Some? ==>
        miscount.value.TeacherMiscounted? && NamesMiscount(ask(call, Inputs(chunk)), |chunk|, miscount.value)
  {
    rows := [];
    var results := ask(call, Inputs(chunk));
    if |results| != |chunk| {
      return [], Some(TeacherMiscounted(|results|, |chunk|));
    }
    for i := 0 to |chunk|
      invariant rows == LabelsOf(chunk[..i], teach, version)
      invariant forall k :: 0 <= k < i ==> |results[k]| == 1
    {
      if |results[i]| != 1 {
        return rows, Some(TeacherMiscounted(|results[i]|, 1));
      }
      assert results[i][0] == teach(Inputs(chunk)[i]);
      rows := rows + [LabelRow(chunk[i].key, results[i][0], version)];
      assert chunk[..i + 1] == chunk[..i] + [chunk[i]];
    }
    assert chunk[..|chunk|] == chunk;
    miscount := None;
  }

  method LabelPairWindow<P(!new)>(window: seq<Pair>, version: string,
                                  ask: (nat, seq<(string, string)>) -> seq<seq<P>>, call: nat, batchSize: pos,
                                  ghost teach: ((string, string)) -> P)
      returns (rows: seq<LabelRow<PairKey, P>>, batches: seq<seq<(string, string)>>, miscount: Option<LabelOutcome>)
    requires FrozenRows(ask, teach)
    ensures miscount.None? ==> WindowProgress(window, |window|, teach, version, rows, batches)
    ensures miscount.Some? ==> miscount.value.TeacherMiscounted? && Flatten(batches) <= Inputs(window)
    ensures forall k :: 0 <= k < |batches| ==> |batches[k]| <= batchSize
    ensures miscount.None? ==> PairsCountedFrom(ask, call, batches)
    ensures miscount.Some? ==> PairsMiscountedLast(ask, call, batches, miscount.value)
  {
    rows, batches := [], [];
    var start := 0;
    while start < |window|
      invariant start <= |window|
      invariant WindowProgress(window, start, teach, version, rows, batches)
      invariant forall k :: 0 <= k < |batches| ==> |batches[k]| <= batchSize
      invariant PairsCountedFrom(ask, call, batches)
    {
      var chunk := window[start..Min(start + batchSize, |window|)];
      WindowGrows(window, start, chunk, teach, version, rows, batches);
      var more;
      more, miscount := LabelChunk(chunk, version, ask, call + |batches|, teach);
      assert (batches + [Inputs(chunk)])[..|batches|] == batches;
      batches := batches + [Inputs(chunk)];
      if miscount.Some? {
        return;
      }
      rows := rows + more;
      start := start + |chunk|;
    }
    miscount := None;
  }

  /** The flush loop over the pairs still to be labelled. */
  method LabelPairs<P(!new)>(
      todo: seq<Pair>, file: LabelFile<PairKey, P>, batchSize: pos, version: string, flushEvery: pos,
      life: PairLife<P>, ghost teach: ((string, string)) -> P)
      returns (outcome: LabelOutcome, newly: nat, batches: seq<seq<(string, string)>>)
    requires FrozenRows(life.ask, teach) && todo != []
    modifies file
    ensures RunLeaves(todo, teach, version, flushEvery, old(file.Rows()), file.Rows(), outcome, newly, batches)
    ensures newly == 0 ==> file.content == old(file.content)
    ensures forall k :: 0 <= k < |batches| ==> |batches[k]| <= batchSize
    ensures PairsEndBecause(life, flushEvery, |todo|, outcome, newly, batches)
  {
    ghost var before := file.Rows();
    newly, batches := 0, [];
    var flushes := 0;
    while newly < |todo|
      invariant newly <= |todo|
      invariant RunProgress(todo, teach, version, flushEvery, before, file.Rows(), flushes, newly, batches)
      invariant forall k :: 0 <= k < |batches| ==> |batches[k]| <= batchSize
      invariant newly == 0 ==> file.content == old(file.content)
      invariant PairsCountedFrom(life.ask, 0, batches) && (life.flushes.Some? ==> life.flushes.value >= flushes)
    {
      var window := todo[newly..Min(newly + flushEvery, |todo|)];
      var rows, more, miscount := LabelPairWindow(window, version, life.ask, |batches|, batchSize, teach);
      if miscount.Some? || life.flushes == Some(flushes) {
        outcome := if miscount.Some? then miscount.value else Killed;
        PairsStopBecause(life, flushEvery, |todo|, flushes, newly, batches, more, miscount);
        assert window[..|window|] == window;
        StoppedRun(todo, teach, version, flushEvery, before, file.Rows(), flushes, newly, batches, more, outcome);
        return outcome, newly, batches + more;
      }
      FlushedWindow(todo, teach, version, flushEvery, before, file.Rows(),
                    flushes, newly, batches, window, rows, more);
      file.Append(rows);
      PairsCountedAppend(life.ask, batches, more);
      batches := batches + more;
      newly := newly + |rows|;
      flushes := flushes + 1;
    }
    FinishedRun(todo, teach, version, flushEvery, before, file.Rows(), flushes, newly, batches);
    PairsFinishBecause(life, flushEvery, |todo|, flushes, batches);
    outcome := Finished;
  }

  /** label_aspect_pairs, run once against one environment. */
  method LabelAspectPairs<P(!new)>(
      train: seq<Doc>, file: LabelFile<PairKey, P>, batchSize: pos, version: string, flushEvery: pos,
      cfg: MineConfig, life: PairLife<P>, ghost teach: ((string, string)) -> P)
      returns (outcome: LabelOutcome, stats: LabelStats, batches: seq<seq<(string, string)>>)
    requires FrozenRows(life.ask, teach)
    modifies file
    ensures RunLeaves(PairTodo(CappedPairs(train, cfg), old(file.Rows()), version), teach, version, flushEvery,
                      old(file.Rows()), file.Rows(), outcome, stats.newly, batches)
    ensures stats.total == |CappedPairs(train, cfg)|
    ensures stats.already == stats.total - |Unlabelled(CappedPairs(train, cfg), old(file.Rows()), version)|
    ensures stats.newly == 0 ==> file.content == old(file.content)
    ensures forall k :: 0 <= k < |batches| ==> |batches[k]| <= batchSize
    ensures PairsEndBecause(life, flushEvery, |PairTodo(CappedPairs(train, cfg), old(file.Rows()), version)|,
                            outcome, stats.newly, batches)
  {
    var pairs := MinePairs(DocsToMine(train, cfg), cfg);
    stats := LabelStats(Min(|pairs|, cfg.maxPairs), 0, 0);
    outcome, batches := Finished, [];
    if |pairs| == 0 {
      NoPairsNoTodo(train, cfg, file.Rows(), version);
      NothingToLabel(train, cfg, file.Rows(), version, flushEvery, life, teach);
      return;
    }
    var todo := PairTodo(CappedPairs(train, cfg), file.Rows(), version);
    stats := stats.(already := stats.total - |todo|);
    if |todo| == 0 {
      NothingToLabel(train, cfg, file.Rows(), version, flushEvery, life, teach);
      return;
    }
    var newly;
    outcome, newly, batches := LabelPairs(todo, file, batchSize, version, flushEvery, life, teach);
    stats := stats.(newly := newly);
  }
}
