/**
 The distillation scheduler of ml/sentilyzer_ml/pipeline/kd.py: two deterministic
 batch streams interleaved into one training loop, stopped by budgets, checkpointed
 to disk and resumed from there.

 Model weights, optimizer state and random-number state are one value of type W;
 training on a batch is an uninterpreted deterministic function of that value.
 */
module Distill {
  import opened Wrappers

  type Batch = seq<nat>

  /** Everything that is the same for every life of one training run. */
  datatype Job<!W> = Job(
    docs: seq<nat>,              // the seed's shuffle of the document indices
    aspects: Option<seq<nat>>,   // the shuffle of the pair indices; None without aspect data
    period: nat,                 // round(1 / aspect_fraction); read only with aspect data
    batchSize: pos,
    maxSequences: nat,
    maxSeconds: real,
    checkpointEvery: pos,
    initial: W,                    // the initial student, its optimizer and the seeded RNG
    trainDocs: (W, Batch) -> W,
    trainPairs: (W, Batch) -> W)
  {
    predicate Valid() {
      aspects.Some? ==> period >= 2
    }
  }

  /** The loop's variables. */
  datatype State<W> = State(
    w: W, executed: nat, docCursor: nat, aspectCursor: nat,
    steps: nat, seen: nat, aspectSeen: nat)

  datatype AspectProgress = AspectProgress(executed: nat, nextBatch: nat, seen: nat)

  /** checkpoint.pt: the aspect fields are absent from a run without aspect data. */
  datatype Checkpoint<W> = Checkpoint(
    w: W, nextBatch: nat, steps: nat, seen: nat, aspect: Option<AspectProgress>)

  type Disk<W> = Option<Checkpoint<W>>

  /** What the environment does to one life of the process: the readings of its clock
      (reading 0 is taken before the loop, reading i + 1 in iteration i), and the
      iteration at whose start it is killed. Disk changes only in atomic saves, so a
      kill at any other instant leaves what a kill at one of these leaves. */
  datatype Life = Life(clock: nat -> real, killedAt: Option<nat>)

  datatype Ending = Killed | Complete | Partial

  datatype Outcome<W> = Outcome(ending: Ending, state: State<W>, disk: Disk<W>)

  /* ---------- the aspect period ---------- */

  /** Python's round: to the nearest integer, halves to the even one. */
  function Round(x: real): int {
    var lo := x.Floor;
    var frac := x - lo as real;
    if frac < 0.5 then lo
    else if frac > 0.5 then lo + 1
    else if lo % 2 == 0 then lo else lo + 1
  }

  lemma RoundIsNearest(x: real)
    ensures -0.5 <= x - Round(x) as real <= 0.5
    ensures x - Round(x) as real == 0.5 || x - Round(x) as real == -0.5 ==> Round(x) % 2 == 0
  {
  }

  datatype Refusal = TextsMisaligned | AspectDataIncomplete | PairsMisaligned | FractionOutOfRange

  /** The ValueErrors raised before anything is touched; None accepts. */
  function Validate(texts: nat, probs: nat, pairs: Option<nat>, pairProbs: Option<nat>,
                    hasPairTokenizer: bool, fraction: real): Option<Refusal> {
    if texts != probs then Some(TextsMisaligned)
    else if pairs.None? then None
    else if pairProbs.None? || !hasPairTokenizer then Some(AspectDataIncomplete)
    else if pairs != pairProbs then Some(PairsMisaligned)
    else if !(0.0 < fraction <= 0.5) then Some(FractionOutOfRange)
    else None
  }

  /** Every accepted job with aspect data has a period of at least two, so each aspect slot
      has a document slot beside it. The range the code accepts is narrower than needed:
      the period stays at two up to a fraction of two thirds. */
  lemma PeriodAtLeastTwo(fraction: real)
    requires 0.0 < fraction
    ensures Round(1.0 / fraction) >= 2 <==> fraction <= 2.0 / 3.0
    ensures forall n, m, p, q, t ::
        Validate(n, m, Some(p), q, t, fraction).None? ==> Round(1.0 / fraction) >= 2
  {
    var inv := 1.0 / fraction;
    assert inv * fraction == 1.0;
    assert inv < 1.5 ==> inv * fraction < 1.5 * fraction;
    assert inv >= 1.5 ==> inv * fraction >= 1.5 * fraction;
  }

  /** A run is accepted exactly when every list has its own length of answers, aspect data comes
      whole, and its fraction is at most a half. */
  lemma AcceptedIff(texts: nat, probs: nat, pairs: Option<nat>, pairProbs: Option<nat>,
                    hasPairTokenizer: bool, fraction: real)
    ensures Validate(texts, probs, pairs, pairProbs, hasPairTokenizer, fraction).None? <==>
        && texts == probs
        && (pairs.Some? ==> pairProbs == pairs && hasPairTokenizer && 0.0 < fraction <= 0.5)
  {
  }

  /* ---------- batches ---------- */

  /** The batch a stream yields after i batches were taken from it. */
  function BatchAt(order: seq<nat>, size: pos, i: nat): Option<Batch> {
    if i * size < |order|
    then Some(order[i * size..Min(i * size + size, |order|)])
    else None
  }

  function NumBatches(n: nat, size: pos): nat {
    (n + size - 1) / size
  }

  lemma BatchAtIffInRange(order: seq<nat>, size: pos, i: nat)
    ensures BatchAt(order, size, i).Some? <==> i < NumBatches(|order|, size)
  {
    var c := NumBatches(|order|, size);
    assert c * size <= |order| + size - 1 < c * size + size;
    if i < c {
      Scale(i, c - 1, size);
    } else {
      Scale(c, i, size);
    }
  }

  lemma Scale(a: int, b: int, size: pos)
    requires a <= b
    ensures a * size <= b * size
    ensures (a + 1) * size == a * size + size && (b + 1) * size == b * size + size
  {
  }

  /** One deterministic batch stream: a Python generator with its position. */
  class BatchStream {
    const order: seq<nat>
    const size: pos
    var taken: nat

    constructor (order: seq<nat>, size: pos)
      ensures this.order == order && this.size == size && taken == 0
    {
      this.order, this.size, taken := order, size, 0;
    }

    /** next(iter, None): an exhausted stream stays where it is. */
    method Next() returns (batch: Option<Batch>)
      modifies this
      ensures batch == BatchAt(order, size, old(taken))
      ensures taken == if batch.Some? then old(taken) + 1 else old(taken)
    {
      if taken * size < |order| {
        batch := Some(order[taken * size..Min(taken * size + size, |order|)]);
        taken := taken + 1;
      } else {
        batch := None;
      }
    }

    /** Replays the stream up to a resume point, or to its end if that lies before. */
    method Skip(count: nat)
      requires taken == 0
      modifies this
      ensures taken == Min(count, NumBatches(|order|, size))
    {
      for i := 0 to count
        invariant taken == Min(i, NumBatches(|order|, size))
      {
        BatchAtIffInRange(order, size, taken);
        var _ := Next();
      }
    }
  }

  /* ---------- one iteration ---------- */

  function Fresh<W>(job: Job<W>): State<W> {
    State(job.initial, 0, 0, 0, 0, 0, 0)
  }

  function DocBatches<W>(job: Job<W>): nat {
    NumBatches(|job.docs|, job.batchSize)
  }

  function AspectBatches<W>(job: Job<W>): nat {
    if job.aspects.Some? then NumBatches(|job.aspects.value|, job.batchSize) else 0
  }

  datatype Draw = Draw(aspect: bool, batch: Batch)

  /** What iteration draws: an aspect batch in an aspect slot while there is one, else
      a document batch, else nothing. */
  function NextDraw<W>(job: Job<W>, s: State<W>): Option<Draw>
    requires job.Valid()
  {
    var pair :=
      if job.aspects.Some? && s.executed % job.period == 0
      then BatchAt(job.aspects.value, job.batchSize, s.aspectCursor) else None;
    if pair.Some? then Some(Draw(true, pair.value))
    else
      var doc := BatchAt(job.docs, job.batchSize, s.docCursor);
      if doc.Some? then Some(Draw(false, doc.value)) else None
  }

  function Train<W>(job: Job<W>, s: State<W>, d: Draw): State<W> {
    State(
      if d.aspect then job.trainPairs(s.w, d.batch) else job.trainDocs(s.w, d.batch),
      s.executed + 1,
      if d.aspect then s.docCursor else s.docCursor + 1,
      if d.aspect then s.aspectCursor + 1 else s.aspectCursor,
      s.steps + 1,
      s.seen + |d.batch|,
      if d.aspect then s.aspectSeen + |d.batch| else s.aspectSeen)
  }

  /** Batches not yet trained: the loop's termination measure. */
  function Remaining<W>(job: Job<W>, s: State<W>): nat {
    (if s.docCursor <= DocBatches(job) then DocBatches(job) - s.docCursor else 0) +
    (if s.aspectCursor <= AspectBatches(job) then AspectBatches(job) - s.aspectCursor else 0)
  }

  lemma TrainingConsumesABatch<W>(job: Job<W>, s: State<W>)
    requires job.Valid() && NextDraw(job, s).Some?
    ensures Remaining(job, Train(job, s, NextDraw(job, s).value)) == Remaining(job, s) - 1
  {
    BatchAtIffInRange(job.docs, job.batchSize, s.docCursor);
    if job.aspects.Some? {
      BatchAtIffInRange(job.aspects.value, job.batchSize, s.aspectCursor);
    }
  }

  function Save<W>(job: Job<W>, s: State<W>): Checkpoint<W> {
    Checkpoint(s.w, s.docCursor, s.steps, s.seen,
               if job.aspects.Some?
               then Some(AspectProgress(s.executed, s.aspectCursor, s.aspectSeen)) else None)
  }

  /** The state a life starts its loop in; missing aspect fields read as zero. */
  function Boot<W>(job: Job<W>, disk: Disk<W>): State<W> {
    match disk
    case None => Fresh(job)
    case Some(c) =>
      var a := c.aspect.GetOr(AspectProgress(0, 0, 0));
      State(c.w, a.executed, c.nextBatch, a.nextBatch, c.steps, c.seen, a.seen)
  }

  predicate OutOfBudget<W>(job: Job<W>, s: State<W>, life: Life, i: nat) {
    life.clock(i + 1) - life.clock(0) >= job.maxSeconds || s.seen >= job.maxSequences
  }

  /** One life from iteration i on: how it ends, in what state, with what on disk. */
  function Loop<W>(job: Job<W>, life: Life, s: State<W>, disk: Disk<W>, i: nat): Outcome<W>
    requires job.Valid()
    decreases Remaining(job, s)
  {
    if life.killedAt == Some(i) then Outcome(Killed, s, disk)
    else if NextDraw(job, s).None? then Outcome(Complete, s, disk)
    else if OutOfBudget(job, s, life, i) then Outcome(Partial, s, Some(Save(job, s)))
    else
      TrainingConsumesABatch(job, s);
      var s' := Train(job, s, NextDraw(job, s).value);
      Loop(job, life, s', if s'.steps % job.checkpointEvery == 0 then Some(Save(job, s')) else disk, i + 1)
  }

  function Live<W>(job: Job<W>, disk: Disk<W>, life: Life): Outcome<W>
    requires job.Valid()
  {
    Loop(job, life, Boot(job, disk), disk, 0)
  }

  /** The directory one run is keyed to. */
  class CheckpointDir<W> {
    var checkpoint: Disk<W>
    var completeSteps: Option<nat>   // complete.json

    constructor ()
      ensures checkpoint == None && completeSteps == None
    {
      checkpoint, completeSteps := None, None;
    }
  }

  /** The two streams of one life, each at its cursor, or at its end if that lies before. */
  ghost predicate AtCursors<W>(job: Job<W>, s: State<W>, docIter: BatchStream, aspectIter: BatchStream)
    reads docIter, aspectIter
  {
    && docIter.order == job.docs && docIter.size == job.batchSize
    && aspectIter.order == job.aspects.GetOr([]) && aspectIter.size == job.batchSize
    && docIter.taken == Min(s.docCursor, DocBatches(job))
    && (job.aspects.Some? ==> aspectIter.taken == Min(s.aspectCursor, AspectBatches(job)))
  }

  /** A cursor beyond the end of its stream yields what the end yields: nothing. */
  lemma CursorsAgree<W>(job: Job<W>, s: State<W>)
    ensures BatchAt(job.docs, job.batchSize, s.docCursor)
         == BatchAt(job.docs, job.batchSize, Min(s.docCursor, DocBatches(job)))
    ensures BatchAt(job.docs, job.batchSize, s.docCursor).Some? ==> s.docCursor < DocBatches(job)
    ensures job.aspects.Some? ==>
        && BatchAt(job.aspects.value, job.batchSize, s.aspectCursor)
           == BatchAt(job.aspects.value, job.batchSize, Min(s.aspectCursor, AspectBatches(job)))
        && (BatchAt(job.aspects.value, job.batchSize, s.aspectCursor).Some? ==> s.aspectCursor < AspectBatches(job))
  {
    BatchAtIffInRange(job.docs, job.batchSize, s.docCursor);
    BatchAtIffInRange(job.docs, job.batchSize, DocBatches(job));
    if job.aspects.Some? {
      BatchAtIffInRange(job.aspects.value, job.batchSize, s.aspectCursor);
      BatchAtIffInRange(job.aspects.value, job.batchSize, AspectBatches(job));
    }
  }

  /** Takes the next batch off its stream: from here on the stream is ahead of its cursor
      until the batch has been trained. */
  method DrawBatch<W>(job: Job<W>, s: State<W>, docIter: BatchStream, aspectIter: BatchStream)
      returns (draw: Option<Draw>)
    requires job.Valid() && docIter != aspectIter && AtCursors(job, s, docIter, aspectIter)
    modifies docIter, aspectIter
    ensures draw == NextDraw(job, s)
    ensures draw.Some? ==> forall w :: AtCursors(job, Train(job, s, draw.value).(w := w), docIter, aspectIter)
  {
    CursorsAgree(job, s);
    var aspectStep := job.aspects.Some? && s.executed % job.period == 0;
    var idx: Option<Batch> := None;
    if aspectStep {
      idx := aspectIter.Next();
    }
    if idx.None? {
      aspectStep := false;
      idx := docIter.Next();
      if idx.None? {
        return None;
      }
    }
    return Some(Draw(aspectStep, idx.value));
  }

  /** The training step and the counters it moves. */
  method TrainBatch<W>(job: Job<W>, s: State<W>, draw: Draw) returns (s': State<W>)
    ensures s' == Train(job, s, draw)
  {
    s' := s.(executed := s.executed + 1, steps := s.steps + 1, seen := s.seen + |draw.batch|);
    if draw.aspect {
      s' := s'.(w := job.trainPairs(s.w, draw.batch), aspectCursor := s.aspectCursor + 1,
                aspectSeen := s.aspectSeen + |draw.batch|);
    } else {
      s' := s'.(w := job.trainDocs(s.w, draw.batch), docCursor := s.docCursor + 1);
    }
  }

  /** distill: the loop with its two streams, run against one environment. A batch is
      drawn before the budget check, so a budget stop drops the batch it has drawn. */
  method DistillRun<W>(job: Job<W>, dir: CheckpointDir<W>, life: Life)
      returns (ending: Ending, s: State<W>)
    requires job.Valid()
    modifies dir
    ensures Outcome(ending, s, dir.checkpoint) == Live(job, old(dir.checkpoint), life)
    ensures dir.completeSteps == if ending == Complete then Some(s.steps) else old(dir.completeSteps)
  {
    var docIter := new BatchStream(job.docs, job.batchSize);
    var aspectIter := new BatchStream(job.aspects.GetOr([]), job.batchSize);
    s := Fresh(job);
    if dir.checkpoint.Some? {
      var c := dir.checkpoint.value;
      s := State(c.w, 0, c.nextBatch, 0, c.steps, c.seen, 0);
      if c.aspect.Some? {
        s := s.(executed := c.aspect.value.executed, aspectCursor := c.aspect.value.nextBatch,
                aspectSeen := c.aspect.value.seen);
      }
    }
    docIter.Skip(s.docCursor);
    if job.aspects.Some? {
      aspectIter.Skip(s.aspectCursor);
    }
    var started := life.clock(0);
    var i := 0;
    ghost var goal := Live(job, old(dir.checkpoint), life);
    while true
      invariant fresh(docIter) && fresh(aspectIter) && docIter != aspectIter
      invariant AtCursors(job, s, docIter, aspectIter)
      invariant dir.completeSteps == old(dir.completeSteps)
      invariant Loop(job, life, s, dir.checkpoint, i) == goal
      decreases Remaining(job, s)
    {
      if life.killedAt == Some(i) {
        return Killed, s;
      }
      var draw := DrawBatch(job, s, docIter, aspectIter);
      if draw.None? {
        dir.completeSteps := Some(s.steps);
        return Complete, s;
      }
      if life.clock(i + 1) - started >= job.maxSeconds || s.seen >= job.maxSequences {
        dir.checkpoint := Some(Save(job, s));
        return Partial, s;
      }
      TrainingConsumesABatch(job, s);
      s := TrainBatch(job, s, draw.value);
      if s.steps % job.checkpointEvery == 0 {
        dir.checkpoint := Some(Save(job, s));
      }
      i := i + 1;
    }
  }
}
