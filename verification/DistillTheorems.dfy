/**
 What kd.py promises of whole sequences of lives of one run: kills, budget stops and
 resumes cannot be observed in the training trajectory.
 */
module DistillTheorems {
  import opened Wrappers
  import opened Arithmetic
  import opened Distill

  /** The reference: the state after k steps of one life that is never killed and never out of
      budget. It stays put once the documents are exhausted. */
  function At<W>(job: Job<W>, k: nat): State<W>
    requires job.Valid()
  {
    if k == 0 then Fresh(job)
    else
      var s := At(job, k - 1);
      var d := NextDraw(job, s);
      if d.Some? then Train(job, s, d.value) else s
  }

  /* ---------- the interleaving in closed form ---------- */

  function CeilDiv(k: nat, p: pos): nat { (k + p - 1) / p }

  /** Aspect steps among the first k: one per period, while there are batches. */
  function AspectsBefore<W>(job: Job<W>, k: nat): nat
    requires job.Valid()
  {
    if job.aspects.None? then 0 else Min(AspectBatches(job), CeilDiv(k, job.period))
  }

  /** Aspect steps of a completed run: D documents batches fill the gaps between
      D / (p - 1) + 1 aspect slots. */
  function TotalAspects<W>(job: Job<W>): nat
    requires job.Valid()
  {
    if job.aspects.None? then 0
    else Min(AspectBatches(job), DocBatches(job) / (job.period - 1) + 1)
  }

  function TotalSteps<W>(job: Job<W>): nat
    requires job.Valid()
  {
    DocBatches(job) + TotalAspects(job)
  }

  lemma CeilDivValue(k: nat, p: pos)
    ensures CeilDiv(k, p) == k / p + if k % p == 0 then 0 else 1
  {
    var q, r := k / p, k % p;
    assert k == q * p + r;
    MultipleIsMultiple(q, p);
    if r == 0 {
      DivIs(k + p - 1, p, q, p - 1);
    } else {
      DivIs(k + p - 1, p, q + 1, r - 1);
    }
  }

  lemma NextQuotient(k: nat, p: pos)
    ensures if k % p == p - 1 then (k + 1) / p == k / p + 1 && (k + 1) % p == 0
            else (k + 1) / p == k / p && (k + 1) % p == k % p + 1
  {
    var q, r := k / p, k % p;
    assert k == q * p + r;
    MultipleIsMultiple(q, p);
    if r == p - 1 {
      DivIs(k + 1, p, q + 1, 0);
    } else {
      DivIs(k + 1, p, q, r + 1);
    }
  }

  lemma CeilDivStep(k: nat, p: pos)
    ensures CeilDiv(k + 1, p) == CeilDiv(k, p) + if k % p == 0 then 1 else 0
    ensures (CeilDiv(k, p) - 1) * p < k <= CeilDiv(k, p) * p
    ensures k % p == 0 ==> k == CeilDiv(k, p) * p
  {
    var q, r := k / p, k % p;
    assert k == q * p + r;
    CeilDivValue(k, p);
    CeilDivValue(k + 1, p);
    NextQuotient(k, p);
    assert p == 1 ==> r == 0;
    Products(q, p);
  }

  lemma Products(q: int, p: int)
    ensures (q - 1) * p == q * p - p && (q + 1) * p == q * p + p
  {
  }

  /** With p slots to a period, D document and A aspect batches: where the cursors stand
      after k steps, and that a batch can be drawn exactly before the last step. */
  lemma SlotArithmetic(k: nat, p: nat, D: nat, A: nat)
    requires p >= 2
    requires k <= D + Min(A, D / (p - 1) + 1)
    ensures var a := Min(A, CeilDiv(k, p));
            && a <= Min(A, D / (p - 1) + 1)
            && 0 <= k - a <= D
            && ((k % p == 0 && a < A) || k - a < D <==> k < D + Min(A, D / (p - 1) + 1))
  {
    var mq, cq := NamedProducts(k, p - 1, D);
    SlotArithmeticLinear(k, p - 1, D, A, D / (p - 1), CeilDiv(k, p), mq, cq, k % p == 0);
  }

  /** Names m * q and c * q for m = D / q and c the ceiling of k / (q + 1). */
  lemma NamedProducts(k: nat, q: pos, D: nat) returns (mq: nat, cq: nat)
    ensures mq <= D < mq + q
    ensures var m, c := D / q, CeilDiv(k, q + 1);
            && cq + c - q - 1 < k <= cq + c
            && (k % (q + 1) == 0 <==> k == cq + c)
            && (c >= 1 ==> cq >= q)
            && (c <= m ==> cq <= mq)
            && (m + 1 <= c ==> mq + q <= cq)
            && (m + 2 <= c ==> mq + q <= cq - q)
  {
    var m, c := D / q, CeilDiv(k, q + 1);
    mq, cq := m * q, c * q;
    assert mq <= D < mq + q;
    CeilProducts(k, q);
    Compare(c, m, q);
  }

  lemma CeilProducts(k: nat, q: pos)
    ensures var c := CeilDiv(k, q + 1);
            && c * q + c - q - 1 < k <= c * q + c
            && (k % (q + 1) == 0 <==> k == c * q + c)
  {
    var c := CeilDiv(k, q + 1);
    CeilDivStep(k, q + 1);
    Distribute(c, q);
    if k == c * (q + 1) { DivIs(k, q + 1, c, 0); }
  }

  lemma Compare(c: nat, m: nat, q: pos)
    ensures c >= 1 ==> c * q >= q
    ensures c <= m ==> c * q <= m * q
    ensures m + 1 <= c ==> m * q + q <= c * q
    ensures m + 2 <= c ==> m * q + q <= c * q - q
  {
    Monotone(1, c, q);
    Monotone(c, m, q);
    Monotone(m + 1, c, q);
    Monotone(m + 2, c, q);
    assert (m + 1) * q == m * q + q && (m + 2) * q == m * q + q + q;
  }

  /** The same with the products named, so that only linear facts remain. */
  lemma SlotArithmeticLinear(k: nat, q: nat, D: nat, A: nat, m: nat, c: nat, mq: nat, cq: nat, slot: bool)
    requires q >= 1 && mq <= D < mq + q
    requires cq + c - q - 1 < k <= cq + c
    requires slot <==> k == cq + c
    requires c >= 1 ==> cq >= q
    requires c <= m ==> cq <= mq
    requires m + 1 <= c ==> mq + q <= cq
    requires m + 2 <= c ==> mq + q <= cq - q
    requires k <= D + Min(A, m + 1)
    ensures var a := Min(A, c);
            && a <= Min(A, m + 1)
            && 0 <= k - a <= D
            && ((slot && a < A) || k - a < D <==> k < D + Min(A, m + 1))
  {
  }

  lemma Distribute(c: int, q: int)
    ensures c * (q + 1) == c * q + c
    ensures (c - 1) * q == c * q - q
    ensures (c - 1) * (q + 1) == c * q - q + c - 1
  {
  }

  lemma Monotone(a: int, b: int, f: nat)
    ensures a <= b ==> a * f <= b * f
  {
    assert a <= b ==> (b - a) * f >= 0;
  }

  /** The counters of the uninterrupted run in closed form, and when it ends. */
  lemma {:induction false} ScheduleAt<W>(job: Job<W>, k: nat)
    requires job.Valid() && k <= TotalSteps(job)
    ensures var s := At(job, k);
            && s.steps == s.executed == k
            && s.aspectCursor == AspectsBefore(job, k) <= TotalAspects(job)
            && s.docCursor == k - AspectsBefore(job, k) <= DocBatches(job)
            && (NextDraw(job, s).Some? <==> k < TotalSteps(job))
            && (NextDraw(job, s).Some? ==>
                  (NextDraw(job, s).value.aspect <==>
                     job.aspects.Some? && k % job.period == 0 && s.aspectCursor < AspectBatches(job)))
  {
    if k > 0 {
      ScheduleAt(job, k - 1);
      if job.aspects.Some? {
        CeilDivStep(k - 1, job.period);
      }
    }
    var s := At(job, k);
    if job.aspects.Some? {
      if k == 0 { DivIs(job.period - 1, job.period, 0, job.period - 1); }
      SlotArithmetic(k, job.period, DocBatches(job), AspectBatches(job));
      BatchAtIffInRange(job.aspects.value, job.batchSize, s.aspectCursor);
    }
    BatchAtIffInRange(job.docs, job.batchSize, s.docCursor);
  }

  /* ---------- kills and resumes cannot be observed ---------- */

  /** A run without aspect data neither saves nor reads the interleave fields. */
  function Observable<W>(job: Job<W>, s: State<W>): State<W> {
    if job.aspects.Some? then s else s.(executed := 0, aspectCursor := 0, aspectSeen := 0)
  }

  /** The state is, as far as the run can tell, the uninterrupted one at its own step count. */
  ghost predicate OnTrajectory<W>(job: Job<W>, s: State<W>)
    requires job.Valid()
  {
    s.steps <= TotalSteps(job) && Observable(job, s) == Observable(job, At(job, s.steps))
  }

  ghost predicate DiskOnTrajectory<W>(job: Job<W>, disk: Disk<W>)
    requires job.Valid()
  {
    disk.Some? ==>
      disk.value.steps <= TotalSteps(job) && disk.value == Save(job, At(job, disk.value.steps))
  }

  function StepsOnDisk<W>(disk: Disk<W>): nat {
    if disk.Some? then disk.value.steps else 0
  }

  lemma BootOnTrajectory<W>(job: Job<W>, disk: Disk<W>)
    requires job.Valid() && DiskOnTrajectory(job, disk)
    ensures OnTrajectory(job, Boot(job, disk)) && Boot(job, disk).steps == StepsOnDisk(disk)
  {
    ScheduleAt(job, StepsOnDisk(disk));
  }

  lemma DrawIsObservable<W>(job: Job<W>, s: State<W>, t: State<W>)
    requires job.Valid() && Observable(job, s) == Observable(job, t)
    ensures NextDraw(job, s) == NextDraw(job, t)
    ensures forall d: Draw :: (d.aspect ==> job.aspects.Some?) ==>
        Observable(job, Train(job, s, d)) == Observable(job, Train(job, t, d))
  {
  }

  lemma AtStep<W>(job: Job<W>, k: nat)
    requires job.Valid() && k < TotalSteps(job)
    ensures NextDraw(job, At(job, k)).Some?
    ensures At(job, k + 1) == Train(job, At(job, k), NextDraw(job, At(job, k)).value)
    ensures At(job, k + 1).steps == k + 1
  {
    ScheduleAt(job, k);
  }

  lemma TrainOnTrajectory<W>(job: Job<W>, s: State<W>)
    requires job.Valid() && OnTrajectory(job, s)
    ensures NextDraw(job, s).Some? <==> s.steps < TotalSteps(job)
    ensures NextDraw(job, s).Some? ==> OnTrajectory(job, Train(job, s, NextDraw(job, s).value))
  {
    var t := At(job, s.steps);
    ScheduleAt(job, s.steps);
    DrawIsObservable(job, s, t);
    if s.steps < TotalSteps(job) {
      AtStep(job, s.steps);
    }
  }

  lemma NextModulo(n: nat, m: pos)
    ensures (n + 1) % m == 0 || (n + 1) % m == n % m + 1
  {
    var q, r := n / m, n % m;
    assert n == q * m + r;
    if r + 1 < m { DivIs(n + 1, m, q, r + 1); } else { DivIs(n + 1, m, q + 1, 0); }
  }

  /** What a life keeps at the head of its loop: the disk lags by the steps since the last
      multiple of the checkpoint interval. */
  ghost predicate LoopInvariant<W>(job: Job<W>, s: State<W>, disk: Disk<W>)
    requires job.Valid()
  {
    && OnTrajectory(job, s) && DiskOnTrajectory(job, disk)
    && 0 <= s.steps - StepsOnDisk(disk) <= s.steps % job.checkpointEvery
    && s.seen < job.maxSequences + job.batchSize
    && (disk.Some? ==> disk.value.seen < job.maxSequences + job.batchSize)
  }

  lemma IterationKeepsInvariant<W>(job: Job<W>, life: Life, s: State<W>, disk: Disk<W>, i: nat)
    requires job.Valid() && LoopInvariant(job, s, disk)
    requires NextDraw(job, s).Some? && !OutOfBudget(job, s, life, i)
    ensures var s' := Train(job, s, NextDraw(job, s).value);
            LoopInvariant(job, s', if s'.steps % job.checkpointEvery == 0 then Some(Save(job, s')) else disk)
  {
    TrainOnTrajectory(job, s);
    NextModulo(s.steps, job.checkpointEvery);
    BatchSizes(job, s);
    SaveOnTrajectory(job, Train(job, s, NextDraw(job, s).value));
  }

  lemma BatchSizes<W>(job: Job<W>, s: State<W>)
    requires job.Valid() && NextDraw(job, s).Some?
    ensures 0 < |NextDraw(job, s).value.batch| <= job.batchSize
  {
  }

  lemma SaveOnTrajectory<W>(job: Job<W>, s: State<W>)
    requires job.Valid() && OnTrajectory(job, s)
    ensures DiskOnTrajectory(job, Some(Save(job, s)))
  {
  }

  ghost predicate LifeKeeps<W>(job: Job<W>, disk: Disk<W>, o: Outcome<W>)
    requires job.Valid()
  {
    && LoopInvariant(job, o.state, o.disk)
    && StepsOnDisk(disk) <= StepsOnDisk(o.disk)
    && (o.ending == Complete ==> o.state.steps == TotalSteps(job))
    && (o.ending == Partial ==> StepsOnDisk(o.disk) == o.state.steps)
  }

  lemma {:induction false} LoopOnTrajectory<W>(job: Job<W>, life: Life, s: State<W>, disk: Disk<W>, i: nat)
    requires job.Valid() && LoopInvariant(job, s, disk)
    ensures LifeKeeps(job, disk, Loop(job, life, s, disk, i))
    decreases Remaining(job, s)
  {
    TrainOnTrajectory(job, s);
    SaveOnTrajectory(job, s);
    if life.killedAt != Some(i) && NextDraw(job, s).Some? && !OutOfBudget(job, s, life, i) {
      TrainingConsumesABatch(job, s);
      IterationKeepsInvariant(job, life, s, disk, i);
      var s' := Train(job, s, NextDraw(job, s).value);
      LoopOnTrajectory(job, life, s',
                       if s'.steps % job.checkpointEvery == 0 then Some(Save(job, s')) else disk, i + 1);
    }
  }

  /** The disk after any number of lives on one directory. */
  function AfterLives<W>(job: Job<W>, lives: seq<Life>): Disk<W>
    requires job.Valid()
  {
    if lives == [] then None
    else Live(job, AfterLives(job, lives[..|lives| - 1]), lives[|lives| - 1]).disk
  }

  /** Kills and budget stops cannot be observed: after any lives the checkpoint is the
      uninterrupted trajectory at its own step count, inside the sequence budget. */
  lemma {:induction false} KillsAreInvisible<W>(job: Job<W>, lives: seq<Life>)
    requires job.Valid()
    ensures DiskOnTrajectory(job, AfterLives(job, lives))
    ensures AfterLives(job, lives).Some? ==>
        AfterLives(job, lives).value.seen < job.maxSequences + job.batchSize
  {
    if lives != [] {
      var before := lives[..|lives| - 1];
      KillsAreInvisible(job, before);
      BootOnTrajectory(job, AfterLives(job, before));
      LoopOnTrajectory(job, lives[|lives| - 1], Boot(job, AfterLives(job, before)), AfterLives(job, before), 0);
    }
    BootOnTrajectory(job, AfterLives(job, lives));
  }

  /** After any lives, one more: a run that exhausts the documents ends in the uninterrupted
      final model, optimizer, RNG and counters; a budget stop loses nothing, a kill less than
      one checkpoint interval, and the disk never goes back. */
  lemma NextLife<W>(job: Job<W>, lives: seq<Life>, life: Life)
    requires job.Valid()
    ensures var before := AfterLives(job, lives);
            var o := Live(job, before, life);
            && o.disk == AfterLives(job, lives + [life])
            && (o.ending == Complete ==>
                  && o.state.steps == TotalSteps(job)
                  && Observable(job, o.state) == Observable(job, At(job, TotalSteps(job))))
            && (o.ending == Partial ==> StepsOnDisk(o.disk) == o.state.steps)
            && StepsOnDisk(before) <= StepsOnDisk(o.disk) <= o.state.steps
            && o.state.steps < StepsOnDisk(o.disk) + job.checkpointEvery
            && o.state.seen < job.maxSequences + job.batchSize
  {
    var before := AfterLives(job, lives);
    KillsAreInvisible(job, lives);
    BootOnTrajectory(job, before);
    LoopOnTrajectory(job, life, Boot(job, before), before, 0);
    assert (lives + [life])[..|lives|] == lives;
  }

  /* ---------- one life, step by step ---------- */

  /** In iteration j of a life that started with b steps on disk: not killed, a batch left, time
      left on the clock, and fewer sequences seen than the budget. */
  ghost predicate GoesOn<W>(job: Job<W>, life: Life, b: nat, j: nat)
    requires job.Valid()
  {
    && life.killedAt != Some(j) && b + j < TotalSteps(job)
    && life.clock(j + 1) - life.clock(0) < job.maxSeconds
    && At(job, b + j).seen < job.maxSequences
  }

  /** What the checkpoints of a life leave on disk after k steps: the last multiple of the
      interval, if the life has passed one. */
  function SavedBy(b: nat, k: nat, every: pos): nat {
    if k - k % every > b then k - k % every else b
  }

  /** How a life ends in iteration n, and the step its checkpoint is at. */
  ghost predicate EndsAt<W>(job: Job<W>, life: Life, b: nat, n: nat, o: Outcome<W>)
    requires job.Valid()
  {
    && o.state.steps == b + n
    && !GoesOn(job, life, b, n)
    && (o.ending == Killed <==> life.killedAt == Some(n))
    && (o.ending == Complete <==> life.killedAt != Some(n) && b + n == TotalSteps(job))
    && StepsOnDisk(o.disk) == if o.ending == Partial then b + n else SavedBy(b, b + n, job.checkpointEvery)
  }

  lemma SavedByStep(b: nat, k: nat, every: pos)
    requires b <= k
    ensures SavedBy(b, k + 1, every) == if (k + 1) % every == 0 then k + 1 else SavedBy(b, k, every)
  {
    NextModulo(k, every);
  }

  /** What the loop tests in iteration i, on the trajectory. */
  lemma GoesOnIff<W>(job: Job<W>, life: Life, s: State<W>, b: nat, i: nat)
    requires job.Valid() && OnTrajectory(job, s) && s.steps == b + i
    ensures GoesOn(job, life, b, i) <==>
        life.killedAt != Some(i) && NextDraw(job, s).Some? && !OutOfBudget(job, s, life, i)
    ensures NextDraw(job, s).Some? <==> b + i < TotalSteps(job)
  {
    TrainOnTrajectory(job, s);
  }

  lemma {:induction false} LoopInFull<W>(job: Job<W>, life: Life, s: State<W>, disk: Disk<W>, b: nat, i: nat)
      returns (n: nat)
    requires job.Valid() && OnTrajectory(job, s) && s.steps == b + i
    requires StepsOnDisk(disk) == SavedBy(b, b + i, job.checkpointEvery)
    ensures i <= n && EndsAt(job, life, b, n, Loop(job, life, s, disk, i))
    ensures forall j :: i <= j < n ==> GoesOn(job, life, b, j)
    decreases Remaining(job, s)
  {
    GoesOnIff(job, life, s, b, i);
    n := i;
    if GoesOn(job, life, b, i) {
      TrainOnTrajectory(job, s);
      TrainingConsumesABatch(job, s);
      SavedByStep(b, b + i, job.checkpointEvery);
      var s' := Train(job, s, NextDraw(job, s).value);
      n := LoopInFull(job, life, s', if s'.steps % job.checkpointEvery == 0 then Some(Save(job, s')) else disk, b, i + 1);
    }
  }

  /** After any lives one more, in full: it trains exactly as many batches as there are iterations
      before the first in which it is killed, has no batch left, has used up its seconds, or has
      seen as many sequences as it may, and ends accordingly. */
  lemma LifeInFull<W>(job: Job<W>, lives: seq<Life>, life: Life) returns (n: nat)
    requires job.Valid()
    ensures var before := AfterLives(job, lives);
            EndsAt(job, life, StepsOnDisk(before), n, Live(job, before, life))
    ensures forall j :: 0 <= j < n ==> GoesOn(job, life, StepsOnDisk(AfterLives(job, lives)), j)
  {
    var before := AfterLives(job, lives);
    KillsAreInvisible(job, lives);
    BootOnTrajectory(job, before);
    var b := StepsOnDisk(before);
    NextModuloBounds(b, job.checkpointEvery);
    n := LoopInFull(job, life, Boot(job, before), before, b, 0);
  }

  lemma NextModuloBounds(b: nat, every: pos)
    ensures SavedBy(b, b, every) == b
  {
  }

  /** The wall clock: once its seconds are used up in iteration i, an unkilled life trains nothing
      more, and if a batch is left it ends partial with its checkpoint at its last step. A life
      ends partial only for that or for the sequence budget. */
  lemma ClockStops<W>(job: Job<W>, lives: seq<Life>, life: Life, i: nat)
    requires job.Valid() && life.killedAt.None?
    ensures var b, o := StepsOnDisk(AfterLives(job, lives)), Live(job, AfterLives(job, lives), life);
            && (life.clock(i + 1) - life.clock(0) >= job.maxSeconds ==>
                  && b <= o.state.steps <= b + i
                  && (o.state.steps < TotalSteps(job) ==> o.ending == Partial && StepsOnDisk(o.disk) == o.state.steps))
            && b <= o.state.steps
            && (o.ending == Partial ==>
                  || life.clock(o.state.steps - b + 1) - life.clock(0) >= job.maxSeconds
                  || o.state.seen >= job.maxSequences)
  {
    var n := LifeInFull(job, lives, life);
    NextLife(job, lives, life);
    var b, o := StepsOnDisk(AfterLives(job, lives)), Live(job, AfterLives(job, lives), life);
    if life.clock(i + 1) - life.clock(0) >= job.maxSeconds {
      assert !GoesOn(job, life, b, i);
    }
    LiveOnTrajectory(job, lives, life);
  }

  lemma LiveOnTrajectory<W>(job: Job<W>, lives: seq<Life>, life: Life)
    requires job.Valid()
    ensures OnTrajectory(job, Live(job, AfterLives(job, lives), life).state)
  {
    var before := AfterLives(job, lives);
    KillsAreInvisible(job, lives);
    BootOnTrajectory(job, before);
    LoopOnTrajectory(job, life, Boot(job, before), before, 0);
  }

  /** Aspect data added to a run that had none is trained from the front of its shuffle: a
      checkpoint without aspect fields resumes in an aspect slot. */
  lemma LateAspectsStartAtTheFront<W>(job: Job<W>, c: Checkpoint<W>)
    requires job.Valid() && job.aspects.Some? && job.aspects.value != [] && c.aspect.None?
    ensures var order := job.aspects.value;
            NextDraw(job, Boot(job, Some(c))) == Some(Draw(true, order[..Min(job.batchSize, |order|)]))
  {
  }

  /** The sequence budget, once reached, is final: no later life trains anything, and the
      checkpoint stays as it is. */
  lemma {:induction false} BudgetStopIsFinal<W>(job: Job<W>, lives: seq<Life>, more: seq<Life>, life: Life)
    requires job.Valid()
    requires AfterLives(job, lives).Some? && AfterLives(job, lives).value.seen >= job.maxSequences
    ensures AfterLives(job, lives + more) == AfterLives(job, lives)
    ensures Live(job, AfterLives(job, lives + more), life).state == Boot(job, AfterLives(job, lives))
  {
    KillsAreInvisible(job, lives);
    BootOnTrajectory(job, AfterLives(job, lives));
    if more == [] {
      assert lives + more == lives;
    } else {
      BudgetStopIsFinal(job, lives, more[..|more| - 1], more[|more| - 1]);
      assert (lives + more)[..|lives + more| - 1] == lives + more[..|more| - 1];
      SaveOnTrajectory(job, Boot(job, AfterLives(job, lives)));
    }
  }

  /** A life is stopped only by a kill, its clock or the sequence budget: otherwise it completes. */
  lemma {:induction false} UnstoppedLoopCompletes<W>(job: Job<W>, life: Life, s: State<W>, disk: Disk<W>, i: nat)
    requires job.Valid() && life.killedAt.None?
    requires forall j: nat :: life.clock(j) - life.clock(0) < job.maxSeconds
    requires OnTrajectory(job, s) && At(job, TotalSteps(job)).seen <= job.maxSequences
    ensures Loop(job, life, s, disk, i).ending == Complete
    decreases Remaining(job, s)
  {
    TrainOnTrajectory(job, s);
    if NextDraw(job, s).Some? {
      SeenGrows(job, s.steps, TotalSteps(job));
      TrainingConsumesABatch(job, s);
      var s' := Train(job, s, NextDraw(job, s).value);
      UnstoppedLoopCompletes(job, life, s',
                             if s'.steps % job.checkpointEvery == 0 then Some(Save(job, s')) else disk, i + 1);
    }
  }

  lemma {:induction false} SeenGrows<W>(job: Job<W>, k: nat, n: nat)
    requires job.Valid() && k <= n <= TotalSteps(job)
    ensures At(job, k).seen <= At(job, n).seen
    ensures k < n ==> At(job, k).seen < At(job, n).seen
  {
    if k < n {
      SeenGrows(job, k, n - 1);
      ScheduleAt(job, n - 1);
      BatchSizes(job, At(job, n - 1));
    }
  }

  /** Any lives, then one that nothing stops: it ends exactly as one life alone would have. */
  lemma ResumeReproducesUninterrupted<W>(job: Job<W>, lives: seq<Life>, life: Life)
    requires job.Valid() && life.killedAt.None?
    requires forall j: nat :: life.clock(j) - life.clock(0) < job.maxSeconds
    requires At(job, TotalSteps(job)).seen <= job.maxSequences
    ensures var resumed, alone := Live(job, AfterLives(job, lives), life), Live(job, None, life);
            && resumed.ending == alone.ending == Complete
            && Observable(job, resumed.state) == Observable(job, alone.state)
  {
    NextLife(job, lives, life);
    NextLife(job, [], life);
    KillsAreInvisible(job, lives);
    BootOnTrajectory(job, AfterLives(job, lives));
    BootOnTrajectory(job, None);
    UnstoppedLoopCompletes(job, life, Boot(job, AfterLives(job, lives)), AfterLives(job, lives), 0);
    UnstoppedLoopCompletes(job, life, Fresh(job), None, 0);
  }

  /* ---------- what is trained ---------- */

  /** The batches the first k steps train on. */
  function Trace<W>(job: Job<W>, k: nat): seq<Draw>
    requires job.Valid()
  {
    if k == 0 then []
    else
      var d := NextDraw(job, At(job, k - 1));
      if d.Some? then Trace(job, k - 1) + [d.value] else Trace(job, k - 1)
  }

  /** All indices trained by one kind of step, in training order. */
  function Indices(trace: seq<Draw>, aspect: bool): seq<nat> {
    if trace == [] then []
    else
      var last := trace[|trace| - 1];
      Indices(trace[..|trace| - 1], aspect) + if last.aspect == aspect then last.batch else []
  }

  /** The indices in the first batches of a stream. */
  function FirstBatches(order: seq<nat>, size: pos, count: nat): seq<nat> {
    if count == 0 then []
    else FirstBatches(order, size, count - 1) + BatchAt(order, size, count - 1).GetOr([])
  }

  /** Batches cut the shuffle without a gap or a repeat. */
  lemma {:induction false} FirstBatchesIsPrefix(order: seq<nat>, size: pos, count: nat)
    ensures FirstBatches(order, size, count) == order[..Min(count * size, |order|)]
  {
    if count > 0 {
      FirstBatchesIsPrefix(order, size, count - 1);
      assert count * size == (count - 1) * size + size;
    }
  }

  lemma IndicesSnoc(trace: seq<Draw>, d: Draw, aspect: bool)
    ensures Indices(trace + [d], aspect)
         == Indices(trace, aspect) + if d.aspect == aspect then d.batch else []
  {
    assert (trace + [d])[..|trace|] == trace;
  }

  /** The shuffle one kind of step walks, and its cursor. */
  function OrderOf<W>(job: Job<W>, aspect: bool): seq<nat> {
    if aspect then job.aspects.GetOr([]) else job.docs
  }

  function CursorOf<W>(s: State<W>, aspect: bool): nat {
    if aspect then s.aspectCursor else s.docCursor
  }

  /** What is drawn is the next batch of its own shuffle, and moves its own cursor only. */
  lemma DrawnIsNext<W>(job: Job<W>, s: State<W>, d: Draw)
    requires job.Valid() && NextDraw(job, s) == Some(d)
    ensures BatchAt(OrderOf(job, d.aspect), job.batchSize, CursorOf(s, d.aspect)) == Some(d.batch)
    ensures CursorOf(Train(job, s, d), d.aspect) == CursorOf(s, d.aspect) + 1
    ensures CursorOf(Train(job, s, d), !d.aspect) == CursorOf(s, !d.aspect)
  {
  }

  lemma FirstBatchesSnoc(order: seq<nat>, size: pos, count: nat, batch: Batch)
    requires BatchAt(order, size, count) == Some(batch)
    ensures FirstBatches(order, size, count + 1) == FirstBatches(order, size, count) + batch
  {
  }

  /** Each kind of step has walked its shuffle from the front, without a gap or a repeat. */
  lemma {:induction false} TraceWalksTheOrders<W>(job: Job<W>, k: nat, aspect: bool)
    requires job.Valid()
    ensures Indices(Trace(job, k), aspect)
         == FirstBatches(OrderOf(job, aspect), job.batchSize, CursorOf(At(job, k), aspect))
  {
    if k > 0 {
      TraceWalksTheOrders(job, k - 1, aspect);
      var s := At(job, k - 1);
      if NextDraw(job, s).Some? {
        TrainWalksOn(job, s, NextDraw(job, s).value, Trace(job, k - 1), aspect);
      }
    }
  }

  lemma TrainWalksOn<W>(job: Job<W>, s: State<W>, d: Draw, trace: seq<Draw>, aspect: bool)
    requires job.Valid() && NextDraw(job, s) == Some(d)
    requires Indices(trace, aspect) == FirstBatches(OrderOf(job, aspect), job.batchSize, CursorOf(s, aspect))
    ensures Indices(trace + [d], aspect)
         == FirstBatches(OrderOf(job, aspect), job.batchSize, CursorOf(Train(job, s, d), aspect))
  {
    IndicesSnoc(trace, d, aspect);
    DrawnIsNext(job, s, d);
    if d.aspect == aspect {
      FirstBatchesSnoc(OrderOf(job, aspect), job.batchSize, CursorOf(s, aspect), d.batch);
    }
  }

  /** The counters are the numbers of steps and of indices trained. */
  lemma {:induction false} CountersCountTheTrace<W>(job: Job<W>, k: nat)
    requires job.Valid()
    ensures At(job, k).steps == |Trace(job, k)|
    ensures At(job, k).aspectSeen == |Indices(Trace(job, k), true)|
    ensures At(job, k).seen == |Indices(Trace(job, k), false)| + |Indices(Trace(job, k), true)|
  {
    if k > 0 {
      CountersCountTheTrace(job, k - 1);
      var s := At(job, k - 1);
      if NextDraw(job, s).Some? {
        TrainCounts(job, s, NextDraw(job, s).value, Trace(job, k - 1));
      }
    }
  }

  lemma TrainCounts<W>(job: Job<W>, s: State<W>, d: Draw, trace: seq<Draw>)
    ensures var s', more := Train(job, s, d), trace + [d];
            && s'.steps - s.steps == |more| - |trace|
            && s'.aspectSeen - s.aspectSeen == |Indices(more, true)| - |Indices(trace, true)|
            && s'.seen - s.seen == |Indices(more, false)| + |Indices(more, true)|
                                   - |Indices(trace, false)| - |Indices(trace, true)|
  {
    IndicesSnoc(trace, d, false);
    IndicesSnoc(trace, d, true);
  }

  /** A completed run trains the whole document shuffle, each index once, and a prefix of the
      pair shuffle, in TotalAspects(job) aspect steps. */
  lemma CompletedRunCoverage<W>(job: Job<W>)
    requires job.Valid()
    ensures var s, trace := At(job, TotalSteps(job)), Trace(job, TotalSteps(job));
            && Indices(trace, false) == job.docs
            && Indices(trace, true) <= job.aspects.GetOr([])
            && s.aspectCursor == TotalAspects(job) && s.docCursor == DocBatches(job)
  {
    var n := TotalSteps(job);
    TraceWalksTheOrders(job, n, false);
    TraceWalksTheOrders(job, n, true);
    FinalCursors(job);
    AllBatchesCover(job.docs, job.batchSize);
    BatchesArePrefix(job.aspects.GetOr([]), job.batchSize, TotalAspects(job));
  }

  lemma FinalCursors<W>(job: Job<W>)
    requires job.Valid()
    ensures var s := At(job, TotalSteps(job));
            s.aspectCursor == TotalAspects(job) && s.docCursor == DocBatches(job)
  {
    ScheduleAt(job, TotalSteps(job));
  }

  lemma BatchesArePrefix(order: seq<nat>, size: pos, count: nat)
    ensures FirstBatches(order, size, count) <= order
  {
    FirstBatchesIsPrefix(order, size, count);
  }

  lemma AllBatchesCover(order: seq<nat>, size: pos)
    ensures FirstBatches(order, size, NumBatches(|order|, size)) == order
  {
    var n := NumBatches(|order|, size);
    assert n * size >= |order|;
    FirstBatchesIsPrefix(order, size, n);
  }

  /** Training on a list of batches in order, from the front. */
  function TrainAll<W>(job: Job<W>, w: W, trace: seq<Draw>): W {
    if trace == [] then w
    else
      var d := trace[0];
      TrainAll(job, if d.aspect then job.trainPairs(w, d.batch) else job.trainDocs(w, d.batch), trace[1..])
  }

  lemma {:induction false} TrainAllSnoc<W>(job: Job<W>, w: W, trace: seq<Draw>, d: Draw)
    ensures var w' := TrainAll(job, w, trace);
            TrainAll(job, w, trace + [d])
            == if d.aspect then job.trainPairs(w', d.batch) else job.trainDocs(w', d.batch)
  {
    if trace == [] {
      assert ([] + [d])[1..] == [];
    } else {
      var first := trace[0];
      assert (trace + [d])[1..] == trace[1..] + [d];
      TrainAllSnoc(job, if first.aspect then job.trainPairs(w, first.batch) else job.trainDocs(w, first.batch),
                   trace[1..], d);
    }
  }

  /** The model at any step count is a function of the batches alone: the initial student
      trained on the trace. */
  lemma {:induction false} ModelIsFoldOfTrace<W>(job: Job<W>, k: nat)
    requires job.Valid()
    ensures At(job, k).w == TrainAll(job, job.initial, Trace(job, k))
  {
    if k > 0 {
      ModelIsFoldOfTrace(job, k - 1);
      var d := NextDraw(job, At(job, k - 1));
      if d.Some? {
        TrainAllSnoc(job, job.initial, Trace(job, k - 1), d.value);
      }
    }
  }
}
