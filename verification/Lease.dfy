/**
 The heartbeat lease of ml/sentilyzer_ml/pipeline/modal_app.py: a shared lock that one
 orchestrator writes and keeps beating, and that a successor may take over.
 */
module Lease {
  import opened Wrappers

  const LOCK_STALE_SECONDS := 10_800.0
  const BEAT_STALE_SECONDS := 300.0

  /** The shared record. Fields added over time may be absent from an older one. */
  datatype Lock = Lock(runId: string, startedAt: Option<real>, beatAt: Option<real>, inputId: Option<string>)

  datatype Decision = Fresh | Resume(runId: string) | Skip(runId: string, age: int)

  /** int(): towards zero. */
  function Truncate(x: real): int {
    if x >= 0.0 then x.Floor else -((-x).Floor)
  }

  function LockDecision(held: Option<Lock>, now: real, inputId: Option<string>): Decision {
    if held.None? || now - held.value.startedAt.GetOr(0.0) >= LOCK_STALE_SECONDS then Fresh
    else
      var lock := held.value;
      if inputId.Some? && lock.inputId == inputId then Resume(lock.runId)
      else if now - lock.beatAt.GetOr(lock.startedAt.GetOr(0.0)) >= BEAT_STALE_SECONDS then Resume(lock.runId)
      else Skip(lock.runId, Truncate(now - lock.startedAt.GetOr(0.0)))
  }

  /** One orchestrator's life: what it writes into the lock whenever it beats. */
  datatype Holder = Holder(runId: string, startedAt: real, inputId: Option<string>, lastBeat: real)

  function Written(h: Holder): Lock {
    Lock(h.runId, Some(h.startedAt), Some(h.lastBeat), h.inputId)
  }

  class RunLock {
    var run: Option<Lock>

    constructor ()
      ensures run == None
    {
      run := None;
    }

    /** Reads, decides and writes as one atomic step. */
    method Acquire(now: real, inputId: Option<string>, freshId: string)
        returns (decision: Decision, holder: Option<Holder>)
      modifies this
      ensures decision == LockDecision(old(run), now, inputId)
      ensures decision.Skip? <==> holder.None?
      ensures decision.Skip? ==> run == old(run)
      ensures decision.Fresh? ==> holder == Some(Holder(freshId, now, inputId, now))
      ensures decision.Resume? ==>
          old(run).Some? && holder == Some(Holder(old(run).value.runId, old(run).value.startedAt.GetOr(now), inputId, now))
      ensures holder.Some? ==> run == Some(Written(holder.value))
    {
      decision := LockDecision(run, now, inputId);
      if decision.Skip? {
        return decision, None;
      }
      var runId, startedAt := freshId, now;
      if decision.Resume? {
        runId := decision.runId;
        startedAt := run.value.startedAt.GetOr(now);
      }
      holder := Some(Holder(runId, startedAt, inputId, now));
      run := Some(Written(holder.value));
    }

    /** The heartbeat thread: the same run and start, a new time. */
    method Beat(h: Holder, now: real) returns (h': Holder)
      modifies this
      ensures h' == h.(lastBeat := now) && run == Some(Written(h'))
    {
      h' := h.(lastBeat := now);
      run := Some(Lock(h.runId, Some(h.startedAt), Some(now), h.inputId));
    }

    /** The finally block. */
    method Release()
      modifies this
      ensures run == None
    {
      run := None;
    }

    /** One event of the protocol, carried out on the shared record. */
    method Perform(s: State, e: Event) returns (s': State)
      requires run == s.lock
      modifies this
      ensures s' == Apply(s, e) && run == s'.lock
    {
      s' := s;
      match e
      case Tick(now) =>
        s' := s.(now := now);
      case Invoke(p, inputId, freshId) =>
        var decision, holder := Acquire(s.now, inputId, freshId);
        if holder.Some? {
          var h := holder.value;
          s' := State(s.now, run, s.live[p := h],
                      s.acquired + [Acquisition(s.now, h.runId, h.startedAt, decision.Resume?)]);
        }
      case Beat(p) =>
        if p in s.live {
          var h := Beat(s.live[p], s.now);
          s' := s.(lock := run, live := s.live[p := h]);
        }
      case Die(p) =>
        s' := s.(live := s.live - {p});
      case Finish(p) =>
        Release();
        s' := s.(live := s.live - {p}, lock := None);
    }

    /** Any admissible events from an empty lock, each acquiring, beating or releasing it. */
    method Play(ghost gap: real, now: real, events: seq<Event>) returns (s: State)
      requires run == None && 0.0 <= gap < BEAT_STALE_SECONDS && Admissible(gap, Initial(now), events)
      modifies this
      ensures s == Run(Initial(now), events) && run == s.lock && Safe(gap, s)
    {
      s := Initial(now);
      for k := 0 to |events|
        invariant s == Run(Initial(now), events[..k]) && run == s.lock
      {
        assert events[..k + 1][..k] == events[..k];
        s := Perform(s, events[k]);
      }
      assert events[..|events|] == events;
      LeaseIsSafe(gap, now, events);
    }
  }

  /* ---------- the protocol ---------- */

  /** One successful acquisition, for the record. */
  datatype Acquisition = Acquisition(at: real, runId: string, startedAt: real, taken: bool)

  /** live: the orchestrators alive, by process. */
  datatype State = State(now: real, lock: Option<Lock>, live: map<nat, Holder>, acquired: seq<Acquisition>)

  datatype Event =
    | Tick(now: real)
    | Invoke(process: nat, inputId: Option<string>, freshId: string)
    | Beat(process: nat)
    | Die(process: nat)        // killed: the lock stays behind
    | Finish(process: nat)     // returns or raises: the lock is removed

  function Initial(now: real): State { State(now, None, map[], []) }

  /** The assumptions: the clock does not go back; every live holder beats at least every gap
      seconds, and none lives to its three-hour cap; a retry with the same input arrives only
      after the earlier life died. */
  predicate Enabled(gap: real, s: State, e: Event) {
    match e
    case Tick(now) =>
      && now >= s.now
      && (forall p :: p in s.live ==>
            now - s.live[p].lastBeat <= gap && now - s.live[p].startedAt < LOCK_STALE_SECONDS)
    case Invoke(p, inputId, _) =>
      && p !in s.live
      && (forall q :: q in s.live && inputId.Some? ==> s.live[q].inputId != inputId)
    case Beat(p) => p in s.live
    case Die(p) => p in s.live
    case Finish(p) => p in s.live
  }

  function Apply(s: State, e: Event): State {
    match e
    case Tick(now) => s.(now := now)
    case Invoke(p, inputId, freshId) =>
      (match LockDecision(s.lock, s.now, inputId)
       case Skip(_, _) => s
       case Fresh =>
         var h := Holder(freshId, s.now, inputId, s.now);
         State(s.now, Some(Written(h)), s.live[p := h],
               s.acquired + [Acquisition(s.now, h.runId, h.startedAt, false)])
       case Resume(runId) =>
         var startedAt := if s.lock.Some? then s.lock.value.startedAt.GetOr(s.now) else s.now;
         var h := Holder(runId, startedAt, inputId, s.now);
         State(s.now, Some(Written(h)), s.live[p := h],
               s.acquired + [Acquisition(s.now, h.runId, h.startedAt, true)]))
    case Beat(p) =>
      if p in s.live then
        var h := s.live[p].(lastBeat := s.now);
        s.(lock := Some(Written(h)), live := s.live[p := h])
      else s
    case Die(p) => s.(live := s.live - {p})
    case Finish(p) => s.(live := s.live - {p}, lock := None)
  }

  function Run(start: State, events: seq<Event>): State {
    if events == [] then start else Apply(Run(start, events[..|events| - 1]), events[|events| - 1])
  }

  ghost predicate Admissible(gap: real, start: State, events: seq<Event>) {
    events == [] ||
    var before := events[..|events| - 1];
    Admissible(gap, start, before) && Enabled(gap, Run(start, before), events[|events| - 1])
  }

  /* ---------- safety ---------- */

  ghost predicate AtMostOneLive(s: State) {
    forall p, q :: p in s.live && q in s.live ==> p == q
  }

  /** A takeover continues the run acquired just before it, from its own first start, and begins
      within three hours of that start. */
  ghost predicate TakeoversContinue(acquired: seq<Acquisition>) {
    forall k :: 0 <= k < |acquired| ==> Continues(acquired[..k], acquired[k])
  }

  predicate Continues(earlier: seq<Acquisition>, a: Acquisition) {
    if a.taken then
      && earlier != []
      && var last := earlier[|earlier| - 1];
         last.runId == a.runId && last.startedAt == a.startedAt <= a.at < a.startedAt + LOCK_STALE_SECONDS
    else a.startedAt == a.at
  }

  lemma OneMoreAcquisition(acquired: seq<Acquisition>, a: Acquisition)
    requires TakeoversContinue(acquired) && Continues(acquired, a)
    ensures TakeoversContinue(acquired + [a])
  {
    var all := acquired + [a];
    forall k | 0 <= k < |all| ensures Continues(all[..k], all[k]) {
      assert k < |acquired| ==> all[..k] == acquired[..k];
      assert k == |acquired| ==> all[..k] == acquired;
    }
  }

  ghost predicate Safe(gap: real, s: State) {
    && AtMostOneLive(s)
    && (forall p :: p in s.live ==>
          && s.lock == Some(Written(s.live[p]))
          && s.now - s.live[p].lastBeat <= gap
          && s.now - s.live[p].startedAt < LOCK_STALE_SECONDS)
    && TakeoversContinue(s.acquired)
    && (s.lock.Some? ==>
          && s.lock.value.startedAt.Some? && s.lock.value.beatAt.Some?
          && s.lock.value.startedAt.value <= s.lock.value.beatAt.value <= s.now
          && s.acquired != []
          && var last := s.acquired[|s.acquired| - 1];
             last.runId == s.lock.value.runId && last.startedAt == s.lock.value.startedAt.value)
  }

  lemma StepKeepsSafe(gap: real, s: State, e: Event)
    requires 0.0 <= gap < BEAT_STALE_SECONDS && Safe(gap, s) && Enabled(gap, s, e)
    ensures Safe(gap, Apply(s, e))
  {
    var s' := Apply(s, e);
    if e.Invoke? && s' != s {
      OneMoreAcquisition(s.acquired, s'.acquired[|s.acquired|]);
    }
  }

  /** Lease safety: in every admissible run, with beats at any gap below the staleness bound,
      at most one orchestrator is live at any time, a beat or a takeover never changes the
      run or its start, and every takeover begins within three hours of the first start. */
  lemma {:induction false} LeaseIsSafe(gap: real, now: real, events: seq<Event>)
    requires 0.0 <= gap < BEAT_STALE_SECONDS && Admissible(gap, Initial(now), events)
    ensures Safe(gap, Run(Initial(now), events))
  {
    if events != [] {
      var before := events[..|events| - 1];
      LeaseIsSafe(gap, now, before);
      StepKeepsSafe(gap, Run(Initial(now), before), events[|events| - 1]);
    }
  }

  /* ---------- takeover ---------- */

  /** A silent holder can be taken over: five minutes after the last beat of a dead holder, or
      at once by a retry of its own input, any caller gets the same run; after the cap it gets
      a fresh one. */
  lemma SilentHolderIsTakenOver(gap: real, start: real, events: seq<Event>, p: nat, inputId: Option<string>, freshId: string)
    requires 0.0 <= gap < BEAT_STALE_SECONDS && Admissible(gap, Initial(start), events)
    requires var s := Run(Initial(start), events);
             && s.live == map[] && s.lock.Some?
             && (s.now - s.lock.value.beatAt.GetOr(0.0) >= BEAT_STALE_SECONDS
                 || (inputId.Some? && s.lock.value.inputId == inputId))
    ensures var s := Run(Initial(start), events);
            var s' := Apply(s, Invoke(p, inputId, freshId));
            && p in s'.live && s'.live.Keys == {p}
            && (s.now < s.lock.value.startedAt.GetOr(0.0) + LOCK_STALE_SECONDS ==>
                  && s'.live[p].runId == s.lock.value.runId
                  && Some(s'.live[p].startedAt) == s.lock.value.startedAt)
            && (s.now >= s.lock.value.startedAt.GetOr(0.0) + LOCK_STALE_SECONDS ==>
                  s'.live[p] == Holder(freshId, s.now, inputId, s.now))
  {
    LeaseIsSafe(gap, start, events);
  }

  /** While a holder lives, nobody else gets in. */
  lemma LiveHolderExcludesOthers(gap: real, start: real, events: seq<Event>, p: nat, e: Event)
    requires 0.0 <= gap < BEAT_STALE_SECONDS && Admissible(gap, Initial(start), events)
    requires p in Run(Initial(start), events).live
    requires e.Invoke? && Enabled(gap, Run(Initial(start), events), e)
    ensures Apply(Run(Initial(start), events), e) == Run(Initial(start), events)
  {
    LeaseIsSafe(gap, start, events);
  }

  /** int() drops the fraction, towards zero. */
  lemma TruncateDropsTheFraction(x: real)
    ensures -1.0 < x - Truncate(x) as real < 1.0
    ensures x >= 0.0 ==> 0.0 <= Truncate(x) as real <= x
    ensures x <= 0.0 ==> x <= Truncate(x) as real <= 0.0
  {
  }

  /** Beside a live holder an invocation is refused with the holder's run and the whole seconds
      since that run first started; with the holder's own input it resumes that run. */
  lemma RefusalNamesTheHolder(gap: real, start: real, events: seq<Event>, p: nat, inputId: Option<string>)
    requires 0.0 <= gap < BEAT_STALE_SECONDS && Admissible(gap, Initial(start), events)
    requires p in Run(Initial(start), events).live
    ensures var s := Run(Initial(start), events);
            var h, decision := s.live[p], LockDecision(s.lock, s.now, inputId);
            if inputId.Some? && inputId == h.inputId then decision == Resume(h.runId)
            else
              && decision.Skip? && decision.runId == h.runId
              && decision.age as real <= s.now - h.startedAt < decision.age as real + 1.0
  {
    LeaseIsSafe(gap, start, events);
    var s := Run(Initial(start), events);
    assert s.lock == Some(Written(s.live[p]));
    TruncateDropsTheFraction(s.now - s.live[p].startedAt);
  }

  /** How a holder leaves decides what the next caller meets: a return or an exception frees the
      lock, and the caller starts a fresh run at once; a kill leaves it, and a caller with another
      input is refused until the last beat is five minutes old. */
  lemma FinishFreesDeathDoesNot(gap: real, start: real, events: seq<Event>, p: nat, q: nat,
                                inputId: Option<string>, freshId: string)
    requires 0.0 <= gap < BEAT_STALE_SECONDS && Admissible(gap, Initial(start), events)
    requires p in Run(Initial(start), events).live
    requires inputId.Some? ==> Run(Initial(start), events).live[p].inputId != inputId
    ensures var s := Run(Initial(start), events);
            var finished, died := Apply(s, Finish(p)), Apply(s, Die(p));
            && finished.live == died.live == map[]
            && Apply(finished, Invoke(q, inputId, freshId)).live == map[q := Holder(freshId, s.now, inputId, s.now)]
            && Apply(died, Invoke(q, inputId, freshId)) == died
            && died.lock == Some(Written(s.live[p]))
  {
    LeaseIsSafe(gap, start, events);
    var s := Run(Initial(start), events);
    assert s.lock == Some(Written(s.live[p]));
    assert s.live - {p} == map[];
  }

  /** A lock written before there were beats is read as last beaten at its start, and one without
      a start as three hours old. */
  lemma OldLocks(lock: Lock, now: real, inputId: Option<string>)
    requires lock.beatAt.None? && (inputId.None? || lock.inputId != inputId) && now >= 10_800.0
    ensures lock.startedAt.None? ==> LockDecision(Some(lock), now, inputId) == Fresh
    ensures lock.startedAt.Some? ==>
        var age, decision := now - lock.startedAt.value, LockDecision(Some(lock), now, inputId);
        && (decision == Fresh <==> age >= 10_800.0)
        && (decision == Resume(lock.runId) <==> 300.0 <= age < 10_800.0)
        && (decision.Skip? <==> age < 300.0)
  {
  }

  /* ---------- what the assumptions carry ---------- */

  lemma RunOne(start: State, events: seq<Event>, e: Event)
    ensures Run(start, events + [e]) == Apply(Run(start, events), e)
    ensures forall gap :: Admissible(gap, start, events + [e]) <==>
        Admissible(gap, start, events) && Enabled(gap, Run(start, events), e)
  {
    assert (events + [e])[..|events|] == events;
  }

  /** The holder of a fresh run and a caller with another input. */
  function First(p: nat): Event { Invoke(p, Some("mine"), "first") }
  function Second(q: nat): Event { Invoke(q, Some("other"), "second") }

  lemma FirstIsHeld(now: real, p: nat)
    ensures var s := Run(Initial(now), [First(p)]);
            var h := Holder("first", now, Some("mine"), now);
            s.now == now && s.live == map[p := h] && s.lock == Some(Written(h))
    ensures forall gap :: Admissible(gap, Initial(now), [First(p)])
  {
    RunOne(Initial(now), [], First(p));
    assert [] + [First(p)] == [First(p)];
  }

  /** The bound on the beat gap is exact: every admissible run keeps to one live orchestrator
      if and only if holders beat at gaps below the staleness bound. */
  lemma GapBoundIsExact(gap: real, now: real)
    requires 0.0 <= gap
    ensures (forall events :: Admissible(gap, Initial(now), events) ==> AtMostOneLive(Run(Initial(now), events)))
       <==> gap < 300.0
  {
    if gap < BEAT_STALE_SECONDS {
      forall events | Admissible(gap, Initial(now), events) ensures AtMostOneLive(Run(Initial(now), events)) {
        LeaseIsSafe(gap, now, events);
      }
    } else {
      SlowBeatEndsExclusion(gap, now, 0, 1);
    }
  }

  /** A gap of the staleness bound or more is not enough: the holder is robbed alive, five
      minutes after its first beat. */
  lemma SlowBeatEndsExclusion(gap: real, now: real, p: nat, q: nat)
    requires p != q && gap >= BEAT_STALE_SECONDS
    ensures var events := [First(p)] + [Tick(now + BEAT_STALE_SECONDS)] + [Second(q)];
            Admissible(gap, Initial(now), events) && !AtMostOneLive(Run(Initial(now), events))
  {
    FirstIsHeld(now, p);
    var tick := Tick(now + BEAT_STALE_SECONDS);
    RunOne(Initial(now), [First(p)], tick);
    RunOne(Initial(now), [First(p)] + [tick], Second(q));
    var s := Run(Initial(now), [First(p)] + [tick] + [Second(q)]);
    assert p in s.live && q in s.live;
  }

  lemma InvokedBesideHolder(gap: real, s: State, p: nat, q: nat, inputId: Option<string>, freshId: string)
    requires 0.0 <= gap < BEAT_STALE_SECONDS && Safe(gap, s) && p in s.live && q != p
    ensures var own := inputId.Some? && inputId == s.live[p].inputId;
            && LockDecision(s.lock, s.now, inputId).Skip? == !own
            && (own ==> q in Apply(s, Invoke(q, inputId, freshId)).live && p in Apply(s, Invoke(q, inputId, freshId)).live)
  {
    assert s.lock == Some(Written(s.live[p]));
  }

  /** The assumption on retries is exact: beside a live holder an invocation gets in if and
      only if it comes with the holder's own input. */
  lemma EarlyRetryEndsExclusion(gap: real, start: real, events: seq<Event>, p: nat, q: nat,
                                inputId: Option<string>, freshId: string)
    requires 0.0 <= gap < BEAT_STALE_SECONDS && Admissible(gap, Initial(start), events)
    requires p in Run(Initial(start), events).live && q != p
    ensures var s := Run(Initial(start), events);
            AtMostOneLive(Apply(s, Invoke(q, inputId, freshId)))
            <==> !(inputId.Some? && inputId == s.live[p].inputId)
  {
    LeaseIsSafe(gap, start, events);
    InvokedBesideHolder(gap, Run(Initial(start), events), p, q, inputId, freshId);
  }

  /** A holder beating every minute, n times. */
  function Beats(now: real, p: nat, n: nat): seq<Event> {
    if n == 0 then [First(p)] else Beats(now, p, n - 1) + [Tick(now + 60.0 * n as real)] + [Beat(p)]
  }

  /** The lock is held by p alone, which last beat now. */
  ghost predicate HeldSince(s: State, p: nat, start: real, now: real) {
    var h := Holder("first", start, Some("mine"), now);
    s.now == now && s.live == map[p := h] && s.lock == Some(Written(h))
  }

  lemma OneMoreBeat(s: State, p: nat, start: real, now: real)
    requires HeldSince(s, p, start, now) && now + 60.0 - start < LOCK_STALE_SECONDS
    ensures var s' := Apply(s, Tick(now + 60.0));
            && Enabled(60.0, s, Tick(now + 60.0)) && Enabled(60.0, s', Beat(p))
            && HeldSince(Apply(s', Beat(p)), p, start, now + 60.0)
  {
  }

  lemma {:induction false} BeatsKeepTheLock(now: real, p: nat, n: nat)
    requires n < 180
    ensures Admissible(60.0, Initial(now), Beats(now, p, n))
    ensures HeldSince(Run(Initial(now), Beats(now, p, n)), p, now, now + 60.0 * n as real)
  {
    if n == 0 {
      FirstIsHeld(now, p);
    } else {
      BeatsKeepTheLock(now, p, n - 1);
      var before, tick := Beats(now, p, n - 1), Tick(now + 60.0 * n as real);
      OneMoreBeat(Run(Initial(now), before), p, now, now + 60.0 * (n - 1) as real);
      RunOne(Initial(now), before, tick);
      RunOne(Initial(now), before + [tick], Beat(p));
    }
  }

  /** The cap is needed too: a holder that beats every minute and lives three hours is not
      excluded any more, and the next caller starts a second run beside it. */
  lemma CapEndsExclusion(now: real, p: nat, q: nat)
    requires p != q
    ensures Admissible(60.0, Initial(now), Beats(now, p, 179))
    ensures var s := Run(Initial(now), Beats(now, p, 179) + [Tick(now + LOCK_STALE_SECONDS)] + [Second(q)]);
            && p in s.live && s.now - s.live[p].lastBeat == 60.0 && s.now - s.live[p].startedAt == LOCK_STALE_SECONDS
            && q in s.live && s.live[q].runId == "second"
  {
    BeatsKeepTheLock(now, p, 179);
    var tick := Tick(now + LOCK_STALE_SECONDS);
    RunOne(Initial(now), Beats(now, p, 179), tick);
    RunOne(Initial(now), Beats(now, p, 179) + [tick], Second(q));
  }
}
