/**
 The at-least-once guarantee of the harvester: over any connections, failed dials, failed
 appends and clean restarts, nothing between where it started and its cursor is missing.
 */
module HarvestTheorems {
  import opened Wrappers
  import opened Orders
  import opened Corpus
  import opened Harvest

  /** Delivery is in the order of event times. */
  ghost predicate Ordered(log: seq<Event>) {
    && (forall i :: 0 <= i < |log| ==> log[i].timeUs > 0)
    && (forall i, j :: 0 <= i < j < |log| ==> log[i].timeUs <= log[j].timeUs)
  }

  /** Every event from lo on that is strictly before the cursor lies before hi. */
  ghost predicate CursorCovered(log: seq<Event>, cursor: int, lo: nat, hi: nat) {
    forall i :: lo <= i < |log| && log[i].timeUs < cursor ==> i < hi
  }

  ghost predicate NoGap(setup: Setup, log: seq<Event>, s: State) {
    && s.lo <= s.hi <= |log|
    && (forall k :: 0 <= k < |s.handled| ==> s.handled[k] < |log|)
    && 0 <= s.saved <= s.cursor
    && (!setup.persists ==> s.saved == 0)
    && (s.cursor > 0 ==> forall i :: s.lo <= i < s.hi ==> i in s.handled)
    && (s.cursor > 0 ==> CursorCovered(log, s.cursor, s.lo, s.hi))
    && (s.saved > 0 ==> CursorCovered(log, s.saved, s.lo, s.hi))
  }

  /** Every event strictly before this time lies before the position. */
  ghost predicate Before(log: seq<Event>, time: int, stop: nat) {
    time > 0 && forall j :: 0 <= j < |log| && log[j].timeUs < time ==> j < stop
  }

  /** One connection handles a contiguous stretch, and every time it reports or saves is that
      of an event no later than the one it stopped at. */
  lemma {:induction false} StreamCovers(
    setup: Setup, log: seq<Event>, c: Connection, start: nat, i: nat, last: int, saved: int)
    requires Ordered(log) && start <= i <= |log|
    ensures var r := StreamFrom(setup, log, c, start, i, last, saved);
            && i <= r.stop <= |log|
            && ((r.last == last && r.stop == i) || Before(log, r.last, r.stop))
            && (r.saved == saved || (setup.persists && Before(log, r.saved, r.stop) && r.saved <= r.last))
            && (r.last == last || (i < |log| && r.last >= log[i].timeUs))
    decreases |log| - i
  {
    if i < |log| && i - start < c.delivered && !(c.failsAt == Some(i) && Appends(setup, log[i])) {
      var time := log[i].timeUs;
      StreamCovers(setup, log, c, start, i + 1, time,
                   if setup.persists && time > 0 && i in c.saves then time else saved);
    }
  }

  predicate IsLastSave(c: Connection, p: nat, stop: nat) {
    p in c.saves && forall q :: p < q < stop ==> q !in c.saves
  }

  /** One connection in full, from position i on: it handles everything up to the drop, the end of
      the log or the first failed append, whichever comes first; reports the time of the last
      event it was handed, handled or not; and leaves the time of the last save that fell due. */
  lemma {:induction false} StreamInFull(
    setup: Setup, log: seq<Event>, c: Connection, start: nat, i: nat, last: int, saved: int)
    requires Ordered(log) && start <= i <= |log| && i - start <= c.delivered
    ensures var r := StreamFrom(setup, log, c, start, i, last, saved);
            var failed := r.stop < |log| && r.stop - start < c.delivered;
            && i <= r.stop <= |log| && r.stop - start <= c.delivered
            && (forall p :: i <= p < r.stop ==> !(c.failsAt == Some(p) && Appends(setup, log[p])))
            && (failed ==> c.failsAt == Some(r.stop) && Appends(setup, log[r.stop]))
            && r.last == (if failed then log[r.stop].timeUs else if r.stop > i then log[r.stop - 1].timeUs else last)
            && ((forall p :: i <= p < r.stop && setup.persists ==> p !in c.saves) ==> r.saved == saved)
            && (forall p :: i <= p < r.stop && setup.persists && IsLastSave(c, p, r.stop) ==> r.saved == log[p].timeUs)
    decreases |log| - i
  {
    if i < |log| && i - start < c.delivered && !(c.failsAt == Some(i) && Appends(setup, log[i])) {
      var time := log[i].timeUs;
      StreamInFull(setup, log, c, start, i + 1, time,
                   if setup.persists && time > 0 && i in c.saves then time else saved);
    }
  }

  /** What it makes of the cursor and the file: the cursor moves up to a later time reported, and
      only then the file is written once more, at the end; a restart reads the file. */
  lemma CursorInFull(setup: Setup, log: seq<Event>, s: State, c: Connection)
    requires Ordered(log)
    ensures var start := StartOf(log, s.cursor, c.tail);
            var r, s' := StreamFrom(setup, log, c, start, start, s.cursor, s.saved), Next(setup, log, s, Dial(c));
            && s'.cursor >= s.cursor && s'.cursor >= r.last && (s'.cursor == s.cursor || s'.cursor == r.last)
            && s'.saved == (if s'.cursor > s.cursor && setup.persists && c.endSaveOk then s'.cursor else r.saved)
    ensures Next(setup, log, s, Restart).cursor == (if setup.persists then s.saved else 0)
    ensures Next(setup, log, s, DialFails) == s
  {
  }

  lemma StartIsCovered(log: seq<Event>, cursor: int, tail: nat, lo: nat, hi: nat)
    requires Ordered(log) && cursor > 0 && lo <= hi <= |log| && CursorCovered(log, cursor, lo, hi)
    ensures StartOf(log, cursor, tail) <= hi
  {
    assert hi < |log| ==> log[hi].timeUs >= cursor;
  }

  lemma DialKeepsNoGap(setup: Setup, log: seq<Event>, s: State, c: Connection)
    requires Ordered(log) && NoGap(setup, log, s)
    ensures NoGap(setup, log, Next(setup, log, s, Dial(c)))
  {
    var start := StartOf(log, s.cursor, c.tail);
    StreamCovers(setup, log, c, start, start, s.cursor, s.saved);
    var r := StreamFrom(setup, log, c, start, start, s.cursor, s.saved);
    var s' := Next(setup, log, s, Dial(c));
    if s.cursor > 0 {
      StartIsCovered(log, s.cursor, c.tail, s.lo, s.hi);
    }
    forall i | s'.cursor > 0 && s'.lo <= i < s'.hi ensures i in s'.handled {
      if start <= i < r.stop {
        assert Interval(start, r.stop)[i - start] == i;
      } else {
        assert i in s.handled;
      }
    }
  }

  /** The harvest is complete from this position: every event from there on, strictly before
      the current or the saved cursor, has been handled. */
  ghost predicate CompleteFrom(log: seq<Event>, s: State, first: nat) {
    forall i :: first <= i < |log| && (log[i].timeUs < s.cursor || log[i].timeUs < s.saved) ==> i in s.handled
  }

  /** Over any run, with any drops, failed dials, failed appends and clean restarts, the harvest
      is complete from the last start without a cursor. */
  lemma {:induction false} HarvestLeavesNoGap(setup: Setup, log: seq<Event>, steps: seq<Step>)
    requires Ordered(log)
    ensures NoGap(setup, log, After(setup, log, steps))
    ensures CompleteFrom(log, After(setup, log, steps), After(setup, log, steps).lo)
  {
    if steps != [] {
      HarvestLeavesNoGap(setup, log, steps[..|steps| - 1]);
      var s, step := After(setup, log, steps[..|steps| - 1]), steps[|steps| - 1];
      if step.Dial? {
        DialKeepsNoGap(setup, log, s, step.connection);
      }
    }
  }

  /** Within one process the in-memory cursor never goes back, however often a dropped replay
      reports an earlier time. */
  lemma {:induction false} CursorNeverDecreases(setup: Setup, log: seq<Event>, steps: seq<Step>, more: seq<Step>)
    requires forall k :: 0 <= k < |more| ==> !more[k].Restart?
    ensures After(setup, log, steps + more).cursor >= After(setup, log, steps).cursor
  {
    if more == [] {
      assert steps + more == steps;
    } else {
      assert (steps + more)[..|steps + more| - 1] == steps + more[..|more| - 1];
      CursorNeverDecreases(setup, log, steps, more[..|more| - 1]);
    }
  }

  /* ---------- the first start point ---------- */

  /** The cursor was positive at some point of the run. */
  ghost predicate EverPositive(setup: Setup, log: seq<Event>, steps: seq<Step>) {
    After(setup, log, steps).cursor > 0
    || (steps != [] && EverPositive(setup, log, steps[..|steps| - 1]))
  }

  /** Once the harvester has a cursor it never connects without one. */
  ghost predicate KeepsCursor(setup: Setup, log: seq<Event>, steps: seq<Step>) {
    steps == [] ||
    var before := steps[..|steps| - 1];
    && KeepsCursor(setup, log, before)
    && (steps[|steps| - 1].Dial? && After(setup, log, before).cursor == 0 ==> !EverPositive(setup, log, before))
  }

  /** What makes it so: no restart, or a cursor file whose write at the end of each connection
      succeeds. */
  predicate Durable(setup: Setup, steps: seq<Step>) {
    || (forall k :: 0 <= k < |steps| ==> !steps[k].Restart?)
    || (setup.persists && forall k :: 0 <= k < |steps| && steps[k].Dial? ==> steps[k].connection.endSaveOk)
  }

  lemma {:induction false} DurableKeepsCursor(setup: Setup, log: seq<Event>, steps: seq<Step>)
    requires Ordered(log) && Durable(setup, steps)
    ensures KeepsCursor(setup, log, steps)
    ensures EverPositive(setup, log, steps) ==> After(setup, log, steps).cursor > 0
    ensures After(setup, log, steps).cursor > 0 && setup.persists
            && (forall k :: 0 <= k < |steps| && steps[k].Dial? ==> steps[k].connection.endSaveOk)
            ==> After(setup, log, steps).saved > 0
  {
    if steps != [] {
      var before, step := steps[..|steps| - 1], steps[|steps| - 1];
      DurableKeepsCursor(setup, log, before);
      HarvestLeavesNoGap(setup, log, before);
      var s := After(setup, log, before);
      if step.Dial? {
        var start := StartOf(log, s.cursor, step.connection.tail);
        StreamCovers(setup, log, step.connection, start, start, s.cursor, s.saved);
      }
    }
  }

  /** Where the first accepted connection starts. */
  function FirstStart(log: seq<Event>, steps: seq<Step>): nat {
    if steps == [] then 0
    else if steps[0].Dial? then StartOf(log, 0, steps[0].connection.tail)
    else FirstStart(log, steps[1..])
  }

  /** Nothing but dials moves the harvester off its initial state. */
  predicate NoDial(steps: seq<Step>) {
    forall k :: 0 <= k < |steps| ==> !steps[k].Dial?
  }

  lemma {:induction false} NothingBeforeADial(setup: Setup, log: seq<Event>, steps: seq<Step>)
    requires NoDial(steps)
    ensures After(setup, log, steps) == INITIAL
  {
    if steps != [] {
      NothingBeforeADial(setup, log, steps[..|steps| - 1]);
    }
  }

  lemma {:induction false} FirstStartIs(log: seq<Event>, before: seq<Step>, c: Connection, more: seq<Step>)
    requires NoDial(before)
    ensures FirstStart(log, before + [Dial(c)] + more) == StartOf(log, 0, c.tail)
  {
    var steps := before + [Dial(c)] + more;
    if before == [] {
      assert steps[0] == Dial(c);
    } else {
      assert steps[0] == before[0] && steps[1..] == before[1..] + [Dial(c)] + more;
      FirstStartIs(log, before[1..], c, more);
    }
  }

  /** From then on the start point stays: nothing but a connection without a cursor moves it. */
  lemma {:induction false} StartStays(setup: Setup, log: seq<Event>, steps: seq<Step>, more: seq<Step>)
    requires Ordered(log) && KeepsCursor(setup, log, steps + more) && EverPositive(setup, log, steps)
    ensures After(setup, log, steps + more).lo == After(setup, log, steps).lo
    ensures EverPositive(setup, log, steps + more)
  {
    if more == [] {
      assert steps + more == steps;
    } else {
      assert (steps + more)[..|steps + more| - 1] == steps + more[..|more| - 1];
      StartStays(setup, log, steps, more[..|more| - 1]);
      HarvestLeavesNoGap(setup, log, steps + more[..|more| - 1]);
    }
  }

  /** If the first accepted connection leaves a cursor and the harvester keeps it, the harvest
      is complete from the very first start point, for good. */
  lemma CompleteFromFirstStart(setup: Setup, log: seq<Event>, before: seq<Step>, c: Connection, more: seq<Step>)
    requires Ordered(log) && NoDial(before)
    requires After(setup, log, before + [Dial(c)]).cursor > 0
    requires KeepsCursor(setup, log, before + [Dial(c)] + more)
    ensures var steps := before + [Dial(c)] + more;
            && After(setup, log, steps).lo == FirstStart(log, steps)
            && CompleteFrom(log, After(setup, log, steps), FirstStart(log, steps))
  {
    var first := before + [Dial(c)];
    assert first[..|first| - 1] == before;
    NothingBeforeADial(setup, log, before);
    FirstStartIs(log, before, c, more);
    StartStays(setup, log, first, more);
    HarvestLeavesNoGap(setup, log, first + more);
  }

  /** In any run the harvest is complete from the first start point exactly when every event
      between there and the last start without a cursor that is before the cursor was handled
      after all, by an earlier start or a rewind. */
  lemma CompleteIffNothingSkipped(setup: Setup, log: seq<Event>, steps: seq<Step>)
    requires Ordered(log)
    ensures var s, first := After(setup, log, steps), FirstStart(log, steps);
            CompleteFrom(log, s, first) <==>
            forall i :: first <= i < s.lo <= |log| && log[i].timeUs < s.cursor ==> i in s.handled
  {
    HarvestLeavesNoGap(setup, log, steps);
  }

  /** A silent beginning, connections without a cursor that deliver nothing, loses events to
      the connection that ends it exactly when that one starts past the first start point and
      its cursor past the event there. */
  lemma SilentStartLosesIff(setup: Setup, log: seq<Event>, before: seq<Step>, c: Connection)
    requires Ordered(log) && !EverPositive(setup, log, before)
    requires After(setup, log, before + [Dial(c)]).cursor > 0
    ensures var steps := before + [Dial(c)];
            var s, first := After(setup, log, steps), FirstStart(log, steps);
            && s.lo == StartOf(log, 0, c.tail)
            && (CompleteFrom(log, s, first) <==> !(first < s.lo && log[first].timeUs < s.cursor))
  {
    var steps := before + [Dial(c)];
    assert steps[..|steps| - 1] == before;
    HarvestLeavesNoGap(setup, log, before);
    HandledMeansPositive(setup, log, before);
    CompleteIffNothingSkipped(setup, log, steps);
    var s, first := After(setup, log, steps), FirstStart(log, steps);
    assert forall k :: 0 <= k < |s.handled| ==> s.handled[k] >= s.lo;
    if first < s.lo && log[first].timeUs < s.cursor {
      assert first !in s.handled;
    }
  }

  lemma {:induction false} HandledMeansPositive(setup: Setup, log: seq<Event>, steps: seq<Step>)
    requires Ordered(log)
    ensures After(setup, log, steps).handled != [] ==> EverPositive(setup, log, steps)
  {
    if steps != [] {
      var before, step := steps[..|steps| - 1], steps[|steps| - 1];
      HandledMeansPositive(setup, log, before);
      HarvestLeavesNoGap(setup, log, before);
      if step.Dial? {
        var s := After(setup, log, before);
        var start := StartOf(log, s.cursor, step.connection.tail);
        StreamCovers(setup, log, step.connection, start, start, s.cursor, s.saved);
      }
    }
  }

  /** A harvester that keeps its cursor starts without one only before it handles anything. */
  lemma {:induction false} KeepingTheCursorIsOneStart(setup: Setup, log: seq<Event>, steps: seq<Step>)
    requires Ordered(log) && KeepsCursor(setup, log, steps)
    ensures OneStart(setup, log, steps)
  {
    if steps != [] {
      KeepingTheCursorIsOneStart(setup, log, steps[..|steps| - 1]);
      HandledMeansPositive(setup, log, steps[..|steps| - 1]);
    }
  }

  /* ---------- what exactly was handled ---------- */

  /** The harvester starts without a cursor only before it has handled anything. */
  ghost predicate OneStart(setup: Setup, log: seq<Event>, steps: seq<Step>) {
    steps == [] ||
    var before := steps[..|steps| - 1];
    && OneStart(setup, log, before)
    && (steps[|steps| - 1].Dial? && After(setup, log, before).cursor == 0
        ==> After(setup, log, before).handled == [])
  }

  lemma DialHandles(setup: Setup, log: seq<Event>, s: State, c: Connection)
    requires Ordered(log)
    ensures var start, s' := StartOf(log, s.cursor, c.tail), Next(setup, log, s, Dial(c));
            var stop := StreamFrom(setup, log, c, start, start, s.cursor, s.saved).stop;
            && start <= stop <= |log| && s'.handled == s.handled + Interval(start, stop)
            && (forall k :: 0 <= k < |s'.handled| ==>
                  s'.handled[k] in s.handled || start <= s'.handled[k] < stop)
  {
    var start := StartOf(log, s.cursor, c.tail);
    StreamCovers(setup, log, c, start, start, s.cursor, s.saved);
  }

  lemma {:induction false} NothingBeyondHi(setup: Setup, log: seq<Event>, steps: seq<Step>)
    requires Ordered(log) && OneStart(setup, log, steps)
    ensures forall i :: i in After(setup, log, steps).handled ==> i < After(setup, log, steps).hi
  {
    if steps != [] {
      var before := steps[..|steps| - 1];
      var s, step := After(setup, log, before), steps[|steps| - 1];
      NothingBeyondHi(setup, log, before);
      HarvestLeavesNoGap(setup, log, before);
      if step.Dial? {
        DialHandles(setup, log, s, step.connection);
        assert s.cursor == 0 ==> s.handled == [];
      }
    }
  }

  /** The connection handles at least one event. */
  predicate HandlesSome(setup: Setup, log: seq<Event>, s: State, c: Connection) {
    var start := StartOf(log, s.cursor, c.tail);
    start < |log| && c.delivered > 0 && !(c.failsAt == Some(start) && Appends(setup, log[start]))
  }

  /** A reconnect that handles something from before the start point. */
  predicate ReachesBack(setup: Setup, log: seq<Event>, s: State, step: Step) {
    && step.Dial? && s.cursor > 0 && HandlesSome(setup, log, s, step.connection)
    && StartOf(log, s.cursor, step.connection.tail) < s.lo
  }

  /** Every reconnect that handles anything starts, rewound, at or past the start point. */
  ghost predicate NoReachBack(setup: Setup, log: seq<Event>, steps: seq<Step>) {
    steps == [] ||
    var before := steps[..|steps| - 1];
    && NoReachBack(setup, log, before)
    && !ReachesBack(setup, log, After(setup, log, before), steps[|steps| - 1])
  }

  /** As the cursor tells: a reconnect stays past the start point exactly when every event
      before that point is more than five seconds before the cursor. */
  lemma ReachesBackIff(log: seq<Event>, cursor: int, tail: nat, lo: nat)
    requires Ordered(log) && cursor > 0 && lo <= |log|
    ensures StartOf(log, cursor, tail) >= lo <==> forall j :: 0 <= j < lo ==> log[j].timeUs < cursor - 5_000_000
  {
  }

  lemma SomeHandledIff(setup: Setup, log: seq<Event>, s: State, c: Connection)
    requires Ordered(log)
    ensures var start := StartOf(log, s.cursor, c.tail);
            HandlesSome(setup, log, s, c)
            <==> StreamFrom(setup, log, c, start, start, s.cursor, s.saved).stop > start
  {
    var start := StartOf(log, s.cursor, c.tail);
    if HandlesSome(setup, log, s, c) {
      var time := log[start].timeUs;
      StreamCovers(setup, log, c, start, start + 1, time,
                   if setup.persists && time > 0 && start in c.saves then time else s.saved);
    }
  }

  /** Nothing from before the start point was handled. */
  ghost predicate NothingBeforeLo(s: State) {
    forall i :: i in s.handled ==> s.lo <= i
  }

  lemma DialReachesBackIff(setup: Setup, log: seq<Event>, s: State, c: Connection)
    requires Ordered(log) && (s.cursor <= 0 ==> s.handled == [])
    ensures NothingBeforeLo(Next(setup, log, s, Dial(c))) <==>
        NothingBeforeLo(s) && !ReachesBack(setup, log, s, Dial(c))
  {
    DialHandles(setup, log, s, c);
    SomeHandledIff(setup, log, s, c);
    var start, s' := StartOf(log, s.cursor, c.tail), Next(setup, log, s, Dial(c));
    if HandlesSome(setup, log, s, c) {
      assert s'.handled[|s.handled|] == start && start in s'.handled;
    }
    if NothingBeforeLo(s') && s.cursor > 0 {
      forall i | i in s.handled ensures s.lo <= i {
        assert i in s'.handled;
      }
    }
    if NothingBeforeLo(s) {
      forall i | i in s'.handled && i !in s.handled ensures start <= i {
        var k :| 0 <= k < |s'.handled| && s'.handled[k] == i;
      }
    }
  }

  lemma {:induction false} NothingBeforeLoIff(setup: Setup, log: seq<Event>, steps: seq<Step>)
    requires Ordered(log) && OneStart(setup, log, steps)
    ensures NoReachBack(setup, log, steps) <==> NothingBeforeLo(After(setup, log, steps))
  {
    if steps != [] {
      var before := steps[..|steps| - 1];
      NothingBeforeLoIff(setup, log, before);
      HarvestLeavesNoGap(setup, log, before);
      var s, step := After(setup, log, before), steps[|steps| - 1];
      if step.Dial? {
        DialReachesBackIff(setup, log, s, step.connection);
      }
    }
  }

  /** Any schedule handles exactly the events of one uninterrupted pass, from the start point
      to the furthest position reached, if and only if no reconnect reaches back past the start
      point; from the beginning of the log none can. */
  lemma HandledIsOnePass(setup: Setup, log: seq<Event>, steps: seq<Step>)
    requires Ordered(log) && OneStart(setup, log, steps) && After(setup, log, steps).cursor > 0
    ensures var s := After(setup, log, steps);
            && s.lo <= s.hi <= |log|
            && (SameSet(s.handled, Interval(s.lo, s.hi)) <==> NoReachBack(setup, log, steps))
            && (s.lo == 0 ==> NoReachBack(setup, log, steps))
  {
    var s := After(setup, log, steps);
    HarvestLeavesNoGap(setup, log, steps);
    NothingBeyondHi(setup, log, steps);
    NothingBeforeLoIff(setup, log, steps);
    forall i | s.lo <= i < s.hi ensures i in Interval(s.lo, s.hi) {
      assert Interval(s.lo, s.hi)[i - s.lo] == i;
    }
  }

  /* ---------- reaching back past the start ---------- */

  /** Where a connection stops. */
  function StopOf(setup: Setup, log: seq<Event>, s: State, c: Connection): nat {
    var start := StartOf(log, s.cursor, c.tail);
    StreamFrom(setup, log, c, start, start, s.cursor, s.saved).stop
  }

  /** No restart finds a cursor file older than the cursor the process had. */
  ghost predicate NoSetback(setup: Setup, log: seq<Event>, steps: seq<Step>) {
    steps == [] ||
    var before := steps[..|steps| - 1];
    && NoSetback(setup, log, before)
    && (steps[|steps| - 1].Restart? ==> After(setup, log, steps).cursor >= After(setup, log, before).cursor)
  }

  /** A reconnect that reached back got as far as the start point. */
  ghost predicate CaughtUp(setup: Setup, log: seq<Event>, steps: seq<Step>) {
    steps != [] &&
    var before, step := steps[..|steps| - 1], steps[|steps| - 1];
    var s := After(setup, log, before);
    CaughtUp(setup, log, before)
    || (ReachesBack(setup, log, s, step) && StopOf(setup, log, s, step.connection) >= s.lo)
  }

  /** The cursor is past every event before the start point. */
  ghost predicate CursorPastStart(log: seq<Event>, s: State) {
    && (s.cursor > 0 ==> forall j :: 0 <= j < s.lo <= |log| ==> log[j].timeUs <= s.cursor)
    && (s.cursor <= 0 ==> s.handled == [])
  }

  /** Nothing from before this position, and everything from it up to the start point; what is
      still to come starts there too. */
  ghost predicate FilledFrom(log: seq<Event>, s: State, first: nat) {
    && s.cursor > 0 && first <= s.lo && first <= StartOf(log, s.cursor, 0)
    && (forall i :: i in s.handled ==> first <= i)
    && (forall i :: first <= i < s.lo ==> i in s.handled)
  }

  /** What was handled from before the start point, if anything, is from the present replay,
      which has not got to the start point yet. */
  ghost predicate StillReplaying(log: seq<Event>, s: State) {
    forall i :: i in s.handled && i < s.lo ==> s.cursor > 0 && StartOf(log, s.cursor, 0) <= i < s.lo - 1
  }

  lemma StartIsMonotone(log: seq<Event>, cursor: int, later: int, tail: nat)
    requires Ordered(log) && 0 < cursor <= later
    ensures StartOf(log, cursor, 0) <= StartOf(log, later, tail)
  {
  }

  lemma DialKeepsCursorPast(setup: Setup, log: seq<Event>, s: State, c: Connection)
    requires Ordered(log) && NoGap(setup, log, s) && CursorPastStart(log, s)
    ensures CursorPastStart(log, Next(setup, log, s, Dial(c)))
    ensures s.cursor > 0 && StopOf(setup, log, s, c) < s.lo ==> Next(setup, log, s, Dial(c)).cursor == s.cursor
  {
    var start := StartOf(log, s.cursor, c.tail);
    StreamCovers(setup, log, c, start, start, s.cursor, s.saved);
    var r := StreamFrom(setup, log, c, start, start, s.cursor, s.saved);
    assert r.stop < s.lo && Before(log, r.last, r.stop) ==> log[r.stop].timeUs >= r.last;
  }

  lemma DialKeepsReplaying(setup: Setup, log: seq<Event>, s: State, c: Connection)
    requires Ordered(log) && NoGap(setup, log, s) && CursorPastStart(log, s) && StillReplaying(log, s)
    ensures var s' := Next(setup, log, s, Dial(c));
            if ReachesBack(setup, log, s, Dial(c)) && StopOf(setup, log, s, c) >= s.lo
            then FilledFrom(log, s', StartOf(log, s.cursor, c.tail))
            else StillReplaying(log, s')
  {
    var start, s' := StartOf(log, s.cursor, c.tail), Next(setup, log, s, Dial(c));
    DialHandles(setup, log, s, c);
    DialKeepsCursorPast(setup, log, s, c);
    SomeHandledIff(setup, log, s, c);
    StreamCovers(setup, log, c, start, start, s.cursor, s.saved);
    if s.cursor > 0 {
      StartIsMonotone(log, s.cursor, s'.cursor, 0);
    }
    var stop := StopOf(setup, log, s, c);
    forall i | start <= i < stop ensures i in s'.handled {
      assert Interval(start, stop)[i - start] == i;
    }
  }

  lemma DialKeepsFilled(setup: Setup, log: seq<Event>, s: State, c: Connection, first: nat)
    requires Ordered(log) && NoGap(setup, log, s) && FilledFrom(log, s, first)
    ensures FilledFrom(log, Next(setup, log, s, Dial(c)), first)
  {
    DialHandles(setup, log, s, c);
    StartIsMonotone(log, s.cursor, Next(setup, log, s, Dial(c)).cursor, 0);
  }

  lemma {:induction false} ReplayCatchesUp(setup: Setup, log: seq<Event>, steps: seq<Step>)
    requires Ordered(log) && NoSetback(setup, log, steps)
    ensures CursorPastStart(log, After(setup, log, steps))
    ensures if CaughtUp(setup, log, steps) then exists first :: FilledFrom(log, After(setup, log, steps), first)
            else StillReplaying(log, After(setup, log, steps))
  {
    if steps != [] {
      var before := steps[..|steps| - 1];
      var s, step := After(setup, log, before), steps[|steps| - 1];
      ReplayCatchesUp(setup, log, before);
      HarvestLeavesNoGap(setup, log, before);
      if step.Dial? {
        DialKeepsCursorPast(setup, log, s, step.connection);
        if CaughtUp(setup, log, before) {
          var first :| FilledFrom(log, s, first);
          DialKeepsFilled(setup, log, s, step.connection, first);
        } else {
          DialKeepsReplaying(setup, log, s, step.connection);
        }
      }
    }
  }

  lemma {:induction false} NoSetbackIsOneStart(setup: Setup, log: seq<Event>, steps: seq<Step>)
    requires Ordered(log) && NoSetback(setup, log, steps)
    ensures OneStart(setup, log, steps)
  {
    if steps != [] {
      NoSetbackIsOneStart(setup, log, steps[..|steps| - 1]);
      ReplayCatchesUp(setup, log, steps[..|steps| - 1]);
    }
  }

  /** The first position of the log that was handled. */
  ghost predicate Earliest(s: State, first: nat) {
    first in s.handled && forall i :: i in s.handled ==> first <= i
  }

  lemma OneStretchIff(s: State, first: nat)
    requires Earliest(s, first) && s.lo <= s.hi
    requires forall i :: s.lo <= i < s.hi ==> i in s.handled
    requires forall i :: i in s.handled ==> i < s.hi
    ensures SameSet(s.handled, Interval(first, s.hi)) <==> forall i :: first <= i < s.lo ==> i in s.handled
  {
    forall i | first <= i < s.hi ensures i in Interval(first, s.hi) {
      assert Interval(first, s.hi)[i - first] == i;
    }
  }

  /** While no restart sets the cursor back, everything handled is one stretch, from the first
      position handled to the furthest, if and only if no reconnect reached back past the start
      point or one of those got as far as it. */
  lemma HandledIsOneStretch(setup: Setup, log: seq<Event>, steps: seq<Step>, first: nat)
    requires Ordered(log) && NoSetback(setup, log, steps)
    requires After(setup, log, steps).cursor > 0 && Earliest(After(setup, log, steps), first)
    ensures var s := After(setup, log, steps);
            SameSet(s.handled, Interval(first, s.hi))
            <==> NoReachBack(setup, log, steps) || CaughtUp(setup, log, steps)
  {
    var s := After(setup, log, steps);
    NoSetbackIsOneStart(setup, log, steps);
    ReplayCatchesUp(setup, log, steps);
    HarvestLeavesNoGap(setup, log, steps);
    NothingBeyondHi(setup, log, steps);
    NothingBeforeLoIff(setup, log, steps);
    OneStretchIff(s, first);
    if !NoReachBack(setup, log, steps) {
      assert first < s.lo;
      assert StillReplaying(log, s) ==> s.lo - 1 !in s.handled;
    }
  }

  /* ---------- with restarts from any cursor file ---------- */

  /** Every connection that handled something and stopped short of the start point was overtaken:
      the event it stopped at was handled by another. */
  ghost predicate AllOvertaken(setup: Setup, log: seq<Event>, steps: seq<Step>, end: State) {
    steps == [] ||
    var before, step := steps[..|steps| - 1], steps[|steps| - 1];
    var s := After(setup, log, before);
    && AllOvertaken(setup, log, before, end)
    && (step.Dial? && HandlesSome(setup, log, s, step.connection) && StopOf(setup, log, s, step.connection) < end.lo
        ==> StopOf(setup, log, s, step.connection) in end.handled)
  }

  lemma DialHandlesAll(setup: Setup, log: seq<Event>, s: State, c: Connection)
    requires Ordered(log)
    ensures var start, stop, s' := StartOf(log, s.cursor, c.tail), StopOf(setup, log, s, c), Next(setup, log, s, Dial(c));
            && (forall i :: i in s'.handled <==> i in s.handled || start <= i < stop)
            && (HandlesSome(setup, log, s, c) <==> start < stop)
  {
    DialHandles(setup, log, s, c);
    SomeHandledIff(setup, log, s, c);
    var start, stop := StartOf(log, s.cursor, c.tail), StopOf(setup, log, s, c);
    forall i | start <= i < stop ensures i in Interval(start, stop) {
      assert Interval(start, stop)[i - start] == i;
    }
  }

  lemma {:induction false} OvertakenGoesOn(setup: Setup, log: seq<Event>, steps: seq<Step>, end: State)
    requires Ordered(log) && AllOvertaken(setup, log, steps, end)
    requires forall i :: i in After(setup, log, steps).handled ==> i in end.handled
    ensures forall i :: i in After(setup, log, steps).handled && i + 1 < end.lo ==> i + 1 in end.handled
  {
    if steps != [] {
      var before, step := steps[..|steps| - 1], steps[|steps| - 1];
      var s := After(setup, log, before);
      if step.Dial? {
        DialHandlesAll(setup, log, s, step.connection);
      }
      OvertakenGoesOn(setup, log, before, end);
    }
  }

  lemma {:induction false} StretchOvertakes(setup: Setup, log: seq<Event>, steps: seq<Step>, end: State, first: nat)
    requires Ordered(log) && Earliest(end, first)
    requires forall i :: first <= i < end.lo ==> i in end.handled
    requires forall i :: i in After(setup, log, steps).handled ==> i in end.handled
    ensures AllOvertaken(setup, log, steps, end)
  {
    if steps != [] {
      var before, step := steps[..|steps| - 1], steps[|steps| - 1];
      var s := After(setup, log, before);
      if step.Dial? {
        DialHandlesAll(setup, log, s, step.connection);
        assert HandlesSome(setup, log, s, step.connection) ==> StartOf(log, s.cursor, step.connection.tail) in end.handled;
      }
      StretchOvertakes(setup, log, before, end, first);
    }
  }

  lemma {:induction false} GoesOnTo(s: State, first: nat, i: nat)
    requires first in s.handled && first <= i < s.lo
    requires forall j :: j in s.handled && j + 1 < s.lo ==> j + 1 in s.handled
    ensures i in s.handled
  {
    if i > first {
      GoesOnTo(s, first, i - 1);
    }
  }

  lemma OvertakenFills(setup: Setup, log: seq<Event>, steps: seq<Step>, first: nat)
    requires Ordered(log) && first in After(setup, log, steps).handled
    requires AllOvertaken(setup, log, steps, After(setup, log, steps))
    ensures forall i :: first <= i < After(setup, log, steps).lo ==> i in After(setup, log, steps).handled
  {
    var s := After(setup, log, steps);
    OvertakenGoesOn(setup, log, steps, s);
    forall i | first <= i < s.lo ensures i in s.handled {
      GoesOnTo(s, first, i);
    }
  }

  /** Whatever cursor file a restart finds, everything handled is one stretch if and only if every
      connection cut short before the start point was overtaken. */
  lemma OneStretchIffOvertaken(setup: Setup, log: seq<Event>, steps: seq<Step>, first: nat)
    requires Ordered(log) && OneStart(setup, log, steps)
    requires After(setup, log, steps).cursor > 0 && Earliest(After(setup, log, steps), first)
    ensures var s := After(setup, log, steps);
            SameSet(s.handled, Interval(first, s.hi)) <==> AllOvertaken(setup, log, steps, s)
  {
    var s := After(setup, log, steps);
    HarvestLeavesNoGap(setup, log, steps);
    NothingBeyondHi(setup, log, steps);
    OneStretchIff(s, first);
    if AllOvertaken(setup, log, steps, s) {
      OvertakenFills(setup, log, steps, first);
    }
    if forall i :: first <= i < s.lo ==> i in s.handled {
      StretchOvertakes(setup, log, steps, s, first);
    }
  }

  const SPREAD := [Plain(1_000_000), Plain(2_000_000), Plain(5_500_000), Plain(10_000_000)]

  /** A restart during a replay may find an older cursor file: the next replay starts earlier
      still, and if that one is cut short too there is a hole before the start point. */
  lemma RestartInReplayLeavesHole(setup: Setup)
    requires setup.persists
    ensures Ordered(SPREAD) && Durable(setup, CutShort()) && CaughtUp(setup, SPREAD, CutShort())
    ensures After(setup, SPREAD, CutShort()).handled == [3, 2, 0]
  {
    CutShortIsDurable(setup);
    ReplayIsCutShort(setup);
    RestartThenDial(setup, SPREAD, Replay(), NEXT);
    NextStartsEarlier(setup, State(5_500_000, 5_500_000, [3, 2], 3, 4));
  }

  /** From the last event on, then one event of a replay. */
  function Replay(): seq<Step> { [Dial(LATE), Dial(REPLAY)] }

  /** A restart, and one event of the next replay. */
  function CutShort(): seq<Step> { Replay() + [Restart] + [Dial(NEXT)] }

  lemma CutShortIsDurable(setup: Setup)
    requires setup.persists
    ensures Ordered(SPREAD) && Durable(setup, CutShort())
  {
  }

  lemma NextStartsEarlier(setup: Setup, s: State)
    requires setup.persists && s.cursor == 5_500_000
    ensures Next(setup, SPREAD, s, Dial(NEXT)).handled == s.handled + [0]
  {
    OneEventDial(setup, s, NEXT, 0);
  }

  lemma RestartThenDial(setup: Setup, log: seq<Event>, before: seq<Step>, c: Connection)
    ensures var steps, s := before + [Restart] + [Dial(c)], After(setup, log, before);
            && After(setup, log, steps) == Next(setup, log, Next(setup, log, s, Restart), Dial(c))
            && (CaughtUp(setup, log, before) ==> CaughtUp(setup, log, steps))
  {
    assert (before + [Restart])[..|before|] == before;
    assert (before + [Restart] + [Dial(c)])[..|before| + 1] == before + [Restart];
  }

  const LATE := Connection(3, 1, None, {}, true, 0)
  const REPLAY := Connection(0, 1, None, {2}, true, 0)
  const NEXT := Connection(0, 1, None, {}, true, 0)

  lemma ReplayIsCutShort(setup: Setup)
    requires setup.persists
    ensures CaughtUp(setup, SPREAD, Replay())
    ensures After(setup, SPREAD, Replay()) == State(10_000_000, 5_500_000, [3, 2], 3, 4)
  {
    assert After(setup, SPREAD, []) == INITIAL;
    OneEventDial(setup, INITIAL, LATE, 3);
    assert [Dial(LATE)][..0] == [] && Replay()[..1] == [Dial(LATE)];
    assert After(setup, SPREAD, [Dial(LATE)]) == State(10_000_000, 10_000_000, [3], 3, 4);
    OneEventDial(setup, After(setup, SPREAD, [Dial(LATE)]), REPLAY, 2);
  }

  /** A connection that delivers one plain event. */
  lemma OneEventDial(setup: Setup, s: State, c: Connection, i: nat)
    requires i < |SPREAD| && c.delivered == 1 && c.failsAt == None && c.endSaveOk && setup.persists
    requires StartOf(SPREAD, s.cursor, c.tail) == i
    ensures HandlesSome(setup, SPREAD, s, c) && StopOf(setup, SPREAD, s, c) == i + 1
    ensures var time, s' := SPREAD[i].timeUs, Next(setup, SPREAD, s, Dial(c));
            && s'.handled == s.handled + [i]
            && s'.cursor == (if time > s.cursor then time else s.cursor)
            && s'.saved == (if time > s.cursor || i in c.saves then time else s.saved)
            && s'.lo == (if s.cursor > 0 then s.lo else i)
            && s'.hi == (if s.cursor > 0 && i + 1 <= s.hi then s.hi else i + 1)
  {
    assert Interval(i, i + 1) == [i];
  }

  /* ---------- the limits of the guarantee ---------- */

  const QUIET := Connection(0, 0, None, {}, true, 0)

  function Plain(timeUs: int): Event { Event("did:a", timeUs, OtherKind) }

  /** A first connection that delivers nothing leaves no cursor, so the next one starts at the
      tail of its own time: the guarantee runs from there, not from the first connection. */
  lemma SilentFirstConnectionLeavesGap(setup: Setup)
    ensures var log := [Plain(10), Plain(20)];
            var s := After(setup, log, [Dial(QUIET), Dial(QUIET.(tail := 1, delivered := 1))]);
            && Ordered(log) && s.cursor == 20 && log[0].timeUs < s.cursor
            && 0 !in s.handled && s.lo == 1
  {
    var log := [Plain(10), Plain(20)];
    var second := QUIET.(tail := 1, delivered := 1);
    var steps := [Dial(QUIET), Dial(second)];
    assert steps[..1] == [Dial(QUIET)] && steps[..1][..0] == [];
    QuietThenLate(setup);
    assert After(setup, log, steps[..1]) == Next(setup, log, INITIAL, Dial(QUIET));
  }

  lemma QuietThenLate(setup: Setup)
    ensures Next(setup, [Plain(10), Plain(20)], INITIAL, Dial(QUIET)) == INITIAL
    ensures var s := Next(setup, [Plain(10), Plain(20)], INITIAL, Dial(QUIET.(tail := 1, delivered := 1)));
            s.cursor == 20 && 0 !in s.handled && s.lo == 1
  {
    var log, second := [Plain(10), Plain(20)], QUIET.(tail := 1, delivered := 1);
    assert Interval(0, 0) == [];
    assert StreamFrom(setup, log, second, 1, 2, 20, 0) == Streamed(20, 0, 2);
  }

  /** A connection that gets past the cursor, and saves it, never lowers the cursor file. */
  lemma SavedCursorGoesBackOnlyInReplay(setup: Setup, log: seq<Event>, steps: seq<Step>, c: Connection)
    requires Ordered(log)
    ensures var s := After(setup, log, steps);
            var s' := Next(setup, log, s, Dial(c));
            s'.saved < s.saved ==> s'.cursor == s.cursor || !c.endSaveOk
  {
    HarvestLeavesNoGap(setup, log, steps);
    DialKeepsNoGap(setup, log, After(setup, log, steps), c);
  }

  /** A replay cut short can: the file then names an earlier time than before, which costs a
      longer replay and never a gap. */
  lemma SavedCursorMayGoBack(setup: Setup)
    requires setup.persists
    ensures var log := [Plain(10), Plain(20)];
            var steps := [Dial(QUIET.(delivered := 2)), Dial(QUIET.(delivered := 1, saves := {0}))];
            && After(setup, log, steps[..1]).saved == 20
            && After(setup, log, steps).saved == 10 && After(setup, log, steps).cursor == 20
  {
    var log := [Plain(10), Plain(20)];
    var a, b := QUIET.(delivered := 2), QUIET.(delivered := 1, saves := {0});
    assert [Dial(a), Dial(b)][..1] == [Dial(a)] && [Dial(a)][..0] == [];
    assert StreamFrom(setup, log, a, 0, 1, 10, 0) == StreamFrom(setup, log, a, 0, 2, 20, 0) == Streamed(20, 0, 2);
    assert StartOf(log, 20, 0) == 0;
    assert StreamFrom(setup, log, b, 0, 1, 10, 10) == Streamed(10, 10, 1);
  }

  /** A harvester that started mid-stream can be handed, by the rewind, an event from before its
      start; a single pass from the start would not have seen it. */
  lemma RewindReachesBeforeStart(setup: Setup)
    ensures var log := [Plain(10), Plain(20), Plain(30)];
            var s := After(setup, log, [Dial(QUIET.(tail := 1, delivered := 1)), Dial(QUIET.(delivered := 1))]);
            s.lo == 1 && s.handled == [1, 0]
  {
    var log := [Plain(10), Plain(20), Plain(30)];
    var a, b := QUIET.(tail := 1, delivered := 1), QUIET.(delivered := 1);
    assert [Dial(a), Dial(b)][..1] == [Dial(a)] && [Dial(a)][..0] == [];
    assert StreamFrom(setup, log, a, 1, 2, 20, 0) == Streamed(20, 0, 2);
    assert Interval(1, 2) == [1] && Interval(0, 1) == [0];
    var s := After(setup, log, [Dial(a)]);
    assert After(setup, log, []) == INITIAL;
    assert StartOf(log, 0, 1) == 1 && s == Next(setup, log, INITIAL, Dial(a));
    assert s.cursor == 20 && s.handled == [1] && s.lo == 1 && s.hi == 2;
    assert StartOf(log, 20, 0) == 0;
    assert StreamFrom(setup, log, b, 0, 1, 10, s.saved).stop == 1;
  }
}
