/** What any sequence of labelling runs, killed or not, leaves in the label file. */
module LabellingTheorems {
  import opened Wrappers
  import opened Orders
  import opened Batching
  import opened Prep
  import opened Labelling
  import opened Label
  import opened LabelAspects

  /* ---------- one run ---------- */

  /** The file's rows are one per key of this version, and true. */
  ghost predicate Sound<K, I, P(!new)>(
    items: seq<Item<K, I>>, rows: seq<LabelRow<K, P>>, teach: I -> P, version: string)
  {
    OneLabelEach(rows, version) && TruthfulFor(items, rows, teach, version)
  }

  /** A run, killed, failed or finished, over the items not yet labelled in some order. */
  ghost predicate OneRun<K, I(!new), P(!new)>(
    items: seq<Item<K, I>>, teach: I -> P, version: string, flushEvery: pos,
    before: seq<LabelRow<K, P>>, after: seq<LabelRow<K, P>>,
    todo: seq<Item<K, I>>, outcome: LabelOutcome, newly: nat, asks: seq<seq<I>>)
  {
    && multiset(todo) == multiset(Unlabelled(items, before, version))
    && RunLeaves(todo, teach, version, flushEvery, before, after, outcome, newly, asks)
  }

  lemma TodoFacts<K, I(!new), P(!new)>(
    items: seq<Item<K, I>>, before: seq<LabelRow<K, P>>, version: string, todo: seq<Item<K, I>>)
    requires DistinctKeys(items) && multiset(todo) == multiset(Unlabelled(items, before, version))
    ensures |todo| == |Unlabelled(items, before, version)|
    ensures DistinctKeys(todo)
    ensures forall x :: x in todo ==> x in items && !IsLabelled(before, version, x.key)
    ensures forall x :: x in items && !IsLabelled(before, version, x.key) ==> x in todo
  {
    var rest := Unlabelled(items, before, version);
    SameElements(todo, rest);
    UnlabelledMembers(items, before, version);
    UnlabelledDistinct(items, before, version);
    PermutedKeysDistinct(rest, todo);
  }

  lemma {:induction false} KeysDistinctByCount<K, I(!new)>(xs: seq<Item<K, I>>)
    ensures DistinctKeys(xs) ==> forall x :: x in xs ==> multiset(xs)[x] == 1
  {
    if xs != [] && DistinctKeys(xs) {
      KeysDistinctByCount(xs[1..]);
      assert xs == [xs[0]] + xs[1..];
      assert xs[0] !in xs[1..];
      assert xs[0] !in multiset(xs[1..]);
    }
  }

  lemma PermutedKeysDistinct<K, I(!new)>(xs: seq<Item<K, I>>, ys: seq<Item<K, I>>)
    requires DistinctKeys(xs) && multiset(xs) == multiset(ys)
    ensures DistinctKeys(ys)
  {
    SameElements(xs, ys);
    KeysDistinctByCount(xs);
    DistinctByMultiset(ys);
    forall i, j | 0 <= i < j < |ys| ensures ys[i].key != ys[j].key {
      assert ys[i] in xs && ys[j] in xs;
      var p :| 0 <= p < |xs| && xs[p] == ys[i];
      var q :| 0 <= q < |xs| && xs[q] == ys[j];
    }
  }

  /** Appended labels keep one row for each key exactly when the new keys are distinct. */
  lemma AppendedOneEach<K, I(!new), P(!new)>(
    before: seq<LabelRow<K, P>>, todo: seq<Item<K, I>>, teach: I -> P, version: string)
    requires OneLabelEach(before, version)
    requires forall k :: 0 <= k < |todo| ==> !IsLabelled(before, version, todo[k].key)
    ensures OneLabelEach(before + LabelsOf(todo, teach, version), version) <==> DistinctKeys(todo)
  {
    var n, more := |before|, LabelsOf(todo, teach, version);
    var after := before + more;
    if DistinctKeys(todo) {
      forall i, j | 0 <= i < j < |after| && after[i].version == after[j].version == version
        ensures after[i].key != after[j].key
      {
        assert i < n ==> after[i] == before[i];
        assert j >= n ==> after[j] == more[j - n];
      }
    }
    if OneLabelEach(after, version) {
      forall i, j | 0 <= i < j < |todo| ensures todo[i].key != todo[j].key {
        assert after[n + i] == more[i] && after[n + j] == more[j];
      }
    }
  }

  /** A run's items are among these: the same key means the same input. */
  ghost predicate Among<K, I(!new)>(items: seq<Item<K, I>>, all: seq<Item<K, I>>) {
    DistinctKeys(items) && DistinctKeys(all) && forall x :: x in items ==> x in all
  }

  /** No run puts a second row under a key, or a row that is not the teacher's answer for the
      item's own input, whatever part of all the items it was given; and it only ever adds
      rows. */
  lemma RunKeepsSound<K, I(!new), P(!new)>(
    all: seq<Item<K, I>>, items: seq<Item<K, I>>, teach: I -> P, version: string, flushEvery: pos,
    before: seq<LabelRow<K, P>>, after: seq<LabelRow<K, P>>,
    todo: seq<Item<K, I>>, outcome: LabelOutcome, newly: nat, asks: seq<seq<I>>)
    requires Among(items, all) && Sound(all, before, teach, version)
    requires OneRun(items, teach, version, flushEvery, before, after, todo, outcome, newly, asks)
    ensures Sound(all, after, teach, version) && before <= after
  {
    TodoFacts(items, before, version, todo);
    var n, done := |before|, todo[..newly];
    forall k | 0 <= k < |done| ensures done[k] in all && !IsLabelled(before, version, done[k].key) {
      assert todo[k] in todo;
    }
    AppendedOneEach(before, done, teach, version);
    forall i, j | 0 <= i < |all| && 0 <= j < |after| && after[j].version == version && after[j].key == all[i].key
      ensures after[j].probs == teach(all[i].input)
    {
      if j >= n {
        assert done[j - n] in all;
        var k :| 0 <= k < |all| && all[k] == done[j - n];
        assert k == i;
      }
    }
  }

  /** Rows of other versions are left as they were. */
  function OtherVersions<K, P>(rows: seq<LabelRow<K, P>>, version: string): seq<LabelRow<K, P>> {
    if rows == [] then []
    else
      var before, last := OtherVersions(rows[..|rows| - 1], version), rows[|rows| - 1];
      if last.version == version then before else before + [last]
  }

  lemma {:induction false} OtherVersionsUntouched<K, I, P>(
    rows: seq<LabelRow<K, P>>, items: seq<Item<K, I>>, teach: I -> P, version: string)
    ensures OtherVersions(rows + LabelsOf(items, teach, version), version) == OtherVersions(rows, version)
  {
    var more := LabelsOf(items, teach, version);
    if items == [] {
      assert rows + more == rows;
    } else {
      var n := |items| - 1;
      OtherVersionsUntouched(rows, items[..n], teach, version);
      assert (rows + more)[..|rows + more| - 1] == rows + LabelsOf(items[..n], teach, version);
    }
  }

  lemma LabelledAfter<K, I(!new), P(!new)>(
    before: seq<LabelRow<K, P>>, done: seq<Item<K, I>>, teach: I -> P, version: string, key: K)
    ensures IsLabelled(before + LabelsOf(done, teach, version), version, key)
         <==> IsLabelled(before, version, key) || exists k :: 0 <= k < |done| && done[k].key == key
  {
    var more := LabelsOf(done, teach, version);
    var after := before + more;
    if IsLabelled(before, version, key) {
      var i :| 0 <= i < |before| && before[i].key == key && before[i].version == version;
      assert after[i] == before[i];
    }
    if exists k :: 0 <= k < |done| && done[k].key == key {
      var k :| 0 <= k < |done| && done[k].key == key;
      assert after[|before| + k] == more[k];
    }
    if IsLabelled(after, version, key) {
      var i :| 0 <= i < |after| && after[i].key == key && after[i].version == version;
      if i < |before| { assert before[i] == after[i]; } else { assert more[i - |before|] == after[i]; }
    }
  }

  lemma SameSetSameLength<T>(a: seq<T>, b: seq<T>)
    requires forall x :: x in a <==> x in b
    requires forall i, j :: 0 <= i < j < |a| ==> a[i] != a[j]
    requires forall i, j :: 0 <= i < j < |b| ==> b[i] != b[j]
    ensures |a| == |b|
  {
    SetLength(a);
    SetLength(b);
    assert (set x | x in a) == (set x | x in b);
  }

  lemma {:induction false} SetLength<T>(a: seq<T>)
    requires forall i, j :: 0 <= i < j < |a| ==> a[i] != a[j]
    ensures |set x | x in a| == |a|
  {
    if a != [] {
      SetLength(a[1..]);
      assert a == [a[0]] + a[1..];
      assert (set x | x in a) == {a[0]} + (set x | x in a[1..]);
    }
  }

  /** Progress: what a run flushed is no longer to be labelled, in this item list or any wider
      one, so a run that flushes a window strictly shrinks the unlabelled set, and a finished
      run empties its own. */
  lemma RunShrinksUnlabelled<K, I(!new), P(!new)>(
    all: seq<Item<K, I>>, items: seq<Item<K, I>>, teach: I -> P, version: string, flushEvery: pos,
    before: seq<LabelRow<K, P>>, after: seq<LabelRow<K, P>>,
    todo: seq<Item<K, I>>, outcome: LabelOutcome, newly: nat, asks: seq<seq<I>>)
    requires Among(items, all)
    requires OneRun(items, teach, version, flushEvery, before, after, todo, outcome, newly, asks)
    ensures |Unlabelled(all, after, version)| == |Unlabelled(all, before, version)| - newly
    ensures outcome == Finished ==> forall x :: x in items ==> IsLabelled(after, version, x.key)
  {
    TodoFacts(items, before, version, todo);
    var done := todo[..newly];
    forall k | 0 <= k < newly ensures done[k] in Unlabelled(all, before, version) {
      assert todo[k] in todo;
      UnlabelledMembers(all, before, version);
    }
    DoneIsNoLongerUnlabelled(all, before, done, teach, version);
    if outcome == Finished {
      assert done == todo;
      forall x | x in items ensures IsLabelled(after, version, x.key) {
        LabelledAfter(before, done, teach, version, x.key);
        if !IsLabelled(before, version, x.key) {
          var k :| 0 <= k < |todo| && todo[k] == x;
        }
      }
    }
  }

  lemma DoneIsNoLongerUnlabelled<K, I(!new), P(!new)>(
    all: seq<Item<K, I>>, before: seq<LabelRow<K, P>>, done: seq<Item<K, I>>, teach: I -> P, version: string)
    requires DistinctKeys(all) && DistinctKeys(done)
    requires forall k :: 0 <= k < |done| ==> done[k] in Unlabelled(all, before, version)
    ensures |Unlabelled(all, before + LabelsOf(done, teach, version), version)| + |done|
         == |Unlabelled(all, before, version)|
  {
    var was, now := Unlabelled(all, before, version), Unlabelled(all, before + LabelsOf(done, teach, version), version);
    UnlabelledMembers(all, before, version);
    UnlabelledMembers(all, before + LabelsOf(done, teach, version), version);
    UnlabelledDistinct(all, before, version);
    UnlabelledDistinct(all, before + LabelsOf(done, teach, version), version);
    forall x ensures x in was <==> x in now || x in done {
      StillUnlabelledIff(all, before, done, teach, version, x);
    }
    forall i, j | 0 <= i < |now| && 0 <= j < |done| ensures now[i] != done[j] {
      assert now[i] in now && done[j] in done;
      StillUnlabelledIff(all, before, done, teach, version, now[i]);
    }
    LengthsAdd(now, done, was);
  }

  lemma LengthsAdd<K, I(!new)>(a: seq<Item<K, I>>, b: seq<Item<K, I>>, c: seq<Item<K, I>>)
    requires DistinctKeys(a) && DistinctKeys(b) && DistinctKeys(c)
    requires forall x :: x in c <==> x in a || x in b
    requires forall i, j :: 0 <= i < |a| && 0 <= j < |b| ==> a[i] != b[j]
    ensures |a| + |b| == |c|
  {
    SameSetSameLength(a + b, c);
  }

  lemma StillUnlabelledIff<K, I(!new), P(!new)>(
    all: seq<Item<K, I>>, before: seq<LabelRow<K, P>>, done: seq<Item<K, I>>, teach: I -> P, version: string,
    x: Item<K, I>)
    requires DistinctKeys(all)
    requires forall k :: 0 <= k < |done| ==> done[k] in Unlabelled(all, before, version)
    ensures x in Unlabelled(all, before + LabelsOf(done, teach, version), version)
       <==> x in Unlabelled(all, before, version) && x !in done
  {
    UnlabelledMembers(all, before, version);
    UnlabelledMembers(all, before + LabelsOf(done, teach, version), version);
    LabelledAfter(before, done, teach, version, x.key);
    if x in all {
      var i :| 0 <= i < |all| && all[i] == x;
      forall k | 0 <= k < |done| && done[k].key == x.key ensures done[k] == x {
        assert done[k] in all;
        var j :| 0 <= j < |all| && all[j] == done[k];
        assert i == j;
      }
    }
  }

  /* ---------- any sequence of runs ---------- */

  datatype RunRecord<K, I> = RunRecord(todo: seq<Item<K, I>>, outcome: LabelOutcome, newly: nat, asks: seq<seq<I>>)

  /** States of the file, each left by one run on the one before, over its own item list. */
  ghost predicate Runs<K, I(!new), P(!new)>(
    lists: seq<seq<Item<K, I>>>, teach: I -> P, version: string, flushEvery: pos,
    states: seq<seq<LabelRow<K, P>>>, records: seq<RunRecord<K, I>>)
  {
    && |lists| == |records| && |states| == |records| + 1
    && forall k :: 0 <= k < |records| ==>
         OneRun(lists[k], teach, version, flushEvery, states[k], states[k + 1],
                records[k].todo, records[k].outcome, records[k].newly, records[k].asks)
  }

  function TotalNewly<K, I>(records: seq<RunRecord<K, I>>): nat {
    if records == [] then 0 else TotalNewly(records[..|records| - 1]) + records[|records| - 1].newly
  }

  /** Labelling survives any sequence of kills, while the item list grows or shrinks from run to
      run: after any runs the file holds at most one row for each key of this version, each the
      teacher's answer for its own input; rows of other versions are untouched; and every item
      labelled was labelled by exactly one run. */
  lemma {:induction false} LabellingSurvivesKills<K, I(!new), P(!new)>(
    all: seq<Item<K, I>>, lists: seq<seq<Item<K, I>>>, teach: I -> P, version: string, flushEvery: pos,
    states: seq<seq<LabelRow<K, P>>>, records: seq<RunRecord<K, I>>)
    requires Runs(lists, teach, version, flushEvery, states, records)
    requires DistinctKeys(all) && forall k :: 0 <= k < |lists| ==> Among(lists[k], all)
    requires Sound(all, states[0], teach, version)
    ensures var last := states[|states| - 1];
            && Sound(all, last, teach, version)
            && states[0] <= last
            && OtherVersions(last, version) == OtherVersions(states[0], version)
            && |Unlabelled(all, last, version)| + TotalNewly(records) == |Unlabelled(all, states[0], version)|
            && |last| == |states[0]| + TotalNewly(records)
    decreases |records|
  {
    if records != [] {
      var n := |records| - 1;
      LabellingSurvivesKills(all, lists[..n], teach, version, flushEvery, states[..n + 1], records[..n]);
      var r := records[n];
      RunKeepsSound(all, lists[n], teach, version, flushEvery, states[n], states[n + 1],
                    r.todo, r.outcome, r.newly, r.asks);
      RunShrinksUnlabelled(all, lists[n], teach, version, flushEvery, states[n], states[n + 1],
                           r.todo, r.outcome, r.newly, r.asks);
      OtherVersionsUntouched(states[n], r.todo[..r.newly], teach, version);
    }
  }

  /** A text edited under its key is not labelled again: the kept row answers for the new text
      exactly when the teacher would have answered the same. */
  lemma KeptLabelIsStaleIff<K, I(!new), P(!new)>(
    items: seq<Item<K, I>>, edited: seq<Item<K, I>>, x: Item<K, I>, y: Item<K, I>,
    teach: I -> P, version: string, flushEvery: pos,
    before: seq<LabelRow<K, P>>, after: seq<LabelRow<K, P>>,
    todo: seq<Item<K, I>>, outcome: LabelOutcome, newly: nat, asks: seq<seq<I>>)
    requires DistinctKeys(edited) && Sound(items, before, teach, version)
    requires x in items && y in edited && x.key == y.key && IsLabelled(before, version, x.key)
    requires OneRun(edited, teach, version, flushEvery, before, after, todo, outcome, newly, asks)
    ensures y !in todo && IsLabelled(after, version, y.key)
    ensures TruthfulFor([y], after, teach, version) <==> teach(x.input) == teach(y.input)
  {
    TodoFacts(edited, before, version, todo);
    var i :| 0 <= i < |items| && items[i] == x;
    var j :| 0 <= j < |before| && before[j].key == x.key && before[j].version == version;
    assert after[j] == before[j] && after[j].probs == teach(items[i].input);
    forall k | |before| <= k < |after| ensures after[k].key != y.key {
      assert todo[k - |before|] in todo;
    }
    assert [y][0] == y && after[j].key == y.key && after[j].version == version;
    forall k | 0 <= k < |after| && after[k].version == version && after[k].key == y.key
      ensures after[k].probs == teach(x.input)
    {
      assert after[k] == before[k];
    }
  }

  /** A finished run covers every item, and its two counts add up to the total. */
  lemma FinishedRunCovers<K, I(!new), P(!new)>(
    items: seq<Item<K, I>>, teach: I -> P, version: string, flushEvery: pos,
    before: seq<LabelRow<K, P>>, after: seq<LabelRow<K, P>>,
    todo: seq<Item<K, I>>, newly: nat, asks: seq<seq<I>>)
    requires DistinctKeys(items)
    requires OneRun(items, teach, version, flushEvery, before, after, todo, Finished, newly, asks)
    ensures Unlabelled(items, after, version) == []
    ensures forall i :: 0 <= i < |items| ==>
        exists j :: 0 <= j < |after| && after[j].key == items[i].key && after[j].version == version
    ensures (|items| - |Unlabelled(items, before, version)|) + newly == |items|
    ensures Flatten(asks) == Inputs(todo)
  {
    RunShrinksUnlabelled(items, items, teach, version, flushEvery, before, after, todo, Finished, newly, asks);
    assert |todo| == |Unlabelled(items, before, version)| by {
      SameElements(todo, Unlabelled(items, before, version));
    }
    forall i | 0 <= i < |items|
      ensures exists j :: 0 <= j < |after| && after[j].key == items[i].key && after[j].version == version
    {
      assert items[i] in items && IsLabelled(after, version, items[i].key);
    }
  }

  /** What is asked for is what has no row of this version yet: an item is on the work list exactly
      when no row has both its key and the version. */
  lemma WorkIsWhatHasNoRow<K, I(!new), P(!new)>(
    items: seq<Item<K, I>>, rows: seq<LabelRow<K, P>>, version: string, x: Item<K, I>)
    ensures x in Unlabelled(items, rows, version) <==>
        x in items && forall j :: 0 <= j < |rows| ==> !(rows[j].key == x.key && rows[j].version == version)
  {
    UnlabelledMembers(items, rows, version);
  }


  /** Distinct keys are needed: a finished run leaves one row for each key exactly when the
      items it found to label had distinct keys. */
  lemma OneRowEachIffDistinct<K, I(!new), P(!new)>(
    items: seq<Item<K, I>>, teach: I -> P, version: string, flushEvery: pos,
    before: seq<LabelRow<K, P>>, after: seq<LabelRow<K, P>>,
    todo: seq<Item<K, I>>, newly: nat, asks: seq<seq<I>>)
    requires OneLabelEach(before, version)
    requires OneRun(items, teach, version, flushEvery, before, after, todo, Finished, newly, asks)
    ensures OneLabelEach(after, version) <==> DistinctKeys(Unlabelled(items, before, version))
  {
    var rest := Unlabelled(items, before, version);
    SameElements(todo, rest);
    UnlabelledMembers(items, before, version);
    forall k | 0 <= k < |todo| ensures !IsLabelled(before, version, todo[k].key) {
      assert todo[k] in todo;
    }
    assert todo[..newly] == todo;
    AppendedOneEach(before, todo, teach, version);
    if DistinctKeys(rest) { PermutedKeysDistinct(rest, todo); }
    if DistinctKeys(todo) { PermutedKeysDistinct(todo, rest); }
  }

  /* ---------- the two labellers ---------- */

  /** A run of label_training_set is one such run. */
  lemma TodoIsUnlabelled<P>(train: seq<Doc>, rows: seq<LabelRow<DocKey, P>>, version: string)
    ensures multiset(Todo(train, rows, version)) == multiset(Unlabelled(train, rows, version))
    ensures Ordering(WorkOrder()) && Sorted(WorkOrder(), Todo(train, rows, version))
    ensures forall i, j :: 0 <= i < j < |Todo(train, rows, version)| ==>
        |Todo(train, rows, version)[i].input| <= |Todo(train, rows, version)[j].input|
        && (|Todo(train, rows, version)[i].input| == |Todo(train, rows, version)[j].input| ==>
              KeyLeq(Todo(train, rows, version)[i].key, Todo(train, rows, version)[j].key))
  {
    WorkOrderIsOrdering();
    SortSorts(WorkOrder(), Unlabelled(train, rows, version));
    var todo := Todo(train, rows, version);
    forall i, j | 0 <= i < j < |todo|
      ensures |todo[i].input| <= |todo[j].input|
      ensures |todo[i].input| == |todo[j].input| ==> KeyLeq(todo[i].key, todo[j].key)
    {
      assert WorkOrder()(todo[i], todo[j]);
      LexLeqTotal(todo[i].key.0, todo[j].key.0);
    }
  }

  /** By platform, then by id. */
  predicate KeyLeq(a: DocKey, b: DocKey) {
    LexLeq(a.0, b.0) && (a.0 == b.0 ==> LexLeq(a.1, b.1))
  }

  /** By platform, then by id, then by aspect. */
  predicate PairKeyLeq(a: PairKey, b: PairKey) {
    KeyLeq((a.0, a.1), (b.0, b.1)) && (a.0 == b.0 && a.1 == b.1 ==> LexLeq(a.2, b.2))
  }

  lemma WorkOrderIsOrdering()
    ensures Ordering(WorkOrder())
  {
    LexLeqIsOrdering();
    var leq := WorkOrder();
    forall a, b ensures leq(a, b) || leq(b, a) {
      LexLeqTotal(a.key.0, b.key.0);
      LexLeqTotal(a.key.1, b.key.1);
    }
    forall a, b, c | leq(a, b) && leq(b, c) ensures leq(a, c) {
      LexLeqTotal(a.key.0, b.key.0);
      LexLeqTotal(b.key.0, c.key.0);
      if LexLeq(a.key.0, b.key.0) && LexLeq(b.key.0, c.key.0) { LexLeqTransitive(a.key.0, b.key.0, c.key.0); }
      if LexLeq(a.key.1, b.key.1) && LexLeq(b.key.1, c.key.1) { LexLeqTransitive(a.key.1, b.key.1, c.key.1); }
    }
  }

  /** And a run of label_aspect_pairs is one over the capped pairs, shortest text first too. */
  lemma PairTodoIsUnlabelled<P>(capped: seq<Pair>, rows: seq<LabelRow<PairKey, P>>, version: string)
    ensures multiset(PairTodo(capped, rows, version)) == multiset(Unlabelled(capped, rows, version))
    ensures forall i, j :: 0 <= i < j < |PairTodo(capped, rows, version)| ==>
        |PairTodo(capped, rows, version)[i].input.0| <= |PairTodo(capped, rows, version)[j].input.0|
        && (|PairTodo(capped, rows, version)[i].input.0| == |PairTodo(capped, rows, version)[j].input.0| ==>
              PairKeyLeq(PairTodo(capped, rows, version)[i].key, PairTodo(capped, rows, version)[j].key))
  {
    PairWorkOrderIsOrdering();
    SortSorts(PairWorkOrder(), Unlabelled(capped, rows, version));
    var todo := PairTodo(capped, rows, version);
    forall i, j | 0 <= i < j < |todo|
      ensures |todo[i].input.0| <= |todo[j].input.0|
      ensures |todo[i].input.0| == |todo[j].input.0| ==> PairKeyLeq(todo[i].key, todo[j].key)
    {
      assert PairWorkOrder()(todo[i], todo[j]);
      LexLeqTotal(todo[i].key.0, todo[j].key.0);
      LexLeqTotal(todo[i].key.1, todo[j].key.1);
    }
  }

  lemma PairWorkOrderIsOrdering()
    ensures Ordering(PairWorkOrder())
  {
    LexLeqIsOrdering();
    var leq := PairWorkOrder();
    forall a, b ensures leq(a, b) || leq(b, a) {
      LexLeqTotal(a.key.0, b.key.0);
      LexLeqTotal(a.key.1, b.key.1);
      LexLeqTotal(a.key.2, b.key.2);
    }
    forall a, b, c | leq(a, b) && leq(b, c) ensures leq(a, c) {
      ThreeLexTransitive(a.key.0, b.key.0, c.key.0);
      ThreeLexTransitive(a.key.1, b.key.1, c.key.1);
      ThreeLexTransitive(a.key.2, b.key.2, c.key.2);
    }
  }

  lemma ThreeLexTransitive(x: string, y: string, z: string)
    ensures LexLeq(x, y) && LexLeq(y, z) ==> LexLeq(x, z)
    ensures LexLeq(x, y) && LexLeq(y, x) ==> x == y
    ensures LexLeq(y, z) && LexLeq(z, y) ==> y == z
  {
    LexLeqTotal(x, y);
    LexLeqTotal(y, z);
    if LexLeq(x, y) && LexLeq(y, z) { LexLeqTransitive(x, y, z); }
  }

  /** Distinct documents give distinct pairs, so the pair labeller's items have distinct keys. */
  lemma {:induction false} PairKeysDistinct(docs: seq<Doc>, cfg: MineConfig)
    requires DistinctKeys(docs)
    ensures DistinctKeys(PairRows(docs, cfg))
    ensures forall p :: p in PairRows(docs, cfg) ==>
        exists i :: 0 <= i < |docs| && (p.key.0, p.key.1) == docs[i].key && p.input.0 == docs[i].input
          && p.key.2 == p.input.1 && p.key.2 in cfg.mine(docs[i].input)
  {
    if docs != [] {
      var before, last := docs[..|docs| - 1], docs[|docs| - 1];
      PairKeysDistinct(before, cfg);
      var a, b := PairRows(before, cfg), PairsOfDoc(last, cfg);
      var all := AspectsOf(last.input, cfg);
      forall k | 0 <= k < |b| ensures b[k].key.2 in cfg.mine(last.input) {
        assert all[k] == FirstDistinct(cfg.mine(last.input))[k];
      }
      forall i, j | 0 <= i < j < |a + b| ensures (a + b)[i].key != (a + b)[j].key {
        if i < |a| <= j {
          assert a[i] in a;
        }
      }
    }
  }

  /** The capped pairs have distinct keys, are no more than the cap, and raising the cap only
      adds pairs. */
  lemma CappedPairsCorrect(train: seq<Doc>, cfg: MineConfig, higher: nat)
    requires DistinctKeys(train) && cfg.maxPairs <= higher
    ensures DistinctKeys(CappedPairs(train, cfg)) && |CappedPairs(train, cfg)| <= cfg.maxPairs
    ensures CappedPairs(train, cfg) <= CappedPairs(train, cfg.(maxPairs := higher))
  {
    var docs := DocsToMine(train, cfg);
    var sortedDocs := Sort(MineOrder(cfg.md5), train);
    PermutedKeysDistinct(train, sortedDocs);
    PairKeysDistinct(docs, cfg);
    var pairs := PairRows(docs, cfg);
    PairRowsIgnoreCap(docs, cfg, higher);
    PermutedKeysDistinct(pairs, Sort(ByPairHash(cfg.md5), pairs));
  }

  /** The documents mined are those of least hash, and the pairs kept those of least hash among
      theirs: none left out has a smaller hash than one taken. */
  lemma CapsTakeLeastHashes(train: seq<Doc>, cfg: MineConfig)
    ensures var mined := DocsToMine(train, cfg);
            && |mined| == Min(|train|, cfg.mineDocsCap)
            && (forall d :: d in mined ==> d in train)
            && (forall d, x :: d in mined && x in train && x !in mined ==> LexLeq(DocHash(cfg, d), DocHash(cfg, x)))
    ensures var pairs, kept := PairRows(DocsToMine(train, cfg), cfg), CappedPairs(train, cfg);
            && |kept| == Min(|pairs|, cfg.maxPairs)
            && (forall p :: p in kept ==> p in pairs)
            && (forall p, x :: p in kept && x in pairs && x !in kept ==> LexLeq(PairHash(cfg, p), PairHash(cfg, x)))
  {
    MinedTakeLeast(train, cfg);
    PairsTakeLeast(PairRows(DocsToMine(train, cfg), cfg), cfg);
  }

  lemma MinedTakeLeast(train: seq<Doc>, cfg: MineConfig)
    ensures var mined := Sort(MineOrder(cfg.md5), train)[..Min(|train|, cfg.mineDocsCap)];
            && (forall d :: d in mined ==> d in train)
            && (forall d, x :: d in mined && x in train && x !in mined ==> LexLeq(DocHash(cfg, d), DocHash(cfg, x)))
  {
    MineOrderIsOrdering(cfg.md5);
    TakesLeast(MineOrder(cfg.md5), train, cfg.mineDocsCap);
    var mined := Sort(MineOrder(cfg.md5), train)[..Min(|train|, cfg.mineDocsCap)];
    forall d, x | d in mined && x in train && x !in mined ensures LexLeq(DocHash(cfg, d), DocHash(cfg, x)) {
      assert MineOrder(cfg.md5)(d, x);
      LexLeqTotal(DocHash(cfg, d), DocHash(cfg, x));
    }
  }

  lemma PairsTakeLeast(pairs: seq<Pair>, cfg: MineConfig)
    ensures var kept := Sort(ByPairHash(cfg.md5), pairs)[..Min(|pairs|, cfg.maxPairs)];
            && (forall p :: p in kept ==> p in pairs)
            && (forall p, x :: p in kept && x in pairs && x !in kept ==> LexLeq(PairHash(cfg, p), PairHash(cfg, x)))
  {
    ByPairHashIsOrdering(cfg);
    TakesLeast(ByPairHash(cfg.md5), pairs, cfg.maxPairs);
    var kept := Sort(ByPairHash(cfg.md5), pairs)[..Min(|pairs|, cfg.maxPairs)];
    forall p, x | p in kept && x in pairs && x !in kept ensures LexLeq(PairHash(cfg, p), PairHash(cfg, x)) {
      assert ByPairHash(cfg.md5)(p, x);
    }
  }

  function DocHash(cfg: MineConfig, d: Doc): string {
    cfg.md5(d.key.0 + "\U{1F}" + d.key.1)
  }

  function PairHash(cfg: MineConfig, p: Pair): string {
    cfg.md5(p.key.0 + "\U{1F}" + p.key.1 + "\U{1F}" + p.key.2)
  }

  lemma ByPairHashIsOrdering(cfg: MineConfig)
    ensures Ordering(ByPairHash(cfg.md5))
    ensures forall p, x :: ByPairHash(cfg.md5)(p, x) <==> LexLeq(PairHash(cfg, p), PairHash(cfg, x))
  {
    var leq := ByPairHash(cfg.md5);
    forall a, b ensures leq(a, b) || leq(b, a) {
      LexLeqTotal(PairHash(cfg, a), PairHash(cfg, b));
    }
    forall a, b, c | leq(a, b) && leq(b, c) ensures leq(a, c) {
      LexLeqTransitive(PairHash(cfg, a), PairHash(cfg, b), PairHash(cfg, c));
    }
  }

  lemma {:induction false} PairRowsIgnoreCap(docs: seq<Doc>, cfg: MineConfig, higher: nat)
    ensures PairRows(docs, cfg.(maxPairs := higher)) == PairRows(docs, cfg)
  {
    if docs != [] {
      PairRowsIgnoreCap(docs[..|docs| - 1], cfg, higher);
      assert PairsOfDoc(docs[|docs| - 1], cfg.(maxPairs := higher)) == PairsOfDoc(docs[|docs| - 1], cfg);
    }
  }

  /** The pairs a run is given under each of these caps. */
  function UnderCaps(train: seq<Doc>, cfg: MineConfig, caps: seq<nat>): (lists: seq<seq<Pair>>)
    ensures |lists| == |caps|
    ensures forall k :: 0 <= k < |lists| ==> lists[k] == CappedPairs(train, cfg.(maxPairs := caps[k]))
  {
    seq(|caps|, k requires 0 <= k < |caps| => CappedPairs(train, cfg.(maxPairs := caps[k])))
  }

  lemma CapsAreNested(train: seq<Doc>, cfg: MineConfig, highest: nat)
    requires DistinctKeys(train) && cfg.maxPairs <= highest
    ensures Among(CappedPairs(train, cfg), CappedPairs(train, cfg.(maxPairs := highest)))
  {
    CappedPairsCorrect(train, cfg, highest);
    var wide := cfg.(maxPairs := highest);
    CappedPairsCorrect(train, wide, highest);
    forall x | x in CappedPairs(train, cfg) ensures x in CappedPairs(train, wide) {
      var i :| 0 <= i < |CappedPairs(train, cfg)| && CappedPairs(train, cfg)[i] == x;
      assert CappedPairs(train, wide)[i] == x;
    }
  }

  /** Raising the cap between runs only adds: over any runs under any caps, killed or not, the
      file stays sound for the widest set of pairs, each pair is asked for by at most one run,
      and a last run that finishes under the highest cap leaves exactly that set labelled. */
  lemma RaisingTheCapOnlyAdds<P(!new)>(
    train: seq<Doc>, cfg: MineConfig, caps: seq<nat>, highest: nat,
    teach: ((string, string)) -> P, version: string, flushEvery: pos,
    states: seq<seq<LabelRow<PairKey, P>>>, records: seq<RunRecord<PairKey, (string, string)>>)
    requires DistinctKeys(train) && forall k :: 0 <= k < |caps| ==> caps[k] <= highest
    requires Runs(UnderCaps(train, cfg, caps), teach, version, flushEvery, states, records)
    requires Sound(CappedPairs(train, cfg.(maxPairs := highest)), states[0], teach, version)
    ensures var wide, last := CappedPairs(train, cfg.(maxPairs := highest)), states[|states| - 1];
            && Sound(wide, last, teach, version) && states[0] <= last
            && |Unlabelled(wide, last, version)| + TotalNewly(records) == |Unlabelled(wide, states[0], version)|
            && |last| == |states[0]| + TotalNewly(records)
            && (records != [] && caps[|caps| - 1] == highest && records[|records| - 1].outcome == Finished ==>
                  Unlabelled(wide, last, version) == [] && TotalNewly(records) == |Unlabelled(wide, states[0], version)|)
  {
    var wide, lists := CappedPairs(train, cfg.(maxPairs := highest)), UnderCaps(train, cfg, caps);
    CappedPairsCorrect(train, cfg.(maxPairs := highest), highest);
    forall k | 0 <= k < |lists| ensures Among(lists[k], wide) {
      CapsAreNested(train, cfg.(maxPairs := caps[k]), highest);
    }
    LabellingSurvivesKills(wide, lists, teach, version, flushEvery, states, records);
    if records != [] && caps[|caps| - 1] == highest && records[|records| - 1].outcome == Finished {
      var n := |records| - 1;
      var r := records[n];
      assert lists[n] == wide;
      FinishedRunCovers(wide, teach, version, flushEvery, states[n], states[n + 1], r.todo, r.newly, r.asks);
    }
  }

  /** The capped pairs are a function of the training rows as a set, whatever order they are
      read in. */
  lemma CapForgetsOrder(trainA: seq<Doc>, trainB: seq<Doc>, cfg: MineConfig)
    requires DistinctKeys(trainA) && multiset(trainA) == multiset(trainB)
    ensures DocsToMine(trainA, cfg) == DocsToMine(trainB, cfg)
    ensures CappedPairs(trainA, cfg) == CappedPairs(trainB, cfg)
  {
    MineOrderIsOrdering(cfg.md5);
    SameElements(trainA, trainB);
    var leq := MineOrder(cfg.md5);
    forall x, y | x in trainA && y in trainA && leq(x, y) && leq(y, x) ensures x == y {
      LexLeqTotal(cfg.md5(x.key.0 + SEPARATOR + x.key.1), cfg.md5(y.key.0 + SEPARATOR + y.key.1));
      LexLeqTotal(x.key.0, y.key.0);
      LexLeqTotal(x.key.1, y.key.1);
      var i :| 0 <= i < |trainA| && trainA[i] == x;
      var j :| 0 <= j < |trainA| && trainA[j] == y;
    }
    SortForgetsOrder(leq, trainA, trainB);
  }

  lemma MineOrderIsOrdering(md5: string -> string)
    ensures Ordering(MineOrder(md5))
  {
    var leq := MineOrder(md5);
    var h := (d: Doc) => md5(d.key.0 + SEPARATOR + d.key.1);
    forall a, b ensures leq(a, b) || leq(b, a) {
      LexLeqTotal(h(a), h(b));
      LexLeqTotal(a.key.0, b.key.0);
      LexLeqTotal(a.key.1, b.key.1);
    }
    forall a, b, c | leq(a, b) && leq(b, c) ensures leq(a, c) {
      LexLeqTotal(h(a), h(b));
      LexLeqTotal(h(b), h(c));
      if LexLeq(h(a), h(b)) && LexLeq(h(b), h(c)) { LexLeqTransitive(h(a), h(b), h(c)); }
      LexLeqTotal(a.key.0, b.key.0);
      LexLeqTotal(b.key.0, c.key.0);
      if LexLeq(a.key.0, b.key.0) && LexLeq(b.key.0, c.key.0) { LexLeqTransitive(a.key.0, b.key.0, c.key.0); }
      if LexLeq(a.key.1, b.key.1) && LexLeq(b.key.1, c.key.1) { LexLeqTransitive(a.key.1, b.key.1, c.key.1); }
    }
  }
}
