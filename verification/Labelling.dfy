/**
 Incremental labelling, as ml/sentilyzer_ml/pipeline/label.py and label_aspects.py share it:
 an anti-join against a label file, windows appended to that file one flush at a time, and
 any number of killed runs before one that finishes.
 */
module Labelling {
  import opened Wrappers
  import opened Arithmetic
  import opened Batching
  import opened Prep

  /** What is to be labelled: its key, and what the teacher is shown. */
  datatype Item<K, I> = Item(key: K, input: I)

  datatype LabelRow<K, P> = LabelRow(key: K, probs: P, version: string)

  /** A label file; it need not exist. A flush replaces it in one atomic step. */
  class LabelFile<K, P> {
    var content: Option<seq<LabelRow<K, P>>>

    constructor (content: Option<seq<LabelRow<K, P>>>)
      ensures this.content == content
    {
      this.content := content;
    }

    function Rows(): seq<LabelRow<K, P>>
      reads this
    {
      content.GetOr([])
    }

    method Append(rows: seq<LabelRow<K, P>>)
      modifies this
      ensures content == Some(old(Rows()) + rows)
    {
      content := Some(Rows() + rows);
    }
  }

  predicate IsLabelled<K(==), P>(rows: seq<LabelRow<K, P>>, version: string, key: K) {
    exists i :: 0 <= i < |rows| && rows[i].key == key && rows[i].version == version
  }

  /** The anti-join. */
  function Unlabelled<K(==), I, P>(items: seq<Item<K, I>>, rows: seq<LabelRow<K, P>>, version: string)
      : (r: seq<Item<K, I>>)
    ensures |r| <= |items|
  {
    if items == [] then []
    else
      var rest := Unlabelled(items[1..], rows, version);
      if IsLabelled(rows, version, items[0].key) then rest else [items[0]] + rest
  }

  function LabelsOf<K, I, P>(items: seq<Item<K, I>>, teach: I -> P, version: string): (r: seq<LabelRow<K, P>>)
    ensures |r| == |items|
    ensures forall i :: 0 <= i < |r| ==> r[i] == LabelRow(items[i].key, teach(items[i].input), version)
  {
    seq(|items|, i requires 0 <= i < |items| => LabelRow(items[i].key, teach(items[i].input), version))
  }

  function Inputs<K, I>(items: seq<Item<K, I>>): (r: seq<I>)
    ensures |r| == |items| && forall i :: 0 <= i < |r| ==> r[i] == items[i].input
  {
    seq(|items|, i requires 0 <= i < |items| => items[i].input)
  }

  function Answers<I, P>(teach: I -> P, inputs: seq<I>): (r: seq<P>)
    ensures |r| == |inputs| && forall i :: 0 <= i < |r| ==> r[i] == teach(inputs[i])
  {
    seq(|inputs|, i requires 0 <= i < |inputs| => teach(inputs[i]))
  }

  lemma InputsAppend<K, I>(a: seq<Item<K, I>>, b: seq<Item<K, I>>)
    ensures Inputs(a + b) == Inputs(a) + Inputs(b)
  {
  }

  lemma AskedIsPrefix<K, I>(todo: seq<Item<K, I>>, done: nat, hi: nat, more: seq<I>)
    requires done <= hi <= |todo| && more <= Inputs(todo[done..hi])
    ensures Inputs(todo[..done]) + more <= Inputs(todo)
    ensures |more| <= hi - done
  {
  }

  lemma LabelsAppend<K, I, P>(a: seq<Item<K, I>>, b: seq<Item<K, I>>, teach: I -> P, version: string)
    ensures LabelsOf(a + b, teach, version) == LabelsOf(a, teach, version) + LabelsOf(b, teach, version)
  {
  }

  /** The frozen teacher: an answer of the right length is the pointwise answer. It may still
      return the wrong number of answers, at any call. */
  ghost predicate Frozen<I(!new), P(!new)>(ask: (nat, seq<I>) -> seq<P>, teach: I -> P) {
    forall call, inputs :: |ask(call, inputs)| == |inputs| ==> ask(call, inputs) == Answers(teach, inputs)
  }

  datatype LabelOutcome = Finished | Killed | TeacherMiscounted(got: nat, want: nat)

  datatype LabelStats = LabelStats(total: nat, already: int, newly: nat)

  /** What one run may leave behind, given the order it works in: the labels of some first
      items, all of them when it finishes, whole windows otherwise; and it has asked for no
      more than one window beyond what it flushed. */
  ghost predicate RunLeaves<K, I, P(!new)>(
    todo: seq<Item<K, I>>, teach: I -> P, version: string, flushEvery: pos,
    before: seq<LabelRow<K, P>>, after: seq<LabelRow<K, P>>,
    outcome: LabelOutcome, newly: nat, asks: seq<seq<I>>)
  {
    && newly <= |todo|
    && after == before + LabelsOf(todo[..newly], teach, version)
    && (outcome == Finished <==> newly == |todo|)
    && (newly < |todo| ==> newly % flushEvery == 0)
    && Flatten(asks) <= Inputs(todo)
    && newly <= |Flatten(asks)| <= newly + flushEvery
  }

  /* ---------- one run, window by window ---------- */

  /** A stretch of work done within one window: which of its items have rows, and what was asked. */
  ghost predicate WindowProgress<K, I, P>(window: seq<Item<K, I>>, done: nat, teach: I -> P, version: string,
                                          rows: seq<LabelRow<K, P>>, batches: seq<seq<I>>)
  {
    && done <= |window|
    && rows == LabelsOf(window[..done], teach, version)
    && Flatten(batches) == Inputs(window[..done])
  }

  lemma WindowGrows<K, I, P>(window: seq<Item<K, I>>, done: nat, part: seq<Item<K, I>>, teach: I -> P, version: string,
                             rows: seq<LabelRow<K, P>>, batches: seq<seq<I>>)
    requires WindowProgress(window, done, teach, version, rows, batches)
    requires done + |part| <= |window| && part == window[done..done + |part|]
    ensures WindowProgress(window, done + |part|, teach, version,
                           rows + LabelsOf(part, teach, version), batches + [Inputs(part)])
  {
    assert window[..done + |part|] == window[..done] + part;
    FlattenSnoc(batches, Inputs(part));
    LabelsAppend(window[..done], part, teach, version);
    InputsAppend(window[..done], part);
  }

  /** The run between windows: whole windows flushed, everything flushed was asked. */
  ghost predicate RunProgress<K, I(!new), P(!new)>(
    todo: seq<Item<K, I>>, teach: I -> P, version: string, flushEvery: pos,
    before: seq<LabelRow<K, P>>, now: seq<LabelRow<K, P>>,
    flushes: nat, done: nat, batches: seq<seq<I>>)
  {
    && done == Min(flushes * flushEvery, |todo|)
    && now == before + LabelsOf(todo[..done], teach, version)
    && Flatten(batches) == Inputs(todo[..done])
  }

  /** A stopped run leaves what it had flushed, having asked for part of the next window. */
  lemma StoppedRun<K, I(!new), P(!new)>(
    todo: seq<Item<K, I>>, teach: I -> P, version: string, flushEvery: pos,
    before: seq<LabelRow<K, P>>, now: seq<LabelRow<K, P>>,
    flushes: nat, done: nat, batches: seq<seq<I>>, more: seq<seq<I>>, outcome: LabelOutcome)
    requires RunProgress(todo, teach, version, flushEvery, before, now, flushes, done, batches)
    requires done < |todo| && outcome != Finished
    requires Flatten(more) <= Inputs(todo[done..Min(done + flushEvery, |todo|)])
    ensures RunLeaves(todo, teach, version, flushEvery, before, now, outcome, done, batches + more)
  {
    FlattenAppend(batches, more);
    MultipleIsMultiple(flushes, flushEvery);
    AskedIsPrefix(todo, done, Min(done + flushEvery, |todo|), Flatten(more));
  }

  lemma FlushedWindow<K, I(!new), P(!new)>(
    todo: seq<Item<K, I>>, teach: I -> P, version: string, flushEvery: pos,
    before: seq<LabelRow<K, P>>, now: seq<LabelRow<K, P>>,
    flushes: nat, done: nat, batches: seq<seq<I>>,
    window: seq<Item<K, I>>, rows: seq<LabelRow<K, P>>, more: seq<seq<I>>)
    requires RunProgress(todo, teach, version, flushEvery, before, now, flushes, done, batches)
    requires done < |todo| && window == todo[done..Min(done + flushEvery, |todo|)]
    requires WindowProgress(window, |window|, teach, version, rows, more)
    ensures RunProgress(todo, teach, version, flushEvery, before, now + rows,
                        flushes + 1, done + |window|, batches + more)
  {
    var done' := done + |window|;
    assert window[..|window|] == window && todo[..done'] == todo[..done] + window;
    assert done' == Min((flushes + 1) * flushEvery, |todo|) by {
      MultipleIsMultiple(flushes, flushEvery);
    }
    assert Flatten(batches + more) == Inputs(todo[..done']) by {
      FlattenAppend(batches, more);
      InputsAppend(todo[..done], window);
    }
    assert now + rows == before + LabelsOf(todo[..done'], teach, version) by {
      LabelsAppend(todo[..done], window, teach, version);
      Associative(before, LabelsOf(todo[..done], teach, version), rows);
    }
  }

  lemma MoreFlushesReachFurther(flushes: nat, more: nat, flushEvery: pos)
    ensures flushes <= more ==> flushes * flushEvery <= more * flushEvery
  {
    assert flushes <= more ==> (more - flushes) * flushEvery >= 0;
  }

  lemma FinishedRun<K, I(!new), P(!new)>(
    todo: seq<Item<K, I>>, teach: I -> P, version: string, flushEvery: pos,
    before: seq<LabelRow<K, P>>, now: seq<LabelRow<K, P>>,
    flushes: nat, done: nat, batches: seq<seq<I>>)
    requires RunProgress(todo, teach, version, flushEvery, before, now, flushes, done, batches)
    requires done == |todo|
    ensures RunLeaves(todo, teach, version, flushEvery, before, now, Finished, done, batches)
  {
    assert todo[..|todo|] == todo;
  }

  /* ---------- keys ---------- */

  ghost predicate DistinctKeys<K, I>(items: seq<Item<K, I>>) {
    forall i, j :: 0 <= i < j < |items| ==> items[i].key != items[j].key
  }

  /** No two rows for one key and version. */
  ghost predicate OneLabelEach<K, P>(rows: seq<LabelRow<K, P>>, version: string) {
    forall i, j :: 0 <= i < j < |rows| && rows[i].version == rows[j].version == version
      ==> rows[i].key != rows[j].key
  }

  /** Every row of this version for a known item is the teacher's answer for that item. */
  ghost predicate TruthfulFor<K, I, P(!new)>(
    items: seq<Item<K, I>>, rows: seq<LabelRow<K, P>>, teach: I -> P, version: string)
  {
    forall i, j ::
      0 <= i < |items| && 0 <= j < |rows| && rows[j].version == version && rows[j].key == items[i].key
      ==> rows[j].probs == teach(items[i].input)
  }

  lemma {:induction false} UnlabelledMembers<K, I(!new), P>(
    items: seq<Item<K, I>>, rows: seq<LabelRow<K, P>>, version: string)
    ensures forall x :: x in Unlabelled(items, rows, version) ==>
        x in items && !IsLabelled(rows, version, x.key)
    ensures forall x :: x in items && !IsLabelled(rows, version, x.key) ==>
        x in Unlabelled(items, rows, version)
  {
    if items != [] {
      UnlabelledMembers(items[1..], rows, version);
      assert forall x :: x in items <==> x == items[0] || x in items[1..] by {
        assert items == [items[0]] + items[1..];
      }
    }
  }

  lemma {:induction false} UnlabelledDistinct<K, I(!new), P>(
    items: seq<Item<K, I>>, rows: seq<LabelRow<K, P>>, version: string)
    requires DistinctKeys(items)
    ensures DistinctKeys(Unlabelled(items, rows, version))
  {
    if items != [] {
      UnlabelledDistinct(items[1..], rows, version);
      UnlabelledMembers(items[1..], rows, version);
      var rest := Unlabelled(items[1..], rows, version);
      forall j | 0 <= j < |rest| ensures rest[j].key != items[0].key {
        var x := rest[j];
        assert x in Unlabelled(items[1..], rows, version);
        assert x in items[1..];
        var k :| 0 <= k < |items[1..]| && items[1..][k] == x;
        assert items[k + 1] == x;
      }
    }
  }
}
