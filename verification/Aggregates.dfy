/**
 The aggregates of api/internal/domain/domain.go, and the maps of aggregators that
 api/internal/service/service.go keeps by platform and by aspect.
 Polarity sums are exact reals, counts are unbounded.
 */
module Aggregates {
  import opened Domain

  datatype Aggregate = Report(
    meanPolarity: real, labelCounts: map<Sentiment, nat>, modalLabel: Sentiment, sampleSize: nat)

  function Count(scores: seq<Score>, label': Sentiment): nat {
    if scores == [] then 0
    else Count(scores[..|scores| - 1], label') + if scores[|scores| - 1].sentiment == label' then 1 else 0
  }

  function PolaritySum(scores: seq<Score>): real {
    if scores == [] then 0.0
    else PolaritySum(scores[..|scores| - 1]) + scores[|scores| - 1].polarity
  }

  function LabelCounts(scores: seq<Score>): map<Sentiment, nat> {
    map label': Sentiment | Count(scores, label') > 0 :: Count(scores, label')
  }

  function Reported(counts: map<Sentiment, nat>, l: Sentiment): nat {
    if l in counts then counts[l] else 0
  }

  lemma LabelCountsSnoc(scores: seq<Score>, s: Score)
    ensures LabelCounts(scores + [s])
         == LabelCounts(scores)[s.sentiment := Reported(LabelCounts(scores), s.sentiment) + 1]
    ensures PolaritySum(scores + [s]) == PolaritySum(scores) + s.polarity
  {
    assert (scores + [s])[..|scores|] == scores;
  }

  /** The greatest of the three counts, ties going to neutral, then positive. */
  predicate IsModal(scores: seq<Score>, modal: Sentiment) {
    var neutral, positive, negative := Count(scores, Neutral), Count(scores, Positive), Count(scores, Negative);
    match modal
    case Neutral => neutral >= positive && neutral >= negative
    case Positive => positive > neutral && positive >= negative
    case Negative => negative > neutral && negative > positive
    case Unspecified => false
  }

  function ModalOf(scores: seq<Score>): (modal: Sentiment)
    ensures IsModal(scores, modal)
    ensures forall other :: IsModal(scores, other) ==> other == modal
  {
    if IsModal(scores, Neutral) then Neutral
    else if IsModal(scores, Positive) then Positive
    else Negative
  }

  /** What an aggregator that was given these scores reports. */
  function Summary(scores: seq<Score>): Aggregate {
    if scores == [] then Report(0.0, map[], Unspecified, 0)
    else Report(PolaritySum(scores) / |scores| as real, LabelCounts(scores), ModalOf(scores), |scores|)
  }

  /** No score gives the empty report; one gives its own polarity and label, an unspecified label
      reading as neutral. */
  lemma SummaryOfOne(s: Score)
    ensures Summary([]) == Report(0.0, map[], Unspecified, 0)
    ensures Summary([s]) ==
        Report(s.polarity, map[s.sentiment := 1], if s.sentiment == Unspecified then Neutral else s.sentiment, 1)
  {
    assert [s][..0] == [];
    assert Count([], s.sentiment) == 0;
    assert forall l :: Count([s], l) == if s.sentiment == l then 1 else 0;
    assert PolaritySum([s]) == s.polarity;
    assert LabelCounts([s]) == map[s.sentiment := 1];
  }

  lemma {:induction false} CountAppend(a: seq<Score>, b: seq<Score>, l: Sentiment)
    ensures Count(a + b, l) == Count(a, l) + Count(b, l)
    ensures PolaritySum(a + b) == PolaritySum(a) + PolaritySum(b)
  {
    if b == [] {
      assert a + b == a;
    } else {
      assert (a + b)[..|a + b| - 1] == a + b[..|b| - 1];
      CountAppend(a, b[..|b| - 1], l);
    }
  }

  /** Reports merge: sizes, counts of every label and polarity sums of two lists of scores laid
      end to end are the sums of theirs. With SummaryOfOne this determines every report. */
  lemma SummaryMerges(a: seq<Score>, b: seq<Score>, l: Sentiment)
    ensures var s, x, y := Summary(a + b), Summary(a), Summary(b);
            && s.sampleSize == x.sampleSize + y.sampleSize
            && Reported(s.labelCounts, l) == Reported(x.labelCounts, l) + Reported(y.labelCounts, l)
            && (l in s.labelCounts <==> l in x.labelCounts || l in y.labelCounts)
            && s.meanPolarity * s.sampleSize as real
               == x.meanPolarity * x.sampleSize as real + y.meanPolarity * y.sampleSize as real
  {
    CountAppend(a, b, l);
    SummaryReports(a, l);
    SummaryReports(b, l);
    SummaryReports(a + b, l);
  }

  /** The modal label of a report is the one of its greatest count, neutral before positive before
      negative among equals. */
  lemma ModalIsGreatest(scores: seq<Score>)
    requires scores != []
    ensures var a := Summary(scores);
            var neutral, positive, negative := Reported(a.labelCounts, Neutral), Reported(a.labelCounts, Positive),
                                               Reported(a.labelCounts, Negative);
            a.modalLabel == if neutral >= positive && neutral >= negative then Neutral
                            else if positive >= negative then Positive else Negative
  {
  }

  datatype Kind = Whole | PerPlatform | PerAspect

  /** What an aggregator is kept for; two kept for different things are different objects. */
  datatype Role = Role(kind: Kind, key: string)

  class Aggregator {
    ghost const role: Role
    var count: nat
    var sumPol: real
    var buckets: map<Sentiment, nat>
    ghost var added: seq<Score>

    ghost predicate Valid()
      reads this
    {
      count == |added| && sumPol == PolaritySum(added) && buckets == LabelCounts(added)
    }

    constructor (ghost role: Role)
      ensures Valid() && added == [] && this.role == role
    {
      this.role := role;
      count, sumPol, buckets, added := 0, 0.0, map[], [];
    }

    method Add(s: Score)
      requires Valid()
      modifies this
      ensures Valid() && added == old(added) + [s]
    {
      count := count + 1;
      sumPol := sumPol + s.polarity;
      buckets := buckets[s.sentiment := Reported(buckets, s.sentiment) + 1];
      added := added + [s];
      LabelCountsSnoc(old(added), s);
    }

    method Aggregate() returns (a: Aggregate)
      requires Valid()
      ensures a == Summary(added)
    {
      if count == 0 {
        return Report(0.0, map[], Unspecified, 0);
      }
      var modal, order := Neutral, [Neutral, Positive, Negative];
      var bestCount: int := -1;
      for i := 0 to 3
        invariant forall k :: 0 <= k < i ==> Count(added, order[k]) <= bestCount || Count(added, order[k]) == 0
        invariant bestCount == -1 ==> modal == Neutral
        invariant bestCount != -1 ==>
            bestCount == Count(added, modal) > 0
            && exists k :: 0 <= k < i && order[k] == modal
                 && forall j :: 0 <= j < k ==> Count(added, order[j]) < bestCount
      {
        var label' := order[i];
        if label' in buckets && buckets[label'] > bestCount {
          bestCount, modal := buckets[label'], label';
        }
      }
      assert order[0] == Neutral && order[1] == Positive && order[2] == Negative;
      assert IsModal(added, modal);
      a := Report(sumPol / count as real, buckets, modal, count);
    }
  }

  /* ---------- aggregates by key ---------- */

  type Keyed = (string, Score)

  /** The scores given under one key, in order. */
  function Under(scored: seq<Keyed>, key: string): seq<Score> {
    if scored == [] then []
    else
      var last := scored[|scored| - 1];
      Under(scored[..|scored| - 1], key) + if last.0 == key then [last.1] else []
  }

  function KeysOf(scored: seq<Keyed>): set<string> {
    set k | k in scored :: k.0
  }

  function ScoresOf(scored: seq<Keyed>): (scores: seq<Score>)
    ensures |scores| == |scored| && forall i :: 0 <= i < |scores| ==> scores[i] == scored[i].1
  {
    seq(|scored|, i requires 0 <= i < |scored| => scored[i].1)
  }

  function Summaries(scored: seq<Keyed>): map<string, Aggregate> {
    map k | k in KeysOf(scored) :: Summary(Under(scored, k))
  }

  /** One aggregator for each of these keys, holding the scores given under its own. */
  ghost predicate Holds(m: map<string, Aggregator>, scored: seq<Keyed>, keys: set<string>, kind: Kind)
    reads m.Values
  {
    && m.Keys == keys
    && forall k :: k in m ==> m[k].Valid() && m[k].added == Under(scored, k) && m[k].role == Role(kind, k)
  }

  lemma UnderSnoc(scored: seq<Keyed>, one: Keyed)
    ensures KeysOf(scored + [one]) == KeysOf(scored) + {one.0}
    ensures forall k :: Under(scored + [one], k) == Under(scored, k) + if k == one.0 then [one.1] else []
  {
    assert (scored + [one])[..|scored|] == scored;
    forall k ensures k in KeysOf(scored + [one]) <==> k in KeysOf(scored) + {one.0} {
      if k == one.0 {
        assert one in scored + [one];
      }
    }
  }

  lemma {:induction false} UnderAbsent(scored: seq<Keyed>, key: string)
    requires key !in KeysOf(scored)
    ensures Under(scored, key) == []
  {
    if scored != [] {
      var init := scored[..|scored| - 1];
      assert scored[|scored| - 1] in scored;
      assert forall x :: x in init ==> x in scored;
      UnderAbsent(init, key);
    }
  }

  /** Gives the key an aggregator, unless it has one. */
  method Open(m: map<string, Aggregator>, key: string, ghost scored: seq<Keyed>, ghost kind: Kind)
      returns (m': map<string, Aggregator>)
    requires Holds(m, scored, KeysOf(scored), kind)
    ensures Holds(m', scored, KeysOf(scored) + {key}, kind)
    ensures fresh(m'.Values - m.Values)
  {
    m' := m;
    assert forall k :: k in m ==> m[k] in m.Values;
    if key !in m {
      UnderAbsent(scored, key);
      var a := new Aggregator(Role(kind, key));
      m' := m[key := a];
    }
  }

  method AddUnder(m: map<string, Aggregator>, key: string, score: Score, ghost scored: seq<Keyed>, ghost kind: Kind)
      returns (m': map<string, Aggregator>)
    requires Holds(m, scored, KeysOf(scored), kind)
    modifies m.Values
    ensures Holds(m', scored + [(key, score)], KeysOf(scored + [(key, score)]), kind)
    ensures fresh(m'.Values - m.Values)
  {
    m' := Open(m, key, scored, kind);
    UnderSnoc(scored, (key, score));
    m'[key].Add(score);
  }

  method Entry(m: map<string, Aggregator>, k: string, ghost scored: seq<Keyed>, ghost kind: Kind) returns (a: Aggregate)
    requires Holds(m, scored, KeysOf(scored), kind) && k in m
    ensures a == Summary(Under(scored, k))
  {
    assert m[k] in m.Values;
    a := m[k].Aggregate();
  }

  method AggregateMap(m: map<string, Aggregator>, ghost scored: seq<Keyed>, ghost kind: Kind)
      returns (out: map<string, Aggregate>)
    requires Holds(m, scored, KeysOf(scored), kind)
    ensures out == Summaries(scored)
  {
    out := map[];
    var todo := m.Keys;
    while todo != {}
      invariant todo <= m.Keys && Reports(out, scored, todo)
    {
      var k :| k in todo;
      var a := Entry(m, k, scored, kind);
      OneMoreReport(out, scored, todo, k);
      out, todo := out[k := a], todo - {k};
    }
    AllReported(out, scored);
  }

  /** Every key but those still to do has its summary. */
  ghost predicate Reports(out: map<string, Aggregate>, scored: seq<Keyed>, todo: set<string>) {
    && out.Keys == KeysOf(scored) - todo
    && forall k :: k in out ==> out[k] == Summary(Under(scored, k))
  }

  lemma OneMoreReport(out: map<string, Aggregate>, scored: seq<Keyed>, todo: set<string>, k: string)
    requires Reports(out, scored, todo) && k in todo && k in KeysOf(scored)
    ensures Reports(out[k := Summary(Under(scored, k))], scored, todo - {k})
  {
  }

  lemma AllReported(out: map<string, Aggregate>, scored: seq<Keyed>)
    requires Reports(out, scored, {})
    ensures out == Summaries(scored)
  {
  }

  /* ---------- conservation ---------- */

  /** A measure of a list of scores that adds up over its parts. */
  ghost predicate Additive(g: seq<Score> -> real) {
    g([]) == 0.0 && forall a, s :: g(a + [s]) == g(a) + g([s])
  }

  function Total(g: seq<Score> -> real, scored: seq<Keyed>, keys: seq<string>): real {
    if keys == [] then 0.0
    else Total(g, scored, keys[..|keys| - 1]) + g(Under(scored, keys[|keys| - 1]))
  }

  /** Each key of the scores, once. */
  ghost predicate Lists(keys: seq<string>, all: set<string>) {
    && (forall k :: k in all <==> k in keys)
    && forall i, j :: 0 <= i < j < |keys| ==> keys[i] != keys[j]
  }

  lemma {:induction false} TotalSnoc(g: seq<Score> -> real, scored: seq<Keyed>, one: Keyed, keys: seq<string>)
    requires Additive(g) && forall i, j :: 0 <= i < j < |keys| ==> keys[i] != keys[j]
    ensures Total(g, scored + [one], keys)
         == Total(g, scored, keys) + if one.0 in keys then g([one.1]) else 0.0
  {
    if keys != [] {
      var init, last := keys[..|keys| - 1], keys[|keys| - 1];
      assert one.0 in keys <==> one.0 in init || one.0 == last;
      TotalSnoc(g, scored, one, init);
      UnderSnoc(scored, one);
      assert last !in init;
      assert Under(scored, last) + [] == Under(scored, last);
    }
  }

  lemma {:induction false} TotalOfNothing(g: seq<Score> -> real, keys: seq<string>)
    requires Additive(g)
    ensures Total(g, [], keys) == 0.0
  {
    if keys != [] {
      TotalOfNothing(g, keys[..|keys| - 1]);
    }
  }

  /** Whatever adds up over scores is conserved by splitting them by key. */
  lemma {:induction false} Conserved(g: seq<Score> -> real, scored: seq<Keyed>, keys: seq<string>)
    requires Additive(g) && forall k :: k in KeysOf(scored) ==> k in keys
    requires forall i, j :: 0 <= i < j < |keys| ==> keys[i] != keys[j]
    ensures Total(g, scored, keys) == g(ScoresOf(scored))
  {
    if scored == [] {
      TotalOfNothing(g, keys);
      assert ScoresOf(scored) == [];
    } else {
      var init, last := scored[..|scored| - 1], scored[|scored| - 1];
      assert scored == init + [last];
      UnderSnoc(init, last);
      Conserved(g, init, keys);
      TotalSnoc(g, init, last, keys);
      assert ScoresOf(scored) == ScoresOf(init) + [last.1];
    }
  }

  function Size(): seq<Score> -> real { scores => |scores| as real }
  function CountOf(l: Sentiment): seq<Score> -> real { scores => Count(scores, l) as real }
  function Polarity(): seq<Score> -> real { scores => PolaritySum(scores) }

  lemma MeasuresAreAdditive(l: Sentiment)
    ensures Additive(Size()) && Additive(CountOf(l)) && Additive(Polarity())
  {
    forall a: seq<Score>, s: Score
      ensures Count(a + [s], l) == Count(a, l) + Count([s], l)
      ensures PolaritySum(a + [s]) == PolaritySum(a) + PolaritySum([s])
    {
      assert (a + [s])[..|a|] == a && [s][..0] == [];
    }
    assert Count([], l) == 0 && PolaritySum([]) == 0.0;
  }

  /* The same sums, read off the reported aggregates. */

  function SizeSum(table: map<string, Aggregate>, keys: seq<string>): nat
    requires forall k :: k in keys ==> k in table
  {
    if keys == [] then 0
    else
      assert keys[|keys| - 1] in keys;
      SizeSum(table, keys[..|keys| - 1]) + table[keys[|keys| - 1]].sampleSize
  }

  function LabelSum(table: map<string, Aggregate>, keys: seq<string>, l: Sentiment): nat
    requires forall k :: k in keys ==> k in table
  {
    if keys == [] then 0
    else
      assert keys[|keys| - 1] in keys;
      LabelSum(table, keys[..|keys| - 1], l) + Reported(table[keys[|keys| - 1]].labelCounts, l)
  }

  /** The polarity sum behind a mean. */
  function PolarityOf(a: Aggregate): real {
    a.meanPolarity * a.sampleSize as real
  }

  function PolarityTotal(table: map<string, Aggregate>, keys: seq<string>): real
    requires forall k :: k in keys ==> k in table
  {
    if keys == [] then 0.0
    else
      assert keys[|keys| - 1] in keys;
      PolarityTotal(table, keys[..|keys| - 1]) + PolarityOf(table[keys[|keys| - 1]])
  }

  lemma SummaryReports(scores: seq<Score>, l: Sentiment)
    ensures Summary(scores).sampleSize == |scores| && Reported(Summary(scores).labelCounts, l) == Count(scores, l)
    ensures PolarityOf(Summary(scores)) == PolaritySum(scores)
  {
  }

  lemma {:induction false} SumsAreTotals(scored: seq<Keyed>, keys: seq<string>, l: Sentiment)
    requires forall k :: k in keys ==> k in KeysOf(scored)
    ensures SizeSum(Summaries(scored), keys) as real == Total(Size(), scored, keys)
    ensures LabelSum(Summaries(scored), keys, l) as real == Total(CountOf(l), scored, keys)
    ensures PolarityTotal(Summaries(scored), keys) == Total(Polarity(), scored, keys)
  {
    if keys != [] {
      assert keys[|keys| - 1] in keys;
      SumsAreTotals(scored, keys[..|keys| - 1], l);
      SummaryReports(Under(scored, keys[|keys| - 1]), l);
    }
  }

  lemma TotalsAreConserved(scored: seq<Keyed>, keys: seq<string>, l: Sentiment)
    requires Lists(keys, KeysOf(scored))
    ensures Total(Size(), scored, keys) == |scored| as real
    ensures Total(CountOf(l), scored, keys) == Count(ScoresOf(scored), l) as real
    ensures Total(Polarity(), scored, keys) == PolaritySum(ScoresOf(scored))
  {
    MeasuresAreAdditive(l);
    Conserved(Size(), scored, keys);
    Conserved(CountOf(l), scored, keys);
    Conserved(Polarity(), scored, keys);
  }

  /** Aggregates are conserved: over any listing of the keys, the sample sizes, the counts of
      every label and the polarity sums add up to those of all the scores together. */
  lemma AggregatesAreConserved(scored: seq<Keyed>, keys: seq<string>, l: Sentiment)
    requires Lists(keys, KeysOf(scored))
    ensures SizeSum(Summaries(scored), keys) == |scored|
    ensures SizeSum(Summaries(scored), keys) == Summary(ScoresOf(scored)).sampleSize
    ensures LabelSum(Summaries(scored), keys, l) == Reported(Summary(ScoresOf(scored)).labelCounts, l)
    ensures PolarityTotal(Summaries(scored), keys) == PolarityOf(Summary(ScoresOf(scored)))
  {
    var all := ScoresOf(scored);
    TotalsAreConserved(scored, keys, l);
    SumsAreTotals(scored, keys, l);
    SameInts(SizeSum(Summaries(scored), keys), |scored|);
    SameInts(LabelSum(Summaries(scored), keys, l), Count(all, l));
    SummaryReports(all, l);
  }

  lemma SameInts(m: int, n: int)
    requires m as real == n as real
    ensures m == n
  {
  }
}
