/**
 Aspect mining of ml/sentilyzer_ml/pipeline/aspects.py, from the word runs of a text on: the
 candidate phrases, their word statistics and the ranking. Scores are exact rationals.
 */
module Rake {
  import opened Wrappers
  import opened Orders
  import Strings

  type Phrase = seq<string>

  const MAX_PHRASE_WORDS := 3
  const MIN_WORD_CHARS := 3

  /* ---------- candidate phrases ---------- */

  /** A stretch of a run that stopwords or the ends of the run enclose, and none interrupts. */
  predicate IsSegment(run: seq<string>, stop: set<string>, lo: nat, hi: nat) {
    && lo < hi <= |run|
    && (forall k :: lo <= k < hi ==> run[k] !in stop)
    && (lo == 0 || run[lo - 1] in stop)
    && (hi == |run| || run[hi] in stop)
  }

  /** The segments of run from position i on, with the current one begun at lo. */
  function SegmentsFrom(run: seq<string>, stop: set<string>, lo: nat, i: nat): seq<(nat, nat)>
    requires lo <= i <= |run|
    decreases |run| - i
  {
    if i == |run| then (if lo < i then [(lo, i)] else [])
    else if run[i] in stop then (if lo < i then [(lo, i)] else []) + SegmentsFrom(run, stop, i + 1, i + 1)
    else SegmentsFrom(run, stop, lo, i + 1)
  }

  /** The scan finds exactly the maximal stopword-free segments, from left to right. */
  lemma {:induction false} SegmentsAreMaximal(run: seq<string>, stop: set<string>, lo: nat, i: nat)
    requires lo <= i <= |run|
    requires forall k :: lo <= k < i ==> run[k] !in stop
    requires lo == 0 || run[lo - 1] in stop
    ensures var r := SegmentsFrom(run, stop, lo, i);
            && (forall a: nat, b: nat :: (a, b) in r <==> lo <= a && IsSegment(run, stop, a, b))
            && (forall k :: 0 <= k < |r| ==> lo <= r[k].0 < r[k].1)
            && (forall k :: 0 <= k < |r| - 1 ==> r[k].1 < r[k + 1].0)
    decreases |run| - i
  {
    var r := SegmentsFrom(run, stop, lo, i);
    if i < |run| {
      if run[i] in stop {
        SegmentsAreMaximal(run, stop, i + 1, i + 1);
        var rest := SegmentsFrom(run, stop, i + 1, i + 1);
        forall a: nat, b: nat ensures (a, b) in r <==> lo <= a && IsSegment(run, stop, a, b) {
          if IsSegment(run, stop, a, b) && lo <= a <= i {
            assert a == lo && b == i;
          }
        }
      } else {
        SegmentsAreMaximal(run, stop, lo, i + 1);
      }
    }
  }

  function PhraseAt(run: seq<string>, s: (nat, nat)): Phrase {
    if s.0 <= s.1 <= |run| then run[s.0..s.1] else []
  }

  function PhrasesAt(run: seq<string>, segments: seq<(nat, nat)>): seq<Phrase> {
    seq(|segments|, k requires 0 <= k < |segments| => PhraseAt(run, segments[k]))
  }

  /** Too long a phrase, or one with a short word, is rejected whole. */
  predicate IsCandidate(p: Phrase) {
    |p| <= MAX_PHRASE_WORDS && forall k :: 0 <= k < |p| ==> |p[k]| >= MIN_WORD_CHARS
  }

  function Keep(ps: seq<Phrase>): (r: seq<Phrase>)
    ensures forall p :: p in r <==> p in ps && IsCandidate(p)
  {
    if ps == [] then []
    else
      var rest := Keep(ps[1..]);
      if IsCandidate(ps[0]) then [ps[0]] + rest else rest
  }

  function AllPhrases(runs: seq<seq<string>>, stop: set<string>): seq<Phrase> {
    if runs == [] then []
    else AllPhrases(runs[..|runs| - 1], stop)
         + PhrasesAt(runs[|runs| - 1], SegmentsFrom(runs[|runs| - 1], stop, 0, 0))
  }

  function CandidatePhrases(runs: seq<seq<string>>, stop: set<string>): seq<Phrase> {
    Keep(AllPhrases(runs, stop))
  }

  /** One run of the scan, with its current phrase. */
  method ScanRun(run: seq<string>, stop: set<string>, phrases: seq<Phrase>) returns (out: seq<Phrase>)
    ensures out == phrases + PhrasesAt(run, SegmentsFrom(run, stop, 0, 0))
  {
    out := phrases;
    var current: Phrase := [];
    ghost var lo := 0;
    ghost var found: seq<(nat, nat)> := [];
    for i := 0 to |run|
      invariant lo <= i && current == run[lo..i]
      invariant out == phrases + PhrasesAt(run, found)
      invariant found + SegmentsFrom(run, stop, lo, i) == SegmentsFrom(run, stop, 0, 0)
    {
      if run[i] in stop {
        if |current| > 0 {
          out := out + [current];
          ghost var rest := SegmentsFrom(run, stop, i + 1, i + 1);
          assert found + ([(lo, i)] + rest) == (found + [(lo, i)]) + rest;
          found := found + [(lo, i)];
          current := [];
        } else {
          assert [] + SegmentsFrom(run, stop, i + 1, i + 1) == SegmentsFrom(run, stop, i + 1, i + 1);
        }
        lo := i + 1;
      } else {
        current := current + [run[i]];
      }
    }
    if |current| > 0 {
      out := out + [current];
      found := found + [(lo, |run|)];
    }
    assert found == SegmentsFrom(run, stop, 0, 0);
  }

  method MinePhrases(runs: seq<seq<string>>, stop: set<string>) returns (phrases: seq<Phrase>)
    ensures phrases == CandidatePhrases(runs, stop)
  {
    var all: seq<Phrase> := [];
    for k := 0 to |runs|
      invariant all == AllPhrases(runs[..k], stop)
    {
      assert runs[..k + 1][..k] == runs[..k];
      all := ScanRun(runs[k], stop, all);
    }
    assert runs[..|runs|] == runs;
    phrases := Keep(all);
  }

  predicate SegmentOf(runs: seq<seq<string>>, stop: set<string>, p: Phrase, k: nat, lo: nat, hi: nat) {
    k < |runs| && IsSegment(runs[k], stop, lo, hi) && p == runs[k][lo..hi]
  }

  lemma RunPhrases(run: seq<string>, stop: set<string>, p: Phrase)
    ensures p in PhrasesAt(run, SegmentsFrom(run, stop, 0, 0)) <==>
        exists lo: nat, hi: nat :: IsSegment(run, stop, lo, hi) && p == run[lo..hi]
  {
    SegmentsAreMaximal(run, stop, 0, 0);
    PhrasesAreAt(run, SegmentsFrom(run, stop, 0, 0), p);
    if exists lo: nat, hi: nat :: IsSegment(run, stop, lo, hi) && p == run[lo..hi] {
      var lo: nat, hi: nat :| IsSegment(run, stop, lo, hi) && p == run[lo..hi];
      assert (lo, hi) in SegmentsFrom(run, stop, 0, 0);
    }
  }

  lemma PhrasesAreAt(run: seq<string>, segments: seq<(nat, nat)>, p: Phrase)
    requires forall a: nat, b: nat :: (a, b) in segments ==> a < b <= |run|
    ensures p in PhrasesAt(run, segments) <==>
        exists lo: nat, hi: nat :: (lo, hi) in segments && lo < hi <= |run| && p == run[lo..hi]
  {
    var here := PhrasesAt(run, segments);
    if p in here {
      var j :| 0 <= j < |here| && here[j] == p;
      assert (segments[j].0, segments[j].1) in segments;
    }
    if lo: nat, hi: nat :| (lo, hi) in segments && lo < hi <= |run| && p == run[lo..hi] {
      var j :| 0 <= j < |segments| && segments[j] == (lo, hi);
      assert here[j] == p;
    }
  }

  lemma {:induction false} PhrasesAreSegments(runs: seq<seq<string>>, stop: set<string>, p: Phrase)
    ensures p in AllPhrases(runs, stop) <==> exists k: nat, lo: nat, hi: nat :: SegmentOf(runs, stop, p, k, lo, hi)
  {
    if runs != [] {
      var n := |runs| - 1;
      var before := runs[..n];
      PhrasesAreSegments(before, stop, p);
      RunPhrases(runs[n], stop, p);
      if p in PhrasesAt(runs[n], SegmentsFrom(runs[n], stop, 0, 0)) {
        var lo: nat, hi: nat :| IsSegment(runs[n], stop, lo, hi) && p == runs[n][lo..hi];
        assert SegmentOf(runs, stop, p, n, lo, hi);
      } else if p in AllPhrases(before, stop) {
        var k: nat, lo: nat, hi: nat :| SegmentOf(before, stop, p, k, lo, hi);
        assert SegmentOf(runs, stop, p, k, lo, hi);
      } else {
        forall k: nat, lo: nat, hi: nat ensures !SegmentOf(runs, stop, p, k, lo, hi) {
          assert k < n ==> (SegmentOf(before, stop, p, k, lo, hi) <==> SegmentOf(runs, stop, p, k, lo, hi));
        }
      }
    }
  }

  /** A candidate is exactly a maximal stopword-free segment of some run, of at most three
      words of at least three letters each. */
  lemma CandidatesAreSegments(runs: seq<seq<string>>, stop: set<string>, p: Phrase)
    ensures p in CandidatePhrases(runs, stop) <==>
        && |p| <= 3 && (forall k :: 0 <= k < |p| ==> |p[k]| >= 3)
        && exists k: nat, lo: nat, hi: nat :: SegmentOf(runs, stop, p, k, lo, hi)
  {
    PhrasesAreSegments(runs, stop, p);
  }

  lemma {:induction false} KeepAppend(a: seq<Phrase>, b: seq<Phrase>)
    ensures Keep(a + b) == Keep(a) + Keep(b)
  {
    if a == [] {
      assert a + b == b;
    } else {
      assert (a + b)[1..] == a[1..] + b;
      KeepAppend(a[1..], b);
    }
  }

  lemma {:induction false} AllPhrasesAppend(a: seq<seq<string>>, b: seq<seq<string>>, stop: set<string>)
    ensures AllPhrases(a + b, stop) == AllPhrases(a, stop) + AllPhrases(b, stop)
  {
    if b == [] {
      assert a + b == a;
    } else {
      assert (a + b)[..|a + b| - 1] == a + b[..|b| - 1];
      AllPhrasesAppend(a, b[..|b| - 1], stop);
    }
  }

  /** The candidates stand in the order of the text: those of one run before those of the next,
      and within a run segment by segment, each kept or dropped by itself. */
  lemma CandidatesInOrder(a: seq<seq<string>>, b: seq<seq<string>>, run: seq<string>, stop: set<string>,
                          ps: seq<Phrase>, p: Phrase)
    ensures CandidatePhrases(a + b, stop) == CandidatePhrases(a, stop) + CandidatePhrases(b, stop)
    ensures CandidatePhrases([run], stop) == Keep(PhrasesAt(run, SegmentsFrom(run, stop, 0, 0)))
    ensures Keep(ps + [p]) == Keep(ps) + if |p| <= 3 && forall k :: 0 <= k < |p| ==> |p[k]| >= 3 then [p] else []
  {
    AllPhrasesAppend(a, b, stop);
    KeepAppend(AllPhrases(a, stop), AllPhrases(b, stop));
    KeepAppend(ps, [p]);
    assert [run][..0] == [];
    assert AllPhrases([run], stop) == PhrasesAt(run, SegmentsFrom(run, stop, 0, 0));
  }

  /* ---------- word statistics ---------- */

  function Occurrences(p: Phrase, w: string): nat {
    if p == [] then 0
    else Occurrences(p[..|p| - 1], w) + if p[|p| - 1] == w then 1 else 0
  }

  /** Occurrences of the word over all candidates. */
  function Freq(ps: seq<Phrase>, w: string): nat {
    if ps == [] then 0 else Freq(ps[..|ps| - 1], w) + Occurrences(ps[|ps| - 1], w)
  }

  /** Summed length of the phrases of those occurrences. */
  function Degree(ps: seq<Phrase>, w: string): nat {
    if ps == [] then 0
    else Degree(ps[..|ps| - 1], w) + Occurrences(ps[|ps| - 1], w) * |ps[|ps| - 1]|
  }

  /** A map of counts that reads as zero where it has no entry. */
  function Count(m: map<string, nat>, w: string): nat {
    if w in m then m[w] else 0
  }

  /** The inner loop: one phrase adds its words' occurrences. */
  method AddPhrase(phrase: Phrase, freq: map<string, nat>, degree: map<string, nat>)
      returns (freq': map<string, nat>, degree': map<string, nat>)
    ensures forall w :: Count(freq', w) == Count(freq, w) + Occurrences(phrase, w)
    ensures forall w :: Count(degree', w) == Count(degree, w) + Occurrences(phrase, w) * |phrase|
  {
    freq', degree' := freq, degree;
    for j := 0 to |phrase|
      invariant forall w :: Count(freq', w) == Count(freq, w) + Occurrences(phrase[..j], w)
      invariant forall w :: Count(degree', w) == Count(degree, w) + Occurrences(phrase[..j], w) * |phrase|
    {
      assert phrase[..j + 1][..j] == phrase[..j];
      var word := phrase[j];
      OneMore(Occurrences(phrase[..j], word), |phrase|);
      freq' := freq'[word := Count(freq', word) + 1];
      degree' := degree'[word := Count(degree', word) + |phrase|];
    }
    assert phrase[..|phrase|] == phrase;
  }

  lemma OneMore(n: nat, l: nat)
    ensures (n + 1) * l == n * l + l
  {
  }

  method WordStats(ps: seq<Phrase>) returns (freq: map<string, nat>, degree: map<string, nat>)
    ensures forall w :: Count(freq, w) == Freq(ps, w)
    ensures forall w :: Count(degree, w) == Degree(ps, w)
  {
    freq, degree := map[], map[];
    for i := 0 to |ps|
      invariant forall w :: Count(freq, w) == Freq(ps[..i], w)
      invariant forall w :: Count(degree, w) == Degree(ps[..i], w)
    {
      assert ps[..i + 1][..i] == ps[..i];
      freq, degree := AddPhrase(ps[i], freq, degree);
    }
    assert ps[..|ps|] == ps;
  }

  /** Candidates have at most three words, so a word's degree lies between its frequency and
      three times it. */
  lemma {:induction false} DegreeBetween(ps: seq<Phrase>, w: string)
    requires forall k :: 0 <= k < |ps| ==> IsCandidate(ps[k])
    ensures Freq(ps, w) <= Degree(ps, w) <= 3 * Freq(ps, w)
  {
    if ps != [] {
      var p := ps[|ps| - 1];
      DegreeBetween(ps[..|ps| - 1], w);
      Scale(Occurrences(p, w), |p|);
      if p == [] { assert Occurrences(p, w) == 0; }
    }
  }

  lemma Scale(n: nat, l: nat)
    ensures l >= 1 ==> n <= n * l
    ensures l <= 3 ==> n * l <= 3 * n
  {
  }

  lemma {:induction false} OccursIn(p: Phrase, w: string)
    ensures w in p <==> Occurrences(p, w) > 0
  {
    if p != [] {
      OccursIn(p[..|p| - 1], w);
      assert p == p[..|p| - 1] + [p[|p| - 1]];
    }
  }

  /** Where the word stands in the phrase. */
  function PlacesIn(p: Phrase, w: string): set<nat> {
    set j: nat | j < |p| && p[j] == w
  }

  lemma {:induction false} OccurrencesCount(p: Phrase, w: string)
    ensures Occurrences(p, w) == |PlacesIn(p, w)|
  {
    if p == [] {
      assert PlacesIn(p, w) == {};
    } else {
      var init, n := p[..|p| - 1], |p| - 1;
      OccurrencesCount(init, w);
      assert PlacesIn(p, w) == PlacesIn(init, w) + if p[n] == w then {n} else {};
    }
  }

  /** Each occurrence of the word among the phrases: which phrase, and where in it. */
  function Uses(ps: seq<Phrase>, w: string): set<(nat, nat)> {
    set i: nat, j: nat | i < |ps| && j < |ps[i]| && ps[i][j] == w :: (i, j)
  }

  /** Each occurrence of the word together with each word of the phrase it is in. */
  function UsesBeside(ps: seq<Phrase>, w: string): set<(nat, (nat, nat))> {
    set i: nat, j: nat, m: nat | i < |ps| && j < |ps[i]| && m < |ps[i]| && ps[i][j] == w :: (i, (m, j))
  }

  function Tagged<T>(i: nat, xs: set<T>): set<(nat, T)> {
    set x | x in xs :: (i, x)
  }

  lemma {:induction false} TaggedCount<T>(i: nat, xs: set<T>)
    ensures |Tagged(i, xs)| == |xs|
  {
    if xs != {} {
      var x :| x in xs;
      TaggedCount(i, xs - {x});
      assert Tagged(i, xs) == Tagged(i, xs - {x}) + {(i, x)};
    } else {
      assert Tagged(i, xs) == {};
    }
  }

  function Below(places: set<nat>, n: nat): set<(nat, nat)> {
    set j, m: nat | j in places && m < n :: (m, j)
  }

  lemma {:induction false} BelowCount(places: set<nat>, n: nat)
    ensures |Below(places, n)| == |places| * n
  {
    if n == 0 {
      assert Below(places, n) == {};
    } else {
      BelowCount(places, n - 1);
      TaggedCount(n - 1, places);
      assert Below(places, n) == Below(places, n - 1) + Tagged(n - 1, places);
      assert Below(places, n - 1) !! Tagged(n - 1, places);
      OneMore(n - 1, |places|);
    }
  }

  /** What RAKE means by them: a word's frequency is the number of its occurrences over all
      candidates, its degree the number of words that stand in one phrase with one. */
  lemma {:induction false} StatisticsCount(ps: seq<Phrase>, w: string)
    ensures Freq(ps, w) == |Uses(ps, w)|
    ensures Degree(ps, w) == |UsesBeside(ps, w)|
  {
    if ps == [] {
      assert Uses(ps, w) == {} && UsesBeside(ps, w) == {};
    } else {
      var init, n := ps[..|ps| - 1], |ps| - 1;
      var here := PlacesIn(ps[n], w);
      StatisticsCount(init, w);
      OccurrencesCount(ps[n], w);
      UsesOfLast(ps, w);
      TaggedCount(n, here);
      TaggedCount(n, Below(here, |ps[n]|));
      BelowCount(here, |ps[n]|);
    }
  }

  lemma UsesOfLast(ps: seq<Phrase>, w: string)
    requires ps != []
    ensures var init, n := ps[..|ps| - 1], |ps| - 1;
            var here := PlacesIn(ps[n], w);
            && Uses(ps, w) == Uses(init, w) + Tagged(n, here) && Uses(init, w) !! Tagged(n, here)
            && UsesBeside(ps, w) == UsesBeside(init, w) + Tagged(n, Below(here, |ps[n]|))
            && UsesBeside(init, w) !! Tagged(n, Below(here, |ps[n]|))
  {
    var init, n := ps[..|ps| - 1], |ps| - 1;
    var here := PlacesIn(ps[n], w);
    assert forall i :: 0 <= i < n ==> init[i] == ps[i];
    forall u ensures u in Uses(ps, w) <==> u in Uses(init, w) || u in Tagged(n, here) {}
    forall u ensures u in UsesBeside(ps, w) <==> u in UsesBeside(init, w) || u in Tagged(n, Below(here, |ps[n]|)) {}
  }

  lemma {:induction false} FreqPositive(ps: seq<Phrase>, p: Phrase, w: string)
    requires p in ps && w in p
    ensures Freq(ps, w) > 0
  {
    OccursIn(p, w);
    if ps[|ps| - 1] != p {
      assert ps == ps[..|ps| - 1] + [ps[|ps| - 1]];
      FreqPositive(ps[..|ps| - 1], p, w);
    }
  }

  /* ---------- scores ---------- */

  function Ratio(ps: seq<Phrase>, w: string): real {
    if Freq(ps, w) == 0 then 0.0 else Degree(ps, w) as real / Freq(ps, w) as real
  }

  /** The score of a phrase: the sum of degree over frequency of its words. */
  function Score(ps: seq<Phrase>, p: Phrase): real {
    if p == [] then 0.0 else Score(ps, p[..|p| - 1]) + Ratio(ps, p[|p| - 1])
  }

  /** What times the frequency is the degree. */
  ghost predicate IsQuotient(d: nat, f: nat, x: real) {
    f > 0 && x * f as real == d as real
  }

  lemma QuotientIs(d: nat, f: nat)
    requires f > 0
    ensures IsQuotient(d, f, d as real / f as real)
  {
  }

  lemma RatioIsQuotient(ps: seq<Phrase>, w: string)
    requires Freq(ps, w) > 0
    ensures IsQuotient(Degree(ps, w), Freq(ps, w), Ratio(ps, w))
  {
    QuotientIs(Degree(ps, w), Freq(ps, w));
  }

  /** The words of a phrase add up. */
  lemma {:induction false} ScoreAppend(ps: seq<Phrase>, p: Phrase, q: Phrase)
    ensures Score(ps, p + q) == Score(ps, p) + Score(ps, q)
  {
    if q == [] {
      assert p + q == p;
    } else {
      assert (p + q)[..|p + q| - 1] == p + q[..|q| - 1];
      ScoreAppend(ps, p, q[..|q| - 1]);
    }
  }

  /** And each word of a candidate adds its degree over its frequency: together with ScoreAppend
      this determines every score. */
  lemma ScoreOfCandidateWord(ps: seq<Phrase>, r: Phrase, w: string)
    requires r in ps && w in r
    ensures IsQuotient(Degree(ps, w), Freq(ps, w), Score(ps, [w]))
  {
    FreqPositive(ps, r, w);
    ScoreOfWord(ps, w);
    RatioIsQuotient(ps, w);
  }

  lemma ScoreOfWord(ps: seq<Phrase>, w: string)
    ensures Score(ps, [w]) == Ratio(ps, w)
  {
    assert [w][..0] == [];
    assert Score(ps, []) == 0.0;
  }

  lemma RatioBetween(ps: seq<Phrase>, w: string)
    requires forall k :: 0 <= k < |ps| ==> IsCandidate(ps[k])
    requires Freq(ps, w) > 0
    ensures 1.0 <= Ratio(ps, w) <= 3.0
  {
    DegreeBetween(ps, w);
    QuotientBetween(Degree(ps, w) as real, Freq(ps, w) as real);
  }

  lemma QuotientBetween(d: real, f: real)
    requires 0.0 < f <= d <= 3.0 * f
    ensures 1.0 <= d / f <= 3.0
  {
    var q := d / f;
    assert q * f == d;
    NoLess(q, 1.0, f);
    NoLess(3.0, q, f);
  }

  lemma NoLess(a: real, b: real, f: real)
    requires f > 0.0 && a * f >= b * f
    ensures a >= b
  {
    ScaleLess(a, b, f);
  }

  lemma ScaleLess(a: real, b: real, f: real)
    requires f > 0.0
    ensures a < b ==> a * f < b * f
  {
    assert a < b ==> (b - a) * f > 0.0;
  }

  /** A phrase of L words scores between L and 3 L. */
  lemma {:induction false} ScoreBetween(ps: seq<Phrase>, p: Phrase)
    requires forall k :: 0 <= k < |ps| ==> IsCandidate(ps[k])
    requires forall k :: 0 <= k < |p| ==> Freq(ps, p[k]) > 0
    ensures |p| as real <= Score(ps, p) <= 3.0 * |p| as real
  {
    if p != [] {
      ScoreBetween(ps, p[..|p| - 1]);
      RatioBetween(ps, p[|p| - 1]);
    }
  }

  /* ---------- ranking ---------- */

  /** The phrase as text. Words hold no space, so different phrases are different texts. */
  function Join(p: Phrase): string {
    Strings.Join(' ', p)
  }

  datatype Scored = Scored(key: string, score: real, order: nat)

  predicate HasKey(entries: seq<Scored>, key: string) {
    exists k :: 0 <= k < |entries| && entries[k].key == key
  }

  /** One entry for each different phrase, at its first occurrence. */
  function Entries(ps: seq<Phrase>, n: nat): seq<Scored>
    requires n <= |ps|
  {
    if n == 0 then []
    else
      var before := Entries(ps, n - 1);
      if HasKey(before, Join(ps[n - 1])) then before
      else before + [Scored(Join(ps[n - 1]), Score(ps, ps[n - 1]), n - 1)]
  }

  /** Higher score first, then earlier occurrence. */
  function Outranks(): (Scored, Scored) -> bool {
    (a: Scored, b: Scored) => a.score > b.score || (a.score == b.score && a.order <= b.order)
  }

  function Ranked(ps: seq<Phrase>): seq<Scored> {
    Sort(Outranks(), Entries(ps, |ps|))
  }

  function Keys(entries: seq<Scored>): (r: seq<string>)
    ensures |r| == |entries| && forall k :: 0 <= k < |r| ==> r[k] == entries[k].key
  {
    seq(|entries|, k requires 0 <= k < |entries| => entries[k].key)
  }

  function Mined(runs: seq<seq<string>>, stop: set<string>, maxAspects: int): seq<string> {
    var ranked := Ranked(CandidatePhrases(runs, stop));
    if maxAspects <= 0 then [] else Keys(ranked[..Min(maxAspects, |ranked|)])
  }

  method ScorePhrase(ps: seq<Phrase>, p: Phrase, freq: map<string, nat>, degree: map<string, nat>) returns (score: real)
    requires forall w :: Count(freq, w) == Freq(ps, w)
    requires forall w :: Count(degree, w) == Degree(ps, w)
    requires p in ps
    ensures score == Score(ps, p)
  {
    score := 0.0;
    for j := 0 to |p|
      invariant score == Score(ps, p[..j])
    {
      assert p[..j + 1][..j] == p[..j];
      FreqPositive(ps, p, p[j]);
      score := score + Count(degree, p[j]) as real / Count(freq, p[j]) as real;
    }
    assert p[..|p|] == p;
  }

  /** mine_aspects, for a text that splits into these runs. */
  method MineAspects(runs: seq<seq<string>>, stop: set<string>, maxAspects: int) returns (aspects: seq<string>)
    ensures aspects == Mined(runs, stop, maxAspects)
  {
    if |runs| == 0 || maxAspects <= 0 {
      return [];
    }
    var phrases := MinePhrases(runs, stop);
    if |phrases| == 0 {
      return [];
    }
    var freq, degree := WordStats(phrases);
    var scored: seq<Scored> := [];
    for order := 0 to |phrases|
      invariant scored == Entries(phrases, order)
    {
      var key := Join(phrases[order]);
      if !HasKey(scored, key) {
        var score := ScorePhrase(phrases, phrases[order], freq, degree);
        scored := scored + [Scored(key, score, order)];
      }
    }
    var ranked := Sort(Outranks(), scored);
    aspects := Keys(ranked[..Min(maxAspects, |ranked|)]);
  }

  /* ---------- the result is the top of the ranking ---------- */

  /** An entry tells the truth about the phrase at its position. */
  predicate IsEntryOf(ps: seq<Phrase>, e: Scored) {
    e.order < |ps| && e.key == Join(ps[e.order]) && e.score == Score(ps, ps[e.order])
  }

  predicate DistinctAndOrdered(es: seq<Scored>) {
    forall a, b :: 0 <= a < b < |es| ==> es[a].key != es[b].key && es[a].order < es[b].order
  }

  lemma {:induction false} EntriesCorrect(ps: seq<Phrase>, n: nat)
    requires n <= |ps|
    ensures var es := Entries(ps, n);
            && DistinctAndOrdered(es)
            && (forall a :: 0 <= a < |es| ==> es[a].order < n && IsEntryOf(ps, es[a]))
  {
    if n > 0 {
      EntriesCorrect(ps, n - 1);
    }
  }

  lemma {:induction false} EntriesComplete(ps: seq<Phrase>, n: nat, k: nat)
    requires k < n <= |ps|
    ensures HasKey(Entries(ps, n), Join(ps[k]))
  {
    var before, es := Entries(ps, n - 1), Entries(ps, n);
    if k < n - 1 {
      EntriesComplete(ps, n - 1, k);
      var a :| 0 <= a < |before| && before[a].key == Join(ps[k]);
      assert es[a].key == Join(ps[k]);
    } else if !HasKey(before, Join(ps[k])) {
      assert es[|before|].key == Join(ps[k]);
    }
  }

  predicate Better(a: Scored, b: Scored) {
    a.score > b.score || (a.score == b.score && a.order < b.order)
  }

  /** Different keys, each better than the next. */
  predicate StrictlyRanked(es: seq<Scored>) {
    forall a, b :: 0 <= a < b < |es| ==> es[a].key != es[b].key && Better(es[a], es[b])
  }

  lemma RankedMembers(ps: seq<Phrase>)
    ensures forall e :: e in Ranked(ps) <==> e in Entries(ps, |ps|)
    ensures forall e :: e in Ranked(ps) ==> IsEntryOf(ps, e)
  {
    EntriesCorrect(ps, |ps|);
    SameElements(Entries(ps, |ps|), Ranked(ps));
  }

  lemma RankedCorrect(ps: seq<Phrase>)
    ensures StrictlyRanked(Ranked(ps))
  {
    EntriesCorrect(ps, |ps|);
    OutranksIsOrdering();
    SortSorts(Outranks(), Entries(ps, |ps|));
    SortedDistinctIsStrict(Entries(ps, |ps|), Ranked(ps));
  }

  lemma SortedDistinctIsStrict(es: seq<Scored>, ranked: seq<Scored>)
    requires DistinctAndOrdered(es) && multiset(ranked) == multiset(es) && Sorted(Outranks(), ranked)
    ensures StrictlyRanked(ranked)
  {
    SameElements(es, ranked);
    DistinctEntries(es);
    forall a, b | 0 <= a < b < |ranked|
      ensures ranked[a].key != ranked[b].key && Better(ranked[a], ranked[b])
    {
      assert Outranks()(ranked[a], ranked[b]);
      TwiceIsTwo(ranked, a, b);
      DifferentEntriesDiffer(es, ranked[a], ranked[b]);
    }
  }

  lemma DifferentEntriesDiffer(es: seq<Scored>, x: Scored, y: Scored)
    requires DistinctAndOrdered(es) && x in es && y in es && x != y
    ensures x.key != y.key && x.order != y.order
  {
    var i :| 0 <= i < |es| && es[i] == x;
    var j :| 0 <= j < |es| && es[j] == y;
  }

  lemma OutranksIsOrdering()
    ensures Ordering(Outranks())
  {
  }

  lemma {:induction false} DistinctEntries(es: seq<Scored>)
    requires forall a, b :: 0 <= a < b < |es| ==> es[a].key != es[b].key
    ensures forall e :: multiset(es)[e] <= 1
  {
    if es != [] {
      DistinctEntries(es[1..]);
      assert es == [es[0]] + es[1..];
      assert es[0] !in es[1..];
      assert es[0] !in multiset(es[1..]);
    }
  }

  /** The mined aspects are different phrases, at most the number asked, from best to worst,
      and every candidate left out is outranked by every one returned. */
  lemma MinedIsTop(runs: seq<seq<string>>, stop: set<string>, maxAspects: nat)
    ensures var ranked, r := Ranked(CandidatePhrases(runs, stop)), Mined(runs, stop, maxAspects);
            && |r| == Min(maxAspects, |ranked|)
            && (forall a :: 0 <= a < |r| ==> r[a] == ranked[a].key)
            && (forall a, b :: 0 <= a < b < |r| ==> r[a] != r[b] && Better(ranked[a], ranked[b]))
            && (forall a, e :: 0 <= a < |r| && e in ranked && e.key !in r ==>
                  ranked[a].score > e.score || (ranked[a].score == e.score && ranked[a].order < e.order))
  {
    var ranked := Ranked(CandidatePhrases(runs, stop));
    RankedCorrect(CandidatePhrases(runs, stop));
    TopIsBest(ranked, Min(maxAspects, |ranked|));
  }

  lemma TopIsBest(ranked: seq<Scored>, n: nat)
    requires StrictlyRanked(ranked) && n <= |ranked|
    ensures var r := Keys(ranked[..n]);
            && (forall a, b :: 0 <= a < b < |r| ==> r[a] != r[b])
            && (forall a, e :: 0 <= a < |r| && e in ranked && e.key !in r ==> Better(ranked[a], e))
  {
    var r := Keys(ranked[..n]);
    forall b | 0 <= b < n ensures ranked[b].key in r {
      assert r[b] == ranked[b].key;
    }
    forall a, e | 0 <= a < |r| && e in ranked && e.key !in r ensures Better(ranked[a], e) {
      var b :| 0 <= b < |ranked| && ranked[b] == e;
    }
  }

  /** What is ranked is every candidate, each different phrase once, with its own score and the
      position it first occurs at. */
  lemma RankedCandidates(runs: seq<seq<string>>, stop: set<string>)
    ensures var ps := CandidatePhrases(runs, stop);
            && (forall e :: e in Ranked(ps) ==> IsEntryOf(ps, e))
            && (forall k :: 0 <= k < |ps| ==> RankedByFirst(ps, k))
  {
    var ps := CandidatePhrases(runs, stop);
    RankedMembers(ps);
    forall k | 0 <= k < |ps| ensures RankedByFirst(ps, k) {
      FirstOccurrence(ps, k);
    }
  }

  /** The phrase at this position is ranked, by an occurrence no later. */
  ghost predicate RankedByFirst(ps: seq<Phrase>, k: nat)
    requires k < |ps|
  {
    exists e :: e in Ranked(ps) && e.key == Join(ps[k]) && e.order <= k
  }

  lemma FirstOccurrence(ps: seq<Phrase>, k: nat)
    requires k < |ps|
    ensures RankedByFirst(ps, k)
  {
    EntriesComplete(ps, k + 1, k);
    EntriesCorrect(ps, k + 1);
    EntriesGrow(ps, k + 1, |ps|);
    RankedMembers(ps);
    var e := KeyInPrefix(Entries(ps, k + 1), Entries(ps, |ps|), Join(ps[k]));
    assert e in Ranked(ps);
  }

  lemma KeyInPrefix(es: seq<Scored>, all: seq<Scored>, key: string) returns (e: Scored)
    requires es <= all && HasKey(es, key)
    ensures e in es && e in all && e.key == key
  {
    var a :| 0 <= a < |es| && es[a].key == key;
    e := es[a];
    assert all[a] == e;
  }

  lemma {:induction false} EntriesGrow(ps: seq<Phrase>, m: nat, n: nat)
    requires m <= n <= |ps|
    ensures Entries(ps, m) <= Entries(ps, n)
  {
    if m < n {
      EntriesGrow(ps, m, n - 1);
    }
  }

  function Sum(parts: seq<real>): real {
    if parts == [] then 0.0 else Sum(parts[..|parts| - 1]) + parts[|parts| - 1]
  }

  ghost predicate AreRatios(ps: seq<Phrase>, p: Phrase, parts: seq<real>) {
    |parts| == |p| && forall k :: 0 <= k < |p| ==> IsQuotient(Degree(ps, p[k]), Freq(ps, p[k]), parts[k])
  }

  lemma {:induction false} ScoreIsSum(ps: seq<Phrase>, p: Phrase) returns (parts: seq<real>)
    requires forall k :: 0 <= k < |p| ==> Freq(ps, p[k]) > 0
    ensures AreRatios(ps, p, parts) && Score(ps, p) == Sum(parts)
  {
    parts := [];
    if p != [] {
      var init, w := p[..|p| - 1], p[|p| - 1];
      var before := ScoreIsSum(ps, init);
      RatioIsQuotient(ps, w);
      parts := before + [Ratio(ps, w)];
      assert parts[..|parts| - 1] == before;
      assert forall k :: 0 <= k < |init| ==> init[k] == p[k];
    }
  }

  /** A ranked entry names a candidate and scores the sum, over its words, of what times the
      word's frequency is its degree. */
  lemma RankedScores(runs: seq<seq<string>>, stop: set<string>, e: Scored) returns (parts: seq<real>)
    requires e in Ranked(CandidatePhrases(runs, stop))
    ensures var ps := CandidatePhrases(runs, stop);
            && e.order < |ps| && e.key == Join(ps[e.order])
            && AreRatios(ps, ps[e.order], parts) && e.score == Sum(parts)
  {
    var ps := CandidatePhrases(runs, stop);
    RankedMembers(ps);
    parts := EntryScore(ps, e);
  }

  lemma EntryScore(ps: seq<Phrase>, e: Scored) returns (parts: seq<real>)
    requires IsEntryOf(ps, e)
    ensures AreRatios(ps, ps[e.order], parts) && e.score == Sum(parts)
  {
    var p := ps[e.order];
    assert p in ps;
    forall k | 0 <= k < |p| ensures Freq(ps, p[k]) > 0 {
      FreqPositive(ps, p, p[k]);
    }
    parts := ScoreIsSum(ps, p);
  }

  /** Every returned aspect of L words scores between L and 3 L. */
  lemma MinedScores(runs: seq<seq<string>>, stop: set<string>, k: nat)
    requires k < |CandidatePhrases(runs, stop)|
    ensures var ps := CandidatePhrases(runs, stop);
            |ps[k]| as real <= Score(ps, ps[k]) <= 3.0 * |ps[k]| as real
  {
    var ps := CandidatePhrases(runs, stop);
    forall j | 0 <= j < |ps| ensures IsCandidate(ps[j]) {
      assert ps[j] in ps;
    }
    forall j | 0 <= j < |ps[k]| ensures Freq(ps, ps[k][j]) > 0 {
      FreqPositive(ps, ps[k], ps[k][j]);
    }
    ScoreBetween(ps, ps[k]);
  }

  /** A phrase is named by its words with single spaces between them. */
  lemma PhraseIsItsWords(p: Phrase, w: string)
    ensures Join([w]) == w
    ensures p != [] ==> Join(p + [w]) == Join(p) + " " + w
  {
    Strings.JoinSnoc(' ', p, w);
  }

  /** The keys do not confuse phrases: words come from splitting at spaces. */
  lemma PhraseKeysDistinct(p: Phrase, q: Phrase)
    requires p != [] && q != [] && Strings.AllFree(' ', p) && Strings.AllFree(' ', q)
    ensures Join(p) == Join(q) <==> p == q
  {
    if Join(p) == Join(q) {
      Strings.JoinInjective(' ', p, q);
    }
  }
}
