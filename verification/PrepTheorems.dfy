/** What prep.py promises of the training set it builds. */
module PrepTheorems {
  import opened Wrappers
  import opened Orders
  import opened Corpus
  import opened Prep

  /* ---------- revocation, length, provenance ---------- */

  lemma TrainingSetMembers(cfg: PrepConfig, rows: seq<Document>, tombs: seq<Tombstone>)
    ensures forall d :: d in Sized(cfg, rows, tombs) <==> d in rows && !Revoked(d, tombs) && InBounds(cfg, d)
    ensures forall d :: d in Deduped(Sized(cfg, rows, tombs)) ==> d in Sized(cfg, rows, tombs)
    ensures forall d :: d in TrainingSet(cfg, rows, tombs) ==> d in Deduped(Sized(cfg, rows, tombs))
  {
    var sized := Sized(cfg, rows, tombs);
    WinnersAreWinners(sized, 0);
    forall d | d in TrainingSet(cfg, rows, tombs) ensures d in Deduped(sized) {
      SameElements(Deduped(sized), Sort(ByHash(cfg), Deduped(sized)));
    }
  }

  /** No tombstone of its platform names this row's document or its author. */
  ghost predicate Spared(d: Document, tombs: seq<Tombstone>) {
    forall t :: t in tombs && t.platform == d.platform ==>
      && !(t.scope == DocScope && t.docId == Some(d.docId))
      && !(t.scope == AccountScope && d.authorDid == Some(t.authorDid))
  }

  /** A row is alive exactly when no tombstone names it, its document or its author, and stays
      for dedupe exactly when its text is within the bounds too. */
  lemma SparedIsAlive(cfg: PrepConfig, rows: seq<Document>, tombs: seq<Tombstone>, d: Document)
    ensures d in Alive(rows, tombs) <==> d in rows && Spared(d, tombs)
    ensures d in Sized(cfg, rows, tombs) <==>
        d in rows && Spared(d, tombs) && |d.text| >= cfg.minChars && |d.text| <= cfg.maxChars
  {
  }

  /** Revocation always wins: no row matching a tombstone, by document or by author, is kept,
      whatever else the corpus holds and whatever the bounds and the cap are. */
  lemma RevocationWins(cfg: PrepConfig, rows: seq<Document>, tombs: seq<Tombstone>, d: Document, t: Tombstone)
    requires t in tombs && t.platform == d.platform
    requires match t.scope
             case DocScope => t.docId == Some(d.docId)
             case AccountScope => d.authorDid == Some(t.authorDid)
    ensures d !in TrainingSet(cfg, rows, tombs)
  {
    TrainingSetMembers(cfg, rows, tombs);
  }

  /* ---------- one row per content group ---------- */

  function SameAs(d: Document): Document -> bool {
    (x: Document) => SameContent(d, x)
  }

  lemma {:induction false} GroupOfWinners(rows: seq<Document>, d: Document, w: nat, i: nat)
    requires i <= |rows| && w < |rows| && Wins(rows, w) && SameContent(d, rows[w])
    requires forall k :: 0 <= k < |rows| && SameContent(d, rows[k]) && Wins(rows, k) ==> k == w
    ensures Filter(SameAs(d), WinnersFrom(rows, i)) == if i <= w then [rows[w]] else []
    decreases |rows| - i
  {
    if i < |rows| {
      GroupOfWinners(rows, d, w, i + 1);
      if Wins(rows, i) {
        assert WinnersFrom(rows, i)[1..] == WinnersFrom(rows, i + 1);
      }
    }
  }

  /** Created no later, where both say when; a row that does not say comes last; of two that say
      the same the smaller id comes first. */
  predicate NoLater(a: Document, b: Document) {
    && (a.createdAt.None? ==> b.createdAt.None?)
    && (a.createdAt.Some? && b.createdAt.Some? ==> LexLeq(a.createdAt.value, b.createdAt.value))
    && (a.createdAt == b.createdAt ==> LexLeq(a.docId, b.docId))
  }

  lemma EarlierIsNoLater(a: Document, b: Document)
    ensures EarlierOrTied(a, b) <==> NoLater(a, b)
  {
    if a.createdAt.Some? && b.createdAt.Some? {
      LexLeqTotal(a.createdAt.value, b.createdAt.value);
    }
  }

  /** Each content group with a live copy inside the bounds keeps exactly one, the earliest
      such copy: a revoked earlier copy never suppresses a live later one. */
  lemma KeepsTheEarliestLiveCopy(cfg: PrepConfig, rows: seq<Document>, tombs: seq<Tombstone>, d: Document)
    requires d in rows && !Revoked(d, tombs) && InBounds(cfg, d)
    ensures var kept := Filter(SameAs(d), Deduped(Sized(cfg, rows, tombs)));
            && |kept| == 1
            && kept[0] in rows && !Revoked(kept[0], tombs) && InBounds(cfg, kept[0])
            && forall x :: x in rows && !Revoked(x, tombs) && InBounds(cfg, x) && SameContent(d, x) ==>
                 EarlierOrTied(kept[0], x) && NoLater(kept[0], x)
  {
    var sized := Sized(cfg, rows, tombs);
    TrainingSetMembers(cfg, rows, tombs);
    assert d in sized;
    var g :| 0 <= g < |sized| && sized[g] == d;
    var w := OnePerGroup(sized, g);
    GroupOfWinners(sized, d, w, 0);
    assert sized[w] in sized;
    forall x | x in sized && SameContent(d, x) ensures EarlierOrTied(sized[w], x) && NoLater(sized[w], x) {
      EarlierIsNoLater(sized[w], x);
      var k :| 0 <= k < |sized| && sized[k] == x;
      assert SameContent(sized[w], sized[k]);
    }
  }

  /* ---------- the statistics partition the input ---------- */

  lemma {:induction false} FilterSplits<T(!new)>(p: T -> bool, q: T -> bool, xs: seq<T>)
    requires forall x :: q(x) == !p(x)
    ensures |Filter(p, xs)| + |Filter(q, xs)| == |xs|
  {
    if xs != [] {
      FilterSplits(p, q, xs[1..]);
    }
  }

  function ContentKey(d: Document): (nat, string) { (d.hashVersion, d.contentHash) }

  function ContentKeys(rows: seq<Document>): set<(nat, string)> {
    set d | d in rows :: ContentKey(d)
  }

  ghost predicate DistinctContents(rows: seq<Document>) {
    forall i, j :: 0 <= i < j < |rows| ==> ContentKey(rows[i]) != ContentKey(rows[j])
  }

  lemma ContentKeysStep(rows: seq<Document>)
    requires rows != []
    ensures ContentKeys(rows) == {ContentKey(rows[0])} + ContentKeys(rows[1..])
  {
    assert forall d :: d in rows <==> d == rows[0] || d in rows[1..] by {
      assert rows == [rows[0]] + rows[1..];
    }
  }

  lemma {:induction false} DistinctCount(rows: seq<Document>)
    ensures |ContentKeys(rows)| <= |rows|
    ensures DistinctContents(rows) ==> |ContentKeys(rows)| == |rows|
  {
    if rows != [] {
      DistinctCount(rows[1..]);
      ContentKeysStep(rows);
    }
  }

  lemma {:induction false} WinnersDistinct(rows: seq<Document>, i: nat)
    requires i <= |rows|
    ensures DistinctContents(WinnersFrom(rows, i))
    decreases |rows| - i
  {
    if i < |rows| {
      WinnersDistinct(rows, i + 1);
      if Wins(rows, i) {
        WinnersAreWinners(rows, i + 1);
        var rest := WinnersFrom(rows, i + 1);
        forall b | 0 <= b < |rest| ensures ContentKey(rows[i]) != ContentKey(rest[b]) {
          assert rest[b] in rest;
          var k :| i + 1 <= k < |rows| && Wins(rows, k) && rows[k] == rest[b];
          EarlierIsOrdering();
        }
      }
    }
  }

  /** The survivors of dedupe are as many as there are different contents. */
  lemma DedupedCountsContents(rows: seq<Document>)
    ensures |Deduped(rows)| == |ContentKeys(rows)| <= |rows|
  {
    WinnersDistinct(rows, 0);
    DistinctCount(Deduped(rows));
    WinnersAreWinners(rows, 0);
    forall key | key in ContentKeys(rows) ensures key in ContentKeys(Deduped(rows)) {
      var d :| d in rows && ContentKey(d) == key;
      var g :| 0 <= g < |rows| && rows[g] == d;
      var w := OnePerGroup(rows, g);
    }
    assert ContentKeys(rows) == ContentKeys(Deduped(rows));
    DistinctCount(rows);
  }

  function IsRevoked(tombs: seq<Tombstone>): Document -> bool {
    (d: Document) => Revoked(d, tombs)
  }

  function IsOutOfBounds(cfg: PrepConfig): Document -> bool {
    (d: Document) => !InBounds(cfg, d)
  }

  /** Every raw row is counted once: as revoked, as out of bounds, as a duplicate, or among the
      different contents; and the cap keeps as many of those as it allows. */
  lemma StatsPartitionTheInput(cfg: PrepConfig, rows: seq<Document>, tombs: seq<Tombstone>)
    ensures var s, sized := StatsOf(cfg, rows, tombs), Sized(cfg, rows, tombs);
            && s.droppedByTombstone == |Filter(IsRevoked(tombs), rows)|
            && s.droppedByLength == |Filter(IsOutOfBounds(cfg), Alive(rows, tombs))|
            && s.droppedAsDuplicate == |sized| - |ContentKeys(sized)| >= 0
            && s.rawDocuments == s.droppedByTombstone + s.droppedByLength + s.droppedAsDuplicate
                                 + |ContentKeys(sized)|
            && s.kept == Min(|ContentKeys(sized)|, cfg.maxSequences)
  {
    FilterSplits(IsRevoked(tombs), IsAlive(tombs), rows);
    FilterSplits(IsInBounds(cfg), IsOutOfBounds(cfg), Alive(rows, tombs));
    DedupedCountsContents(Sized(cfg, rows, tombs));
  }

  /** Where a condition holds. */
  function Places<T>(p: T -> bool, xs: seq<T>): set<nat> {
    set i: nat | i < |xs| && p(xs[i])
  }

  lemma PlacesSnoc<T>(p: T -> bool, xs: seq<T>, x: T)
    ensures Places(p, xs + [x]) == Places(p, xs) + if p(x) then {|xs|} else {}
  {
    var all := xs + [x];
    forall i: nat ensures i in Places(p, all) <==> i in Places(p, xs) || (i == |xs| && p(x)) {
      assert i < |xs| ==> all[i] == xs[i];
    }
  }

  /** A filter keeps one element for each place its condition holds. */
  lemma {:induction false} FilterCountsPlaces<T(!new)>(p: T -> bool, xs: seq<T>)
    ensures |Filter(p, xs)| == |Places(p, xs)|
  {
    if xs == [] {
      assert Places(p, xs) == {};
    } else {
      var init, last := xs[..|xs| - 1], xs[|xs| - 1];
      assert xs == init + [last];
      FilterSnoc(p, init, last);
      PlacesSnoc(p, init, last);
      FilterCountsPlaces(p, init);
    }
  }

  lemma {:induction false} FilterSnoc<T(!new)>(p: T -> bool, xs: seq<T>, x: T)
    ensures Filter(p, xs + [x]) == Filter(p, xs) + if p(x) then [x] else []
  {
    if xs == [] {
      assert xs + [x] == [x];
    } else {
      assert (xs + [x])[1..] == xs[1..] + [x];
      FilterSnoc(p, xs[1..], x);
    }
  }

  /** The two tombstone counts are of the rows of each scope. */
  lemma TombstonesAreCounted(cfg: PrepConfig, rows: seq<Document>, tombs: seq<Tombstone>)
    ensures var s := StatsOf(cfg, rows, tombs);
            && s.rawDocuments == |rows|
            && s.docTombstones == |set i: nat | i < |tombs| && tombs[i].scope == DocScope|
            && s.accountTombstones == |set i: nat | i < |tombs| && tombs[i].scope == AccountScope|
  {
    ScopeIsCounted(tombs, DocScope);
    ScopeIsCounted(tombs, AccountScope);
  }

  lemma ScopeIsCounted(tombs: seq<Tombstone>, scope: Scope)
    ensures |Filter(OfScope(scope), tombs)| == |set i: nat | i < |tombs| && tombs[i].scope == scope|
  {
    FilterCountsPlaces(OfScope(scope), tombs);
    assert Places(OfScope(scope), tombs) == set i: nat | i < |tombs| && tombs[i].scope == scope;
  }

  /* ---------- the cap ---------- */

  /** The hash of platform and document id that the cap goes by. */
  function CapHash(cfg: PrepConfig, d: Document): string {
    cfg.md5(d.platform + "|" + d.docId)
  }

  /** The cap keeps the survivors of least hash, in the order of the hashes: none left out has a
      smaller hash than one kept. */
  lemma CapKeepsLeastHashes(cfg: PrepConfig, rows: seq<Document>, tombs: seq<Tombstone>)
    ensures var kept, all := TrainingSet(cfg, rows, tombs), Deduped(Sized(cfg, rows, tombs));
            && |kept| == Min(|all|, cfg.maxSequences)
            && (forall i, j :: 0 <= i < j < |kept| ==> LexLeq(CapHash(cfg, kept[i]), CapHash(cfg, kept[j])))
            && (forall d, x :: d in kept && x in all && x !in kept ==> LexLeq(CapHash(cfg, d), CapHash(cfg, x)))
  {
    ByHashIsOrdering(cfg);
    TakesLeast(ByHash(cfg), Deduped(Sized(cfg, rows, tombs)), cfg.maxSequences);
    var kept, all := TrainingSet(cfg, rows, tombs), Deduped(Sized(cfg, rows, tombs));
    forall d, x | d in kept && x in all && x !in kept ensures LexLeq(CapHash(cfg, d), CapHash(cfg, x)) {
      assert ByHash(cfg)(d, x);
    }
  }

  /* ---------- the step as a whole ---------- */

  /** What may be trained on: unrevoked and within the bounds. */
  ghost predicate Eligible(cfg: PrepConfig, d: Document, tombs: seq<Tombstone>) {
    Spared(d, tombs) && |d.text| >= cfg.minChars && |d.text| <= cfg.maxChars
  }

  function EligibleContents(cfg: PrepConfig, rows: seq<Document>, tombs: seq<Tombstone>): set<(nat, string)> {
    set d | d in rows && d in Sized(cfg, rows, tombs) :: (d.hashVersion, d.contentHash)
  }

  /** From corpus files to training set: every row of it is an eligible row of some file, no
      content occurs twice, there are as many as there are eligible contents or the cap allows,
      and below the cap every eligible content is there, by a copy created no later. */
  lemma BuiltInFull(cfg: PrepConfig, files: seq<seq<Document>>, tombs: seq<Tombstone>)
    requires files != []
    ensures var built, rows := BuildTrainingSet(cfg, files, tombs), Concat(files);
            && built.Ok? && built.value.1 == StatsOf(cfg, rows, tombs)
            && (forall d :: d in built.value.0 ==>
                  Eligible(cfg, d, tombs) && exists f :: 0 <= f < |files| && d in files[f])
            && DistinctContents(built.value.0)
            && |built.value.0| == Min(|EligibleContents(cfg, rows, tombs)|, cfg.maxSequences)
            && (|EligibleContents(cfg, rows, tombs)| <= cfg.maxSequences ==>
                  forall f, d :: 0 <= f < |files| && d in files[f] && Eligible(cfg, d, tombs) ==>
                    IsRepresented(built.value.0, d))
  {
    var rows := Concat(files);
    var sized, kept := Sized(cfg, rows, tombs), TrainingSet(cfg, rows, tombs);
    TrainingSetMembers(cfg, rows, tombs);
    forall d ensures d in sized <==> d in rows && Eligible(cfg, d, tombs) { SparedIsAlive(cfg, rows, tombs, d); }
    forall d ensures d in rows <==> exists f :: 0 <= f < |files| && d in files[f] { InSomeFile(files, d); }
    DedupedCountsContents(sized);
    assert EligibleContents(cfg, rows, tombs) == ContentKeys(sized);
    CapKeepsLeastHashes(cfg, rows, tombs);
    WinnersDistinct(sized, 0);
    CappedContentsDistinct(cfg, Deduped(sized));
    if |ContentKeys(sized)| <= cfg.maxSequences {
      var all := Sort(ByHash(cfg), Deduped(sized));
      SameElements(Deduped(sized), all);
      assert all[..|all|] == all;
      forall f, d | 0 <= f < |files| && d in files[f] && Eligible(cfg, d, tombs) ensures IsRepresented(kept, d) {
        assert d in sized;
        Represented(sized, d);
        assert forall x :: x in Deduped(sized) <==> x in kept;
      }
    }
  }

  /** A copy of its content created no later is there. */
  ghost predicate IsRepresented(kept: seq<Document>, d: Document) {
    exists k :: k in kept && SameContent(d, k) && NoLater(k, d)
  }

  lemma Represented(sized: seq<Document>, d: Document)
    requires d in sized
    ensures IsRepresented(Deduped(sized), d)
  {
    var g :| 0 <= g < |sized| && sized[g] == d;
    var w := OnePerGroup(sized, g);
    EarlierIsNoLater(sized[w], d);
  }

  lemma {:induction false} InSomeFile(files: seq<seq<Document>>, d: Document)
    ensures d in Concat(files) <==> exists f :: 0 <= f < |files| && d in files[f]
  {
    if files != [] {
      InSomeFile(files[1..], d);
      if d in files[0] { assert d in files[0]; }
      if f :| 0 <= f < |files[1..]| && d in files[1..][f] { assert d in files[f + 1]; }
      if f :| 0 <= f < |files| && d in files[f] { assert f > 0 ==> d in files[1..][f - 1]; }
    }
  }

  lemma CappedContentsDistinct(cfg: PrepConfig, rows: seq<Document>)
    requires DistinctContents(rows)
    ensures DistinctContents(Capped(cfg, rows))
  {
    var sorted := Sort(ByHash(cfg), rows);
    SameElements(rows, sorted);
    DistinctMultiset(rows);
    forall i, j | 0 <= i < j < |sorted| ensures ContentKey(sorted[i]) != ContentKey(sorted[j]) {
      assert sorted[i] in rows && sorted[j] in rows;
      var p :| 0 <= p < |rows| && rows[p] == sorted[i];
      var q :| 0 <= q < |rows| && rows[q] == sorted[j];
      TwiceIsTwo(sorted, i, j);
    }
  }

  /* ---------- order and repeats do not matter ---------- */

  lemma SizedDependsOnSets(cfg: PrepConfig, rowsA: seq<Document>, rowsB: seq<Document>,
                           tombsA: seq<Tombstone>, tombsB: seq<Tombstone>)
    requires SameSet(rowsA, rowsB) && SameSet(tombsA, tombsB)
    ensures SameSet(Sized(cfg, rowsA, tombsA), Sized(cfg, rowsB, tombsB))
  {
    TrainingSetMembers(cfg, rowsA, tombsA);
    TrainingSetMembers(cfg, rowsB, tombsB);
    forall d ensures Revoked(d, tombsA) == Revoked(d, tombsB) {}
  }

  /** Whoever wins in one arrangement is tied with a winner in any other. */
  lemma WinnersAreTied(a: seq<Document>, b: seq<Document>, d: Document) returns (e: Document)
    requires SameSet(a, b) && d in Deduped(a)
    ensures e in Deduped(b) && e in a
    ensures Tied(d, e)
  {
    WinnersAreWinners(a, 0);
    WinnersAreWinners(b, 0);
    EarlierIsOrdering();
    var i :| 0 <= i < |a| && Wins(a, i) && a[i] == d;
    assert d in b;
    var g :| 0 <= g < |b| && b[g] == d;
    var w := OnePerGroup(b, g);
    e := b[w];
    assert e in a;
    var k :| 0 <= k < |a| && a[k] == e;
    assert SameContent(a[i], a[k]);
  }

  type Key = (string, string, string)

  function KeyOf(d: Document): Key { (d.platform, d.docId, d.contentHash) }

  function Keys(rows: seq<Document>): set<Key> {
    set d | d in rows :: KeyOf(d)
  }

  /** Rows that tie for their content group belong to one platform. */
  ghost predicate TiesWithinPlatform(rows: seq<Document>) {
    forall a, b :: a in rows && b in rows && Tied(a, b) ==> a.platform == b.platform
  }

  /** Which documents are kept before the cap depends on the sets of rows and tombstones alone,
      not on how often or in what order they were written. */
  lemma KeptKeysDependOnSets(cfg: PrepConfig, rowsA: seq<Document>, rowsB: seq<Document>,
                             tombsA: seq<Tombstone>, tombsB: seq<Tombstone>)
    requires SameSet(rowsA, rowsB) && SameSet(tombsA, tombsB) && TiesWithinPlatform(rowsA)
    ensures Keys(Deduped(Sized(cfg, rowsA, tombsA))) == Keys(Deduped(Sized(cfg, rowsB, tombsB)))
  {
    SizedDependsOnSets(cfg, rowsA, rowsB, tombsA, tombsB);
    TrainingSetMembers(cfg, rowsA, tombsA);
    TrainingSetMembers(cfg, rowsB, tombsB);
    KeysIncluded(Sized(cfg, rowsA, tombsA), Sized(cfg, rowsB, tombsB));
    KeysIncluded(Sized(cfg, rowsB, tombsB), Sized(cfg, rowsA, tombsA));
  }

  lemma KeysIncluded(a: seq<Document>, b: seq<Document>)
    requires SameSet(a, b) && TiesWithinPlatform(a)
    ensures Keys(Deduped(a)) <= Keys(Deduped(b))
  {
    forall key | key in Keys(Deduped(a)) ensures key in Keys(Deduped(b)) {
      var d :| d in Deduped(a) && KeyOf(d) == key;
      var e := WinnersAreTied(a, b, d);
      WinnersAreWinners(a, 0);
      assert KeyOf(e) == key;
    }
  }

  /** No two different rows tie, for their content group or in the order of the cap. */
  ghost predicate NoTiedRows(cfg: PrepConfig, rows: seq<Document>) {
    && (forall a, b :: a in rows && b in rows && Tied(a, b) ==> a == b)
    && NoTies(ByHash(cfg), rows)
  }

  /** With no tied rows the whole result, cap included, is a function of the sets of rows and
      tombstones: neither their order nor their repeats can be seen in it. */
  lemma PrepForgetsOrderAndRepeats(cfg: PrepConfig, rowsA: seq<Document>, rowsB: seq<Document>,
                                   tombsA: seq<Tombstone>, tombsB: seq<Tombstone>)
    requires SameSet(rowsA, rowsB) && SameSet(tombsA, tombsB) && NoTiedRows(cfg, rowsA)
    ensures TrainingSet(cfg, rowsA, tombsA) == TrainingSet(cfg, rowsB, tombsB)
  {
    var a, b := Sized(cfg, rowsA, tombsA), Sized(cfg, rowsB, tombsB);
    SizedDependsOnSets(cfg, rowsA, rowsB, tombsA, tombsB);
    TrainingSetMembers(cfg, rowsA, tombsA);
    TrainingSetMembers(cfg, rowsB, tombsB);
    WinnersIncluded(a, b);
    WinnersIncluded(b, a);
    WinnersDistinct(a, 0);
    WinnersDistinct(b, 0);
    DistinctSameSet(Deduped(a), Deduped(b));
    ByHashIsOrdering(cfg);
    SortForgetsOrder(ByHash(cfg), Deduped(a), Deduped(b));
    SameElements(Deduped(a), Deduped(b));
  }

  lemma WinnersIncluded(a: seq<Document>, b: seq<Document>)
    requires SameSet(a, b)
    requires forall x, y :: x in a && y in a && Tied(x, y) ==> x == y
    ensures forall d :: d in Deduped(a) ==> d in Deduped(b)
  {
    forall d | d in Deduped(a) ensures d in Deduped(b) {
      var e := WinnersAreTied(a, b, d);
      WinnersAreWinners(a, 0);
    }
  }

  lemma ByHashIsOrdering(cfg: PrepConfig)
    ensures Ordering(ByHash(cfg))
  {
    var h := (d: Document) => cfg.md5(d.platform + "|" + d.docId);
    forall a, b ensures ByHash(cfg)(a, b) || ByHash(cfg)(b, a) {
      LexLeqTotal(h(a), h(b));
    }
    forall a, b, c | ByHash(cfg)(a, b) && ByHash(cfg)(b, c) ensures ByHash(cfg)(a, c) {
      LexLeqTransitive(h(a), h(b), h(c));
    }
  }

  lemma DistinctSameSet(a: seq<Document>, b: seq<Document>)
    requires SameSet(a, b) && DistinctContents(a) && DistinctContents(b)
    ensures multiset(a) == multiset(b)
  {
    DistinctMultiset(a);
    DistinctMultiset(b);
    forall d ensures multiset(a)[d] == multiset(b)[d] {
      assert d in a <==> d in b;
    }
  }

  lemma {:induction false} DistinctMultiset(a: seq<Document>)
    requires DistinctContents(a)
    ensures forall d :: multiset(a)[d] == if d in a then 1 else 0
  {
    if a != [] {
      DistinctMultiset(a[1..]);
      assert a == [a[0]] + a[1..];
      assert a[0] !in a[1..];
    }
  }

  /** The step is refused exactly when there is no document file; otherwise neither how the rows
      are spread over files nor the order the files are read in can be seen in its statistics,
      nor, without ties, in the training set. */
  lemma FilesDoNotMatter(cfg: PrepConfig, filesA: seq<seq<Document>>, filesB: seq<seq<Document>>, tombs: seq<Tombstone>)
    requires multiset(Concat(filesA)) == multiset(Concat(filesB))
    ensures BuildTrainingSet(cfg, filesA, tombs).Err? <==> filesA == []
    ensures filesA != [] && filesB != [] ==>
        var a, b := BuildTrainingSet(cfg, filesA, tombs).value, BuildTrainingSet(cfg, filesB, tombs).value;
        a.1 == b.1 && (NoTiedRows(cfg, Concat(filesA)) ==> a.0 == b.0)
  {
    var rowsA, rowsB := Concat(filesA), Concat(filesB);
    SameElements(rowsA, rowsB);
    FilterOfMultiset(IsAlive(tombs), rowsA, rowsB);
    FilterOfMultiset(IsInBounds(cfg), Alive(rowsA, tombs), Alive(rowsB, tombs));
    var sizedA, sizedB := Sized(cfg, rowsA, tombs), Sized(cfg, rowsB, tombs);
    SameElements(sizedA, sizedB);
    assert ContentKeys(sizedA) == ContentKeys(sizedB);
    DedupedCountsContents(sizedA);
    DedupedCountsContents(sizedB);
    SameElements(Alive(rowsA, tombs), Alive(rowsB, tombs));
    if NoTiedRows(cfg, rowsA) {
      PrepForgetsOrderAndRepeats(cfg, rowsA, rowsB, tombs, tombs);
    }
  }

  lemma FilterOfMultiset<T(!new)>(p: T -> bool, xs: seq<T>, ys: seq<T>)
    requires multiset(xs) == multiset(ys)
    ensures multiset(Filter(p, xs)) == multiset(Filter(p, ys))
  {
    FilterCounts(p, xs);
    FilterCounts(p, ys);
  }

  lemma {:induction false} FilterCounts<T(!new)>(p: T -> bool, xs: seq<T>)
    ensures forall x :: multiset(Filter(p, xs))[x] == if p(x) then multiset(xs)[x] else 0
  {
    if xs != [] {
      FilterCounts(p, xs[1..]);
      assert xs == [xs[0]] + xs[1..];
    }
  }
}
