/**
 From firehose event to training row: what the harvester and the prep step guarantee
 together, across drops, replays and restarts.
 */
module Lifecycle {
  import opened Wrappers
  import opened Orders
  import opened Corpus
  import opened Harvest
  import opened HarvestTheorems
  import opened Prep
  import opened PrepTheorems
  import opened Admission

  ghost predicate Positions(log: seq<Event>, handled: seq<nat>) {
    forall k :: 0 <= k < |handled| ==> handled[k] < |log|
  }

  /** The training set of the corpus left by handling these log positions in this order. */
  function TrainingSetOf(setup: Setup, cfg: PrepConfig, log: seq<Event>, handled: seq<nat>): seq<Document>
    requires forall k :: 0 <= k < |handled| ==> handled[k] < |log|
  {
    TrainingSet(cfg, DocsOf(setup, log, handled), TombsOf(setup, log, handled))
  }

  /** The documents kept before the cap. */
  function KeptKeysOf(setup: Setup, cfg: PrepConfig, log: seq<Event>, handled: seq<nat>): set<Key>
    requires forall k :: 0 <= k < |handled| ==> handled[k] < |log|
  {
    Keys(Deduped(Sized(cfg, DocsOf(setup, log, handled), TombsOf(setup, log, handled))))
  }

  /* ---------- the corpus as a set of rows ---------- */

  lemma {:induction false} RowsOfHandled(setup: Setup, log: seq<Event>, handled: seq<nat>)
    requires Positions(log, handled)
    ensures forall d :: d in DocsOf(setup, log, handled) <==>
        exists i :: i in handled && i < |log| && d in DocsOfEvent(setup, log[i])
    ensures forall t :: t in TombsOf(setup, log, handled) <==>
        exists i :: i in handled && i < |log| && t in TombsOfEvent(setup, log[i])
  {
    if handled != [] {
      var before, last := handled[..|handled| - 1], handled[|handled| - 1];
      RowsOfHandled(setup, log, before);
      assert forall i :: i in handled <==> i in before || i == last by {
        assert handled == before + [last];
      }
    }
  }

  lemma SamePositionsSameRows(setup: Setup, log: seq<Event>, a: seq<nat>, b: seq<nat>)
    requires Positions(log, a) && Positions(log, b) && SameSet(a, b)
    ensures SameSet(DocsOf(setup, log, a), DocsOf(setup, log, b))
    ensures SameSet(TombsOf(setup, log, a), TombsOf(setup, log, b))
  {
    RowsOfHandled(setup, log, a);
    RowsOfHandled(setup, log, b);
  }

  /* ---------- replay is harmless ---------- */

  lemma {:induction false} DocsPlatform(setup: Setup, log: seq<Event>, handled: seq<nat>)
    requires Positions(log, handled)
    ensures forall d :: d in DocsOf(setup, log, handled) ==> d.platform == setup.platform
    ensures |DocsOf(setup, log, handled)| <= |handled|
  {
    if handled != [] {
      DocsPlatform(setup, log, handled[..|handled| - 1]);
    }
  }

  lemma RowsAreOurs(setup: Setup, cfg: PrepConfig, log: seq<Event>, handled: seq<nat>)
    requires Positions(log, handled)
    ensures forall d :: d in DocsOf(setup, log, handled) ==> d.platform == setup.platform
    ensures forall d :: d in TrainingSetOf(setup, cfg, log, handled) ==> d in DocsOf(setup, log, handled)
    ensures TiesWithinPlatform(DocsOf(setup, log, handled))
  {
    DocsPlatform(setup, log, handled);
    TrainingSetMembers(cfg, DocsOf(setup, log, handled), TombsOf(setup, log, handled));
  }

  /** At-least-once harvesting gives the same training set as exactly-once: which documents
      are kept depends only on the set of events handled. */
  lemma RepeatsAreHarmless(setup: Setup, cfg: PrepConfig, log: seq<Event>, a: seq<nat>, b: seq<nat>)
    requires Positions(log, a) && Positions(log, b) && SameSet(a, b)
    ensures KeptKeysOf(setup, cfg, log, a) == KeptKeysOf(setup, cfg, log, b)
    ensures NoTiedRows(cfg, DocsOf(setup, log, a)) ==>
        TrainingSetOf(setup, cfg, log, a) == TrainingSetOf(setup, cfg, log, b)
  {
    SamePositionsSameRows(setup, log, a, b);
    RowsAreOurs(setup, cfg, log, a);
    PrepOfSameSets(cfg, DocsOf(setup, log, a), DocsOf(setup, log, b),
                   TombsOf(setup, log, a), TombsOf(setup, log, b));
  }

  lemma PrepOfSameSets(cfg: PrepConfig, rowsA: seq<Document>, rowsB: seq<Document>,
                       tombsA: seq<Tombstone>, tombsB: seq<Tombstone>)
    requires SameSet(rowsA, rowsB) && SameSet(tombsA, tombsB) && TiesWithinPlatform(rowsA)
    ensures Keys(Deduped(Sized(cfg, rowsA, tombsA))) == Keys(Deduped(Sized(cfg, rowsB, tombsB)))
    ensures NoTiedRows(cfg, rowsA) ==> TrainingSet(cfg, rowsA, tombsA) == TrainingSet(cfg, rowsB, tombsB)
  {
    KeptKeysDependOnSets(cfg, rowsA, rowsB, tombsA, tombsB);
    if NoTiedRows(cfg, rowsA) {
      PrepForgetsOrderAndRepeats(cfg, rowsA, rowsB, tombsA, tombsB);
    }
  }

  /** For any schedule of drops, rewound reconnects, failed appends and restarts over one
      ordered log, from wherever the harvest started, the training set is that of a single
      uninterrupted pass from there to the furthest event reached, as long as no reconnect
      reaches back past the start; and a harvest from the beginning of the log never does. */
  lemma AnyScheduleEqualsOnePass(setup: Setup, cfg: PrepConfig, log: seq<Event>, steps: seq<Step>)
    requires Ordered(log) && OneStart(setup, log, steps) && After(setup, log, steps).cursor > 0
    ensures var s := After(setup, log, steps);
            && Positions(log, s.handled) && s.lo <= s.hi <= |log|
            && (s.lo == 0 ==> NoReachBack(setup, log, steps))
    ensures NoReachBack(setup, log, steps) ==>
        SameTraining(setup, cfg, log, After(setup, log, steps).handled,
                     Interval(After(setup, log, steps).lo, After(setup, log, steps).hi))
  {
    var s := After(setup, log, steps);
    HarvestLeavesNoGap(setup, log, steps);
    HandledIsOnePass(setup, log, steps);
    if NoReachBack(setup, log, steps) {
      RepeatsAreHarmless(setup, cfg, log, s.handled, Interval(s.lo, s.hi));
    }
  }

  /** The same as a caller can check it: no restart, or a cursor file written at the end of
      every connection, and no reconnect that starts, rewound, before the start point. */
  lemma DurableScheduleEqualsOnePass(setup: Setup, cfg: PrepConfig, log: seq<Event>, steps: seq<Step>)
    requires Ordered(log) && Durable(setup, steps) && After(setup, log, steps).cursor > 0
    requires NoReachBack(setup, log, steps)
    ensures SameTraining(setup, cfg, log, After(setup, log, steps).handled,
                         Interval(After(setup, log, steps).lo, After(setup, log, steps).hi))
  {
    DurableKeepsCursor(setup, log, steps);
    KeepingTheCursorIsOneStart(setup, log, steps);
    AnyScheduleEqualsOnePass(setup, cfg, log, steps);
  }

  /** And when a reconnect did reach back: the training set is that of one pass from the first
      event handled, once such a replay got to the start point with no older cursor file found on
      the way, or once every connection cut short before the start point was overtaken. */
  lemma ReplayedEqualsOnePass(setup: Setup, cfg: PrepConfig, log: seq<Event>, steps: seq<Step>, first: nat)
    requires Ordered(log) && After(setup, log, steps).cursor > 0 && Earliest(After(setup, log, steps), first)
    requires
      || (NoSetback(setup, log, steps) && CaughtUp(setup, log, steps))
      || (Durable(setup, steps) && AllOvertaken(setup, log, steps, After(setup, log, steps)))
    ensures SameTraining(setup, cfg, log, After(setup, log, steps).handled,
                         Interval(first, After(setup, log, steps).hi))
  {
    var s := After(setup, log, steps);
    HarvestLeavesNoGap(setup, log, steps);
    if NoSetback(setup, log, steps) && CaughtUp(setup, log, steps) {
      HandledIsOneStretch(setup, log, steps, first);
    } else {
      DurableKeepsCursor(setup, log, steps);
      KeepingTheCursorIsOneStart(setup, log, steps);
      OneStretchIffOvertaken(setup, log, steps, first);
    }
    RepeatsAreHarmless(setup, cfg, log, s.handled, Interval(first, s.hi));
  }

  /** The same documents are kept before the cap, and without ties the same rows after it. */
  ghost predicate SameTraining(setup: Setup, cfg: PrepConfig, log: seq<Event>, a: seq<nat>, b: seq<nat>) {
    && Positions(log, a) && Positions(log, b)
    && KeptKeysOf(setup, cfg, log, a) == KeptKeysOf(setup, cfg, log, b)
    && (NoTiedRows(cfg, DocsOf(setup, log, a)) ==>
          TrainingSetOf(setup, cfg, log, a) == TrainingSetOf(setup, cfg, log, b))
  }

  /* ---------- revocation always wins ---------- */

  /** A delete that was handled at any time removes its document for good: before or after
      the create, under any filter and sample rate, under any replay. */
  lemma HandledDeleteWins(setup: Setup, cfg: PrepConfig, log: seq<Event>, handled: seq<nat>, i: nat, d: Document)
    requires Positions(log, handled) && i in handled && i < |log|
    requires log[i].kind.Commit? && log[i].kind.commit.Some?
    requires log[i].kind.commit.value.operation == Delete
    requires log[i].kind.commit.value.collection == POST_COLLECTION
    requires d.docId == DocId(log[i].did, log[i].kind.commit.value.rkey)
    ensures d !in TrainingSetOf(setup, cfg, log, handled)
  {
    var t := Tombstone(setup.platform, DocScope, Some(d.docId), log[i].did);
    RowsOfHandled(setup, log, handled);
    RowsAreOurs(setup, cfg, log, handled);
    assert |d.docId| > 0;
    assert t in TombsOfEvent(setup, log[i]);
    if d.platform == setup.platform {
      RevocationWins(cfg, DocsOf(setup, log, handled), TombsOf(setup, log, handled), d, t);
    }
  }

  /** A deactivation that was handled at any time removes everything its author ever wrote,
      provided the author's id is not empty. */
  lemma HandledDeactivationWins(setup: Setup, cfg: PrepConfig, log: seq<Event>, handled: seq<nat>,
                                i: nat, j: nat, d: Document)
    requires Positions(log, handled) && i in handled && i < |log| && j in handled && j < |log|
    requires log[i].kind == Account(Some(false))
    requires log[j].did == log[i].did && d in DocsOfEvent(setup, log[j])
    requires log[i].did != ""
    ensures d !in TrainingSetOf(setup, cfg, log, handled)
  {
    var t := Tombstone(setup.platform, AccountScope, None, log[i].did);
    RowsOfHandled(setup, log, handled);
    assert t in TombsOfEvent(setup, log[i]);
    RevocationWins(cfg, DocsOf(setup, log, handled), TombsOf(setup, log, handled), d, t);
  }

  /** The harvest handled no delete of this document and no deactivation of this author. */
  ghost predicate NeverRevoked(log: seq<Event>, handled: seq<nat>, docId: string, did: string) {
    forall i :: i in handled && i < |log| ==> !DeletesPost(log[i], docId) && (did != "" ==> !Deactivates(log[i], did))
  }

  lemma NamesOneTombstone(setup: Setup, log: seq<Event>, handled: seq<nat>, j: nat, d: Document, t: Tombstone)
    requires Positions(log, handled) && j < |log| && d in DocsOfEvent(setup, log[j])
    ensures t in TombsOf(setup, log, handled) && t.platform == d.platform
            && ((t.scope == DocScope && t.docId == Some(d.docId))
                || (t.scope == AccountScope && d.authorDid == Some(t.authorDid)))
            ==> !NeverRevoked(log, handled, d.docId, log[j].did)
  {
    RowsOfHandled(setup, log, handled);
    if t in TombsOf(setup, log, handled) {
      var i :| i in handled && i < |log| && t in TombsOfEvent(setup, log[i]);
      RevokesIff(setup, log[i], t);
    }
  }

  /** A handled post is revoked exactly by a handled delete of its own document id or a handled
      deactivation of its own, non-empty, author, whenever they came: nothing else is. */
  lemma RevokedIff(setup: Setup, log: seq<Event>, handled: seq<nat>, j: nat, d: Document)
    requires Positions(log, handled) && j < |log| && d in DocsOfEvent(setup, log[j])
    ensures Revoked(d, TombsOf(setup, log, handled)) <==> !NeverRevoked(log, handled, d.docId, log[j].did)
  {
    var tombs := TombsOf(setup, log, handled);
    RowsOfHandled(setup, log, handled);
    if !NeverRevoked(log, handled, d.docId, log[j].did) {
      var i :| i in handled && i < |log|
        && (DeletesPost(log[i], d.docId) || (log[j].did != "" && Deactivates(log[i], log[j].did)));
      var t := if DeletesPost(log[i], d.docId) then Tombstone(setup.platform, DocScope, Some(d.docId), log[i].did)
               else Tombstone(setup.platform, AccountScope, None, log[j].did);
      RevokesIff(setup, log[i], t);
      assert t in tombs;
    }
    forall t ensures t in tombs && t.platform == d.platform
            && ((t.scope == DocScope && t.docId == Some(d.docId))
                || (t.scope == AccountScope && d.authorDid == Some(t.authorDid)))
            ==> !NeverRevoked(log, handled, d.docId, log[j].did)
    {
      NamesOneTombstone(setup, log, handled, j, d, t);
    }
  }

  /** What is not revoked is not lost: an admitted post whose event was handled, with no handled
      delete of it and no handled deactivation of its author, and in bounds, is kept before the
      cap, or a copy of its content created no later is. */
  lemma HandledPostIsRepresented(setup: Setup, cfg: PrepConfig, log: seq<Event>, handled: seq<nat>, j: nat, d: Document)
    requires Positions(log, handled) && j in handled && j < |log| && d in DocsOfEvent(setup, log[j])
    requires NeverRevoked(log, handled, d.docId, log[j].did)
    requires cfg.minChars <= |d.text| <= cfg.maxChars
    ensures IsRepresented(Deduped(Sized(cfg, DocsOf(setup, log, handled), TombsOf(setup, log, handled))), d)
  {
    var rows, tombs := DocsOf(setup, log, handled), TombsOf(setup, log, handled);
    RowsOfHandled(setup, log, handled);
    RevokedIff(setup, log, handled, j, d);
    TrainingSetMembers(cfg, rows, tombs);
    assert d in rows;
    Represented(Sized(cfg, rows, tombs), d);
  }

  /** Two handled posts are copies of one content exactly when their trimmed texts normalize
      alike, as far as the hash tells different texts apart. */
  lemma CopiesAreRecognised(setup: Setup, a: Event, b: Event, d: Document, e: Document)
    requires d in DocsOfEvent(setup, a) && e in DocsOfEvent(setup, b)
    requires var env := setup.env;
             env.sha(env.normalize(d.text)) == env.sha(env.normalize(e.text)) ==>
               env.normalize(d.text) == env.normalize(e.text)
    ensures SameContent(d, e) <==> setup.env.normalize(d.text) == setup.env.normalize(e.text)
  {
  }

  /* ---------- where the guarantees end ---------- */

  const PLAIN_ENV := TextEnv((s: string) => s, (s: string) => s, (s: string) => s, (s: string) => s, (s: string) => 0.0)

  function PlainSetup(): Setup { Setup(PLAIN_ENV, PostFilter([], 0, 0, 1.0), "bluesky", true) }

  function PlainPrep(): PrepConfig { PrepConfig(10, 0, 100, (s: string) => s) }

  function Post(did: string, timeUs: int, op: Operation, text: string): Event {
    Event(did, timeUs, Commit(Some(CommitInfo(op, POST_COLLECTION, "r", Some(Record(text, [], "t"))))))
  }

  /** The tombstone of a deactivation reaches its author's documents exactly when the author's
      id is not empty: an empty one is not written to the row. */
  lemma DeactivationReachesIff(setup: Setup, deactivation: Event, post: Event, d: Document)
    requires deactivation.kind == Account(Some(false))
    requires post.did == deactivation.did && d in DocsOfEvent(setup, post)
    ensures Revoked(d, TombsOfEvent(setup, deactivation)) <==> post.did != ""
  {
    var t := Tombstone(setup.platform, AccountScope, None, deactivation.did);
    assert TombsOfEvent(setup, deactivation) == [t];
    assert t in [t];
  }

  /** An empty author id is not written to the row, so a deactivation of it reaches nothing. */
  lemma EmptyAuthorEscapesDeactivation()
    ensures var setup, cfg := PlainSetup(), PlainPrep();
            var log := [Post("", 1, Create, "a"), Event("", 2, Account(Some(false)))];
            exists d :: d in DocsOfEvent(setup, log[0]) && d in TrainingSetOf(setup, cfg, log, [0, 1])
  {
    var setup, cfg := PlainSetup(), PlainPrep();
    var log := [Post("", 1, Create, "a"), Event("", 2, Account(Some(false)))];
    var d := DocumentOf(setup, "", DocId("", "r"), "a", Record("a", [], "t"));
    assert EffectOf(setup, log[0]) == Writes(d);
    RowsOfHandled(setup, log, [0, 1]);
    DocsPlatform(setup, log, [0, 1]);
    var rows, tombs := DocsOf(setup, log, [0, 1]), TombsOf(setup, log, [0, 1]);
    assert [0, 1][0] == 0 && d in rows;
    assert !Revoked(d, tombs);
    SoleRowIsKept(cfg, rows, tombs, d);
  }

  /** A row alone in its content group is kept before the cap, and with room under the cap. */
  lemma SoleRowIsKept(cfg: PrepConfig, rows: seq<Document>, tombs: seq<Tombstone>, d: Document)
    requires d in rows && !Revoked(d, tombs) && InBounds(cfg, d)
    requires forall x :: x in rows && SameContent(d, x) ==> x == d
    requires |rows| <= cfg.maxSequences
    ensures d in TrainingSet(cfg, rows, tombs)
  {
    var sized := Sized(cfg, rows, tombs);
    KeepsTheEarliestLiveCopy(cfg, rows, tombs, d);
    var kept := Filter(SameAs(d), Deduped(sized));
    assert kept[0] in kept;
    assert d in Deduped(sized);
    DedupedCountsContents(sized);
    SameElements(Deduped(sized), Sort(ByHash(cfg), Deduped(sized)));
    var all := Sort(ByHash(cfg), Deduped(sized));
    assert all[..|all|] == all;
  }

  /** Dedupe is by content, so a post and its edit are two training rows with one document key:
      the prep step alone does not make the keys distinct. */
  lemma EditedPostKeepsBothVersions()
    ensures var setup, cfg := PlainSetup(), PlainPrep();
            var log := [Post("did:a", 1, Create, "a"), Post("did:a", 2, Update, "b")];
            exists d, e ::
              && d in TrainingSetOf(setup, cfg, log, [0, 1]) && e in TrainingSetOf(setup, cfg, log, [0, 1])
              && d != e && d.platform == e.platform && d.docId == e.docId
  {
    var setup, cfg := PlainSetup(), PlainPrep();
    var first, second := Post("did:a", 1, Create, "a"), Post("did:a", 2, Update, "b");
    var d := DocumentOf(setup, "did:a", DocId("did:a", "r"), "a", Record("a", [], "t"));
    var e := DocumentOf(setup, "did:a", DocId("did:a", "r"), "b", Record("b", [], "t"));
    assert EffectOf(setup, first) == Writes(d) && EffectOf(setup, second) == Writes(e);
    BothAreWritten(setup, first, second, d, e);
    TwoContentsAreKept(cfg, [d, e], [], d, e);
  }

  lemma BothAreWritten(setup: Setup, first: Event, second: Event, d: Document, e: Document)
    requires EffectOf(setup, first) == Writes(d) && EffectOf(setup, second) == Writes(e)
    ensures DocsOf(setup, [first, second], [0, 1]) == [d, e] && TombsOf(setup, [first, second], [0, 1]) == []
  {
    var log := [first, second];
    assert [0, 1][..1] == [0] && [0][..0] == [];
    assert DocsOf(setup, log, []) == [] && TombsOf(setup, log, []) == [];
    assert DocsOf(setup, log, [0]) == [d] && TombsOf(setup, log, [0]) == [];
  }

  lemma TwoContentsAreKept(cfg: PrepConfig, rows: seq<Document>, tombs: seq<Tombstone>, d: Document, e: Document)
    requires d in rows && e in rows && !SameContent(d, e) && |rows| <= cfg.maxSequences
    requires forall x :: x in rows ==> (x == d || x == e) && !Revoked(x, tombs) && InBounds(cfg, x)
    ensures d in TrainingSet(cfg, rows, tombs) && e in TrainingSet(cfg, rows, tombs)
  {
    SoleRowIsKept(cfg, rows, tombs, d);
    SoleRowIsKept(cfg, rows, tombs, e);
  }

  predicate SameDocument(a: Document, b: Document) {
    a.platform == b.platform && a.docId == b.docId
  }

  ghost predicate DistinctDocuments(t: seq<Document>) {
    forall i, j :: 0 <= i < j < |t| ==> !SameDocument(t[i], t[j])
  }

  /** No copy of its content that survives the filters is earlier. */
  ghost predicate IsEarliest(sized: seq<Document>, d: Document) {
    d in sized && forall x :: x in sized && SameContent(d, x) ==> EarlierOrTied(d, x)
  }

  /** No document is the earliest live copy of two contents. */
  ghost predicate OneContentLeads(sized: seq<Document>) {
    forall a, b :: IsEarliest(sized, a) && IsEarliest(sized, b) && SameDocument(a, b) ==> SameContent(a, b)
  }

  lemma WinnerTiedWith(sized: seq<Document>, d: Document) returns (w: nat)
    requires IsEarliest(sized, d)
    ensures w < |Deduped(sized)| && Tied(d, Deduped(sized)[w]) && Deduped(sized)[w] in sized
  {
    var g :| 0 <= g < |sized| && sized[g] == d;
    var k := OnePerGroup(sized, g);
    assert sized[k] in sized;
    EarlierIsOrdering();
    w :| 0 <= w < |Deduped(sized)| && Deduped(sized)[w] == sized[k];
  }

  lemma KeptIsEarliest(sized: seq<Document>, i: nat)
    requires i < |Deduped(sized)|
    ensures IsEarliest(sized, Deduped(sized)[i])
  {
    WinnersAreWinners(sized, 0);
    assert Deduped(sized)[i] in Deduped(sized);
    var k :| 0 <= k < |sized| && Wins(sized, k) && sized[k] == Deduped(sized)[i];
  }

  /** Before the cap every document is kept once exactly when none is the earliest live copy of
      two contents; and if so, the training set holds each document once too. */
  lemma DocumentsDistinctIff(cfg: PrepConfig, rows: seq<Document>, tombs: seq<Tombstone>)
    requires TiesWithinPlatform(rows)
    ensures var sized := Sized(cfg, rows, tombs);
            && (DistinctDocuments(Deduped(sized)) <==> OneContentLeads(sized))
            && (OneContentLeads(sized) ==> DistinctDocuments(TrainingSet(cfg, rows, tombs)))
  {
    var sized := Sized(cfg, rows, tombs);
    var kept := Deduped(sized);
    TrainingSetMembers(cfg, rows, tombs);
    WinnersDistinct(sized, 0);
    if OneContentLeads(sized) {
      forall i, j | 0 <= i < j < |kept| ensures !SameDocument(kept[i], kept[j]) {
        KeptIsEarliest(sized, i);
        KeptIsEarliest(sized, j);
        assert ContentKey(kept[i]) != ContentKey(kept[j]);
      }
      TrainingContentsDistinct(cfg, rows, tombs);
      TrainingDocumentsDistinct(kept, TrainingSet(cfg, rows, tombs));
    }
    if DistinctDocuments(kept) {
      forall a, b | IsEarliest(sized, a) && IsEarliest(sized, b) && SameDocument(a, b) ensures SameContent(a, b) {
        var p := WinnerTiedWith(sized, a);
        var q := WinnerTiedWith(sized, b);
        assert SameDocument(kept[p], kept[q]);
        assert p == q;
      }
    }
  }

  /** The event posts this text, trimmed, under this document id. */
  predicate Posts(setup: Setup, ev: Event, docId: string, text: string) {
    && ev.kind.Commit? && ev.kind.commit.Some? && ev.kind.commit.value.collection == POST_COLLECTION
    && (ev.kind.commit.value.operation == Create || ev.kind.commit.value.operation == Update)
    && ev.kind.commit.value.record.Some?
    && docId == DocId(ev.did, ev.kind.commit.value.rkey)
    && text == setup.env.trim(ev.kind.commit.value.record.value.text)
  }

  /** No document was posted with two texts. */
  ghost predicate NeverEdited(setup: Setup, log: seq<Event>, handled: seq<nat>) {
    forall i, j, docId, text, text' ::
      i in handled && i < |log| && Posts(setup, log[i], docId, text)
      && j in handled && j < |log| && Posts(setup, log[j], docId, text')
      ==> text == text'
  }

  lemma WrittenWasPosted(setup: Setup, ev: Event, d: Document)
    requires d in DocsOfEvent(setup, ev)
    ensures Posts(setup, ev, d.docId, d.text)
    ensures d.contentHash == setup.env.ContentHash(d.text) && d.hashVersion == HASH_VERSION
  {
  }

  /** If no handled posts of one document differ in their trimmed texts, the training set holds
      every document once. */
  lemma UneditedDocumentsAreDistinct(setup: Setup, cfg: PrepConfig, log: seq<Event>, handled: seq<nat>)
    requires Positions(log, handled) && NeverEdited(setup, log, handled)
    ensures DistinctDocuments(TrainingSetOf(setup, cfg, log, handled))
  {
    var rows, tombs := DocsOf(setup, log, handled), TombsOf(setup, log, handled);
    var sized := Sized(cfg, rows, tombs);
    RowsOfHandled(setup, log, handled);
    RowsAreOurs(setup, cfg, log, handled);
    TrainingSetMembers(cfg, rows, tombs);
    forall a, b | a in sized && b in sized && SameDocument(a, b) ensures SameContent(a, b) {
      var i :| i in handled && i < |log| && a in DocsOfEvent(setup, log[i]);
      var j :| j in handled && j < |log| && b in DocsOfEvent(setup, log[j]);
      WrittenWasPosted(setup, log[i], a);
      WrittenWasPosted(setup, log[j], b);
    }
    DocumentsDistinctIff(cfg, rows, tombs);
  }

  lemma TrainingDocumentsDistinct(kept: seq<Document>, t: seq<Document>)
    requires DistinctDocuments(kept) && DistinctContents(t) && forall d :: d in t ==> d in kept
    ensures DistinctDocuments(t)
  {
    forall i, j | 0 <= i < j < |t| ensures !SameDocument(t[i], t[j]) {
      assert t[i] in kept && t[j] in kept;
      assert ContentKey(t[i]) != ContentKey(t[j]);
      var p :| 0 <= p < |kept| && kept[p] == t[i];
      var q :| 0 <= q < |kept| && kept[q] == t[j];
    }
  }

  lemma TrainingContentsDistinct(cfg: PrepConfig, rows: seq<Document>, tombs: seq<Tombstone>)
    ensures DistinctContents(TrainingSet(cfg, rows, tombs))
  {
    WinnersDistinct(Sized(cfg, rows, tombs), 0);
    CappedContentsDistinct(cfg, Deduped(Sized(cfg, rows, tombs)));
  }
}
