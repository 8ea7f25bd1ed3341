/**
 The training-set builder of ml/sentilyzer_ml/pipeline/prep.py: its views as functions of
 the corpus rows, and its statistics. md5 is an uninterpreted function; the database's
 choice among tied rows is the order the rows come in.
 */
module Prep {
  import opened Wrappers
  import opened Orders
  import opened Corpus

  datatype PrepConfig = PrepConfig(maxSequences: nat, minChars: int, maxChars: int, md5: string -> string)

  datatype PrepStats = PrepStats(
    rawDocuments: nat, docTombstones: nat, accountTombstones: nat,
    droppedByTombstone: int, droppedByLength: int, droppedAsDuplicate: int, kept: nat)

  datatype PrepError = NoDocuments

  function Filter<T(!new)>(p: T -> bool, xs: seq<T>): (r: seq<T>)
    ensures |r| <= |xs|
    ensures forall x :: x in r <==> x in xs && p(x)
  {
    if xs == [] then []
    else
      var rest := Filter(p, xs[1..]);
      if p(xs[0]) then [xs[0]] + rest else rest
  }

  /* ---------- the views ---------- */

  /** Tombstones match within their platform; an absent author matches none. */
  predicate Revoked(d: Document, tombs: seq<Tombstone>) {
    || (exists t :: t in tombs && t.scope == DocScope && t.platform == d.platform && t.docId == Some(d.docId))
    || (exists t :: t in tombs && t.scope == AccountScope && t.platform == d.platform
                    && d.authorDid == Some(t.authorDid))
  }

  function IsAlive(tombs: seq<Tombstone>): Document -> bool {
    (d: Document) => !Revoked(d, tombs)
  }

  function Alive(rows: seq<Document>, tombs: seq<Tombstone>): seq<Document> {
    Filter(IsAlive(tombs), rows)
  }

  predicate InBounds(cfg: PrepConfig, d: Document) {
    cfg.minChars <= |d.text| <= cfg.maxChars
  }

  function IsInBounds(cfg: PrepConfig): Document -> bool {
    (d: Document) => InBounds(cfg, d)
  }

  function Sized(cfg: PrepConfig, rows: seq<Document>, tombs: seq<Tombstone>): seq<Document> {
    Filter(IsInBounds(cfg), Alive(rows, tombs))
  }

  predicate SameContent(a: Document, b: Document) {
    a.hashVersion == b.hashVersion && a.contentHash == b.contentHash
  }

  /** created_at with absent values last, then doc_id. */
  predicate EarlierOrTied(a: Document, b: Document) {
    if a.createdAt != b.createdAt then
      b.createdAt.None? || (a.createdAt.Some? && LexLeq(a.createdAt.value, b.createdAt.value))
    else LexLeq(a.docId, b.docId)
  }

  /** Two rows the database may number either way. */
  predicate Tied(a: Document, b: Document) {
    SameContent(a, b) && a.createdAt == b.createdAt && a.docId == b.docId
  }

  /** Row i is numbered 1 in its content group. */
  predicate Wins(rows: seq<Document>, i: nat)
    requires i < |rows|
  {
    forall j :: 0 <= j < |rows| && SameContent(rows[i], rows[j]) ==>
      EarlierOrTied(rows[i], rows[j]) && (EarlierOrTied(rows[j], rows[i]) ==> i <= j)
  }

  function WinnersFrom(rows: seq<Document>, i: nat): seq<Document>
    requires i <= |rows|
    decreases |rows| - i
  {
    if i == |rows| then []
    else if Wins(rows, i) then [rows[i]] + WinnersFrom(rows, i + 1)
    else WinnersFrom(rows, i + 1)
  }

  function Deduped(rows: seq<Document>): seq<Document> {
    WinnersFrom(rows, 0)
  }

  /** The cap's order: the hash of platform and document id. */
  function ByHash(cfg: PrepConfig): (Document, Document) -> bool {
    (a: Document, b: Document) =>
      LexLeq(cfg.md5(a.platform + "|" + a.docId), cfg.md5(b.platform + "|" + b.docId))
  }

  function Capped(cfg: PrepConfig, rows: seq<Document>): seq<Document> {
    Sort(ByHash(cfg), rows)[..Min(|rows|, cfg.maxSequences)]
  }

  function TrainingSet(cfg: PrepConfig, rows: seq<Document>, tombs: seq<Tombstone>): seq<Document> {
    Capped(cfg, Deduped(Sized(cfg, rows, tombs)))
  }

  function OfScope(scope: Scope): Tombstone -> bool {
    (t: Tombstone) => t.scope == scope
  }

  function StatsOf(cfg: PrepConfig, rows: seq<Document>, tombs: seq<Tombstone>): PrepStats {
    var alive := |Alive(rows, tombs)|;
    var sized := |Sized(cfg, rows, tombs)|;
    var deduped := |Deduped(Sized(cfg, rows, tombs))|;
    PrepStats(
      |rows|,
      |Filter(OfScope(DocScope), tombs)|,
      |Filter(OfScope(AccountScope), tombs)|,
      |rows| - alive, alive - sized, sized - deduped,
      |TrainingSet(cfg, rows, tombs)|)
  }

  /** A corpus without document files is refused. */
  function BuildTrainingSet(cfg: PrepConfig, docFiles: seq<seq<Document>>, tombs: seq<Tombstone>)
      : Result<(seq<Document>, PrepStats), PrepError>
  {
    if docFiles == [] then Err(NoDocuments)
    else
      var rows := Concat(docFiles);
      Ok((TrainingSet(cfg, rows, tombs), StatsOf(cfg, rows, tombs)))
  }

  function Concat<T>(xss: seq<seq<T>>): seq<T> {
    if xss == [] then [] else xss[0] + Concat(xss[1..])
  }

  /* ---------- the order within a content group ---------- */

  lemma EarlierIsOrdering()
    ensures Ordering(EarlierOrTied)
    ensures forall a, b :: EarlierOrTied(a, b) && EarlierOrTied(b, a) ==>
        a.createdAt == b.createdAt && a.docId == b.docId
  {
    LexLeqIsOrdering();
    forall a, b
      ensures EarlierOrTied(a, b) || EarlierOrTied(b, a)
      ensures EarlierOrTied(a, b) && EarlierOrTied(b, a) ==> a.createdAt == b.createdAt && a.docId == b.docId
    {
      LexLeqTotal(a.docId, b.docId);
      if a.createdAt.Some? && b.createdAt.Some? {
        LexLeqTotal(a.createdAt.value, b.createdAt.value);
      }
    }
    forall a, b, c | EarlierOrTied(a, b) && EarlierOrTied(b, c) ensures EarlierOrTied(a, c) {
      if a.createdAt.Some? && b.createdAt.Some? && c.createdAt.Some? {
        LexLeqTransitive(a.createdAt.value, b.createdAt.value, c.createdAt.value);
        LexLeqTotal(a.createdAt.value, b.createdAt.value);
        LexLeqTotal(b.createdAt.value, c.createdAt.value);
      }
      if a.createdAt == b.createdAt == c.createdAt {
        LexLeqTransitive(a.docId, b.docId, c.docId);
      }
    }
  }

  lemma {:induction false} WinnersAreWinners(rows: seq<Document>, i: nat)
    requires i <= |rows|
    ensures forall r :: r in WinnersFrom(rows, i) <==>
        exists k :: i <= k < |rows| && Wins(rows, k) && rows[k] == r
    decreases |rows| - i
  {
    if i < |rows| {
      WinnersAreWinners(rows, i + 1);
    }
  }

  /** The best row of a group among the first n. */
  lemma {:induction false} BestAmong(rows: seq<Document>, g: nat, n: nat) returns (w: nat)
    requires g < n <= |rows|
    ensures w < n && SameContent(rows[g], rows[w])
    ensures forall j :: 0 <= j < n && SameContent(rows[w], rows[j]) ==>
        EarlierOrTied(rows[w], rows[j]) && (EarlierOrTied(rows[j], rows[w]) ==> w <= j)
    decreases n
  {
    EarlierIsOrdering();
    if exists k :: 0 <= k < n - 1 && SameContent(rows[g], rows[k]) {
      var k :| 0 <= k < n - 1 && SameContent(rows[g], rows[k]);
      w := BestAmong(rows, k, n - 1);
      if SameContent(rows[g], rows[n - 1]) && !EarlierOrTied(rows[w], rows[n - 1]) {
        w := n - 1;
      }
    } else {
      w := g;
    }
  }

  /** Each content group keeps exactly one row, the earliest; so a copy that was revoked or
      out of bounds, which is not among these rows, never suppresses one that is. */
  lemma OnePerGroup(rows: seq<Document>, g: nat) returns (w: nat)
    requires g < |rows|
    ensures w < |rows| && SameContent(rows[g], rows[w]) && Wins(rows, w) && rows[w] in Deduped(rows)
    ensures EarlierOrTied(rows[w], rows[g])
    ensures forall k :: 0 <= k < |rows| && SameContent(rows[g], rows[k]) && Wins(rows, k) ==> k == w
  {
    w := BestAmong(rows, g, |rows|);
    WinnersAreWinners(rows, 0);
    EarlierIsOrdering();
  }
}
