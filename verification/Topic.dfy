/**
 Topic analysis of api/internal/service/service.go: look in the cache, search the platforms,
 drop copies, score documents and aspects, aggregate, and cache what is complete.
 */
module Topic {
  import opened Wrappers
  import opened Domain
  import opened Batching
  import opened Worker
  import opened Client
  import opened AspectClient
  import opened Aggregates
  import opened Cache
  import opened CacheKey
  import opened Fanout

  datatype DocumentResult = DocumentResult(
    document: Document, overall: Score, aspects: Row, analyzedAt: real)

  datatype Analysis = Analysis(
    topic: string, results: seq<DocumentResult>, aggregate: Aggregate,
    byPlatform: map<string, Aggregate>, byAspect: map<string, Aggregate>,
    partial: bool, warnings: seq<Warning>)

  datatype TopicError =
    | TopicRequired | NoPlatforms | AllPlatformsFailed(warnings: seq<Warning>)
    | ClassifyFailed(error: ClientError) | ClassifyAspectsFailed(aspectError: AspectError)

  /** What the service is configured with. */
  datatype Settings = Settings(env: KeyEnv, timedOut: string, maxBatch: pos)

  /** What the outside does during one call: the selected connectors and how their searches
      end, the worker, and the readings of the clock. */
  datatype World = World(
    connectors: seq<Connector>, schedule: seq<nat>,
    textStub: Stub<string, Score>, pairStub: Stub<AspectInput, Row>,
    lookedAt: real, analyzedAt: real, storedAt: real)

  const DEFAULT_LIMIT := 20
  const ZERO := AspectScore("", Score(Unspecified, 0.0, 0.0))

  /** The trimmed topic is empty. */
  predicate Blank(env: KeyEnv, req: Request) {
    env.trimLower(req.topic) == ""
  }

  function WithLimit(req: Request): Request {
    if req.limit <= 0 then req.(limit := DEFAULT_LIMIT) else req
  }

  /* ---------- scoring and tallying ---------- */

  function TextsOf(docs: seq<Document>): (r: seq<string>)
    ensures |r| == |docs| && forall i :: 0 <= i < |docs| ==> r[i] == docs[i].text
  {
    seq(|docs|, i requires 0 <= i < |docs| => docs[i].text)
  }

  function InputsOf(docs: seq<Document>, aspects: seq<string>): (r: seq<AspectInput>)
    ensures |r| == |docs| && forall i :: 0 <= i < |docs| ==> r[i] == AspectInput(docs[i].text, aspects)
  {
    seq(|docs|, i requires 0 <= i < |docs| => AspectInput(docs[i].text, aspects))
  }

  function NoRows(n: nat): (r: seq<Row>)
    ensures |r| == n && forall i :: 0 <= i < n ==> r[i] == []
  {
    seq(n, _ => [])
  }

  function ByPlatform(docs: seq<Document>, scores: seq<Score>): (r: seq<Keyed>)
    requires |docs| == |scores|
    ensures |r| == |docs| && forall i :: 0 <= i < |r| ==> r[i] == (docs[i].platform, scores[i])
  {
    seq(|docs|, i requires 0 <= i < |docs| => (docs[i].platform, scores[i]))
  }

  function KeyedRow(row: Row): (r: seq<Keyed>)
    ensures |r| == |row| && forall j :: 0 <= j < |r| ==> r[j] == (row[j].aspect, row[j].score)
  {
    seq(|row|, j requires 0 <= j < |row| => (row[j].aspect, row[j].score))
  }

  function KeyedRows(rows: seq<Row>): (r: seq<seq<Keyed>>)
    ensures |r| == |rows| && forall i :: 0 <= i < |r| ==> r[i] == KeyedRow(rows[i])
  {
    seq(|rows|, i requires 0 <= i < |rows| => KeyedRow(rows[i]))
  }

  function ByAspect(rows: seq<Row>): seq<Keyed> {
    Flatten(KeyedRows(rows))
  }

  function ResultsOf(docs: seq<Document>, scores: seq<Score>, rows: seq<Row>, at: real): (r: seq<DocumentResult>)
    requires |docs| == |scores| == |rows|
    ensures |r| == |docs|
    ensures forall i :: 0 <= i < |r| ==> r[i] == DocumentResult(docs[i], scores[i], rows[i], at)
  {
    seq(|docs|, i requires 0 <= i < |docs| => DocumentResult(docs[i], scores[i], rows[i], at))
  }

  /** The analysis of scored documents. */
  function AnalysisOf(topic: string, docs: seq<Document>, scores: seq<Score>, rows: seq<Row>,
                      at: real, warnings: seq<Warning>): Analysis
    requires |docs| == |scores| == |rows|
  {
    Analysis(topic, ResultsOf(docs, scores, rows, at), Summary(scores),
             Summaries(ByPlatform(docs, scores)), Summaries(ByAspect(rows)),
             warnings != [], warnings)
  }

  lemma OneMoreDocument(docs: seq<Document>, scores: seq<Score>, rows: seq<Row>, at: real, i: nat)
    requires |docs| == |scores| == |rows| && i < |docs|
    ensures ResultsOf(docs[..i + 1], scores[..i + 1], rows[..i + 1], at)
         == ResultsOf(docs[..i], scores[..i], rows[..i], at) + [DocumentResult(docs[i], scores[i], rows[i], at)]
    ensures ByPlatform(docs[..i + 1], scores[..i + 1])
         == ByPlatform(docs[..i], scores[..i]) + [(docs[i].platform, scores[i])]
    ensures ByAspect(rows[..i + 1]) == ByAspect(rows[..i]) + KeyedRow(rows[i])
    ensures scores[..i + 1] == scores[..i] + [scores[i]]
  {
    ByAspectSnoc(rows, i);
  }

  lemma ByAspectSnoc(rows: seq<Row>, i: nat)
    requires i < |rows|
    ensures ByAspect(rows[..i + 1]) == ByAspect(rows[..i]) + KeyedRow(rows[i])
  {
    FlattenSnoc(KeyedRows(rows[..i]), KeyedRow(rows[i]));
    assert KeyedRows(rows[..i + 1]) == KeyedRows(rows[..i]) + [KeyedRow(rows[i])];
  }

  /** Adds the scores of one document's aspects under their names. */
  method AddRow(m: map<string, Aggregator>, row: Row, ghost scored: seq<Keyed>)
      returns (m': map<string, Aggregator>)
    requires Holds(m, scored, KeysOf(scored), PerAspect)
    modifies m.Values
    ensures Holds(m', scored + KeyedRow(row), KeysOf(scored + KeyedRow(row)), PerAspect)
    ensures fresh(m'.Values - m.Values)
  {
    m' := m;
    assert forall k :: k in m ==> m[k] in m.Values;
    assert scored + KeyedRow(row)[..0] == scored;
    for j := 0 to |row|
      invariant Holds(m', scored + KeyedRow(row)[..j], KeysOf(scored + KeyedRow(row)[..j]), PerAspect)
      invariant fresh(m'.Values - m.Values)
    {
      m' := AddUnder(m', row[j].aspect, row[j].score, scored + KeyedRow(row)[..j], PerAspect);
      assert scored + KeyedRow(row)[..j + 1] == scored + KeyedRow(row)[..j] + [(row[j].aspect, row[j].score)];
    }
    assert KeyedRow(row)[..|row|] == KeyedRow(row);
  }

  /** The three tallies after the first documents; no aggregator serves two of them. */
  ghost predicate Tallied(overall: Aggregator, byPlatform: map<string, Aggregator>, byAspect: map<string, Aggregator>,
                          scores: seq<Score>, platformed: seq<Keyed>, aspected: seq<Keyed>)
    reads overall, byPlatform.Values, byAspect.Values
  {
    && overall.Valid() && overall.added == scores
    && overall.role.kind == Whole
    && Holds(byPlatform, platformed, KeysOf(platformed), PerPlatform)
    && Holds(byAspect, aspected, KeysOf(aspected), PerAspect)
  }

  lemma NoneServesTwo(overall: Aggregator, byPlatform: map<string, Aggregator>, byAspect: map<string, Aggregator>,
                      scores: seq<Score>, platformed: seq<Keyed>, aspected: seq<Keyed>)
    requires Tallied(overall, byPlatform, byAspect, scores, platformed, aspected)
    ensures overall !in byPlatform.Values && overall !in byAspect.Values && byPlatform.Values !! byAspect.Values
  {
  }

  method TallyScore(overall: Aggregator, byPlatform: map<string, Aggregator>, ghost byAspect: map<string, Aggregator>,
                    d: Document, score: Score,
                    ghost scores: seq<Score>, ghost platformed: seq<Keyed>, ghost aspected: seq<Keyed>)
      returns (byPlatform': map<string, Aggregator>)
    requires Tallied(overall, byPlatform, byAspect, scores, platformed, aspected)
    modifies overall, byPlatform.Values
    ensures Tallied(overall, byPlatform', byAspect, scores + [score], platformed + [(d.platform, score)], aspected)
    ensures fresh(byPlatform'.Values - byPlatform.Values)
  {
    NoneServesTwo(overall, byPlatform, byAspect, scores, platformed, aspected);
    overall.Add(score);
    byPlatform' := AddUnder(byPlatform, d.platform, score, platformed, PerPlatform);
  }

  method TallyRow(ghost overall: Aggregator, ghost byPlatform: map<string, Aggregator>, byAspect: map<string, Aggregator>,
                  row: Row, ghost scores: seq<Score>, ghost platformed: seq<Keyed>, ghost aspected: seq<Keyed>)
      returns (byAspect': map<string, Aggregator>)
    requires Tallied(overall, byPlatform, byAspect, scores, platformed, aspected)
    modifies byAspect.Values
    ensures Tallied(overall, byPlatform, byAspect', scores, platformed, aspected + KeyedRow(row))
    ensures fresh(byAspect'.Values - byAspect.Values)
  {
    NoneServesTwo(overall, byPlatform, byAspect, scores, platformed, aspected);
    byAspect' := AddRow(byAspect, row, aspected);
  }

  /** One document: its result, and its scores in the three tallies. */
  method TallyOne(docs: seq<Document>, scores: seq<Score>, rows: seq<Row>, at: real, i: nat,
                  results: seq<DocumentResult>, overall: Aggregator,
                  byPlatform: map<string, Aggregator>, byAspect: map<string, Aggregator>)
      returns (results': seq<DocumentResult>, byPlatform': map<string, Aggregator>, byAspect': map<string, Aggregator>)
    requires |docs| == |scores| == |rows| && i < |docs|
    requires TalliedUpTo(results, overall, byPlatform, byAspect, docs, scores, rows, at, i)
    modifies overall, byPlatform.Values, byAspect.Values
    ensures TalliedUpTo(results', overall, byPlatform', byAspect', docs, scores, rows, at, i + 1)
    ensures fresh(byPlatform'.Values - byPlatform.Values) && fresh(byAspect'.Values - byAspect.Values)
  {
    OneMoreDocument(docs, scores, rows, at, i);
    ghost var platformed, aspected := ByPlatform(docs[..i], scores[..i]), ByAspect(rows[..i]);
    results' := results + [DocumentResult(docs[i], scores[i], rows[i], at)];
    byPlatform' := TallyScore(overall, byPlatform, byAspect, docs[i], scores[i], scores[..i], platformed, aspected);
    byAspect' := TallyRow(overall, byPlatform', byAspect, rows[i], scores[..i + 1],
                          platformed + [(docs[i].platform, scores[i])], aspected);
  }

  method TallyAll(docs: seq<Document>, scores: seq<Score>, rows: seq<Row>, at: real)
      returns (results: seq<DocumentResult>, overall: Aggregator,
               byPlatform: map<string, Aggregator>, byAspect: map<string, Aggregator>)
    requires |docs| == |scores| == |rows|
    ensures TalliedUpTo(results, overall, byPlatform, byAspect, docs, scores, rows, at, |docs|)
  {
    results := [];
    overall := new Aggregator(Role(Whole, ""));
    byPlatform, byAspect := map[], map[];
    for i := 0 to |docs|
      invariant TalliedUpTo(results, overall, byPlatform, byAspect, docs, scores, rows, at, i)
      invariant fresh({overall} + byPlatform.Values + byAspect.Values)
    {
      results, byPlatform, byAspect := TallyOne(docs, scores, rows, at, i, results, overall, byPlatform, byAspect);
    }
  }

  method Tally(topic: string, docs: seq<Document>, scores: seq<Score>, rows: seq<Row>, at: real, warnings: seq<Warning>)
      returns (a: Analysis)
    requires |docs| == |scores| == |rows|
    ensures a == AnalysisOf(topic, docs, scores, rows, at, warnings)
  {
    var results, overall, byPlatform, byAspect := TallyAll(docs, scores, rows, at);
    assert docs[..|docs|] == docs && scores[..|scores|] == scores && rows[..|rows|] == rows;
    a := Conclude(topic, results, overall, byPlatform, byAspect, warnings,
                  scores, ByPlatform(docs, scores), ByAspect(rows));
  }

  ghost predicate TalliedUpTo(results: seq<DocumentResult>, overall: Aggregator,
                              byPlatform: map<string, Aggregator>, byAspect: map<string, Aggregator>,
                              docs: seq<Document>, scores: seq<Score>, rows: seq<Row>, at: real, i: nat)
    requires |docs| == |scores| == |rows| && i <= |docs|
    reads overall, byPlatform.Values, byAspect.Values
  {
    && results == ResultsOf(docs[..i], scores[..i], rows[..i], at)
    && Tallied(overall, byPlatform, byAspect, scores[..i], ByPlatform(docs[..i], scores[..i]), ByAspect(rows[..i]))
  }

  method Conclude(topic: string, results: seq<DocumentResult>, overall: Aggregator,
                  byPlatform: map<string, Aggregator>, byAspect: map<string, Aggregator>, warnings: seq<Warning>,
                  ghost scores: seq<Score>, ghost platformed: seq<Keyed>, ghost aspected: seq<Keyed>)
      returns (a: Analysis)
    requires Tallied(overall, byPlatform, byAspect, scores, platformed, aspected)
    ensures a == Analysis(topic, results, Summary(scores), Summaries(platformed), Summaries(aspected),
                          warnings != [], warnings)
  {
    var aggregate := overall.Aggregate();
    var platforms := AggregateMap(byPlatform, platformed, PerPlatform);
    var aspects := AggregateMap(byAspect, aspected, PerAspect);
    a := Analysis(topic, results, aggregate, platforms, aspects, warnings != [], warnings);
  }

  /* ---------- one call ---------- */

  /** The pair client's answer a to the documents' aspects decides the call. */
  ghost predicate AspectsScoredBy(
    config: Settings, req: Request, w: World, docs: seq<Document>, warnings: seq<Warning>, scores: seq<Score>,
    r: Result<Analysis, TopicError>, a: Result<seq<Row>, AspectError>, ac: seq<seq<AspectInput>>)
    requires |scores| == |docs|
  {
    var items, limit := InputsOf(docs, req.aspects), config.maxBatch * ASPECT_BATCH_MULTIPLE;
    && PairsResultFor(items, Refs(items), Windows(items, limit), WindowRequests(items, limit),
                      limit, w.pairStub, a, ac)
    && match a
       case Err(e) => r == Err(ClassifyAspectsFailed(e))
       case Ok(rows) =>
         |rows| == |docs| && r == Ok(AnalysisOf(req.topic, docs, scores, rows, w.analyzedAt, warnings))
  }

  ghost predicate AspectsScored(
    config: Settings, req: Request, w: World, docs: seq<Document>, warnings: seq<Warning>, scores: seq<Score>,
    r: Result<Analysis, TopicError>)
    requires |scores| == |docs|
  {
    if req.aspects == [] then
      r == Ok(AnalysisOf(req.topic, docs, scores, NoRows(|docs|), w.analyzedAt, warnings))
    else
      exists a, ac :: AspectsScoredBy(config, req, w, docs, warnings, scores, r, a, ac)
  }

  /** The text client's answer s to the documents decides the call, or leads to their aspects. */
  ghost predicate ScoredBy(
    config: Settings, req: Request, w: World, docs: seq<Document>, warnings: seq<Warning>,
    r: Result<Analysis, TopicError>, s: Result<seq<Score>, ClientError>, sc: seq<seq<string>>)
  {
    && ResultFor(LengthOrder(TextsOf(docs)), Batches(TextsOf(docs), config.maxBatch), config.maxBatch,
                 w.textStub, s, sc)
    && match s
       case Err(e) => r == Err(ClassifyFailed(e))
       case Ok(scores) => |scores| == |docs| && AspectsScored(config, req, w, docs, warnings, scores, r)
  }

  ghost predicate Scored(config: Settings, req: Request, w: World, docs: seq<Document>, warnings: seq<Warning>,
                         r: Result<Analysis, TopicError>)
  {
    exists s, sc :: ScoredBy(config, req, w, docs, warnings, r, s, sc)
  }

  /** What a call that finds nothing in the cache answers. */
  ghost predicate Fetched(config: Settings, req: Request, w: World, r: Result<Analysis, TopicError>) {
    if w.connectors == [] then r == Err(NoPlatforms)
    else match InPlatformOrder(w.connectors, config.timedOut)
      case AllConnectorsFailed(warnings) => r == Err(AllPlatformsFailed(warnings))
      case Gathered(docs, warnings) =>
        if docs == [] then r == Ok(AnalysisOf(req.topic, [], [], [], w.analyzedAt, warnings))
        else Scored(config, req, w, Deduped(docs), warnings, r)
  }

  method ScoreAspects(config: Settings, req: Request, w: World, docs: seq<Document>, warnings: seq<Warning>,
                      scores: seq<Score>)
      returns (r: Result<Analysis, TopicError>)
    requires |scores| == |docs|
    ensures AspectsScored(config, req, w, docs, warnings, scores, r)
  {
    var rows := NoRows(|docs|);
    if |req.aspects| > 0 {
      var a, ac := AspectClient.ClassifyAspects(InputsOf(docs, req.aspects), config.maxBatch, w.pairStub, ZERO);
      if a.Err? {
        r := Err(ClassifyAspectsFailed(a.error));
        assert AspectsScoredBy(config, req, w, docs, warnings, scores, r, a, ac);
        return;
      }
      rows := a.value;
      var analysis := Tally(req.topic, docs, scores, rows, w.analyzedAt, warnings);
      r := Ok(analysis);
      assert AspectsScoredBy(config, req, w, docs, warnings, scores, r, a, ac);
    } else {
      var analysis := Tally(req.topic, docs, scores, rows, w.analyzedAt, warnings);
      r := Ok(analysis);
    }
  }

  method ScoreDocuments(config: Settings, req: Request, w: World, docs: seq<Document>, warnings: seq<Warning>)
      returns (r: Result<Analysis, TopicError>)
    ensures Scored(config, req, w, docs, warnings, r)
  {
    LengthOrderCorrect(TextsOf(docs));
    var s, sc := Client.Classify(TextsOf(docs), config.maxBatch, w.textStub);
    if s.Err? {
      r := Err(ClassifyFailed(s.error));
    } else {
      r := ScoreAspects(config, req, w, docs, warnings, s.value);
    }
    assert ScoredBy(config, req, w, docs, warnings, r, s, sc);
  }

  method Fetch(config: Settings, req: Request, w: World) returns (r: Result<Analysis, TopicError>)
    requires IsPermutation(w.schedule, |w.connectors|)
    ensures Fetched(config, req, w, r)
  {
    if |w.connectors| == 0 {
      return Err(NoPlatforms);
    }
    var gathered := Fanout.Fanout(w.connectors, w.schedule, config.timedOut);
    match gathered {
      case AllConnectorsFailed(warnings) => r := Err(AllPlatformsFailed(warnings));
      case Gathered(docs, warnings) =>
        if |docs| == 0 {
          return Ok(Analysis(req.topic, [], Summary([]), map[], map[], |warnings| > 0, warnings));
        }
        var distinct := DedupeByID(docs);
        r := ScoreDocuments(config, req, w, distinct, warnings);
    }
  }
}
