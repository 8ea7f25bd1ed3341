/**
 What a topic analysis guarantees: hits are complete, fresh and answer the question asked;
 every score sits beside its own document; the breakdowns add up to the whole.
 */
module ServiceTheorems {
  import opened Wrappers
  import opened Domain
  import opened Batching
  import opened Worker
  import opened Client
  import opened AspectClient
  import opened Aggregates
  import opened Cache
  import opened CacheKey
  import opened Fanout
  import opened Topic
  import opened Service

  /* ---------- what the cache serves ---------- */

  /** The position of the latest store under a key. */
  lemma {:induction false} RecordedWasStored(log: Entries, key: string) returns (i: nat)
    requires key in Recorded(log)
    ensures i < |log| && log[i] == Set(key, Recorded(log)[key].0, Recorded(log)[key].1)
  {
    var init, op := log[..|log| - 1], log[|log| - 1];
    if op.Set? && op.key == key {
      i := |log| - 1;
    } else {
      i := RecordedWasStored(init, key);
    }
  }

  /** After every sequence of calls a hit is what was last stored under that key, no longer
      than the time to live ago, never partial and never without documents. */
  lemma HitsAreCompleteAndFresh(config: Settings, size: pos, ttl: real, log: Entries, asked: seq<Request>,
                                key: string, now: real) returns (i: nat)
    requires Sound(config, log, asked)
    ensures var hit := Step(Slots(size, ttl, log), size, ttl, Get(key, now)).1;
            hit.Some? ==>
              && hit == Lookup(Recorded(log), ttl, key, now)
              && key in Recorded(log) && i < |log| && log[i] == Set(key, hit.value, Recorded(log)[key].1)
              && Storable(config, key, hit.value, asked[i])
              && !hit.value.partial && hit.value.results != []
  {
    HitsAgreeWithMap(size, ttl, log, key, now);
    if key in Recorded(log) {
      i := RecordedWasStored(log, key);
      assert Storable(config, log[i].key, log[i].value, asked[i]);
    } else {
      i := 0;
    }
  }

  function DocumentsOf(results: seq<DocumentResult>): (r: seq<Document>)
    ensures |r| == |results| && forall i :: 0 <= i < |r| ==> r[i] == results[i].document
  {
    seq(|results|, i requires 0 <= i < |results| => results[i].document)
  }

  /** The answer repeats the topic it was asked for, and carries the documents it was given. */
  lemma ScoredKeeps(config: Settings, req: Request, w: World, docs: seq<Document>, warnings: seq<Warning>, v: Analysis)
    requires Scored(config, req, w, docs, warnings, Ok(v))
    ensures v.topic == req.topic && DocumentsOf(v.results) == docs
  {
    var s, sc :| ScoredBy(config, req, w, docs, warnings, Ok(v), s, sc);
    if req.aspects != [] {
      var a, ac :| AspectsScoredBy(config, req, w, docs, warnings, s.value, Ok(v), a, ac);
    }
  }

  lemma FetchedKeepsTopic(config: Settings, req: Request, w: World, v: Analysis)
    requires Fetched(config, req, w, Ok(v))
    ensures v.topic == req.topic
  {
    var found := InPlatformOrder(w.connectors, config.timedOut);
    if found.docs != [] {
      ScoredKeeps(config, req, w, Deduped(found.docs), found.warnings, v);
    }
  }

  /** A hit answers the question asked: the request it was stored for asks for the same thing,
      if both are written with clean fields, or if the one it now answers has no bars and its
      lists read one way only. Only the spacing and case of the topic may differ. */
  lemma HitsAnswerTheQuestionAsked(config: Settings, size: pos, ttl: real, log: Entries, asked: seq<Request>,
                                   req: Request, now: real) returns (i: nat)
    requires Sound(config, log, asked) && HashInjective(config.env)
    ensures var key := BuildCacheKey(config.env, WithLimit(req));
            var hit := Step(Slots(size, ttl, log), size, ttl, Get(key, now)).1;
            hit.Some? ==>
              && key in Recorded(log) && i < |log| && log[i] == Set(key, hit.value, Recorded(log)[key].1)
              && Storable(config, key, hit.value, asked[i]) && hit.value.topic == asked[i].topic
              && ((Clean(config.env, req) && Clean(config.env, asked[i])) || Unmistakable(config.env, req)
                  ==> Agree(config.env, WithLimit(req), WithLimit(asked[i]))
                      && (req.limit > 0 && asked[i].limit > 0 ==> Agree(config.env, req, asked[i])))
  {
    var key := BuildCacheKey(config.env, WithLimit(req));
    i := HitsAreCompleteAndFresh(config, size, ttl, log, asked, key, now);
    var hit := Step(Slots(size, ttl, log), size, ttl, Get(key, now)).1;
    if hit.Some? {
      var w :| StoredFor(config, key, hit.value, asked[i], w);
      FetchedKeepsTopic(config, WithLimit(asked[i]), w, hit.value);
      SameKeyAgrees(config.env, WithLimit(req), WithLimit(asked[i]));
    }
  }

  /** One call in full. A request that asks for a positive number of documents is keyed and
      fetched as it stands, any other as if it asked for twenty; a blank topic, and nothing else,
      is refused; a miss is fetched and exactly a complete answer with documents is stored. */
  lemma ServedInFull(config: Settings, size: pos, ttl: real, req: Request, w: World,
                     before: Entries, after: Entries, r: Result<Analysis, TopicError>)
    requires Served(config, size, ttl, req, w, before, after, r)
    ensures r == Err(TopicRequired) <==> config.env.trimLower(req.topic) == ""
    ensures config.env.trimLower(req.topic) == "" ==> after == before
    ensures config.env.trimLower(req.topic) != "" ==>
        var q := if req.limit > 0 then req else req.(limit := 20);
        var key := BuildCacheKey(config.env, q);
        var hit, looked := Step(Slots(size, ttl, before), size, ttl, Get(key, w.lookedAt)).1, before + [Get(key, w.lookedAt)];
        if hit.Some? then r == Ok(hit.value) && after == looked
        else
          && Fetched(config, q, w, r)
          && after == if r.Ok? && !r.value.partial && r.value.results != []
                      then looked + [Set(key, r.value, w.storedAt)] else looked
  {
    if config.env.trimLower(req.topic) != "" {
      var q := if req.limit > 0 then req else req.(limit := 20);
      assert q == WithLimit(req);
      if r == Err(TopicRequired) && Fetched(config, q, w, r) {
        FetchedIsNoRefusal(config, q, w, r);
      }
    }
  }

  lemma FetchedIsNoRefusal(config: Settings, req: Request, w: World, r: Result<Analysis, TopicError>)
    requires Fetched(config, req, w, r)
    ensures r != Err(TopicRequired)
  {
    var found := InPlatformOrder(w.connectors, config.timedOut);
    if w.connectors != [] && found.Gathered? && found.docs != [] {
      var s, sc :| ScoredBy(config, req, w, Deduped(found.docs), found.warnings, r, s, sc);
      if s.Ok? && req.aspects != [] {
        var a, ac :| AspectsScoredBy(config, req, w, Deduped(found.docs), found.warnings, s.value, r, a, ac);
      }
    }
  }

  lemma {:induction false} SlotsOfMore(size: pos, ttl: real, log: Entries, more: Entries)
    ensures Slots(size, ttl, log + more) == SlotsAfter(Slots(size, ttl, log), size, ttl, more)
  {
    if more == [] {
      assert log + more == log;
    } else {
      SlotsOfMore(size, ttl, log, more[..|more| - 1]);
      assert (log + more)[..|log + more| - 1] == log + more[..|more| - 1];
    }
  }

  /** A complete answer is kept: asked again, after any uses of other keys, the same request gets
      the same answer without another fetch, until it expires or other keys have filled the cache. */
  lemma AskedAgainIsHit(config: Settings, size: pos, ttl: real, req: Request, w: World, w': World,
                        before: Entries, after: Entries, uses: Entries, after': Entries,
                        r: Result<Analysis, TopicError>, r': Result<Analysis, TopicError>)
    requires Served(config, size, ttl, req, w, before, after, r)
    requires r.Ok? && !r.value.partial && r.value.results != [] && |after| == |before| + 2
    requires after[|before|].key !in KeysUsed(uses) && NeverFull(Slots(size, ttl, after), size, ttl, uses)
    requires Served(config, size, ttl, req, w', after + uses, after', r') && w'.lookedAt <= w.storedAt + ttl
    ensures r' == r && after' == after + uses + [Get(after[|before|].key, w'.lookedAt)]
  {
    var key := BuildCacheKey(config.env, WithLimit(req));
    var looked := before + [Get(key, w.lookedAt)];
    assert after == looked + [Set(key, r.value, w.storedAt)];
    SlotsSnoc(size, ttl, looked, Set(key, r.value, w.storedAt));
    SlotsOfMore(size, ttl, after, uses);
    EvictedExactlyWhenFull(size, ttl, looked, key, r.value, w.storedAt, uses, w'.lookedAt);
  }

  predicate Unmistakable(env: KeyEnv, r: Request) {
    BarFree(env, r) && !ReadsTwoWays(r.platforms) && !ReadsTwoWays(r.aspects)
  }

  lemma SameKeyAgrees(env: KeyEnv, a: Request, b: Request)
    requires HashInjective(env) && BuildCacheKey(env, a) == BuildCacheKey(env, b)
    ensures (Clean(env, a) && Clean(env, b)) || Unmistakable(env, a) ==> Agree(env, a, b)
  {
    if Unmistakable(env, a) {
      KeyAmbiguousIff(env, a);
    } else if Clean(env, a) && Clean(env, b) {
      KeyIsUnambiguous(env, a, b);
    }
  }

  /* ---------- every score beside its own document ---------- */

  function PairOf(worker: Config): (string, string) -> AspectScore {
    (text: string, aspect: string) => worker.PairScore(text, aspect)
  }

  function TextOf(worker: Config): string -> Score {
    (text: string) => worker.TextScore(text)
  }

  /** Each document with the worker's answers for its own text, whatever the batching. */
  function Pointwise(worker: Config, req: Request, docs: seq<Document>, at: real, warnings: seq<Warning>): Analysis {
    AnalysisOf(req.topic, docs, Map(TextOf(worker), TextsOf(docs)),
               RowsOf(PairOf(worker), InputsOf(docs, req.aspects)), at, warnings)
  }

  /** What a fetch is for: in platform order, one document a platform and id, scored pointwise. */
  function Ideal(config: Settings, worker: Config, req: Request, cs: seq<Connector>, at: real)
      : Result<Analysis, TopicError>
  {
    if cs == [] then Err(NoPlatforms)
    else match InPlatformOrder(cs, config.timedOut)
      case AllConnectorsFailed(warnings) => Err(AllPlatformsFailed(warnings))
      case Gathered(docs, warnings) => Ok(Pointwise(worker, req, Deduped(docs), at, warnings))
  }

  /** The world's worker is this one, and takes the client's largest batches. */
  ghost predicate Serves(config: Settings, worker: Config, w: World) {
    && w.textStub == TextStub(worker) && w.pairStub == PairStub(worker)
    && config.maxBatch <= worker.maxBatch
  }

  lemma RowsArePointwise(config: Settings, worker: Config, req: Request, w: World, docs: seq<Document>,
                         r: Result<seq<Row>, AspectError>, calls: seq<seq<AspectInput>>)
    requires w.pairStub == PairStub(worker) && config.maxBatch <= worker.maxBatch
    requires var items, limit := InputsOf(docs, req.aspects), config.maxBatch * ASPECT_BATCH_MULTIPLE;
             PairsResultFor(items, Refs(items), Windows(items, limit), WindowRequests(items, limit),
                            limit, w.pairStub, r, calls)
    ensures r == Ok(RowsOf(PairOf(worker), InputsOf(docs, req.aspects)))
  {
    var items := InputsOf(docs, req.aspects);
    AspectsEndToEnd(items, config.maxBatch, worker, r, calls);
    var rows := RowsOf(PairOf(worker), items);
    forall i | 0 <= i < |items| ensures r.value[i] == rows[i] {
      assert rows[i] == RowOf(PairOf(worker), items[i]);
    }
    assert r.value == rows;
  }

  lemma AspectsArePointwise(config: Settings, worker: Config, req: Request, w: World, docs: seq<Document>,
                            warnings: seq<Warning>, scores: seq<Score>, r: Result<Analysis, TopicError>)
    requires Serves(config, worker, w) && |scores| == |docs|
    requires AspectsScored(config, req, w, docs, warnings, scores, r)
    ensures r == Ok(AnalysisOf(req.topic, docs, scores, RowsOf(PairOf(worker), InputsOf(docs, req.aspects)),
                               w.analyzedAt, warnings))
  {
    if req.aspects == [] {
      assert RowsOf(PairOf(worker), InputsOf(docs, req.aspects)) == NoRows(|docs|);
    } else {
      var a, ac :| AspectsScoredBy(config, req, w, docs, warnings, scores, r, a, ac);
      RowsArePointwise(config, worker, req, w, docs, a, ac);
    }
  }

  lemma ScoresArePointwise(config: Settings, worker: Config, req: Request, w: World, docs: seq<Document>,
                           warnings: seq<Warning>, r: Result<Analysis, TopicError>)
    requires Serves(config, worker, w) && Scored(config, req, w, docs, warnings, r)
    ensures r == Ok(Pointwise(worker, req, docs, w.analyzedAt, warnings))
  {
    var s, sc :| ScoredBy(config, req, w, docs, warnings, r, s, sc);
    ClassifyEndToEnd(TextsOf(docs), config.maxBatch, worker, s, sc);
    assert Map(TextOf(worker), TextsOf(docs)) == Map((text: string) => worker.TextScore(text), TextsOf(docs));
    AspectsArePointwise(config, worker, req, w, docs, warnings, s.value, r);
  }

  /** The analysed documents are, of all that were found, the first of each platform and id, in
      order of first occurrence. */
  lemma FetchKeepsOnePerPair(config: Settings, req: Request, w: World, v: Analysis)
    requires Fetched(config, req, w, Ok(v))
    requires forall k :: 0 <= k < |w.connectors| ==> StampsItsName(w.connectors[k])
    ensures var docs := Flatten(EachDocs(w.connectors));
            OnePerPair(docs, DocumentsOf(v.results), Firsts(docs, |docs|))
  {
    var docs := Flatten(EachDocs(w.connectors));
    GatheredKeepOnePerPair(w.connectors);
    FetchedDocuments(config, req, w, v);
  }

  lemma FetchedDocuments(config: Settings, req: Request, w: World, v: Analysis)
    requires Fetched(config, req, w, Ok(v))
    ensures DocumentsOf(v.results) == Deduped(Flatten(EachDocs(w.connectors)))
  {
    var docs := Flatten(EachDocs(w.connectors));
    if docs == [] {
      assert Deduped(docs) == [];
    } else {
      var warnings := Flatten(EachWarnings(w.connectors, config.timedOut));
      ScoredKeeps(config, req, w, Deduped(docs), warnings, v);
    }
  }

  /** End to end a fetch gives exactly the ideal answer: sorting, batching, scattering and the
      order in which searches finish leave no trace in it. Its documents are the first of each
      platform and id. */
  lemma FetchIsIdeal(config: Settings, worker: Config, req: Request, w: World, r: Result<Analysis, TopicError>)
    requires Serves(config, worker, w) && Fetched(config, req, w, r)
    ensures r == Ideal(config, worker, req, w.connectors, w.analyzedAt)
    ensures r.Ok? && (forall k :: 0 <= k < |w.connectors| ==> StampsItsName(w.connectors[k])) ==>
        var docs := Flatten(EachDocs(w.connectors));
        OnePerPair(docs, DocumentsOf(r.value.results), Firsts(docs, |docs|))
  {
    if r.Ok? && (forall k :: 0 <= k < |w.connectors| ==> StampsItsName(w.connectors[k])) {
      FetchKeepsOnePerPair(config, req, w, r.value);
    }
    FetchIsPointwise(config, worker, req, w, r);
  }

  lemma FetchIsPointwise(config: Settings, worker: Config, req: Request, w: World, r: Result<Analysis, TopicError>)
    requires Serves(config, worker, w) && Fetched(config, req, w, r)
    ensures r == Ideal(config, worker, req, w.connectors, w.analyzedAt)
  {
    if w.connectors != [] {
      match InPlatformOrder(w.connectors, config.timedOut)
      case AllConnectorsFailed(warnings) => {}
      case Gathered(docs, warnings) =>
        if docs == [] {
          assert Pointwise(worker, req, [], w.analyzedAt, warnings)
              == AnalysisOf(req.topic, [], [], [], w.analyzedAt, warnings);
        } else {
          ScoresArePointwise(config, worker, req, w, Deduped(docs), warnings, r);
        }
    }
  }

  /** Each result of a fetch holds the document head's answer for its own text, as far as the worker
      reads it, and for each aspect asked for, in that order, the aspect head's for that pair. */
  lemma FetchScoresEachDocument(config: Settings, worker: Config, req: Request, w: World, v: Analysis, i: nat)
    requires Serves(config, worker, w) && Fetched(config, req, w, Ok(v)) && i < |v.results|
    ensures var d := v.results[i];
            var read := d.document.text[..Min(|d.document.text|, worker.maxTextChars)];
            && d.overall == worker.docHead(read) && d.analyzedAt == w.analyzedAt
            && |d.aspects| == |req.aspects|
            && forall j :: 0 <= j < |d.aspects| ==>
                 d.aspects[j] == AspectScore(req.aspects[j], worker.aspectHead(read, req.aspects[j]))
  {
    FetchIsPointwise(config, worker, req, w, Ok(v));
    var docs := Deduped(InPlatformOrder(w.connectors, config.timedOut).docs);
    assert v.results == ResultsOf(docs, Map(TextOf(worker), TextsOf(docs)),
                                  RowsOf(PairOf(worker), InputsOf(docs, req.aspects)), w.analyzedAt);
    PointwiseRow(worker, docs[i].text, req.aspects);
  }

  lemma PointwiseRow(worker: Config, text: string, aspects: seq<string>)
    ensures var read, row := text[..Min(|text|, worker.maxTextChars)], RowOf(PairOf(worker), AspectInput(text, aspects));
            && worker.TextScore(text) == worker.docHead(read)
            && |row| == |aspects|
            && forall j :: 0 <= j < |row| ==> row[j] == AspectScore(aspects[j], worker.aspectHead(read, aspects[j]))
  {
    assert text[..|text|] == text;
  }

  /** A stored answer is ideal too, so a hit serves the scores the worker would give. */
  lemma StoredIsIdeal(config: Settings, worker: Config, key: string, v: Analysis, q: Request, w: World)
    requires StoredFor(config, key, v, q, w) && Serves(config, worker, w)
    ensures Ok(v) == Ideal(config, worker, WithLimit(q), w.connectors, w.analyzedAt)
    ensures forall i :: 0 <= i < |w.connectors| ==> w.connectors[i].error.None?
  {
    FetchIsPointwise(config, worker, WithLimit(q), w, Ok(v));
    NoWarningMeansNoneFailed(w.connectors, config.timedOut);
  }

  /* ---------- one fetch, whatever the worker does ---------- */

  predicate SomeSucceeds(cs: seq<Connector>) {
    exists i :: 0 <= i < |cs| && cs[i].error.None?
  }

  /** Without connectors a fetch is refused, and with all of them failing it fails with a warning
      for each; with anything else the answer, if there is one, carries the documents of those
      that succeeded, without copies, and a warning for each that failed, and is partial exactly
      when one did. */
  lemma FetchedInFull(config: Settings, req: Request, w: World, r: Result<Analysis, TopicError>)
    requires Fetched(config, req, w, r)
    ensures r == Err(NoPlatforms) <==> w.connectors == []
    ensures r == Err(AllPlatformsFailed(Failures(w.connectors, config.timedOut)))
       <==> w.connectors != [] && !SomeSucceeds(w.connectors)
    ensures r.Ok? ==>
        && SomeSucceeds(w.connectors)
        && r.value.warnings == Failures(w.connectors, config.timedOut)
        && (r.value.partial <==> exists i :: 0 <= i < |w.connectors| && w.connectors[i].error.Some?)
        && DocumentsOf(r.value.results) == Deduped(Flatten(Successes(w.connectors)))
  {
    FanoutInFull(w.connectors, config.timedOut);
    SuccessesAre(w.connectors);
    FailuresAre(w.connectors, config.timedOut);
    NoWarningMeansNoneFailed(w.connectors, config.timedOut);
    if w.connectors != [] {
      FetchedOutcome(config, req, w, r);
    }
    if r.Ok? {
      FetchedDocuments(config, req, w, r.value);
    }
  }

  lemma FetchedOutcome(config: Settings, req: Request, w: World, r: Result<Analysis, TopicError>)
    requires Fetched(config, req, w, r) && w.connectors != []
    ensures var found := InPlatformOrder(w.connectors, config.timedOut);
            && r != Err(NoPlatforms)
            && (r.Err? && r.error.AllPlatformsFailed? <==> found.AllConnectorsFailed?)
            && (found.AllConnectorsFailed? ==> r == Err(AllPlatformsFailed(found.warnings)))
            && (r.Ok? ==> r.value.warnings == found.warnings && (r.value.partial <==> found.warnings != []))
  {
    var found := InPlatformOrder(w.connectors, config.timedOut);
    if found.Gathered? && found.docs != [] {
      var s, sc :| ScoredBy(config, req, w, Deduped(found.docs), found.warnings, r, s, sc);
      if s.Ok? && req.aspects != [] {
        var a, ac :| AspectsScoredBy(config, req, w, Deduped(found.docs), found.warnings, s.value, r, a, ac);
      }
    }
  }

  /** The worker gave every batch of these texts a score a text, and every request of their
      aspects, if any were asked for, a score a pair. */
  ghost predicate AllAnsweredFor(config: Settings, req: Request, w: World, docs: seq<Document>) {
    && (forall k :: 0 <= k < |Batches(TextsOf(docs), config.maxBatch)| ==>
          Answered(w.textStub, k, Batches(TextsOf(docs), config.maxBatch)[k]))
    && (req.aspects != [] ==>
          forall k :: 0 <= k < |WindowRequests(InputsOf(docs, req.aspects), config.maxBatch * 4)| ==>
            PairsAnswered(w.pairStub, k, WindowRequests(InputsOf(docs, req.aspects), config.maxBatch * 4)[k]))
  }

  /** An answer with documents means that the worker answered everything it was asked: one bad
      answer, of texts or of pairs, fails the whole call, and nothing is made up for it. */
  lemma AnsweredOrFailed(config: Settings, req: Request, w: World, r: Result<Analysis, TopicError>)
    requires Fetched(config, req, w, r)
    ensures r.Ok? && r.value.results != [] ==> AllAnsweredFor(config, req, w, DocumentsOf(r.value.results))
    ensures r.Err? && (r.error.ClassifyFailed? || r.error.ClassifyAspectsFailed?) ==>
        !AllAnsweredFor(config, req, w, Deduped(Flatten(Successes(w.connectors))))
  {
    FanoutInFull(w.connectors, config.timedOut);
    var found := InPlatformOrder(w.connectors, config.timedOut);
    if w.connectors != [] && found.Gathered? && found.docs != [] {
      ScoringAnswered(config, req, w, Deduped(found.docs), found.warnings, r);
      if r.Ok? {
        ScoredKeeps(config, req, w, Deduped(found.docs), found.warnings, r.value);
      }
    }
  }

  lemma ScoringAnswered(config: Settings, req: Request, w: World, docs: seq<Document>, warnings: seq<Warning>,
                        r: Result<Analysis, TopicError>)
    requires Scored(config, req, w, docs, warnings, r)
    ensures r.Ok? <==> AllAnsweredFor(config, req, w, docs)
  {
    var s, sc :| ScoredBy(config, req, w, docs, warnings, r, s, sc);
    if s.Ok? && req.aspects != [] {
      var a, ac :| AspectsScoredBy(config, req, w, docs, warnings, s.value, r, a, ac);
    }
  }

  /* ---------- each breakdown is of its own ---------- */

  /** The overall scores of the results of one platform. */
  function ScoresWhere(results: seq<DocumentResult>, platform: string): seq<Score> {
    if results == [] then []
    else
      var before, last := ScoresWhere(results[..|results| - 1], platform), results[|results| - 1];
      if last.document.platform == platform then before + [last.overall] else before
  }

  /** The scores one row holds for an aspect. */
  function InRow(row: Row, aspect: string): seq<Score> {
    if row == [] then []
    else
      var before, last := InRow(row[..|row| - 1], aspect), row[|row| - 1];
      if last.aspect == aspect then before + [last.score] else before
  }

  function ScoresOfAspect(results: seq<DocumentResult>, aspect: string): seq<Score> {
    if results == [] then []
    else ScoresOfAspect(results[..|results| - 1], aspect) + InRow(results[|results| - 1].aspects, aspect)
  }

  lemma {:induction false} UnderPlatform(docs: seq<Document>, scores: seq<Score>, rows: seq<Row>, at: real, platform: string)
    requires |docs| == |scores| == |rows|
    ensures Under(ByPlatform(docs, scores), platform) == ScoresWhere(ResultsOf(docs, scores, rows, at), platform)
    ensures platform in KeysOf(ByPlatform(docs, scores)) <==> exists i :: 0 <= i < |docs| && docs[i].platform == platform
  {
    if docs != [] {
      var n := |docs| - 1;
      UnderPlatform(docs[..n], scores[..n], rows[..n], at, platform);
      OneMoreDocument(docs, scores, rows, at, n);
      assert docs[..n + 1] == docs && scores[..n + 1] == scores && rows[..n + 1] == rows;
      UnderSnoc(ByPlatform(docs[..n], scores[..n]), (docs[n].platform, scores[n]));
      assert forall i :: 0 <= i < n ==> docs[..n][i] == docs[i];
    }
  }

  lemma {:induction false} UnderAppend(a: seq<Keyed>, b: seq<Keyed>, key: string)
    ensures Under(a + b, key) == Under(a, key) + Under(b, key)
  {
    if b == [] {
      assert a + b == a;
    } else {
      var n := |b| - 1;
      UnderAppend(a, b[..n], key);
      assert a + b == (a + b[..n]) + [b[n]] && b == b[..n] + [b[n]];
      UnderSnoc(a + b[..n], b[n]);
      UnderSnoc(b[..n], b[n]);
    }
  }

  lemma {:induction false} UnderRow(row: Row, aspect: string)
    ensures Under(KeyedRow(row), aspect) == InRow(row, aspect)
  {
    if row != [] {
      var n := |row| - 1;
      UnderRow(row[..n], aspect);
      assert KeyedRow(row) == KeyedRow(row[..n]) + [(row[n].aspect, row[n].score)];
      UnderSnoc(KeyedRow(row[..n]), (row[n].aspect, row[n].score));
    }
  }

  lemma {:induction false} UnderAspect(docs: seq<Document>, scores: seq<Score>, rows: seq<Row>, at: real, aspect: string)
    requires |docs| == |scores| == |rows|
    ensures Under(ByAspect(rows), aspect) == ScoresOfAspect(ResultsOf(docs, scores, rows, at), aspect)
  {
    if docs != [] {
      var n := |docs| - 1;
      UnderAspect(docs[..n], scores[..n], rows[..n], at, aspect);
      OneMoreDocument(docs, scores, rows, at, n);
      assert docs[..n + 1] == docs && scores[..n + 1] == scores && rows[..n + 1] == rows;
      UnderAppend(ByAspect(rows[..n]), KeyedRow(rows[n]), aspect);
      UnderRow(rows[n], aspect);
    }
  }

  /** Every breakdown of an analysis is the aggregate of its own results' scores: by platform, one
      for each platform that has a result; by aspect, of the scores given for that aspect. */
  lemma BreakdownsAreTheirOwn(topic: string, docs: seq<Document>, scores: seq<Score>, rows: seq<Row>, at: real,
                              warnings: seq<Warning>, key: string)
    requires |docs| == |scores| == |rows|
    ensures var a := AnalysisOf(topic, docs, scores, rows, at, warnings);
            && (key in a.byPlatform <==> exists i :: 0 <= i < |docs| && docs[i].platform == key)
            && (key in a.byPlatform ==> a.byPlatform[key] == Summary(ScoresWhere(a.results, key)))
            && (key in a.byAspect <==> ScoresOfAspect(a.results, key) != [])
            && (key in a.byAspect ==> a.byAspect[key] == Summary(ScoresOfAspect(a.results, key)))
  {
    UnderPlatform(docs, scores, rows, at, key);
    UnderAspect(docs, scores, rows, at, key);
    KeyHasScores(ByAspect(rows), key);
  }

  lemma {:induction false} KeyHasScores(scored: seq<Keyed>, key: string)
    ensures key in KeysOf(scored) <==> Under(scored, key) != []
  {
    if scored != [] {
      var n := |scored| - 1;
      KeyHasScores(scored[..n], key);
      assert scored == scored[..n] + [scored[n]];
      UnderSnoc(scored[..n], scored[n]);
    }
  }

  /* ---------- the breakdowns add up ---------- */

  function PairCount(rows: seq<Row>): nat {
    if rows == [] then 0 else |rows[0]| + PairCount(rows[1..])
  }

  lemma {:induction false} ByAspectCounts(rows: seq<Row>)
    ensures |ByAspect(rows)| == PairCount(rows)
  {
    if rows != [] {
      ByAspectCounts(rows[1..]);
      assert KeyedRows(rows)[1..] == KeyedRows(rows[1..]);
    }
  }

  /** By platform: sample sizes, counts of every label and polarity sums add up to the overall
      ones, and the overall sample is the results. By aspect: the sample sizes add up to the
      number of scored pairs. */
  lemma AnalysisIsConserved(topic: string, docs: seq<Document>, scores: seq<Score>, rows: seq<Row>, at: real,
                            warnings: seq<Warning>, platforms: seq<string>, aspects: seq<string>, l: Sentiment)
    requires |docs| == |scores| == |rows|
    requires Lists(platforms, KeysOf(ByPlatform(docs, scores))) && Lists(aspects, KeysOf(ByAspect(rows)))
    ensures var a := AnalysisOf(topic, docs, scores, rows, at, warnings);
            && a.aggregate.sampleSize == |a.results| == |docs|
            && SizeSum(a.byPlatform, platforms) == a.aggregate.sampleSize
            && LabelSum(a.byPlatform, platforms, l) == Reported(a.aggregate.labelCounts, l)
            && PolarityTotal(a.byPlatform, platforms) == PolarityOf(a.aggregate)
            && SizeSum(a.byAspect, aspects) == PairCount(rows)
  {
    AggregatesAreConserved(ByPlatform(docs, scores), platforms, l);
    AggregatesAreConserved(ByAspect(rows), aspects, l);
    ByAspectCounts(rows);
    assert ScoresOf(ByPlatform(docs, scores)) == scores;
    SummaryReports(scores, l);
  }
}
