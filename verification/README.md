# Sentilyzer, verified

A Dafny model of the parts of Sentilyzer whose promises span loops, processes, files or
crashes, with proofs that the promises hold for every input, every schedule and every run —
or, where the code does not keep one, exactly when it does.

    dafny verify dfyconfig.toml

Code that changes things step by step is a method or a class here, proved equal to a
function of its inputs or of the old state; what the system promises is then proved about
that function. Calls into libraries and models (torch, ONNX, SHA-256, md5, the database's
choice among tied rows, the inference worker, third-party searches, the clock) are
uninterpreted functions or parameters, so every theorem holds for all of their behaviours.

## What is modelled

| files | system part | main results |
|---|---|---|
| `Distill`, `DistillTheorems` | the distillation loop: two interleaved batch streams, budgets, checkpoint and resume | `KillsAreInvisible`, `NextLife`, `LifeInFull`, `ResumeReproducesUninterrupted`, `ScheduleAt`, `CompletedRunCoverage`, `BudgetStopIsFinal` |
| `Batching`, `Client`, `AspectClient`, `Worker` | batched inference from the Go client through the Python worker and back | `ClassifyRefinesMap`, `ClassifyEndToEnd`, `RequestsCorrect`, `AspectsRefineMap`, `AspectsEndToEnd` |
| `Corpus`, `Harvest`, `HarvestTheorems`, `Admission`, `Prep`, `PrepTheorems`, `Lifecycle` | from firehose event to training row: cursors, replays, revocation, dedupe, cap | `CompleteFromFirstStart`, `SilentStartLosesIff`, `HandledIsOnePass`, `DurableScheduleEqualsOnePass`, `HandledIsOneStretch`, `RepeatsAreHarmless`, `PostIsWrittenIff`, `RevokedIff`, `KeepsTheEarliestLiveCopy`, `BuiltInFull`, `StatsPartitionTheInput` |
| `Labelling`, `Label`, `LabelAspects`, `LabellingTheorems` | teacher labelling, killed and restarted any number of times | `LabellingSurvivesKills`, `RunShrinksUnlabelled`, `FinishedRunCovers`, `RaisingTheCapOnlyAdds` |
| `Lease` | the heartbeat lock of a training run, with takeover | `LeaseIsSafe`, `GapBoundIsExact`, `EarlyRetryEndsExclusion`, `SilentHolderIsTakenOver` |
| `Cache`, `CacheKey`, `Fanout`, `Aggregates`, `Topic`, `Service`, `ServiceTheorems` | topic analysis: cache, key, concurrent search, dedupe, scoring, aggregates | `HitsAreCompleteAndFresh`, `HitsAnswerTheQuestionAsked`, `FetchIsIdeal`, `AnalysisIsConserved`, `ServedInFull`, `AskedAgainIsHit`, `EvictedExactlyWhenFull`, `KeyIsUnambiguous`, `KeyAmbiguousIff` |
| `Rake` | aspect mining | `CandidatesAreSegments`, `StatisticsCount`, `RankedScores`, `MinedIsTop` |
| `Negotiate` | Accept negotiation (RFC 9110, sections 12.4.2 and 12.5.1) | `MostSpecificRangeDecides`, `AnswerInFull`, `OrderOfRangesIsIrrelevant`, `SpellingIsIrrelevant` |

`Wrappers`, `Arithmetic`, `Orders`, `Strings` and `Domain` hold what the others share.

## What the proofs found

* A post and its edit are different contents under one document id, and dedupe is by
  content, so both reach the training set (`Lifecycle.EditedPostKeepsBothVersions`). The
  labeller's "one row per key" needs distinct keys (`LabellingTheorems.OneRowEachIffDistinct`);
  `Lifecycle.DocumentsDistinctIff` says exactly when they are; they are if no document was
  posted with two texts (`UneditedDocumentsAreDistinct`). A text edited under its key
  between runs keeps its old label, which is right exactly when the teacher would have
  answered the same (`LabellingTheorems.KeptLabelIsStaleIff`).
* An account deactivation reaches its author's rows exactly when the author id is not empty
  (`Lifecycle.DeactivationReachesIff`), because empty fields are omitted from a row.
* The harvest is complete from its very first start point if the first connection leaves a
  cursor and the harvester keeps it (`HarvestTheorems.CompleteFromFirstStart`;
  `DurableKeepsCursor` says what keeps it). A silent first connection leaves none, and then
  events are lost exactly when the next delivering one starts past the first start point with
  its cursor past the event there (`SilentStartLosesIff`).
* A harvester that never starts again without a cursor once it has handled something (no
  restart, or a cursor file whose end-of-connection writes succeed) gets exactly-once from
  at-least-once exactly while no reconnect reaches back past the start point
  (`HandledIsOnePass`, `Lifecycle.DurableScheduleEqualsOnePass`): the five-second rewind can hand
  it events from before it began (`RewindReachesBeforeStart`, `ReachesBackIff`). What it handled is
  then one stretch exactly when such a replay got to the start point, as long as no restart finds
  a cursor file older than its cursor (`HandledIsOneStretch`), and in general exactly when every
  connection cut short before the start point was overtaken by another (`OneStretchIffOvertaken`).
  A replay cut short can leave such a file (`SavedCursorMayGoBack`): never a gap after the start
  point, but possibly a hole before it (`RestartInReplayLeavesHole`).
* The lease's assumptions are exact: beats at gaps below 300 s are enough and nothing above is
  (`Lease.GapBoundIsExact`), a retry gets in beside a live holder exactly with the holder's own
  input (`EarlyRetryEndsExclusion`), and a holder beating every minute loses its exclusion at
  the three-hour cap (`CapEndsExclusion`).
* The comment in `ml/sentilyzer_ml/pipeline/kd.py:190-191` says the aspect period collapses
  to one above a fraction of 0.5; it stays two up to 2/3 (`Distill.PeriodAtLeastTwo`). The
  check that rejects fractions above 0.5 is sound, only stricter than its reason.
* The cache key joins lists with commas. A list reads two ways exactly when it is empty, one
  empty entry, two or more entries, or one entry with a comma whose sides stand in order
  (`CacheKey.ListAmbiguousIff`), and a request without bars shares its key with another
  question exactly when one of its two lists does (`KeyAmbiguousIff`).
* The browser rule answers JSON even to a client that refuses it with `q=0`
  (`Negotiate.BrowserRuleOverridesRefusal`), and is the only way an unaccepted type is
  served (`NegotiateRanges`). Two ranges of one folded type make their order matter
  (`RepeatedTypeMakesOrderMatter`).

## Model

| member | source | states |
|---|---|---|
| Distill.PeriodAtLeastTwo | ml/sentilyzer_ml/pipeline/kd.py:189-195 | the rounded period is at least two exactly for fractions up to 2/3, and for every accepted fraction |
| Distill.RoundIsNearest | ml/sentilyzer_ml/pipeline/kd.py:270 | the period is the nearest integer to one over the fraction, of two equally near the even one |
| Distill.AcceptedIff | ml/sentilyzer_ml/pipeline/kd.py:181-195 | a run is accepted exactly when texts and answers align, aspect data comes whole and aligned, and its fraction is at most a half |
| Distill.BatchAtIffInRange | ml/sentilyzer_ml/pipeline/kd.py:147-154 | a stream yields exactly the ceiling of n over the batch size batches |
| Distill.BatchStream.Next | ml/sentilyzer_ml/pipeline/kd.py:153-154 | the next batch of the fixed order, an exhausted stream staying put |
| Distill.BatchStream.Skip | ml/sentilyzer_ml/pipeline/kd.py:261-264 | replays the order up to a resume point, or to its end if that lies before |
| Distill.DrawBatch | ml/sentilyzer_ml/pipeline/kd.py:274-283 | an aspect batch in an aspect slot while there is one, else a document batch; afterwards the stream is one batch ahead of the saved cursor until the batch is trained |
| Distill.TrainingConsumesABatch | ml/sentilyzer_ml/pipeline/kd.py:274-314 | untrained batches decrease by one a step, so the loop ends |
| Distill.DistillRun | ml/sentilyzer_ml/pipeline/kd.py:213-321 | the loop with its streams, budgets, checkpoints and completion marker is the specified life, from any checkpoint |
| DistillTheorems.TrainOnTrajectory | ml/sentilyzer_ml/pipeline/kd.py:289-312 | a step from any state the run cannot tell from the uninterrupted one leads to the uninterrupted state one step on, model and every counter it can read |
| DistillTheorems.ScheduleAt | ml/sentilyzer_ml/pipeline/kd.py:274-312 | every cursor of the uninterrupted run in closed form at every step, which kind of step comes next, and that it ends after exactly D + min(A, D/(p-1)+1) steps |
| DistillTheorems.KillsAreInvisible | ml/sentilyzer_ml/pipeline/kd.py:213-314 | after any lives, killed anywhere or stopped by clock or budget, the checkpoint is the uninterrupted trajectory at its own step count, and sequences seen stay below the budget plus one batch |
| DistillTheorems.NextLife | ml/sentilyzer_ml/pipeline/kd.py:213-321 | after any lives one more: completing ends in the uninterrupted final state, a budget stop loses nothing although it drops a drawn batch, a kill loses less than a checkpoint interval, the disk never goes back |
| DistillTheorems.LifeInFull | ml/sentilyzer_ml/pipeline/kd.py:273-314 | after any lives, one more trains exactly until the first iteration in which it is killed, has no batch left, has used up its seconds on the clock, or has seen its sequences; it ends accordingly, with its checkpoint at its last step if partial and else at the last multiple of the interval it passed |
| DistillTheorems.ClockStops | ml/sentilyzer_ml/pipeline/kd.py:284-287 | once the seconds are used up in iteration i an unkilled life trains at most i batches, and ends partial at its last step if a batch is left; a partial ending had the clock or the sequence budget used up |
| DistillTheorems.LateAspectsStartAtTheFront | ml/sentilyzer_ml/pipeline/kd.py:213-236 | aspect data added to a run that had none is trained from the front of its shuffle |
| DistillTheorems.BudgetStopIsFinal | ml/sentilyzer_ml/pipeline/kd.py:284-287 | once the sequence budget is reached no later life trains anything, and the checkpoint stays as it is |
| DistillTheorems.UnstoppedLoopCompletes | ml/sentilyzer_ml/pipeline/kd.py:274-287 | only a kill, the clock or the sequence budget stops a run short |
| DistillTheorems.ResumeReproducesUninterrupted | ml/sentilyzer_ml/pipeline/kd.py:147-154 | any lives and then an unstopped one end exactly as one life alone |
| DistillTheorems.TraceWalksTheOrders | ml/sentilyzer_ml/pipeline/kd.py:261-312 | at every step the indices each kind of step has trained are its shuffle's first batches, up to its cursor, without a gap or a repeat |
| DistillTheorems.CountersCountTheTrace | ml/sentilyzer_ml/pipeline/kd.py:304-311 | the step and sequence counters are the numbers of steps and of indices trained |
| DistillTheorems.CompletedRunCoverage | ml/sentilyzer_ml/pipeline/kd.py:274-283 | a completed run trains every document index once, in shuffle order, and a prefix of the pair shuffle in exactly min(A, D/(p-1)+1) aspect steps |
| DistillTheorems.ModelIsFoldOfTrace | ml/sentilyzer_ml/pipeline/kd.py:289-302 | the model at any step is the initial student trained on the trace, and on nothing else |
| Batching.LengthOrderCorrect | api/internal/inference/batch.go:24-33 | a permutation of the indices, by byte length, ties in input order |
| Batching.ChunkRanges | api/internal/inference/batch.go:37-46 | consecutive ranges from zero to n, a limit below one raised to one |
| Batching.ChunksPartition | api/internal/inference/batch.go:35-46 | cutting loses and repeats nothing, and only the last chunk is short |
| Batching.AspectRefs | api/internal/inference/batch.go:64-76 | the references of the input, document by document in length order |
| Batching.RefsCorrect | api/internal/inference/batch.go:54-76 | each (document, aspect) pair of the input exactly once |
| Batching.RefsStandInOrder | api/internal/inference/batch.go:64-76 | documents come shortest first, in UTF-8 bytes, ties in input order, each with its aspects in their own order |
| Batching.GroupByItem | api/internal/inference/batch.go:81-91 | the groups of a run of references |
| Batching.GroupsCorrect | api/internal/inference/batch.go:78-91 | groups are maximal runs of one document and flatten back to the references |
| Client.Classify | api/internal/inference/client.go:129-166 | every batch's answer in the caller's slots, or the first bad answer's error with no call after it; a miscounted answer never shifts a score |
| Client.BatchesCorrect | api/internal/inference/client.go:136-146 | each text sent exactly once, in batches within the limit, in non-decreasing length |
| Client.ClassifyErrorSays | api/internal/inference/client.go:143-160 | only the last batch sent went unanswered, and the error names its size and the limit, its size and the number of texts, or its two counts |
| Client.ClassifyRefinesMap | api/internal/inference/client.go:127-166 | if every batch sent is answered pointwise, the result is the plain map over the texts |
| Client.ClassifyEndToEnd | api/internal/inference/client.go:105-166 | against the worker: pointwise scores exactly when the largest batch fits its ceiling, otherwise one call and an error naming both limits |
| Client.EachTextIsScored | ml/sentilyzer_ml/server.py:51-110 | score i is the document head's answer for text i cut to the worker's length |
| AspectClient.ClassifyAspects | api/internal/inference/client.go:171-231 | every row's scores in the slots their references name, or the first bad answer's error with no call after it, rows and scores both counted |
| AspectClient.RequestsCorrect | api/internal/inference/client.go:184-200 | each pair sent exactly once beside its own text, no request over the limit even when one document has more aspects than that |
| AspectClient.PairsErrorSays | api/internal/inference/client.go:202-225 | likewise, in pairs, rows and scores: the first row of the wrong length is named |
| AspectClient.RowsFollowRefs | api/internal/inference/client.go:189-198 | regrouping keeps every pair with its own text, in order |
| AspectClient.AspectsRefineMap | api/internal/inference/client.go:168-231 | if every request sent is answered pointwise, out[i][j] is the answer for text i and aspect j of i |
| AspectClient.AspectsEndToEnd | api/internal/inference/client.go:184-230 | against the worker: the aspect head's score of every pair, its text cut to the worker's length, exactly when the largest request fits four times its batch limit, otherwise one call and an error naming both; so never rejected when the client's limit is no larger than the worker's |
| Worker.BackendClassifyAspects | ml/sentilyzer_ml/onnx_backend.py:158-180 | flattening and cutting by spans scores each pair in its own row and place |
| Worker.ServeAspects | ml/sentilyzer_ml/server.py:64-87 | refuses more than four times the batch limit, otherwise truncated texts scored in request order |
| Corpus.CorpusWriter.WriteDocument | api/internal/harvest/corpus.go:149-161 | one row appended with its content hash and version, or the corpus as it was |
| Corpus.CorpusWriter.WriteTombstone | api/internal/harvest/corpus.go:164-174 | one revocation row appended, or the corpus as it was |
| Harvest.Admit | api/internal/harvest/bluesky.go:28-52 | the loops over declared and wanted languages decide exactly byte length, language base and the hash sample, as `Admission.PostIsWrittenIff` spells them out |
| Harvest.Harvester.Handle | api/internal/harvest/bluesky.go:77-129 | the one row and the one counter each kind of event moves; revocations are written whatever the filter says |
| Admission.SpeaksIff | api/internal/harvest/bluesky.go:36-49 | a post speaks a wanted language exactly when a declared tag, lower-cased, is a wanted one or continues it past a hyphen |
| Admission.PostIsWrittenIff | api/internal/harvest/bluesky.go:108-126 | a created or updated post writes exactly this row, field by field, if its trimmed text is not empty and within the bounds in UTF-8 bytes, in a wanted language, and its document id in the sample; otherwise it counts as skipped |
| Admission.RegionQualifies | api/internal/harvest/bluesky.go:39 | a region of a wanted language is that language |
| Admission.OnlyPostsCount | api/internal/harvest/bluesky.go:77-129 | nothing but a created or updated post with a record is written or skipped |
| Admission.SampleGrows | api/internal/harvest/corpus.go:65-79 | a higher rate only adds documents, from none at zero to all at one |
| Admission.DocIdsDistinct | api/internal/harvest/bluesky.go:98 | document ids do not confuse posts |
| Admission.RevokesIff | api/internal/harvest/bluesky.go:79-107 | a tombstone is written exactly for a delete of a post, naming its document id, and for a deactivation, naming its account |
| Harvest.StartOf | api/internal/harvest/jetstream.go:57-74 | with a cursor the stream starts at the first event no earlier than five seconds before it, and not below zero; without one at the live tail |
| Harvest.Harvester.Stream | api/internal/harvest/jetstream.go:79-115 | delivers from the rewound cursor to the drop, the last time counted even when handling failed |
| Harvest.Harvester.Run | api/internal/harvest/bluesky.go:134-187 | any sequence of connections, failed dials and restarts leaves the specified cursor, saved cursor and corpus |
| HarvestTheorems.StreamCovers | api/internal/harvest/jetstream.go:97-114 | one connection handles a contiguous stretch, and every time it reports or saves is that of an event no later than where it stopped |
| HarvestTheorems.StreamInFull | api/internal/harvest/jetstream.go:97-114 | one connection in full: it stops at the first of the drop, the end and a failed append, reports the time of the last event it was handed, and leaves the time of the last save that fell due |
| HarvestTheorems.CursorInFull | api/internal/harvest/bluesky.go:144-172 | the cursor moves up to a later time reported and only then is saved once more; a restart reads the file, a failed dial changes nothing |
| HarvestTheorems.HarvestLeavesNoGap | api/internal/harvest/bluesky.go:144-186 | over every run, each event from the last start without a cursor on and strictly before the current or saved cursor was handled |
| HarvestTheorems.CompleteFromFirstStart | api/internal/harvest/bluesky.go:144-186 | if the first accepted connection leaves a cursor and it is kept, the same from the very first start point, for good |
| HarvestTheorems.CompleteIffNothingSkipped | api/internal/harvest/bluesky.go:144-186 | a step towards `CompleteFromFirstStart` and `SilentStartLosesIff`: in any run only the stretch between the first start point and the last start can be incomplete |
| HarvestTheorems.SilentStartLosesIff | api/internal/harvest/jetstream.go:68-71 | after connections that deliver nothing, the one that ends the silence loses events exactly when it starts past the first start point with its cursor past the event there |
| HarvestTheorems.DurableKeepsCursor | api/internal/harvest/bluesky.go:144-172 | without restarts, or with a cursor file whose end-of-connection writes succeed, the harvester never connects without a cursor again |
| HarvestTheorems.CursorNeverDecreases | api/internal/harvest/bluesky.go:166-173 | over any connections without a restart the in-memory cursor never goes back, whatever the replays report |
| HarvestTheorems.HandledIsOnePass | api/internal/harvest/bluesky.go:144-186 | from any start, a schedule that never starts without a cursor after it has handled something handles exactly the events of one pass from there to the furthest position if and only if no reconnect that handles anything reaches back past the start; from the beginning of the log none can |
| HarvestTheorems.HandledIsOneStretch | api/internal/harvest/bluesky.go:144-186 | while no restart sets the cursor back, everything handled is one stretch from the first position reached to the furthest if and only if no reconnect reached back past the start point or one of those got as far as it |
| HarvestTheorems.OneStretchIffOvertaken | api/internal/harvest/bluesky.go:144-186 | with restarts from any cursor file, it is one stretch if and only if every connection that stopped short of the start point was overtaken: the event it stopped at was handled by another |
| HarvestTheorems.RestartInReplayLeavesHole | api/internal/harvest/bluesky.go:158-163 | a run with a saved cursor, restarted during a replay, that handles an earlier event and not yet the one between |
| HarvestTheorems.ReachesBackIff | api/internal/harvest/jetstream.go:68-71 | a rewound reconnect stays past a position exactly when every event before it is more than five seconds before the cursor |
| HarvestTheorems.SilentFirstConnectionLeavesGap | api/internal/harvest/jetstream.go:68-71 | a concrete run in which a silent first connection loses an event |
| HarvestTheorems.SavedCursorGoesBackOnlyInReplay | api/internal/harvest/bluesky.go:158-173 | in every run the cursor file goes back only by a connection that does not get past the cursor, or whose last write fails |
| HarvestTheorems.SavedCursorMayGoBack | api/internal/harvest/bluesky.go:158-163 | a run in which a replay lowers the saved cursor while the in-memory one stays |
| HarvestTheorems.RewindReachesBeforeStart | api/internal/harvest/jetstream.go:68-71 | a run in which a rewind delivers an event from before the first start point |
| Prep.OnePerGroup | ml/sentilyzer_ml/pipeline/prep.py:128-135 | each content group has exactly one row numbered first, the earliest by creation time with absent last, then id |
| PrepTheorems.TrainingSetMembers | ml/sentilyzer_ml/pipeline/prep.py:109-153 | what survives each view: unrevoked, in bounds, deduplicated, capped |
| PrepTheorems.SparedIsAlive | ml/sentilyzer_ml/pipeline/prep.py:109-127 | a row is alive exactly when no tombstone of its platform names its document or its author, and kept for dedupe exactly when its length is within the bounds too |
| PrepTheorems.BuiltInFull | ml/sentilyzer_ml/pipeline/prep.py:56-153 | from files to training set: eligible rows of the files only, no content twice, as many as there are eligible contents or the cap allows, and below the cap every eligible content by a copy created no later |
| PrepTheorems.CapKeepsLeastHashes | ml/sentilyzer_ml/pipeline/prep.py:144-153 | the cap keeps the survivors of least md5 of platform and id, in that order |
| PrepTheorems.TombstonesAreCounted | ml/sentilyzer_ml/pipeline/prep.py:99-103 | the tombstone statistics count the rows of each scope |
| PrepTheorems.RevocationWins | ml/sentilyzer_ml/pipeline/prep.py:107-121 | no row a tombstone matches is kept, whatever else the corpus holds |
| PrepTheorems.KeepsTheEarliestLiveCopy | ml/sentilyzer_ml/pipeline/prep.py:109-135 | a content group with a live in-bounds copy keeps exactly one, the earliest such by creation time in code point order, absent last, then id; a revoked earlier copy never suppresses it |
| PrepTheorems.DedupedCountsContents | ml/sentilyzer_ml/pipeline/prep.py:128-139 | survivors of dedupe are as many as there are different contents |
| PrepTheorems.StatsPartitionTheInput | ml/sentilyzer_ml/pipeline/prep.py:137-156 | raw = revoked + out of bounds + duplicate + distinct contents, each counted independently; kept = min(distinct, cap) |
| PrepTheorems.KeptKeysDependOnSets | ml/sentilyzer_ml/pipeline/prep.py:107-135 | the kept (platform, id, hash) triples depend on the sets of rows and tombstones alone |
| PrepTheorems.PrepForgetsOrderAndRepeats | ml/sentilyzer_ml/pipeline/prep.py:107-153 | with no tied sort keys the whole result, cap included, forgets row order and repeats |
| PrepTheorems.FilesDoNotMatter | ml/sentilyzer_ml/pipeline/prep.py:58-69 | refused exactly without document files; otherwise how the rows are spread over files, and the order these are read in, shows neither in the statistics nor, without ties, in the training set |
| Lifecycle.RepeatsAreHarmless | api/internal/harvest/jetstream.go:54-56 | handling the same events in any order any number of times keeps the same documents |
| Lifecycle.AnyScheduleEqualsOnePass | api/internal/harvest/corpus.go:65-79 | from wherever the harvest started, any schedule of drops, rewinds, failed appends and restarts that never starts without a cursor after something was handled gives the training set of one uninterrupted pass from there, as long as no reconnect reaches back past the start; from the beginning of the log none does |
| Lifecycle.DurableScheduleEqualsOnePass | api/internal/harvest/bluesky.go:144-186 | without restarts, or with a cursor file whose end-of-connection writes succeed, and with no reconnect reaching back past the start, the training set is that of one uninterrupted pass |
| Lifecycle.ReplayedEqualsOnePass | api/internal/harvest/bluesky.go:144-186 | when one did reach back, it is that of one pass from the first event handled, once such a replay got to the start point and no restart set the cursor back, or once every connection that stopped short of it was overtaken |
| Lifecycle.HandledDeleteWins | api/internal/harvest/bluesky.go:100-108 | a delete handled at any time removes its document, before or after the create, under any filter and replay |
| Lifecycle.HandledDeactivationWins | api/internal/harvest/bluesky.go:79-88 | a deactivation handled at any time removes everything its author wrote, for a non-empty author id |
| Lifecycle.DeactivationReachesIff | api/internal/harvest/corpus.go:26-50 | its tombstone matches the author's documents exactly when the author id is not empty |
| Lifecycle.RevokedIff | api/internal/harvest/bluesky.go:79-107 | a handled post is revoked exactly when a delete of its own document id or a deactivation of its own, non-empty, author was handled |
| Lifecycle.CopiesAreRecognised | api/internal/harvest/corpus.go:52-63 | two posts are one content exactly when their trimmed texts normalize alike, as far as the hash tells texts apart |
| Lifecycle.HandledPostIsRepresented | ml/sentilyzer_ml/pipeline/prep.py:107-135 | a written post in bounds, with no handled delete of its document id and no handled deactivation of its author, is kept before the cap, or a live copy of its content created no later is |
| Lifecycle.EmptyAuthorEscapesDeactivation | ml/sentilyzer_ml/pipeline/prep.py:116-120 | a concrete log in which a deactivated author's row is trained on |
| Lifecycle.EditedPostKeepsBothVersions | ml/sentilyzer_ml/pipeline/prep.py:128-135 | a concrete log whose post and edit are two training rows with one document key |
| Lifecycle.DocumentsDistinctIff | ml/sentilyzer_ml/pipeline/prep.py:128-153 | before the cap documents are distinct exactly when none is the earliest live copy of two contents, and then the training set's are too |
| Lifecycle.UneditedDocumentsAreDistinct | api/internal/harvest/bluesky.go:103-127 | if no two handled posts of one document have different trimmed texts, the training set holds every document once |
| Label.PartsOf | ml/sentilyzer_ml/pipeline/label.py:123-132 | a chunk of two or more with a long text is halved, any other sent whole; nothing is lost and no batch with a long text is above half size |
| Label.LabelTrainingSet | ml/sentilyzer_ml/pipeline/label.py:73-144 | one run: the rows it leaves, whole flush windows only, what it asked for, its statistics, and why it ended: it finishes unless killed before its last flush or failed at the first batch miscounted, whose counts it names |
| LabelAspects.MinePairs | ml/sentilyzer_ml/pipeline/label_aspects.py:84-87 | the pair rows: each document's first distinct aspects, at most the per-document cap |
| LabelAspects.LabelAspectPairs | ml/sentilyzer_ml/pipeline/label_aspects.py:72-183 | one run of the pair labeller, likewise, under its caps |
| LabellingTheorems.RunKeepsSound | ml/sentilyzer_ml/pipeline/label.py:99-114 | a run over any part of the items never puts a second row under a key and version, nor a row that is not the teacher's answer for the item's own input |
| LabellingTheorems.OtherVersionsUntouched | ml/sentilyzer_ml/pipeline/label.py:61-66 | rows of other teacher versions stay as they were |
| LabellingTheorems.RunShrinksUnlabelled | ml/sentilyzer_ml/pipeline/label.py:75-88 | what a run flushed is not asked again, in its own item list or any wider one; a run that flushes a window strictly shrinks the unlabelled set, a finished one empties its own |
| LabellingTheorems.LabellingSurvivesKills | ml/sentilyzer_ml/pipeline/label.py:116-144 | all of that after any sequence of killed, failed and finished runs, each over its own item list as the training set changes, each item labelled once over all of them |
| LabellingTheorems.KeptLabelIsStaleIff | ml/sentilyzer_ml/pipeline/label.py:78-84 | a text edited under its key is not asked again, and its kept row is right exactly when the teacher would answer the same |
| LabellingTheorems.FinishedRunCovers | ml/sentilyzer_ml/pipeline/label.py:73-86 | a finished run covers every row, with already + newly = total |
| LabellingTheorems.OneRowEachIffDistinct | ml/sentilyzer_ml/pipeline/label.py:78-84 | a finished run leaves one row a key exactly when the items it found had distinct keys |
| LabellingTheorems.TodoIsUnlabelled | ml/sentilyzer_ml/pipeline/label.py:78-84 | the work list is the unlabelled rows, each once, shortest text first |
| LabellingTheorems.WorkIsWhatHasNoRow | ml/sentilyzer_ml/pipeline/label.py:61-84 | an item is to be labelled exactly when no row has both its key and the version |
| LabellingTheorems.PairTodoIsUnlabelled | ml/sentilyzer_ml/pipeline/label_aspects.py:114-126 | the pair work list is the unlabelled capped pairs, each once, shortest text first |
| LabellingTheorems.PairKeysDistinct | ml/sentilyzer_ml/pipeline/label_aspects.py:82-87 | distinct documents give distinct (platform, id, aspect) keys |
| LabellingTheorems.CappedPairsCorrect | ml/sentilyzer_ml/pipeline/label_aspects.py:110-121 | the capped pairs have distinct keys, respect the cap, and a higher cap only adds |
| LabellingTheorems.CapsTakeLeastHashes | ml/sentilyzer_ml/pipeline/label_aspects.py:76-80 | the documents mined and the pairs kept are those of least md5 of their keys |
| LabelAspects.AspectsAreTheFirstTwo | ml/sentilyzer_ml/pipeline/label_aspects.py:82-87 | a document's aspects are the first two different ones mined, in order, fewer only if no more were mined |
| LabellingTheorems.RaisingTheCapOnlyAdds | ml/sentilyzer_ml/pipeline/label_aspects.py:51-56 | over any runs under any caps the file stays sound for the widest set of pairs, each pair is asked for at most once over all of them, and a last run that finishes under the highest cap leaves exactly that set labelled |
| LabellingTheorems.CapForgetsOrder | ml/sentilyzer_ml/pipeline/label_aspects.py:76-80 | the capped pairs do not depend on the order the training rows are read in |
| Lease.RunLock.Acquire | ml/sentilyzer_ml/pipeline/modal_app.py:598-640 | read, decide and write as one step: refused, a fresh run, or the same run from its own first start |
| Lease.RunLock.Beat | ml/sentilyzer_ml/pipeline/modal_app.py:625-638 | a beat renews the time and nothing else |
| Lease.RunLock.Perform | ml/sentilyzer_ml/pipeline/modal_app.py:598-665 | acquiring, beating and, on the way out, removing the lock are the protocol's steps on the shared record |
| Lease.RunLock.Play | ml/sentilyzer_ml/pipeline/modal_app.py:598-665 | so every admissible sequence of them leaves the lock the protocol says, and is safe |
| Lease.LeaseIsSafe | ml/sentilyzer_ml/pipeline/modal_app.py:158-178 | in every admissible run at most one orchestrator is live, beats and takeovers never change run or start, and every takeover begins within three hours of the first start |
| Lease.SilentHolderIsTakenOver | ml/sentilyzer_ml/pipeline/modal_app.py:173-176 | 300 s after a dead holder's last beat, or at once for its own input, any caller gets the same run from its first start; after the cap its own fresh one, started now |
| Lease.LiveHolderExcludesOthers | ml/sentilyzer_ml/pipeline/modal_app.py:633-641 | while a holder lives nobody else gets in |
| Lease.RefusalNamesTheHolder | ml/sentilyzer_ml/pipeline/modal_app.py:171-178 | beside a live holder an invocation is refused with the holder's run and the whole seconds since it first started |
| Lease.FinishFreesDeathDoesNot | ml/sentilyzer_ml/pipeline/modal_app.py:642-665 | a run that returns or raises frees the lock for a fresh one at once; one that is killed leaves it, and another caller is refused while its last beat is fresh |
| Lease.OldLocks | ml/sentilyzer_ml/pipeline/modal_app.py:171-178 | a lock without beats counts as beaten at its start, one without a start as past the cap |
| Lease.TruncateDropsTheFraction | ml/sentilyzer_ml/pipeline/modal_app.py:177 | the age is cut to whole seconds, towards zero |
| Lease.GapBoundIsExact | ml/sentilyzer_ml/pipeline/modal_app.py:175-176 | every admissible run keeps to one live orchestrator if and only if holders beat at gaps below 300 s |
| Lease.CapEndsExclusion | ml/sentilyzer_ml/pipeline/modal_app.py:171-172 | a run from the start in which a holder beats every minute for three hours and a second run starts beside it |
| Lease.EarlyRetryEndsExclusion | ml/sentilyzer_ml/pipeline/modal_app.py:173-174 | in every admissible run an invocation beside a live holder gets in if and only if it comes with the holder's own input |
| Lease.SlowBeatEndsExclusion | ml/sentilyzer_ml/pipeline/modal_app.py:175-176 | a run from the start, admissible for any gap of 300 s or more, that robs the holder alive |
| Cache.TTLCache.Get | api/internal/cache/cache.go:32-45 | the entry, moved to the front, or nothing, an expired entry removed |
| Cache.TTLCache.Set | api/internal/cache/cache.go:47-51 | the new entry in front, the entry used longest ago pushed out when full; one entry a key and never more than the size |
| Cache.HitsAgreeWithMap | api/internal/cache/cache.go:32-51 | over every sequence of operations a hit is what a plain expiring map would answer: eviction only turns hits into misses |
| Cache.WithRoomCacheIsMap | api/internal/cache/cache.go:18-51 | while no more keys were stored than fit, the cache is that map |
| Cache.StoredValueSurvives | api/internal/cache/cache.go:18-51 | a stored value is answered until it expires while fewer other keys than the size have been used since |
| Cache.EvictedExactlyWhenFull | api/internal/cache/cache.go:18-51 | after any uses of other keys a value is answered exactly while it has not expired and the keys stored or hit since, less those found expired, were always fewer than the size: the entry used longest ago is the one that goes |
| Cache.EvictedByStoresExactlyWhenFull | api/internal/cache/cache.go:18-51 | with other keys only stored, exactly while they are fewer than the size |
| CacheKey.KeyIsUnambiguous | api/internal/service/service.go:406-431 | two clean requests share a key exactly when they agree on topic and location up to trimming and case, limit, language, window, credentials, and the multisets of platforms and aspects |
| CacheKey.FingerprintUnambiguous | api/internal/connectors/credentials.go:42-54 | fingerprints agree exactly when the credentials do |
| CacheKey.ListedUnambiguous | api/internal/service/service.go:424-429 | sorted and joined, two clean lists agree exactly as multisets |
| CacheKey.ListAmbiguousIff | api/internal/service/service.go:424-429 | some other multiset of entries joins alike exactly when the list is empty, one empty entry, two or more entries, or one entry with a comma whose sides stand in order |
| CacheKey.KeyAmbiguousIff | api/internal/service/service.go:406-431 | a request without bars shares its key with a different question exactly when its platforms or its aspects read two ways |
| CacheKey.CommasAndEmptyEntriesCollide | api/internal/service/service.go:424-429 | for instance a comma inside an entry, and an empty entry |
| Fanout.Fanout | api/internal/service/service.go:351-404 | for every completion order: successful outputs concatenated in platform order, a warning a failed platform, late failures reported as timeouts, an error exactly when all failed |
| Fanout.FanoutInFull | api/internal/service/service.go:367-403 | an error exactly when every search failed, else the documents of those that succeeded, late or not, end to end; a warning for each failure with its own message, a timeout for one that outlived its deadline |
| Fanout.WarningsNameTheFailed | api/internal/service/service.go:389-399 | warnings name exactly the failed platforms, in order |
| Fanout.NoWarningMeansNoneFailed | api/internal/service/service.go:389-399 | no warning exactly when every platform succeeded |
| Fanout.DedupeByID | api/internal/service/service.go:433-448 | the documents at the first indices of their keys, in order |
| Fanout.DedupeKeepsOnePerPair | api/internal/service/service.go:433-448 | one document per platform and id, the first, in order of first occurrence, for platform names that cannot be confused: `KeysCollideIff` says which can, `BarInPlatformDropsADocument` what they would lose |
| Fanout.GatheredKeepOnePerPair | api/internal/connectors/bluesky.go:117 | so for everything connectors gather that stamp their documents with their own bar-free id, as each of them does |
| Aggregates.Aggregator.Add | api/internal/domain/domain.go:92-96 | count, sum and buckets are those of the scores added so far |
| Aggregates.Aggregator.Aggregate | api/internal/domain/domain.go:98-125 | the summary of those scores; nothing added gives the empty report |
| Aggregates.SummaryOfOne | api/internal/domain/domain.go:98-125 | the report of one score is that score, an unspecified label reading as neutral |
| Aggregates.SummaryMerges | api/internal/domain/domain.go:92-125 | sizes, label counts and polarity sums of two lists of scores add up in the report of both |
| Aggregates.ModalIsGreatest | api/internal/domain/domain.go:110-118 | the modal label is read off the reported counts: the greatest, neutral before positive before negative |
| Aggregates.ModalOf | api/internal/domain/domain.go:110-118 | the modal label is the one of greatest count, ties going to neutral, then positive, and is unique |
| Aggregates.AddUnder | api/internal/service/service.go:240-251 | the score reaches its own key's aggregator, made if missing, and no other |
| Aggregates.AggregateMap | api/internal/service/service.go:450-456 | one summary a key |
| Aggregates.Conserved | api/internal/service/service.go:228-252 | any measure that adds up over scores is conserved by splitting them by key |
| Aggregates.AggregatesAreConserved | api/internal/service/service.go:254-260 | reported sample sizes, counts of every label and polarity sums by key add up to the overall ones |
| Topic.Tally | api/internal/service/service.go:222-262 | each result pairs a document with its own score and row; the three tallies are the summaries of all scores, by platform and by aspect |
| Topic.Fetch | api/internal/service/service.go:179-262 | no platforms, all failed, no documents, a failed scoring, or the analysis of the deduplicated documents |
| Service.Service.AnalyzeTopic | api/internal/service/service.go:167-270 | a blank topic is refused, a hit is answered, a miss is fetched, and exactly the complete answers with documents are stored, for the request that asked |
| ServiceTheorems.ServedInFull | api/internal/service/service.go:167-270 | a positive limit is keyed and fetched as asked, any other as twenty; exactly a blank topic is refused; a hit is answered, a miss fetched, and exactly a complete answer with documents stored |
| ServiceTheorems.AskedAgainIsHit | api/internal/service/service.go:173-268 | asked again within the time to live, and before other keys filled the cache, a complete answer is given again without a fetch |
| ServiceTheorems.HitsAreCompleteAndFresh | api/internal/service/service.go:174-177 | after every sequence of calls a hit is the last value stored under the key, within the time to live, never partial, never without documents |
| ServiceTheorems.HitsAnswerTheQuestionAsked | api/internal/service/service.go:264-268 | the request a hit was stored for asks for the same thing as the one it answers, if both are clean, or if the latter has no bars and lists that read one way; only the spacing and case of the topic may differ; with two positive limits the limit is the same too |
| ServiceTheorems.FetchIsIdeal | api/internal/service/service.go:179-262 | end to end a fetch is the pointwise scoring, in platform order, of the first document of each platform and id: batching, scattering and the order of completion leave no trace |
| ServiceTheorems.FetchScoresEachDocument | api/internal/service/service.go:199-240 | each result holds the worker's score of its own text, and one for each aspect asked for, in order |
| ServiceTheorems.FetchedInFull | api/internal/service/service.go:179-197 | no connectors and all failed are errors; otherwise an answer has the documents of those that succeeded, a warning for each that failed, and is partial exactly if one did |
| ServiceTheorems.AnsweredOrFailed | api/internal/service/service.go:205-224 | an answer with documents means the worker answered every batch and every request in full; a scoring error means it did not |
| ServiceTheorems.FetchKeepsOnePerPair | api/internal/service/service.go:199-203 | whatever the worker does, an answer's documents are, of all that were found, the first of each platform and id, in order |
| ServiceTheorems.StoredIsIdeal | api/internal/service/service.go:264-268 | a stored answer is that ideal one, with no platform failed |
| ServiceTheorems.AnalysisIsConserved | api/internal/service/service.go:222-262 | by-platform sizes, label counts and polarity sums add up to the overall ones, the sample is the results, by-aspect sizes add up to the scored pairs |
| ServiceTheorems.BreakdownsAreTheirOwn | api/internal/service/service.go:226-260 | each platform's aggregate is that of its own results' scores, each aspect's that of the scores given for it, and nothing else has one |
| Rake.MinePhrases | ml/sentilyzer_ml/pipeline/aspects.py:44-65 | the scan yields the candidate phrases of every run, in order |
| Rake.SegmentsAreMaximal | ml/sentilyzer_ml/pipeline/aspects.py:52-61 | it finds exactly the maximal stopword-free segments, left to right |
| Rake.CandidatesAreSegments | ml/sentilyzer_ml/pipeline/aspects.py:44-65 | a candidate is exactly such a segment of at most three words of at least three letters, filtered whole |
| Rake.CandidatesInOrder | ml/sentilyzer_ml/pipeline/aspects.py:44-65 | candidates stand in the order of the text, repeats included |
| Rake.WordStats | ml/sentilyzer_ml/pipeline/aspects.py:81-88 | the two maps hold each word's occurrences and summed phrase lengths |
| Rake.StatisticsCount | ml/sentilyzer_ml/pipeline/aspects.py:81-88 | a word's frequency is the number of its occurrences over all candidates, its degree the number of words that stand in one candidate with one |
| Rake.DegreeBetween | ml/sentilyzer_ml/pipeline/aspects.py:81-88 | a word's degree lies between its frequency and three times it |
| Rake.ScoreOfCandidateWord | ml/sentilyzer_ml/pipeline/aspects.py:94 | a word's score times its frequency is its degree |
| Rake.ScoreAppend | ml/sentilyzer_ml/pipeline/aspects.py:94 | the scores of a phrase's words add up |
| Rake.MineAspects | ml/sentilyzer_ml/pipeline/aspects.py:68-97 | the keys of the best ranked entries, none for no phrases or a cap of zero |
| Rake.RankedCandidates | ml/sentilyzer_ml/pipeline/aspects.py:90-96 | what is ranked is every candidate once, with its own score and first position |
| Rake.RankedScores | ml/sentilyzer_ml/pipeline/aspects.py:90-96 | every ranked entry names a candidate and its score is the sum, over its words, of degree over frequency |
| Rake.PhraseIsItsWords | ml/sentilyzer_ml/pipeline/aspects.py:92 | an aspect is its words with single spaces between them |
| Rake.MinedIsTop | ml/sentilyzer_ml/pipeline/aspects.py:96-97 | distinct, at most the cap, from best to worst, and no omitted candidate outranks a returned one |
| Rake.MinedScores | ml/sentilyzer_ml/pipeline/aspects.py:90-97 | a returned phrase of L words scores between L and 3L |
| Rake.PhraseKeysDistinct | ml/sentilyzer_ml/pipeline/aspects.py:92-93 | joined keys do not confuse phrases |
| Negotiate.ParseAccept | api/internal/server/negotiate.go:57-89 | malformed parts skipped, aliases folded, weights read with a default of one |
| Negotiate.KnownSpellings | api/internal/server/negotiate.go:30-44 | the twelve known spellings and the type each is read as, weight one unless given |
| Negotiate.OtherSpellings | api/internal/server/negotiate.go:57-89 | any other type is read as spelled, one without a slash dropped, and the entries of a header one by one in order |
| Negotiate.Quality | api/internal/server/negotiate.go:95-115 | the weight of the most specific matching range, the first of equals |
| Negotiate.MostSpecificRangeDecides | api/internal/server/negotiate.go:91-115 | the precedence of RFC 9110 section 12.5.1 written out: the first exact range, else type/\*, else \*/\*, else no match, wherever the ranges stand |
| Negotiate.WeightInFull | api/internal/server/negotiate.go:91-115 | so an offer weighs what the first range naming it exactly, else its type, else everything says |
| Negotiate.AnswerInFull | api/internal/server/negotiate.go:127-158 | the first offer without ranges, nothing when all are refused, JSON when a literal text/html weighs no less than any offer, else the earliest offer of greatest weight |
| Negotiate.NegotiateRanges | api/internal/server/negotiate.go:127-158 | the earliest offer of greatest positive weight, the default without ranges, JSON for a browser; refused exactly when ranges exist and every offer is refused; an unaccepted type exactly when the browser exception overrules |
| Negotiate.NegotiateHeader | api/internal/server/negotiate.go:127-158 | the same of the header's parsed entries |
| Negotiate.SpellingIsIrrelevant | api/internal/server/negotiate.go:68-75 | headers that spell known types differently are the same ranges, and so get the same answer |
| Negotiate.NegotiatedIsUnique | api/internal/server/negotiate.go:117-158 | those rules determine the answer |
| Negotiate.QualityIgnoresOrder | api/internal/server/negotiate.go:91-115 | with distinct folded types a weight does not depend on the order of the ranges |
| Negotiate.OrderOfRangesIsIrrelevant | api/internal/server/negotiate.go:91-158 | nor does the answer |
| Negotiate.RepeatedTypeMakesOrderMatter | api/internal/server/negotiate.go:110-112 | of two ranges of one type the first decides, so there the order matters |
| Negotiate.BrowserRuleOverridesRefusal | api/internal/server/negotiate.go:154-156 | a header that refuses JSON and is answered in JSON |

## Left out

- HTTP, gRPC, GraphQL, websocket, object-store and Modal calls and all encoders: only the data they deliver appears.
- Numerics of torch, ONNX and softmax, padding, tokenizers and the heuristic stub: the student's step and the worker's heads are functions.
- Floating-point rounding: scores, weights, fractions and clocks are exact reals without NaN, and counters are unbounded integers.
- The probabilities map of a score, document metadata, posting times and authors: carried along by the code, read by none of it.
- Losses and the CUDA generator state: losses are not checkpointed by the code, and the generator is part of the one value that stands for model, optimizer and RNG.
- Gzip buffering, part-file names and rotation, and rows lost by a hard crash after a cursor save: rows are durable once written, as on drops and clean restarts.
- Reconnect backoff, the time between cursor saves and malformed frames: which saves fall due is a parameter, a skipped frame leaves no trace.
- The stored `author` column, which the firehose does not fill, and the per-platform counts of the prep manifest.
- Database schema inference, absent columns and null texts; a flush is one atomic step although the first write of a label file is not.
- The non-atomic read and write of the run lock, the race between the last beat and the final release, and the manual unlock: outside the lease's stated assumptions.
- Splitting text into word runs and an Accept header into parsed entries: the runs and entries are inputs.
- `AnalyzeText`, which scores given texts the same way, `selectPlatforms`, connector searches, timeouts as durations and the wording of errors: the selected connectors and how their searches end are inputs.
- Simultaneous calls of one service: the cache is guarded by a lock, so calls on it are a sequence; two concurrent misses on one key are two fetches and two stores.
- Model hot swap, the managed backend's routing, the evaluation gate, holdout sizes, rate limits and configuration: short arguments beside these.
- CacheKey.KeyAmbiguousIff: stated for requests without bars in their texts and NULs in their credentials; with those, the condition is that the joined text can be cut into fields another way, which only repeats the question.
