# Ketebe: verified models of the retrieval platform's core protocols

Ketebe is a vector data platform. This project models the parts of it that carry the hardest
promises, and proves those promises for every input, every run and every reachable state:

- **Pagination** (`Predicate`, `Text`, `Cursor`, `CursorWriter`): predicates over metadata, the
  canonical string of a query with a parser that reads it back, and the cursors bound to it.
- **The record store** (`Store`): versions of records by sequence number, of which the latest counts,
  over segments and recent mutations.
- **Embedding migration** (`Migration`, `Cutover`, `MigrationService`): the staged snapshot, its
  incremental refresh, and the cutover as a transition system with crashes between any two steps;
  the service methods are proved to perform runs of that system.
- **Kafka ingestion** (`Kafka`, `KafkaIngestion`): flushing a partition around messages that do not
  decode, the commit frontier, and convergence under redelivery.
- **Evaluation** (`Eval`, `EvalReport`): ranking metrics, aggregation and comparison.
- **Shutdown** (`Lifecycle`): the write gate and the drain protocol under every interleaving.
- **Documents** (`Chunking`, `ChunkStore`): cutting texts, naming chunks, replacing and deleting the
  chunks of a document.
- **Embedding requests** (`Embedding`, `EmbeddingCache`, `CachedEmbedding`, `CacheRequests`): batches,
  retries, the cache of vectors and requests through it.
- **Governance** (`Governance`): rate limits by fixed windows.
- **Backups** (`FileTree`, `Inventory`, `Backup`): copying a directory tree, listing it, verifying and
  restoring it.
- **Tenancy** (`Authorization`, `Namespaces`, `CollectionCreation`): policies and names of all projects,
  and what a failed creation leaves behind.

`Wrappers` and `Collections` hold shared types and facts. Values are datatypes with functions and
lemmas; objects that the program updates in place are classes whose methods are proved against those
functions. Outcomes of I/O are nondeterministic.

## What the proofs show about the code

Where a promise does not hold as it stands, the exact condition is proved:

- A Kafka message without a payload blocks its partition even with a dead-letter topic, although the
  classification of dead letters has a class for it (`kafka_ingestion.rs:1042-1059` against
  `kafka_ingestion.rs:1092-1100`); see `FlushPartitionWithDlq`.
- Recall and nDCG can exceed 1 for a ranking that repeats a record, which nothing rejects; see
  `RecallBoundedIff` and `NdcgBoundedIff`.
- Asking for the status of a migration while its activation runs resets it to ready although the
  activation goes on, exactly if a usable journal exists and the records are not yet published; on a
  retry that is so before the journal is written. See `ConcurrentStatusIsReadyIff`,
  `ReadyBeforeJournalOnRetry`, and `ConcurrentStatusIsNotSafe` for what a crash then leaves behind.
  Records that were on the target profile beforehand, or a journal that an earlier attempt has left,
  can turn recovery into a failure; see `CrashAfterJournalIff`.
- An activation undoes writes to staged records between its check and its publication; see
  `NothingIsLostIff` and `UndoneWrite`.
- A consumer that flushes a partition after losing it can undo what the next one has applied; see
  `LateFlushIsHarmlessIff`.
- A failure to seal a collection is reported by operations whose writes have taken effect, but only
  if the recent mutations reach the threshold; see `ReplaceParentChunks` and `DeleteParentDocument`.
- Requests for several texts use the cache in an order under which a larger cache may miss what a
  smaller one finds, unless no request asks for more keys than the difference of the capacities plus
  one; see `LargerCacheServesIff`.
- Texts that differ in line endings only are answered with one another's vectors, which is harmless
  for every provider exactly if no text contains a line ending; see `ResultIsExactIff`. For the same
  reason a refresh of a staged snapshot, which goes through the cache, may differ from a rebuild,
  which does not; see `RefreshIsRebuildIff`.
- The rate limiter admits at most one request fewer than twice its limit in any interval of the
  length of its window. This bound is reached. Requests out of order keep to it exactly if they are
  at most one tick late or the limit is one request; see `FewerThanTwice`, `BurstReachesBound` and
  `KeepsBoundIff`.
- A failed creation of a collection leaves a trace exactly if the catalog file cannot be written, the
  policy file cannot be written for a new claim, no identity can be drawn for the first name of a
  project, or the project had an empty entry; see `LeavesNoTrace` and `CreateCollection`.
- The order of operands of a connective matters exactly when operands disagree on how they fail; see
  `OrderIrrelevantIff`.

Assumptions are stated where they are used. The main ones: SHA-256 does not collide on the strings
that are compared; foreground writes do not touch staged records between their publication and the end
of the cutover, and put no record on the target profile before it is active; the publication of staged vectors and the change of the
active profile are atomic; the offsets of a partition increase; names in directories contain neither
slash nor backslash; requests reach the rate limiter at most one tick out of order.

## Model

| member | source | states |
|---|---|---|
| `Predicates.ResolveLoop` | crates/ketebe-core/src/predicate.rs:29-38 | Walking down a field path with a loop variable finds what the recursive reading of the path finds, and nothing when a step is no object or has no such field. |
| `Predicates.DeMorgan` | crates/ketebe-core/src/predicate.rs:58-100 | A negated conjunction is the disjunction of the negations and the other way round, including which of several possible errors is returned. |
| `Predicates.DoubleNegation` | crates/ketebe-core/src/predicate.rs:58-100 | Negating twice changes neither the answer nor the error. |
| `Predicates.Flatten` | crates/ketebe-core/src/predicate.rs:58-100 | A conjunction inside a conjunction, at any position, can be spliced into it; likewise for disjunctions. |
| `Predicates.ReorderAll` | crates/ketebe-core/src/predicate.rs:58-100 | Reordering a conjunction never turns true into something else nor something else into true; it can only trade one operand that is not true for another, an error included. |
| `Predicates.ReorderAny` | crates/ketebe-core/src/predicate.rs:58-100 | The same for disjunctions with false. |
| `Predicates.OrderIrrelevantIff` | crates/ketebe-core/src/predicate.rs:58-100 | A conjunction means the same in every order if and only if all operands that are not true give the same answer or error. |
| `Predicates.OrderIrrelevantForOrIff` | crates/ketebe-core/src/predicate.rs:58-100 | A disjunction means the same in every order if and only if all operands that are not false agree. |
| `Predicates.OrderingFreeNeverFails` | crates/ketebe-core/src/predicate.rs:128-158 | A predicate without ordering comparisons never fails. |
| `Predicates.OrderingLeaves` | crates/ketebe-core/src/predicate.rs:66-158 | What `lt`, `lte`, `gt` and `gte` answer: numbers by the order of their IEEE bit patterns written out, strings by the first difference or as a proper prefix; an absent field gives false, a NaN or values of kinds without an order the error that names the kinds. |
| `Predicates.OtherLeaves` | crates/ketebe-core/src/predicate.rs:60-81 | What the other leaves answer: `ne` if and only if the field is there and not equal, `in` if and only if some candidate is equal, and false for an absent field. |
| `Predicates.SameMeans` | crates/ketebe-core/src/metadata.rs:4-12 | Values are equal if and only if they are of one kind and equal in it, element by element and field by field; zeros of either sign are equal, and NaN equals nothing. |
| `Predicates.StringsCompare` | crates/ketebe-core/src/predicate.rs:128-158 | One string is below another if and only if it is a proper prefix or has the smaller character at the first difference. |
| `Predicates.DescendIs` | crates/ketebe-core/src/predicate.rs:29-38 | In metadata without repeated keys a path finds a value if and only if there is a chain of objects with fields of these names that leads to it. |
| `Predicates.NegationMeans` | crates/ketebe-core/src/predicate.rs:98 | A negation turns an answer around and passes an error on. |
| `Predicates.ConnectivesMean` | crates/ketebe-core/src/predicate.rs:82-97 | A conjunction or disjunction answers with its first operand that is not true or not false. |
| `Text.ParseStringText` | crates/ketebe-server/src/cursor.rs:278-282 | A length-prefixed string, whatever follows it, is read back and leaves what follows. |
| `Cursor.ParseMetadataText` | crates/ketebe-server/src/cursor.rs:249-277 | The text of a metadata value, whatever follows it, is read back as that value and leaves what follows. |
| `Cursor.ParsePredicateText` | crates/ketebe-server/src/cursor.rs:193-225 | The text of a predicate, whatever follows it, is read back as that predicate and leaves what follows. |
| `Cursor.ParseOperandsText` | crates/ketebe-server/src/cursor.rs:234-242 | The same for the operands of a connective up to its closing parenthesis. |
| `Cursor.KeywordsArePrefixFree` | crates/ketebe-server/src/cursor.rs:193-242 | No keyword with its bracket begins another one, `lt[` and `lte[` included. |
| `Cursor.ParseCanonicalText` | crates/ketebe-server/src/cursor.rs:159-191 | The canonical query string can be decoded to the collection, metric, execution, vector bits and predicate, with an absent profile read as `default@1`. |
| `Cursor.CanonicalTextIsInjective` | crates/ketebe-server/src/cursor.rs:159-282 | Two queries have the same canonical string if and only if they agree in collection, metric, execution, vector bits, filter and profile, where an absent profile is the same as `default@1`. |
| `Cursor.CursorContinuesOnlyItsQuery` | crates/ketebe-server/src/cursor.rs:77-148 | A cursor issued for one query is accepted for another if and only if both agree in this way and in the snapshot, and the cursor is at most 15 minutes old and at most one minute ahead; which error is returned otherwise. |
| `Cursor.OnlyThisVersion` | crates/ketebe-server/src/cursor.rs:110-148 | A cursor is refused as of an unsupported version if and only if it is not of version 1, whatever else it says. |
| `CursorWriter.PushPredicate` | crates/ketebe-server/src/cursor.rs:193-225 | Appending to the buffer adds exactly the text of the predicate. |
| `CursorWriter.PushMetadata` | crates/ketebe-server/src/cursor.rs:249-277 | Appending to the buffer adds exactly the text of the value. |
| `CursorWriter.WriteCanonical` | crates/ketebe-server/src/cursor.rs:159-191 | The string built up in the buffer is the canonical text. |
| `Store.FoldGivesLatest` | crates/ketebe-server/src/management.rs:192-240 | The fold keeps, for exactly the ids that occur, a version that no other version of the id exceeds. |
| `Store.FirstCounts` | crates/ketebe-server/src/management.rs:229-240 | Of versions with the same sequence number the one visited first counts. |
| `Store.EntriesAre` | crates/ketebe-server/src/embedding_migration.rs:619-658 | The versions of a collection are exactly the records and tombstones in its segments, tombstones without a value. |
| `Store.OrderDoesNotMatter` | crates/ketebe-server/src/management.rs:192-240 | Folding depends only on which versions there are, not on their order or on how segments hold them, when no two versions of a record share a sequence number. |
| `Store.LatestOfConcatenation` | crates/ketebe-server/src/management.rs:229-240 | The outcome of folding two lists is determined by the outcomes of folding each. |
| `Store.NewerEntriesWin` | crates/ketebe-server/src/management.rs:229-240 | Versions newer than all before them win for their ids and leave all other ids alone. |
| `Store.FoldSegments` | crates/ketebe-server/src/embedding_migration.rs:619-658 | The loops over the segments of a collection, which skip other collections, compute that fold. |
| `Store.LatestStateCounts` | crates/ketebe-server/src/management.rs:192-227 | Live records are counted right, and live records and tombstones together number the distinct ids that ever occurred. |
| `Store.FromMutations` | crates/ketebe-storage/src/segment.rs:69-124 | Sealing succeeds if and only if there are mutations, all of one collection, and their sequence numbers increase; the segment then answers like the mutations. |
| `Migration.CatchUp` | crates/ketebe-server/src/embedding_migration.rs:327-378 | The incremental refresh stages one entry for each live record, keeps those that are current, and embeds the others through the cache of vectors, so that each holds the vector of a text with the key of its own; the count is the number of ids added, refreshed or dropped; an error is that of a rebuild or the provider failing. If nobody else uses the cache, entries and cache are determined. |
| `Migration.ReconciledMeans` | crates/ketebe-server/src/embedding_migration.rs:327-378 | Which ids the count is of: live records of whose current version there is no entry, and entries without a live record. |
| `Migration.RefreshIsRebuildIff` | crates/ketebe-server/src/embedding_migration.rs:327-378 | The rebuild asks the provider, the refresh the cache. A refresh of an exact snapshot yields what a rebuild yields, entry by entry and in error, for every correct cache state if and only if some record lacks its text or the provider depends on nothing of the changed texts but their keys. |
| `Migration.RefreshIsRebuild` | crates/ketebe-server/src/embedding_migration.rs:327-378 | If the provider depends on nothing of the changed texts but their keys, the refresh yields what a rebuild yields whatever other requests do to the cache meanwhile. |
| `Migration.RebuildStagesEachRecord` | crates/ketebe-server/src/embedding_migration.rs:677-710 | A rebuild stages one entry per listed record, at its current version, with the embedding of its text; which record a failed one names. |
| `Migration.StagesCover` | crates/ketebe-server/src/embedding_migration.rs:327-378 | A build or a refresh has an entry for every live record and for nothing else, each once. |
| `Migration.CheckCoversEveryRecord` | crates/ketebe-server/src/embedding_migration.rs:446-463 | A snapshot of distinct ids that passes the length check and the check of each entry covers every live record. |
| `Migration.StagesPassCheck` | crates/ketebe-server/src/embedding_migration.rs:446-467 | Right after a build or a refresh the check passes. |
| `Cutover.BuiltSnapshotIsInitial` | crates/ketebe-server/src/embedding_migration.rs:677-730 | Writes that arrive while the snapshot is built do not spoil it, and exactly when the migration then starts out as the other results suppose. |
| `Cutover.NextKeepsInv` | crates/ketebe-server/src/embedding_migration.rs:327-617 | Every persist, publish, finalize, crash, recovery step and foreground write keeps the invariant of the protocol. |
| `Cutover.RunKeepsInv` | crates/ketebe-server/src/embedding_migration.rs:327-617 | The invariant holds after any sequence of such steps. |
| `Cutover.RecoveryIsAllOrNothing` | crates/ketebe-server/src/embedding_migration.rs:545-617 | After any run, a crash while activating is recovered either to nothing (ready, no staged record on the target profile) or to all (activated, target profile active, every staged record with its staged vector); before the journal is written recovery refuses and changes nothing; recovering twice is recovering once. |
| `Cutover.InterruptedRecoveryAgrees` | crates/ketebe-server/src/embedding_migration.rs:567-606 | A crash inside recovery changes nothing about where the next recovery ends. |
| `Cutover.ActivatedMeansAll` | crates/ketebe-server/src/embedding_migration.rs:466-520 | However a migration becomes activated, every staged record then holds its staged vector and the snapshot is not empty. |
| `Cutover.ReadyMeansNothing` | crates/ketebe-server/src/embedding_migration.rs:435-520 | A migration that is ready has left the collection and its records alone. |
| `Cutover.CrashAfterPublication` | crates/ketebe-server/src/embedding_migration.rs:435-520 | There are runs that crash while activating, and recovery completes a cutover whose records were published. |
| `Cutover.CrashAfterJournalIff` | crates/ketebe-server/src/embedding_migration.rs:545-617 | Without supposing anything of the records or of how far the journal says an earlier attempt got: while the source profile is active, recovery ends as ready if and only if no staged record is on the target profile with its staged vector already and the journal says prepared, as activated if and only if there are entries and all are, and as failed otherwise. |
| `Cutover.NothingIsLostIff` | crates/ketebe-server/src/embedding_migration.rs:446-502 | Others may write between the check and the publication, which works with what the check has read: it leaves the records and their texts as they are if and only if no write since the check has removed a staged record or given it another text. |
| `Cutover.UndoneWrite` | crates/ketebe-server/src/embedding_migration.rs:446-520 | A run to the end of an activation that undoes such a write. |
| `Cutover.ConcurrentStatusIsNotSafe` | crates/ketebe-server/src/embedding_migration.rs:294-301 | If the status is reported as ready while an activation goes on, the activation publishes under that status, and a crash right after leaves neither nothing nor all of the cutover, which no later status call notices. |
| `Cutover.ConcurrentStatusIsReadyIff` | crates/ketebe-server/src/embedding_migration.rs:435-617 | At every point of an activation: asking for the status reports ready if and only if a usable journal exists and the records are not yet published; it reports activated exactly from the publication on. |
| `Cutover.ReadyBeforeJournalOnRetry` | crates/ketebe-server/src/embedding_migration.rs:294-520 | On a retry the journal of the attempt before is still there: a run in which the status is reported as ready before the retry has written its own journal. |
| `MigrationService.Service.Start` | crates/ketebe-server/src/embedding_migration.rs:166-255 | A migration is refused, and nothing changes, exactly if its target is active, has no registered provider or one of another dimension, or another migration is building, ready or activating. It is also refused while one is registered as being built in this process, but then the state file has been overwritten already. Otherwise only a failing write keeps it from starting. |
| `MigrationService.Service.BuildSnapshot` | crates/ketebe-server/src/embedding_migration.rs:677-730 | Whenever the migration is reported ready, exactly a rebuild of the listed records is stored; a record that cannot be embedded leaves the stored snapshot alone; unless a write fails, it succeeds if and only if all listed records have their texts. |
| `MigrationService.Service.CatchUp` | crates/ketebe-server/src/embedding_migration.rs:327-408 | Performs a run of the protocol; on success the snapshot passes the check and the count is that of the reconciled ids; an interrupted cutover is recovered first. Unless an operation fails, it succeeds if and only if the migration is ready once recovered, the provider matches and all records have their texts. |
| `MigrationService.Service.CheckPending` | crates/ketebe-server/src/embedding_migration.rs:446-467 | The check loop succeeds if and only if the snapshot has as many entries as there are records and each entry is current and has its text; which error is returned otherwise. |
| `MigrationService.Service.CutOver` | crates/ketebe-server/src/embedding_migration.rs:478-520 | The steps after the check perform a run of the protocol under failing operations and any writes that the protocol allows others, and succeed if nothing fails and there is a record; the journal then says committed. |
| `MigrationService.Service.Activate` | crates/ketebe-server/src/embedding_migration.rs:435-520 | Performs a run of the protocol under failing writes and with writes by others before the check and between all steps after it. Success means that every record read by the check was moved with its text of that time and its staged vector, a changed source that none was moved. With neither failures nor other writers it succeeds if and only if a refresh does and there is a record. |
| `MigrationService.Service.RecoverCutover` | crates/ketebe-server/src/embedding_migration.rs:545-617 | Performs recovery steps that end, on success, in the state that recovery is specified to reach. |
| `MigrationService.Service.StatusOf` | crates/ketebe-server/src/embedding_migration.rs:294-320 | On an installation that only this service touched, asking for the status never ends in failure of the migration and never reports activating; unless an operation fails, it succeeds if and only if no activation was interrupted before its journal was written. |
| `Kafka.AtLeastOnceConverges` | crates/ketebe-server/src/kafka_ingestion.rs:186-328 | After any series of attempts, each resuming at the committed offset and stopping anywhere, a completed pass leaves the records as if every message had been delivered once in order. |
| `Kafka.LettersAre` | crates/ketebe-server/src/kafka_ingestion.rs:992-1007 | Over any attempts only messages that do not decode are dead-lettered, and each of those that is committed has been. |
| `Kafka.ChangeMeans` | crates/ketebe-server/src/kafka_ingestion.rs:992-1041 | What one message does: the document of its payload is stored under its id, a deletion removes that id, and no other document changes. |
| `Kafka.DeliverAllMeans` | crates/ketebe-server/src/kafka_ingestion.rs:992-1041 | After delivering all messages in order, what the last message for an id says of it holds. |
| `Kafka.LateFlushIsHarmlessIff` | crates/ketebe-server/src/kafka_ingestion.rs:867-904 | A partition has been taken over, and its former consumer then flushes what it still holds without its commit counting: whatever the messages, the records end up right if and only if it flushes nothing or reaches at least as far as the new consumer has come. |
| `Kafka.LateFlushUndoes` | crates/ketebe-server/src/kafka_ingestion.rs:867-904 | Otherwise two messages for one record of which the earlier one is left standing. |
| `Kafka.LateCommitConverges` | crates/ketebe-server/src/kafka_ingestion.rs:867-904 | If the late commit counts, whoever resumes there completes the records rightly, however far the new consumer had gone on. |
| `KafkaIngestion.ValidatePartitionBatch` | crates/ketebe-server/src/kafka_ingestion.rs:551-569 | A batch is accepted if and only if it is not empty, of one partition and of increasing offsets. |
| `KafkaIngestion.FirstPoison` | crates/ketebe-server/src/kafka_ingestion.rs:957-962 | Finds the first message that does not decode. |
| `KafkaIngestion.Consumer.ApplyPartitionBatch` | crates/ketebe-server/src/kafka_ingestion.rs:186-328 | All messages are decoded before any is applied. On a write failure exactly a prefix has been applied, to which the message whose write was reported as failed may belong; the counter of applied messages is short by that one at most. |
| `KafkaIngestion.Consumer.FlushPartitionWithDlq` | crates/ketebe-server/src/kafka_ingestion.rs:947-1011 | Writes, publications and commits that are reported as failed may have taken effect. On every exit a prefix of the buffer has been handled once and in order, applied or dead-lettered, everything below the last committed offset is handled, committed offsets rise, and what has left the buffer is committed; on success received = applied + dead-lettered = batch size. Without failures it succeeds if and only if every message has a payload. |
| `KafkaIngestion.Consumer.FlushPartition` | crates/ketebe-server/src/kafka_ingestion.rs:906-945 | The same under either policy; blocking succeeds if and only if all messages decode. |
| `KafkaIngestion.Consumer.Run` | crates/ketebe-server/src/kafka_ingestion.rs:711-829 | Over any run of the ingestion loop the records are those of a prefix of the stream and the committed offsets lie within it; without failures it ends well if every message can be handled. When it ends well, fewer messages than a batch are waiting, and none after a pause: all messages received are then handled and committed. |
| `KafkaIngestion.ReceivedAre` | crates/ketebe-server/src/kafka_ingestion.rs:711-829 | How many messages the loop has received: one for each time it asked, until the stream ends. |
| `KafkaIngestion.Consumer.RunRepeatedly` | crates/ketebe-server/src/kafka_ingestion.rs:711-829 | Consecutive runs, each resuming where the committed offset says after whatever ended the one before, are attempts as in `AtLeastOnceConverges`; once everything is committed the records are as if every message had been delivered once in order. Only messages that do not decode are dead-lettered, and every committed one of these is so at least once. |
| `KafkaIngestion.Consumer.ResumeAt` | crates/ketebe-server/src/kafka_ingestion.rs:831-841 | The first message at or beyond the offset committed last is the one behind the last committed message. |
| `Eval.DivisionDiscounts` | crates/ketebe-bench/src/eval.rs:342-348 | Dividing gains by a positive scale that grows with the rank is a discount as the other results suppose. |
| `Eval.DcgAtMostIdeal` | crates/ketebe-bench/src/eval.rs:286-348 | The discounted gain of a ranking without repeats never exceeds the ideal one, for every k and every falling discount. |
| `Eval.DcgIdealIff` | crates/ketebe-bench/src/eval.rs:286-348 | It reaches the ideal one if and only if the gains are the ideal ones at every position. |
| `Eval.NdcgIsOneIff` | crates/ketebe-bench/src/eval.rs:286-340 | nDCG is 1 if and only if the gains are the ideal ones at every position. |
| `Eval.MetricsAreProportions` | crates/ketebe-bench/src/eval.rs:286-340 | Recall, precision, hit rate, reciprocal rank and nDCG lie between 0 and 1. |
| `Eval.PrecisionAndRecallMean` | crates/ketebe-bench/src/eval.rs:286-307 | Precision is the number of ranked records among the first k that are judged relevant over k, recall the same number over all relevant records, or 1 if there are none. |
| `Eval.HitRateAndRankMean` | crates/ketebe-bench/src/eval.rs:308-318 | The hit rate is 1 if and only if one of the first k records is judged relevant, and the reciprocal rank is that of the first such record; both are 0 if there is none. |
| `Eval.NdcgMeans` | crates/ketebe-bench/src/eval.rs:319-340 | nDCG is the discounted gain of the first k ranked records over that of the best k relevance grades, and 1 if that is 0. |
| `Eval.RankedGradesMean` | crates/ketebe-bench/src/eval.rs:286-300 | The grades that enter are those judged for the first k records in order, 0 for records that are not judged. |
| `Eval.DcgMeans` | crates/ketebe-bench/src/eval.rs:342-348 | Each further grade adds two to the power of the grade, less one, discounted at its position. |
| `Eval.IdealMeans` | crates/ketebe-bench/src/eval.rs:319-340 | The ideal grades are the largest ones, in falling order. |
| `Eval.RetrievedAtMostRelevant` | crates/ketebe-bench/src/eval.rs:296-307 | A ranking without repeats retrieves at most as many relevant records as there are. |
| `Eval.RecallBoundedIff` | crates/ketebe-bench/src/eval.rs:286-307 | Nothing rejects a ranking that repeats a record; recall is at most 1 under every set of judgments if and only if the first k records do not repeat. |
| `Eval.NdcgBoundedIff` | crates/ketebe-bench/src/eval.rs:286-340 | The same for nDCG: it is at most 1 under every set of judgments if and only if the first k records do not repeat. |
| `EvalReport.Validate` | crates/ketebe-bench/src/eval.rs:21-65 | A dataset is accepted if and only if it is well-formed; which error is returned otherwise, and for which query. |
| `EvalReport.EvaluateRankings` | crates/ketebe-bench/src/eval.rs:350-389 | Evaluation succeeds if and only if the dataset is well-formed, the run is named, k is positive and there is a ranking for exactly each query; the aggregate is the mean of the reports; which error is returned otherwise. |
| `EvalReport.ReportMeans` | crates/ketebe-bench/src/eval.rs:367-379 | The report of a query holds the metrics of its own judgments and ranking. |
| `EvalReport.AggregateMeans` | crates/ketebe-bench/src/eval.rs:156-174 | Each aggregate metric is the mean of that metric over all queries. |
| `EvalReport.ByQueryMeans` | crates/ketebe-bench/src/eval.rs:555-601 | Metrics are looked up by the id of the query they were reported for. |
| `EvalReport.AggregateIsProportion` | crates/ketebe-bench/src/eval.rs:156-174 | The aggregate metrics lie between 0 and 1 as well. |
| `EvalReport.CompareReports` | crates/ketebe-bench/src/eval.rs:555-601 | Which queries are improved, regressed and unchanged by the tolerance, and that they add up to all queries; the differences of all metrics; reports of different datasets or queries are refused. |
| `Lifecycle.RunKeepsInv` | crates/ketebe-server/src/lifecycle.rs:39-157 | The invariant of counter, guards and waiters holds under every interleaving of writers, waiters and phase changes. |
| `Lifecycle.CounterCountsGuards` | crates/ketebe-server/src/lifecycle.rs:39-107 | The counter is the number of live guards in every reachable state. |
| `Lifecycle.AliveIff` | crates/ketebe-server/src/lifecycle.rs:39-107 | A write is alive if and only if it was admitted and not dropped since. |
| `Lifecycle.PhaseNeverGoesBack` | crates/ketebe-server/src/lifecycle.rs:109-135 | In no run does the phase go back. |
| `Lifecycle.PhaseAfter` | crates/ketebe-server/src/lifecycle.rs:48-135 | The phase after a run, whatever the order of its steps: stopped if it was ever stopped, else draining if draining ever began, else ready if it was ever marked ready. |
| `Lifecycle.NoAdmissionWhileDraining` | crates/ketebe-server/src/lifecycle.rs:94-127 | Once draining has begun no write is admitted. |
| `Lifecycle.DrainedStaysDrained` | crates/ketebe-server/src/lifecycle.rs:94-157 | Once drained, drained for good. |
| `Lifecycle.NoLostWakeup` | crates/ketebe-server/src/lifecycle.rs:149-157 | With no write active and no notification under way, no waiter is left asleep without one. |
| `Lifecycle.WaitersReturn` | crates/ketebe-server/src/lifecycle.rs:149-157 | Under every schedule in which writes end, notifications happen and waiters go on, every waiter of a draining server returns. |
| `Lifecycle.ReturnsOnlyWhenDrained` | crates/ketebe-server/src/lifecycle.rs:149-157 | In every run: when a waiter returns, no write is alive, and if draining has begun by then, none ever is again. |
| `Lifecycle.Gate.TryAdmitForegroundWrite` | crates/ketebe-server/src/lifecycle.rs:94-107 | A write is admitted if and only if the phase is ready, as one step of the protocol; the counter then grows by one. |
| `Lifecycle.Gate.DoMarkReady` | crates/ketebe-server/src/lifecycle.rs:109-117 | A starting server becomes ready; one that drains or has stopped stays as it is. |
| `Lifecycle.Gate.Decrement` | crates/ketebe-server/src/lifecycle.rs:39-46 | Dropping a guard is the step that lowers the counter, and says whether it was the last. |
| `Chunking.Validate` | crates/ketebe-server/src/chunking.rs:29-42 | A configuration is refused if and only if a chunk would not reach beyond the one before it. |
| `Chunking.ChunkText` | crates/ketebe-server/src/chunking.rs:137-159 | The loop ends and yields the windows at multiples of the step, up to the first that reaches the end. |
| `Chunking.NeighboursOverlap` | crates/ketebe-server/src/chunking.rs:137-159 | All chunks but the last have full length, neighbours share exactly the overlap, and each reaches beyond the one before. |
| `Chunking.ChunksCoverText` | crates/ketebe-server/src/chunking.rs:137-159 | Dropping the overlap from all chunks but the first and joining them gives back the text. |
| `Chunking.ChunkCount` | crates/ketebe-server/src/chunking.rs:137-159 | There is one chunk if the text fits, else ceil((length - overlap) / (max - overlap)). |
| `Chunking.ChunkNameIs` | crates/ketebe-server/src/chunking.rs:161-178 | The form of a chunk id: prefix, kind of parent, hexadecimal bytes or decimal digits of the parent, ordinal. |
| `Chunking.ChunkIdsInjective` | crates/ketebe-server/src/chunking.rs:161-178 | Distinct parents, string or numeric, and distinct ordinals have distinct chunk ids. |
| `ChunkStore.BatchReplaces` | crates/ketebe-server/src/chunking.rs:439-547 | A batch of new chunks and deletions makes the visible chunks of its parent exactly the new ones and leaves every other record alone, except ids that were taken over. |
| `ChunkStore.OtherParentsUnchanged` | crates/ketebe-server/src/chunking.rs:161-168 | With ids derived from parents no other parent loses or gains a chunk, and ids stay derived. |
| `ChunkStore.Runtime.QuerySegments` | crates/ketebe-server/src/runtime.rs:182-191 | The segments together with one made of the recent mutations answer like all versions in order. |
| `ChunkStore.Runtime.VisibleParentChunkIds` | crates/ketebe-server/src/chunking.rs:550-604 | The fold and the filter select the live records whose metadata names the parent. |
| `ChunkStore.Runtime.SealCollection` | crates/ketebe-server/src/write.rs:588-716 | Sealing, whether it succeeds or fails, changes nothing that readers see. |
| `ChunkStore.Runtime.ReplaceParentChunks` | crates/ketebe-server/src/chunking.rs:439-547 | The visible chunks of the parent become exactly the given ones, with consecutive sequence numbers from the generation; a failed validation or append changes nothing; a failed seal is reported although the replacement took effect, which cannot happen while the recent mutations stay below the threshold. On success the collection has been sealed if and only if the recent mutations reached the threshold. On a writable collection and without failures it succeeds if and only if all vectors are valid. |
| `ChunkStore.Runtime.DeleteParentDocument` | crates/ketebe-server/src/chunking.rs:376-437 | No chunk of the parent is visible afterwards, and other records are as before; a failed seal cannot be reported below the threshold; without failures it always succeeds on a writable collection. |
| `ChunkStore.Runtime.ChunkEmbedAndUpsert` | crates/ketebe-server/src/chunking.rs:195-374 | A stored document consists of the chunks of its text, each under its derived id with the caller's metadata and the vector of a text that has its key, and with its own embedding if the provider depends on nothing of the chunks but their keys; if nobody else uses the cache, the vectors are determined. Other documents are unchanged. Without failures a document is stored if and only if its configuration fits, its text is not blank, its metadata uses no reserved key and its vectors are valid; with which error it is refused otherwise. |
| `EmbeddingCache.KeysAgreeIff` | crates/ketebe-server/src/embedding_cache.rs:150-166 | Two texts share a key if and only if profile, provider, model and dimension are the same and the texts differ in nothing but line endings. |
| `EmbeddingCache.NormalizeMeans` | crates/ketebe-server/src/provenance.rs:120-129 | What a text is normalised to: carriage return with line feed and carriage return alone become a line feed, and nothing else changes. |
| `EmbeddingCache.RunIsConsistent` | crates/ketebe-server/src/embedding_cache.rs:102-146 | After any operations map and deque hold the same keys, none twice, at most as many as the capacity, and a hit returns what was inserted last. |
| `EmbeddingCache.InsertMeans` | crates/ketebe-server/src/embedding_cache.rs:120-146 | An insertion moves or puts its key to the back and drops the first key if a new one finds no room. |
| `EmbeddingCache.GetMeans` | crates/ketebe-server/src/embedding_cache.rs:102-118 | A hit moves its key from where it stands to the back and keeps all entries. |
| `EmbeddingCache.DequeIsRecencySuffix` | crates/ketebe-server/src/embedding_cache.rs:102-146 | Under lookups that insert on a miss the deque is the end of the recency list that fits the capacity. |
| `EmbeddingCache.LargerCacheHitsToo` | crates/ketebe-server/src/embedding_cache.rs:102-146 | Whatever a smaller cache finds, a larger one finds after the same uses. |
| `CachedEmbedding.Cache.Get` | crates/ketebe-server/src/embedding_cache.rs:102-118 | A lookup returns the stored vector and moves its key to the back, or changes nothing. |
| `CachedEmbedding.Cache.Insert` | crates/ketebe-server/src/embedding_cache.rs:120-146 | An insertion stores the vector at the back and evicts the key used least recently if there is no room. |
| `CachedEmbedding.EmbedTextsCached` | crates/ketebe-server/src/embedding_cache.rs:168-244 | Each text gets the vector of a text with its key, whatever other requests do to the cache; every missing key is sent once; alone, exactly the missing keys are sent, the answers are those of the cache and of the first text with each missing key, and the cache is left as specified. |
| `CachedEmbedding.MissesAre` | crates/ketebe-server/src/embedding_cache.rs:184-201 | The texts sent stand for the keys that are not in the cache, each once. |
| `CacheRequests.ResultIsExactIff` | crates/ketebe-server/src/embedding_cache.rs:150-244 | A request is answered with the embedding of each text itself, whatever the provider and whatever earlier requests have left in the cache, if and only if no text contains a carriage return or a line feed. |
| `CacheRequests.AnsweredExactlyIff` | crates/ketebe-server/src/embedding_cache.rs:168-244 | With a given provider a request is answered exactly in every correct state of the cache if and only if the provider depends on nothing of its texts but their keys. |
| `CacheRequests.AnsweredForAnother` | crates/ketebe-server/src/embedding_cache.rs:168-244 | Otherwise a state of the cache, left by a request for one other text, from which the request is answered with that text's vector. |
| `CacheRequests.DependsOnKeyIff` | crates/ketebe-server/src/embedding_cache.rs:150-166 | Every provider depends on nothing of these texts but their keys if and only if none has a line ending. |
| `CacheRequests.ServiceMakesRequests` | crates/ketebe-server/src/embedding_cache.rs:168-244 | The state that the service leaves behind is that of a request as the results on the size of the cache speak of it. |
| `CacheRequests.LineEndingsAreNotToldApart` | crates/ketebe-server/src/provenance.rs:120-129 | Three texts with different line endings share a key, so that one may be answered with the vector of another. |
| `CacheRequests.RequestIsAccesses` | crates/ketebe-server/src/embedding_cache.rs:168-244 | A request acts on the cache as its hits followed by its misses, looked up one by one. |
| `CacheRequests.RequestsFollowRecency` | crates/ketebe-server/src/embedding_cache.rs:168-244 | After any requests the deque is the end of the recency list of the keys they used. |
| `EmbeddingCache.HeldIff` | crates/ketebe-server/src/embedding_cache.rs:102-146 | A cache holds a key if and only if fewer other keys than its capacity were used since. |
| `CacheRequests.LargerCacheServesIff` | crates/ketebe-server/src/embedding_cache.rs:168-244 | After all requests of at most m different keys each a larger cache finds whatever a smaller one finds, if and only if m is at most the difference of the capacities plus one. |
| `CacheRequests.LargerCacheServesSingles` | crates/ketebe-server/src/embedding_cache.rs:168-244 | With one text in each request a larger cache always finds whatever a smaller one finds. |
| `CacheRequests.LargerCacheMayMiss` | crates/ketebe-server/src/embedding_cache.rs:168-244 | For all capacities a run with one key more than that in one request, after which the smaller cache finds a key that the larger one has evicted. |
| `Embedding.OrderResponse` | crates/ketebe-server/src/embedding.rs:440-459 | A response is accepted if and only if it has exactly one item per input, and each vector ends up at the index of its item. |
| `Embedding.RequestBatch` | crates/ketebe-server/src/embedding.rs:370-395 | At most one more request than retries is made, none after a final answer, and the last answer is returned. |
| `Embedding.SplitBatches` | crates/ketebe-server/src/embedding.rs:109-116 | The batches are consecutive, of full size but for the last, and make up the texts. |
| `Embedding.RunBatches` | crates/ketebe-server/src/embedding.rs:114-147 | Each batch is sent at most once, and exactly once on success, in whatever order the batches start and finish and however many run at a time. |
| `Embedding.EmbedTextsBatched` | crates/ketebe-server/src/embedding.rs:101-158 | The vectors come back in the order of the texts. |
| `Governance.RetryIff` | crates/ketebe-server/src/governance.rs:206-232 | A denied request is admitted if and only if it is repeated after the end of the window, which is the reported delay away if and only if the clock does not read less than the start of the window. |
| `Governance.AdmissionMeans` | crates/ketebe-server/src/governance.rs:193-242 | The first request at or after the end of a window opens the next one; any other uses up the current one, while something is left of it. |
| `Governance.FewerThanTwice` | crates/ketebe-server/src/governance.rs:187-242 | Every interval as long as the window admits fewer than twice the requests of a window, even if requests come one tick out of order. |
| `Governance.BurstReachesBound` | crates/ketebe-server/src/governance.rs:187-242 | For every limit there are requests that reach this bound. |
| `Governance.LateRequestsExceedBound` | crates/ketebe-server/src/governance.rs:206-219 | For every limit of at least two, requests that come two ticks late and exceed the bound. |
| `Governance.KeepsBoundIff` | crates/ketebe-server/src/governance.rs:187-242 | The bound holds for all requests that come at most d ticks late if and only if d is at most one or the limit is one request. |
| `Governance.OthersDoNotMatter` | crates/ketebe-server/src/governance.rs:193-213 | The requests of one project and class are admitted as if there were no others. |
| `Governance.LimitsHold` | crates/ketebe-server/src/governance.rs:187-242 | In any run of requests of all projects, at most one tick out of order, each project and class keeps to its bound. |
| `Governance.GovernanceService.AdmitAt` | crates/ketebe-server/src/governance.rs:187-242 | Updates the window of its key only, and returns what the window decides under the limit that the policy names for its class, with what remains and when to retry. |
| `Governance.GovernanceService.SetProjectPolicy` | crates/ketebe-server/src/governance.rs:75-165 | A policy is stored if and only if no limit and no quota of it is zero and its project is not blank. |
| `Governance.GovernanceService.RemoveProjectPolicy` | crates/ketebe-server/src/governance.rs:167-177 | Forgets the windows of the project and of no other. |
| `FileTree.CopyTree` | crates/ketebe-server/src/backup.rs:421-453 | The copy holds the files and directories of the source except temporary ones and, at the top, the derived indexes; copying fails if and only if a symbolic link is not among what is skipped. |
| `FileTree.SkippedMeans` | crates/ketebe-server/src/backup.rs:421-440 | A path is skipped if and only if one of its names begins with `.tmp` or its first one is that of the derived indexes. |
| `FileTree.CopyOfCopy` | crates/ketebe-server/src/backup.rs:80-87 | Copying a copy changes nothing. |
| `Inventory.ComponentsOfJoin` | crates/ketebe-server/src/backup.rs:470 | The slash-joined path of names without slashes is split into these names again. |
| `Inventory.LessMeans` | crates/ketebe-server/src/backup.rs:484 | Paths are ordered by the first difference, a proper prefix first. |
| `Inventory.InventoryFiles` | crates/ketebe-server/src/backup.rs:455-486 | The inventory lists exactly the files, ordered by path, and is the only such list of a tree. |
| `Inventory.VerifyInventory` | crates/ketebe-server/src/backup.rs:397-419 | A tree is accepted if and only if the list is its inventory without the manifest. |
| `Inventory.DescribesIffSameFiles` | crates/ketebe-server/src/backup.rs:397-419 | The list made of one tree describes another if and only if both have the same files, the manifest apart. |
| `Backup.ValidateManifest` | crates/ketebe-server/src/backup.rs:356-395 | A manifest is accepted if and only if version, id and collection are right and every path lies below the collection without leaving it. |
| `Backup.BackupIsDescribed` | crates/ketebe-server/src/backup.rs:231-245 | The manifest made of the staged collection describes the backup that contains both. |
| `Backup.BackupPathsAreSafe` | crates/ketebe-server/src/backup.rs:356-395 | Every path in a manifest that is made for a backup is one that is accepted. |
| `Backup.BackupService.Create` | crates/ketebe-server/src/backup.rs:162-248 | Success adds one backup of a copy of the collection to the repository; failure adds nothing. Without failures it succeeds if and only if the collection exists, holds no link in what is copied, and the backup id is free. |
| `Backup.BackupService.Check` | crates/ketebe-server/src/backup.rs:268-305 | A staged backup is accepted if and only if its manifest is of version 1, for this backup, with safe paths, it matches the manifest, and it holds the collection without indexes. Every backup that was created is accepted. |
| `Backup.BackupService.Restore` | crates/ketebe-server/src/backup.rs:250-353 | Publishes only what passed the checks and never overwrites; a created backup comes back as it was copied, without failures if and only if its collection is not in the way; a failure leaves the catalog alone, and the directories too unless renaming back fails. |
| `Authorization.KeysDiffer` | crates/ketebe-server/src/authorization.rs:23-25 | Policy keys of different projects or collections differ. |
| `Authorization.StaysScoped` | crates/ketebe-server/src/authorization.rs:258-576 | Scoped entries always belong to the project in their key. |
| `Authorization.ViewIsOwnRun` | crates/ketebe-server/src/authorization.rs:258-576 | Whatever happens in other projects, what of the policies concerns a project is what its own operations make of it. |
| `Authorization.ProjectsDoNotInterfere` | crates/ketebe-server/src/authorization.rs:258-576 | No decision about a collection of one project is changed by claims, releases, permissions and removals of other projects, older unscoped entries included. |
| `Authorization.CollectionsDoNotInterfere` | crates/ketebe-server/src/authorization.rs:258-576 | Within a project, operations on one collection leave decisions about another alone. |
| `Authorization.ReleaseUndoesClaim` | crates/ketebe-server/src/authorization.rs:475-527 | Releasing a claim that was inserted restores the policies. |
| `Authorization.GrantingMeans` | crates/ketebe-server/src/authorization.rs:258-286 | After a permission is set on an entry that the project finds, the subject may do exactly what the permission covers, written out: discover and read; these and write; all but administering the project. |
| `Authorization.DecideMeans` | crates/ketebe-server/src/authorization.rs:408-449 | A decision allows an action if and only if the project finds an entry and the subject has no permission of its own there or one that covers the action. |
| `Authorization.OperationsMean` | crates/ketebe-server/src/authorization.rs:258-576 | What each operation makes of each entry: at most the scoped one of its collection, or the older one that the project finds, is changed. |
| `Authorization.AuthorizationService.AuthorizeCollectionInProject` | crates/ketebe-server/src/authorization.rs:408-449 | The answer in each case: refused by the control plane, no entry, a permission of the subject that does not cover the action, or allowed. |
| `Authorization.AuthorizationService.ClaimCollection` | crates/ketebe-server/src/authorization.rs:475-505 | Who may claim, and what the claim leaves in memory and in the file; an ownership conflict never arises; a claim that cannot be saved stays in memory all the same. |
| `Authorization.AuthorizationService.ReleaseCollectionClaimForPrincipal` | crates/ketebe-server/src/authorization.rs:507-527 | Only a claim that was inserted is taken back; the result for each case, and what is in memory and in the file. |
| `Authorization.AuthorizationService.SetCollectionPermission` | crates/ketebe-server/src/authorization.rs:258-286 | Changes one permission of an entry that the project can find, and nothing else. |
| `Authorization.AuthorizationService.RemoveCollection` | crates/ketebe-server/src/authorization.rs:545-576 | After a success the project finds no entry of the collection, scoped or not; what the policy file holds after each outcome. |
| `Namespaces.RemoveUndoesCreateIff` | crates/ketebe-server/src/data_plane_catalog.rs:148-222 | Creating a name and removing it restores the table if and only if the project had no empty entry; names resolve as before in any case. |
| `Namespaces.BindingMeans` | crates/ketebe-server/src/data_plane_catalog.rs:148-222 | Binding and unbinding change what one name of one project stands for, and a project loses its entry with its last name. |
| `Namespaces.BindingKeepsUniqueIff` | crates/ketebe-server/src/data_plane_catalog.rs:148-171 | A new binding keeps identities apart if and only if its identity is not in use. |
| `Namespaces.CollectionNamespaceCatalog.Create` | crates/ketebe-server/src/data_plane_catalog.rs:148-171 | What is in memory and in the file after each outcome; a failed write leaves the name bound in memory. |
| `Namespaces.CollectionNamespaceCatalog.Remove` | crates/ketebe-server/src/data_plane_catalog.rs:198-222 | Removes a binding only if it still has the expected identity. |
| `Namespaces.CollectionNamespaceCatalog.FindScopeByCollectionId` | crates/ketebe-server/src/data_plane_catalog.rs:101-126 | Finds the one project that binds an identity, none, or reports that there are several. |
| `Namespaces.CollectionNamespaceCatalog.BindLegacyDefault` | crates/ketebe-server/src/data_plane_catalog.rs:225-254 | Binds an older collection under its own name unless the name is taken by another; what is in memory and in the file after each outcome. |
| `CollectionCreation.CreateCollection` | crates/ketebe-server/src/http.rs:99-133 | When a creation succeeds, and that a failed one leaves names and policies as they were if and only if the condition on the request that `LeavesNoTrace` spells out holds: who asks for which name, what names and policies there are, whether an identity can be drawn and whether the next write of each file succeeds. Which error a refused name or project, a taken name or a missing identity gives. What the catalog file holds after a failure. If files can be written, no name and no policy is different afterwards. |

## Left out

- HTTP, gRPC, TLS, tracing, metrics text and the SDKs: wrappers without an invariant of their own.
- JSON, base64, SHA-256, random bytes, the Kafka client and the file system: a digest is an arbitrary function, an identity is given, a write happens as a whole or fails.
- IEEE arithmetic in metrics and vectors: metrics are over reals with an abstract falling discount, vectors have equality only; numbers in predicates and cursors are bit patterns with the IEEE order.
- Overflow of 64-bit sequence numbers and counters, which the code saturates.
- Unicode: strings are sequences of bytes where lengths and hexadecimal digits count, and of scalar values where chunks are cut; trimming is a parameter that says which characters are blank.
- Wall-clock timestamps, lock poisoning and counters that are only displayed.
- Index structures (HNSW, lexical), query execution, compaction, job scheduling, integrity reports, control plane, data encryption and identifier validation messages: not part of this model.
- Concurrency inside one call, except in `Lifecycle`, `Cutover`, `EmbedTextsCached` and `RunBatches`: catalog, policy and governance methods hold a lock.
- Migration.CatchUp: the dimension of vectors is not checked again, because the provider is supposed to answer with vectors of the right one or to fail; entries are listed in the order of the records, not sorted by id, because the order of entries carries no meaning; the progress counters in the state file are not modelled.
- Cutover.NextKeepsInv: a status of running whose background work is gone, which `status` turns into failed, is not a state of the model; starting over after a failure is covered by `Start` alone.
- Kafka.AtLeastOnceConverges: documents are values, so ingesting one is an assignment to its id; the chunking of documents is covered in `ChunkStore`.
- KafkaIngestion.Consumer.Run: one partition; the buffers of several partitions, consumer lag and the timer are not modelled, and rebalancing only as the late flush of `Kafka.LateFlushIsHarmlessIff`.
- Kafka.LateFlushIsHarmlessIff: the late flush happens at one moment, not interleaved with the writes of the new consumer.
- Eval.NdcgIsOneIff: says that gains agree at every position, which for distinct grades means that the grades do.
- EvalReport.EvaluateRankings: dense, lexical and hybrid runs, which produce the rankings, are not modelled.
- Chunking.ChunkText: chunking by tokens and by meaning is not modelled.
- ChunkStore.Runtime.ChunkEmbedAndUpsert: of what the server adds to the metadata only the parent and the generation are modelled; the profile and provider are given.
- ChunkStore.Runtime.SealCollection: checkpoints and the log file are reduced to whether the writer is open afterwards.
- Embedding.EmbedTextsBatched: the limit on batches in flight is an arbitrary positive number; the resource permit is not modelled.
- Embedding.RequestBatch: waiting times between retries are not modelled.
- Governance.GovernanceService.AdmitAt: the checks of the quotas of collections and records are single comparisons and left out.
- Backup.BackupService.Create: staging directories that a failure leaves behind, sequence numbers, timestamps and the choice of the source directory by scope are not modelled; what the integrity check says of a directory is given.
- Backup.BackupService.Restore: opening the restored collection is an outcome; if renaming back fails too, the directory stays, which the contract says.
- Authorization.ProjectsDoNotInterfere: project roles, memberships and the control plane are a given function of principal, action and project; the unscoped release of a claim is not among the operations.
- CollectionCreation.CreateCollection: the creation of the collection's own files is an outcome.
