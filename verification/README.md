# Verified model of the RAG stack's ingestion, dead-letter and loading cores

A Dafny model of the parts of the stack that keep state across failures, and proofs of what they
guarantee. `dafny verify dfyconfig.toml` checks everything.

- **Ingestion** (`Ingestion.dfy`, and its properties in `IngestionAnswers.dfy`, `IngestionInvariants.dfy`,
  `IngestionCuts.dfy`, `IngestionLedger.dfy`, `IngestionProperties.dfy`): the job's nested file and chunk loops, its batching and its two layers of exception handling. Every external call (S3
  read, embedding, payload, insert, queue send, commit) is answered by an oracle value, so a statement
  over all inputs is a statement over every pattern of failures. Point ids come from a source that never
  repeats one, and the vector store is a map by point id. A failed send delivers nothing; a commit that
  raises may or may not have made its rows durable; a failed insert aborts the open transaction, which
  then takes no further statement and is rolled back by the next commit, as PostgreSQL does.
- **Coverage** (`Coverage.dfy`, `CoverageProperties.dfy`, `CoverageJobs.dfy`, `CoverageStore.dfy`): the
  (tag, model) status table, its four SQL statements and the three calls that use them; any number of
  interleaved jobs, whose calls are atomic transactions that take effect or, as the service logs and
  swallows errors, do not; and what the rows then say about the vector store, when each of those jobs
  is an ingestion job with its own files and failures.
- **Dead letters** (`DeadLetter.dfy`, `DeadLetterProperties.dfy`, `Backlog.dfy`): the retry handler over
  a broker that redelivers refused messages, every interleaving of its calls, and the backlog poller
  with 64-bit wrap-around.
- **Model names** (`ModelNames.dfy`, `ModelNameProperties.dfy`): the Go and Python scanners that
  normalise a model name, and the collection name built from it, over abstract character classes.
- **Eager loading** (`EagerLoading.dfy`, `EagerLoadingProperties.dfy`): the generated hash joins for
  one-to-many, many-to-one and many-to-many edges.
- **Bulk create** (`BulkCreate.dfy`): the mutator chain with its single batch write.
- **Struct values** and **planner** (`StructValues.dfy`, `StructValueProperties.dfy`, `Planner.dfy`,
  `PlannerProperties.dfy`): dynamic value conversion and in-place plan normalisation.

Each imperative routine is a method that is proved equal to a function of its inputs or old state; the
lemmas then prove what that function guarantees.

## What the proofs found

- A failed insert is not counted although its point is stored, so the recorded vector count equals the
  store's size exactly when no insert failed; and the commit after it rolls the transaction back, so a
  job can complete with a positive count and no durable row. A completed job sends points twice exactly
  when the commit after some send raised. A job whose last send fails still commits the rows of points it never
  sent, unless an insert failed: then the database refuses the revert and the coverage row stays
  building.
- `documentation/rag-explorer-iteration-11-embedding-coverage.md` (lines 48-56) gives each status a
  meaning that the code keeps only under a condition. A `building` row has a running job exactly when no
  job whose closing call was swallowed left one that no running job holds. A `stale` or `complete` row
  counts a vector unless the last call on its pair was a completion that reported none; one that counts
  n vectors has at least n in the store. A `pending` pair has nothing in the store exactly when no job on
  it delivered a batch, and a job that fails at a later send has delivered some.
- A message that carries a retry count below the limit, as a replayed dead letter does when it was
  routed early, is retried for ever on transient failures; the comment on `HandleMessage` promises a
  limit. Runs are bounded exactly when no pending message carries such a count.
- Collection names collide exactly when a size is disguised as the last word of another model's name,
  which needs one of the two sizes to be unknown.
- `ToValue` and preparing the whole value first agree exactly when, for a value that a Struct can hold,
  all maps inside its slices are generic already, and, for a list it cannot hold, `ToValue` meets a
  refused element at the top level and gives up as well.

## Model

| member | source | states |
|---|---|---|
| Ingestion.Services.FlushBatch | rag-stack/services/rag-ingestion/service.py:652-680 | a flush sends then commits; only one that does not raise lets the caller empty its batch |
| Ingestion.ProcessFile | rag-stack/services/rag-ingestion/service.py:544-683 | the chunk loop of one file, with skipped chunks and the exception that ends the file, equals the file step from any state |
| Ingestion.RunIngestion | rag-stack/services/rag-ingestion/service.py:541-731 | the loops, the final flush and the complete or revert step equal the job function for every pattern of failures |
| Ingestion.Services.Settle | rag-stack/services/rag-ingestion/service.py:379-412 | the coverage call commits the open rows with its own unless there are no tags or the transaction is aborted, and says whether it took effect |
| IngestionProperties.AnswersDetermineTheJob | rag-stack/services/rag-ingestion/service.py:541-731 | under any answers each file is processed exactly up to its one forced cut: in front of the first chunk whose payload cannot be built, or right behind the first one whose insert is refused or whose flush at the threshold is refused or raises; the points are the embedded chunks in front of the cuts, each message is the stretch of points since the last flush that passed, and the ending and its counts follow |
| IngestionAnswers.ForcedIsUnique | rag-stack/services/rag-ingestion/service.py:544-683 | the answers allow only one list of cuts |
| IngestionProperties.NoPointIsDropped | rag-stack/services/rag-ingestion/service.py:541-712 | after any failures the points appended are the embedded chunks in front of the forced cuts, in file order; each was sent or is still in the batch, nothing else was sent, and a completed job has sent them all |
| IngestionProperties.CompletedStoreIsWhatWasMade | rag-stack/services/rag-ingestion/service.py:604-715 | the store of a completed job is exactly the appended points by id, one per insert call; the recorded count is the number of inserts that succeeded, so it is the store's size if and only if all did |
| IngestionProperties.PointsTravelOnceIff | rag-stack/services/rag-ingestion/service.py:668-712 | the batches of a completed job, one after the other, are exactly the appended points if and only if the commit after each send did not raise |
| IngestionProperties.SteadyJobCounts | rag-stack/services/rag-ingestion/service.py:541-715 | while inserts and commits succeed, sent batches in order plus the batch in hand are the embedded chunks in front of the cuts, each send's open rows match its batch, and at completion count, sent points and committed rows agree |
| IngestionProperties.RevertCommitsUnsentRows | rag-stack/services/rag-ingestion/service.py:398-412 | while inserts and commits succeed, a job that fails at its last send leaves durable rows for points never sent if and only if it has tags, because reverting commits the same connection |
| IngestionProperties.BackupIsAccounted | rag-stack/services/rag-ingestion/service.py:618-731 | under any answers the row of every accepted insert, with its point's path, chunk and vector, is open at exactly one send or left over; it is durable if and only if the commit of that send, or the closing call, made it so, and a failed insert rolls the last send's rows back |
| IngestionProperties.RecordedIff | rag-stack/services/rag-ingestion/service.py:379-412 | the closing call takes effect if and only if there are tags, its commit holds, and no insert failed or the last send was accepted |
| IngestionProperties.CommittedRowsIff | rag-stack/services/rag-ingestion/service.py:618-715 | while commits succeed a completed job has a durable row for every sent point if no insert failed; else its durable rows are those of every batch but the last, and its count is larger by the rows open at the last send |
| IngestionProperties.SmoothJobSendsFullBatches | rag-stack/services/rag-ingestion/service.py:554-712 | with only reads and embeddings failing, every embedded chunk is sent once in file order in ceil(n/B) batches, all full but a nonempty last one, every other chunk is listed as failed, and the count is exact |
| IngestionProperties.FailedInsertIsNotCounted | rag-stack/services/rag-ingestion/service.py:618-712 | a concrete job whose second insert fails: it completes with one recorded vector, two in the store and no durable row, because the last commit rolls back |
| IngestionProperties.RaisedCommitResendsTheBatch | rag-stack/services/rag-ingestion/service.py:668-680 | a concrete job whose second batch is over the threshold after a commit raised |
| Coverage.Apply | rag-stack/services/rag-ingestion/service.py:332-363 | row by row what one call does: only a start creates rows, a completion also turns other complete models of its tags stale |
| Coverage.CoverageTable.UpsertBuilding | rag-stack/services/rag-ingestion/service.py:366-376 | upserting tag by tag equals the call on all tags at once |
| Coverage.CoverageTable.UpsertComplete | rag-stack/services/rag-ingestion/service.py:379-395 | updating and marking others stale tag by tag equals the call on all tags at once |
| Coverage.CoverageTable.RevertOnFailure | rag-stack/services/rag-ingestion/service.py:398-412 | reverting tag by tag equals the call on all tags at once |
| CoverageProperties.RowExistsIff | rag-stack/services/rag-ingestion/service.py:332-338 | a row exists if and only if it was there or some start created it |
| CoverageProperties.CompleteIff | rag-stack/services/rag-ingestion/service.py:332-412 | over every history a row is complete if and only if some completion of the pair found its row and nothing displaced it since, or it was complete all along |
| CoverageProperties.AtMostOneCompleteModel | rag-stack/services/rag-ingestion/service.py:350-356 | no history gives a tag two complete models |
| CoverageProperties.BuildingIff | rag-stack/services/rag-ingestion/service.py:332-412 | a row is building if and only if some start of the pair has no later completion or revert of it |
| CoverageProperties.DimsAreTheFirst | rag-stack/services/rag-ingestion/service.py:332-338 | over every history a row keeps the dimensions of the first start of its pair, or those it had |
| CoverageProperties.CountIsTheLastReport | rag-stack/services/rag-ingestion/service.py:332-363 | over every history the two count columns are those of the last completion of the pair that found its row, and zero for a new row without one |
| CoverageProperties.PendingIff | rag-stack/services/rag-ingestion/service.py:358-363 | a row is pending if and only if the last call on its pair was a revert that found no positive count, or it was pending and never addressed |
| CoverageProperties.HollowIff | rag-stack/services/rag-ingestion/service.py:340-356 | a stale or complete row has no positive count column if and only if the last call on its pair was a completion that reported none, or it was so and never addressed |
| CoverageProperties.StaleWithoutVectors | rag-stack/services/rag-ingestion/service.py:340-356 | a concrete history with a stale row whose count column is zero |
| CoverageJobs.InterleavingsAreHistories | rag-stack/services/rag-ingestion/service.py:366-412 | the rows after any interleaving of jobs are those after the history of the calls that took effect, so every history result applies |
| CoverageJobs.LastStepSays | rag-stack/services/rag-ingestion/service.py:332-412 | over every interleaving, what the last step did field by field: a start that took effect leaves its job's pairs building, a finish leaves them complete with its two counts and other complete models of its tags stale, a failure leaves none of its rows complete, and a failed or impossible step changes no row |
| CoverageJobs.RowJobsIff | rag-stack/services/rag-ingestion/service.py:332-338 | a row exists if and only if it was there or some start took effect on it |
| CoverageJobs.CompleteJobsIff | rag-stack/services/rag-ingestion/service.py:340-395 | over every interleaving and every pattern of swallowed failures a row is complete if and only if some finish took effect on it and no later effective step restarted, failed or displaced it, or it was complete all along |
| CoverageJobs.CountsAreTheLastFinish | rag-stack/services/rag-ingestion/service.py:340-348 | the counts of a row are those of the last finish that took effect on it, else the initial ones |
| CoverageJobs.BuildingRowsAreHeld | rag-stack/services/rag-ingestion/service.py:366-412 | over every interleaving of jobs a building row belongs to a started job that holds its pair and has no successful closing call |
| CoverageJobs.BuildingJobsIff | rag-stack/services/rag-ingestion/service.py:366-412 | over every interleaving and every pattern of swallowed failures a row is building if and only if some start took effect on it and no later closing call did, or it was building all along |
| CoverageJobs.BuildingMeansRunningIff | rag-stack/services/rag-ingestion/service.py:404-412 | every building row has a running job if and only if no start whose job's closing call was swallowed left a row building that no running job holds |
| CoverageJobs.LeftBuildingIff | rag-stack/services/rag-ingestion/service.py:404-412 | once all jobs have ended a row is building if and only if some start of a job whose closing call was swallowed took effect on it and no later closing call did |
| CoverageJobs.NoBuildingRowIsLeft | rag-stack/services/rag-ingestion/service.py:522-731 | in particular, when all calls take effect a building row has a running job, so none is left once all jobs ended |
| CoverageJobs.SwallowedRevertLeavesBuilding | rag-stack/services/rag-ingestion/service.py:411-412 | one swallowed failure leaves a building row after its only job ended |
| CoverageStore.NothingStoredIff | rag-stack/services/rag-ingestion/service.py:541-731 | whatever its status, a pair has no point in the store if and only if no job that holds it has delivered a batch |
| CoverageStore.CountNeverOverstates | rag-stack/services/rag-ingestion/service.py:340-348 | over every interleaving and every pattern of failures, a row counts no more vectors than its pair has points in the store |
| CoverageStore.PendingWithVectors | rag-stack/services/rag-ingestion/service.py:358-363 | a concrete job that delivers one batch, fails at a later send and leaves its row pending |
| Decimal.AtoiItoa | rag-stack/services/common/dlq/dlq.go:149-165 | a printed 64-bit count parses back to itself |
| Decimal.AtoiIff | rag-stack/services/common/dlq/dlq.go:149-155 | a text parses to a number if and only if it is an optional sign, zeros and the digits of that number, and the number fits 64 bits |
| DeadLetter.MaxRetries | rag-stack/services/common/dlq/dlq.go:43-49 | the limit is positive and is the parsed setting or the default |
| DeadLetter.Handler.HandleMessage | rag-stack/services/common/dlq/dlq.go:108-147 | success, permanent failure, exhausted and retried transient failure, and any other result, with counters, equal the call function |
| DeadLetter.Handler.RouteToDLQ | rag-stack/services/common/dlq/dlq.go:158-189 | the copy has the payload and properties with the headers set; a failed send stores nothing and raises nothing |
| DeadLetterProperties.OneVerdictPerCall | rag-stack/services/common/dlq/dlq.go:118-146 | a call does exactly one of ack and nack and moves exactly one counter if and only if its result is a declared one |
| DeadLetterProperties.ResultDecides | rag-stack/services/common/dlq/dlq.go:118-146 | per result, the whole new state: success only acknowledges, a permanent failure and an exhausted transient one route the message, any other transient one redelivers it, anything else does nothing |
| DeadLetterProperties.ResultsDecideRuns | rag-stack/services/common/dlq/dlq.go:108-156 | over every run a message is dead-lettered or lost if and only if some step failed it for good, read off the results alone; it is pending if and only if none did or succeeded, with one redelivery per transient failure; the successes are counted |
| DeadLetterProperties.MessagesAreConserved | rag-stack/services/common/dlq/dlq.go:108-189 | over every run, published = pending + acknowledged, acknowledged = succeeded + stored + lost, and the counters agree |
| DeadLetterProperties.DeadLettersAreFaithful | rag-stack/services/common/dlq/dlq.go:158-189 | over every run no message is dead-lettered twice, and each stored copy has its original's payload, topic and other properties |
| DeadLetterProperties.RunIsBoundedByTotal | rag-stack/services/common/dlq/dlq.go:132-146 | each call spends one of the calls left, so every interleaved run is bounded by their sum |
| DeadLetterProperties.FreshRunsAreShort | rag-stack/services/common/dlq/dlq.go:132-156 | from N fresh messages without a count no run takes more than N * (limit + 1) calls |
| DeadLetterProperties.EveryRetryIsUsed | rag-stack/services/common/dlq/dlq.go:132-146 | the bound is reached by a message that always fails |
| DeadLetterProperties.ExhaustedCountDeadLettersAtOnce | rag-stack/services/common/dlq/dlq.go:133-141 | a carried count at the limit dead-letters the first transient failure |
| DeadLetterProperties.LowCountNeverExhausts | rag-stack/services/common/dlq/dlq.go:133-155 | a carried count below the limit allows any number of transient failures |
| DeadLetterProperties.RunsAreBoundedIff | rag-stack/services/common/dlq/dlq.go:132-156 | runs have a common bound if and only if no pending message carries a count below the limit |
| DeadLetterProperties.RetryCountSurvivesRouting | rag-stack/services/common/dlq/dlq.go:149-165 | the copy read back has the original's retry count |
| DeadLetterProperties.ReplayedCopy | rag-stack/services/common/dlq/dlq.go:149-174 | a replayed copy is exhaustible if and only if the original had used all retries |
| DeadLetterProperties.CopyHeaders | rag-stack/services/common/dlq/dlq.go:159-173 | the topic, the retry count and the time are set; the error header is cut to 500 characters, and kept from before when there is no error; nothing else changes |
| Backlog.Poller.PollBacklog | rag-stack/services/common/dlq/dlq.go:191-233 | whatever requests fail, the gauge has moved by the last good reading, or by 0, modulo 64 bits |
| Backlog.ReadingIs | rag-stack/services/common/dlq/dlq.go:199-231 | the reading that counts is the last answer with status 200 and a body that parses before the stop, and 0 without one |
| ModelNames.NormalizeEmbeddingModelName | rag-stack/services/common/contracts/embedding.go:9-31 | the Go scanner returns the words of the lowered, trimmed text joined by single dashes |
| ModelNames.NormalizeModelName | rag-stack/services/rag-ingestion/service.py:180-197 | the Python scanner returns the same |
| ModelNameProperties.DashedIsTheTidyForm | rag-stack/services/common/contracts/embedding.go:15-30 | the result is the one text with the same words, no other characters, and no leading, trailing or double dash |
| ModelNameProperties.DashedKeepsLetters | rag-stack/services/common/contracts/embedding.go:17-28 | the word characters survive in order |
| ModelNameProperties.GapsBecomeDashes | rag-stack/services/common/contracts/embedding.go:17-30 | a run of word characters stays, a gap between two texts that have some becomes one dash, a gap at either end disappears |
| ModelNameProperties.LettersAreLowered | rag-stack/services/common/contracts/embedding.go:10-20 | one more character adds the word characters of its lower case |
| ModelNameProperties.TrimmingIsIrrelevant | rag-stack/services/common/contracts/embedding.go:10-13 | trimming white space first changes nothing |
| ModelNameProperties.LanguagesAgree | rag-stack/services/rag-ingestion/service.py:181-187 | both languages agree whenever they share word characters and lowering, even with different white space |
| ModelNameProperties.NormalizingTwice | rag-stack/services/common/contracts/embedding.go:9-31 | normalising is idempotent when lowering is |
| ModelNameProperties.NameStartsWithPrefix | rag-stack/services/common/contracts/embedding.go:33-50 | a name is the prefix without its outer white space, or "vectors" for a blank one, and then nothing or a dash and the known parts |
| ModelNameProperties.PrefixesCollideIff | rag-stack/services/common/contracts/embedding.go:34-37 | for one model and size, names are equal if and only if the trimmed prefixes are, a blank one counting as "vectors" |
| ModelNameProperties.NamesCollideIff | rag-stack/services/common/contracts/embedding.go:33-50 | two names under a prefix are equal if and only if models and sizes agree or a size is disguised as the other model's last word |
| ModelNameProperties.SizedNamesAreInjective | rag-stack/services/common/contracts/embedding.go:41-46 | with both sizes positive equal names mean equal models and sizes |
| ModelNameProperties.UnsizedCollision | rag-stack/services/common/contracts/embedding.go:42-44 | model a with size 5 and model a-5 without a size share a name |
| ModelNameProperties.LanguagesShareCollections | rag-stack/services/rag-ingestion/service.py:200-209 | both languages build the same collection name from a prefix they trim alike |
| EagerLoading.LoadEmbeddings | rag-stack/services/common/ent/codeingestion_query.go:450-479 | each list is the neighbours filtered by foreign key in order; it stops at, and fails on, the first unknown key |
| EagerLoading.LoadIngestion | rag-stack/services/common/ent/codeembedding_query.go:449-477 | each edge is the neighbour with the node's key, or unchanged; it stops at, and fails on, the first unknown id |
| EagerLoading.LoadIdentifiers | rag-stack/services/common/ent/actiontype_query.go:406-436 | the same over a nullable key, where a missing key fails |
| EagerLoading.LoadActionType | rag-stack/services/common/ent/actionidentifier_query.go:412-443 | the same over a nullable key, where nodes without one are skipped and no key means no query |
| EagerLoading.LoadTags | rag-stack/services/common/ent/codeembedding_query.go:478-538 | each list is the tags some row pairs with the node, filtered from the intercepted list of first occurrences, whatever order the node sets are visited in |
| EagerLoadingProperties.TagListIsTheJoin | rag-stack/services/common/ent/codeembedding_query.go:512-536 | a node's list has exactly the tags that some row pairs with it, each once and as its first row has it, in the order of their first rows |
| EagerLoadingProperties.PlainTagsAreKnown | rag-stack/services/common/ent/codeembedding_query.go:528-532 | without interceptors the loader never fails |
| EagerLoadingProperties.MatchingInOrder | rag-stack/services/common/ent/codeingestion_query.go:470-477 | the lists keep the order of the returned children |
| EagerLoadingProperties.EdgesAreInverse | rag-stack/services/common/ent/codeingestion_query.go:470-477 | a child is in a parent's list if and only if its own edge is that parent |
| EagerLoadingProperties.LoadedEmbeddingEdgesAgree | rag-stack/services/common/ent/codeembedding_query.go:467-475 | after both loaders the two directions agree on the objects, and with the foreign key |
| EagerLoadingProperties.LoadedIdentifierEdgesAgree | rag-stack/services/common/ent/actionidentifier_query.go:433-441 | the same for the nullable edge |
| EagerLoadingProperties.ListsPartitionTheChildren | rag-stack/services/common/ent/codeingestion_query.go:470-477 | the lists together hold every returned child exactly as often as it was returned |
| BulkCreate.WrapHooks | rag-stack/services/common/ent/codeembedding_create.go:547-549 | hooks wrapped from the last to the first run from the first to the last |
| BulkCreate.Mutate | rag-stack/services/common/ent/codeembedding_create.go:513-546 | mutator i and all after it: specs in order, one write after the last, ids and flags only on the way back from success; at a failure each mutation stays as far as its hooks changed it |
| BulkCreate.Save | rag-stack/services/common/ent/codeembedding_create.go:502-559 | all or nothing: one write attempt exactly when every builder passes, whose rows carry every field and edge of the prepared mutations; success exactly when it succeeds, and only then are mutations done and nodes, agreeing with their rows, returned; a failure leaves hooked mutations up to the failing builder and defaults after it |
| BulkCreate.PreparedMeans | rag-stack/services/common/ent/codeembedding_create.go:127-140 | a creation time is filled in unless given; a builder fails with a hook's error or for lack of a creation time after its hooks |
| BulkCreate.HooksCompose | rag-stack/services/common/ent/codeembedding_create.go:547-549 | hooks run one after the other on one mutation, and the first error ends them |
| BulkCreate.VerdictIff | rag-stack/services/common/ent/codeembedding_create.go:513-556 | the save succeeds if and only if every builder passes and the database takes the rows; else the error is that of the first failing builder, or the database's |
| BulkCreate.SavedMeans | rag-stack/services/common/ent/codeembedding_create.go:162-220 | field by field, the written row carries the prepared mutation with its edges, and the entity agrees with it |
| StructValues.PrepareForStruct | rag-stack/services/common/contracts/helpers.go:29-54 | the loops rebuild every slice and map as a generic one |
| StructValues.ToValue | rag-stack/services/common/contracts/helpers.go:64-92 | the loop with its round trip for nested slices equals the conversion function |
| StructValues.ToStruct | rag-stack/services/common/contracts/helpers.go:11-27 | it gives none if and only if the map is absent or some field holds, under keys that are kept, what a Struct cannot; else the keys are the same and each field reads back with generic slices and maps and rounded integers |
| StructValueProperties.PreparedFixesIff | rag-stack/services/common/contracts/helpers.go:29-54 | preparing changes a value if and only if it holds a typed slice or map, and is idempotent |
| StructValueProperties.PreparedIsGeneric | rag-stack/services/common/contracts/helpers.go:35-51 | a prepared value has only generic slices and string-keyed maps |
| StructValueProperties.StructKeepsPaths | rag-stack/services/common/contracts/helpers.go:11-54 | whatever a path of indexes and string keys leads to in a value, it leads to in the value read back: slices of the same length, maps, and the same scalars with rounded integers |
| StructValueProperties.RoundTrip | rag-stack/services/common/contracts/helpers.go:77-80 | a protobuf value survives the trip through a dynamic value |
| StructValueProperties.ConversionsAgreeIff | rag-stack/services/common/contracts/helpers.go:64-92 | for every value `ToValue` equals converting the prepared value if and only if, when a Struct can hold it, its maps are generic already, and when not, it is no slice or has an element that is refused and is no slice |
| StructValueProperties.ConvertedItems | rag-stack/services/common/contracts/helpers.go:71-91 | a list that `ToValue` converts has each nested slice converted on its own and every other element as the library converts it |
| StructValueProperties.UnsupportedElement | rag-stack/services/common/contracts/helpers.go:77-91 | an unsupported element nulls its own list in one conversion and everything in the other |
| Planner.Normalize | rag-stack/services/common/contracts/planner.go:54-109 | a missing plan is replaced by a blocking one with empty lists; an existing one is normalised in place and keeps its other fields and its step array |
| Planner.TaskPlan.CollectQueries | rag-stack/services/common/contracts/planner.go:75-81 | the steps' queries are appended in order |
| Planner.TaskPlan.NumberSteps | rag-stack/services/common/contracts/planner.go:93-106 | steps are numbered from 1 unless one has a positive order |
| PlannerProperties.NormalizingTwice | rag-stack/services/common/contracts/planner.go:54-109 | a second normalisation changes nothing if and only if an objective or the first prompt was there, or both prompts are equal |
| PlannerProperties.NormalizedFields | rag-stack/services/common/contracts/planner.go:66-91 | a blank objective becomes the prompt, a blank risk "unknown", a blank action "UNKNOWN", a budget below one becomes one; anything else stays, the action trimmed and in capitals |
| PlannerProperties.NormalizedIsUsable | rag-stack/services/common/contracts/planner.go:66-106 | the queries are the given ones, else those of the steps in order if any step has one, else the prompt; there are a budget and an action, and steps keep everything but an order that becomes 1..n when none was positive |

## Left out

- Ingestion.ProcessFile: the retries of one embedding call are one answer, and the inserts of one chunk (its row and its tags) are one answer.
- Ingestion.RunIngestion: starts after the connection is taken and the coverage row is building; listing files, resolving tag names and the collection message before it are not modelled.
- CoverageStore.CountNeverOverstates: a point is in the store once the queue accepted it; the consumer that applies the messages, and ids that two jobs draw alike, are not modelled.
- CoverageJobs.BuildingRowsAreHeld: calls are serial transactions; two completions under weaker isolation and a crash between calls are not modelled.
- DeadLetter.Handler.HandleMessage: one call is one step, so two handlers interleave per call and never hold the same message; acknowledgements take effect; the broker's redelivery counter does not wrap at 32 bits.
- DeadLetter.Handler.RouteToDLQ: characters stand for bytes where the error text is cut; the separate depth telemetry and the log's truncated payload are not modelled.
- ModelNames.NormalizeModelName: lowering works character by character, so Python's context rule for the final sigma is not modelled, nor are the real Unicode tables in which the languages differ.
- EagerLoading.LoadTags: the query's SQL, its interceptors' own behaviour and database errors; the tag loader of ingestions repeats this one.
- BulkCreate.Save: hooks that act after calling the next mutator, replace the mutation or call it twice; the other entities' bulk saves repeat this one.
- StructValues.ToValue: not-a-number, infinities, byte slices inside maps and invalid UTF-8.
- HTTP, S3, Pulsar, PostgreSQL, Ollama and OpenTelemetry clients, the text splitter, hashing, clocks and id generation: parameters or outside the model.
- The ent setters, upserts, deletes, selectors and scanning, the generated protobuf code and the web interface: plumbing that would only add easy members.
