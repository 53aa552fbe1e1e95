# Hebbs: a verified model of its core

Hebbs keeps memories for agents: records with an embedding, a temporal index, a graph of edges
between memories, and operations that revise, forget, reconcile, decay and recall them. This
project models the parts of it whose correctness rests on bit-level code, on exact arithmetic, or
on what holds over whole runs, and proves what they promise. `dafny verify dfyconfig.toml` checks
everything.

| files | component |
|---|---|
| `CyclicCode`, `WordBits`, `Record` | the checksummed record format and its CRC-32C |
| `RateLimiter` | token buckets per tenant and operation class |
| `ByteOrder`, `Keys` | byte-ordered keys, entity listing, range queries, tombstone collection |
| `Memories`, `Store`, `BatchOrder` | the memory record, the column families, batches, `add_edge`, deletes, the two storage backends |
| `Contradictions`, `Classification` | the contradiction check, what it writes for which answer, and the two-phase commit |
| `Revisions`, `Lineage` | revising with snapshots, and what survives many revisions |
| `Forgetting`, `ForgetProperties`, `ForgetOutcome`, `Truncation`, `AutoForget` | forgetting by criteria with cascade and tombstones, which records go, what is reported, what the truncation flag says, and what the decay engine forgets |
| `EntityCalls`, `EntityForgetting`, `IndexAgreement` | forgetting an entity until nothing of it is left, and what the temporal index has to look like for that |
| `StoreRuns` | runs of all the operations on the store together |
| `Decay` | the batched decay sweep with its persisted cursor, and the decay score |
| `Ranking`, `Scoring` | merging, scoring and ranking of recalled memories |
| `Bloom`, `OutputQueue`, `Subscriptions`, `SubscriptionWorker`, `SubscriptionRuns`, `SubscriptionHits`, `SubscriptionState` | the subscription pipeline: keyword filter, output buffer, centroid, worker loop, and what its turns push |
| `Calendar` | civil dates from day counts |
| `Tokenizer`, `CommandLines`, `Base64Url` | the command-line tokenizer, the grammar of its lines, and the key encoding |
| `Results`, `Sequences`, `Orders`, `IdOrder`, `MachineTypes` | shared definitions |

Code that changes state is a class or a method with the loops of the source, and its contract ties
the new state to a specification function; the theorems are lemmas about those functions, for every
input, every run and every interleaving the source allows.

## Assumptions

- f32 and f64 are real numbers; rounding and NaN are not modelled. Powers and logarithms are
  functions with the monotonicity the proofs need. Times are numbers passed in.
- Memory ids are the 128-bit numbers whose big-endian bytes are stored, and generated ids increase.
  Lengths of texts are counted in characters where the source counts UTF-8 bytes.
- Batches are atomic and applied in order, as RocksDB does; `BatchOrder` says where the in-memory
  backend differs. Iteration over a prefix is in byte order. Stored records and pending records decode.
- The bitcode decoder inverts its encoder, and plain encodings begin with neither marker byte.
- The embedder, the vector index, the classifiers, keyword extraction, hash functions and the sizing
  formulas of the filter may answer anything. Where SHA-256 tells contents apart, the contents
  themselves are compared.
- A batch of a decay sweep, and one turn of the subscription worker, is one atomic step with one
  reading of the wall clock; anything may happen between two of them.

## Where the code differs from its documentation

The model follows the code.

- A status call is not without effect when the rate is negative and the burst is above one, or is one and the clock
  can stand still between creating a bucket and refilling it: it can change later answers
  (`RateLimiter.StatusIsTransparentIff`). With a negative rate the bound on a window is the burst alone
  (`RateLimiter.WindowBound`, `RateLimiter.WindowBoundIff`).
- The list of auto-forget candidates is not that of the most recent sweep: a memory whose score has
  recovered stays on it and is forgotten (`Decay.CandidateIff`, `Decay.RecoveredStaysListed`,
  `AutoForget.ListedCandidates`, `AutoForget.ListedIsForgotten`), and an
  auto-forget clears the list even of candidates that did not fit the batch (`AutoForget.AutoForgetForgets`).
- Pairs already related by RevisedFrom are skipped by the contradiction check from one side only
  (`Contradictions.ReclassifiedUnlessOutgoing`, `Contradictions.RevisionIsSkippedFromOneSide`), a pair can be
  pending twice (`Contradictions.PendingPairIsQueuedAgain`), and a commit may then classify a joined pair
  (`Contradictions.CommitClassifiesIff`).
- A RevisedFrom target need not be a snapshot: a primary memory can be pruned as one, and leaves a
  dangling temporal entry (`Lineage.AdoptedMemoryIsLost`, `ForgetProperties.ReviseKeepsIndexIff`).
- `truncated == false` does not mean that nothing is left (`ForgetProperties.MatchBeyondWindow`). It means that
  exactly if the criteria are ids alone or everything that matches lies among what is looked at before filtering
  (`ForgetProperties.UntruncatedIsCompleteIff`), which it does when that is everything
  (`ForgetProperties.UntruncatedIsComplete`).
- `truncated == true` does not mean that candidates remain: a last batch that is exactly full sets it
  (`EntityCalls.CutOffWithNothingLeftIff`, `EntityCalls.CutOffWithNothingLeft`, `Truncation.TruncatedLeavesIff`,
  `Truncation.OneIdCutOff`).
- More than one batch of temporal entries that lead to no record can make a forget by entity stop early and say that
  it was not cut off (`EntityForgetting.DanglingEntriesHideLive`). Up to one batch of them is harmless
  (`EntityForgetting.EntityIsForgotten`), and it stops early exactly if they fail `EntityForgetting.IsWithinReach`:
  with n live entries, of which the first f fill whole batches, no more than a batch of dangling ones may be older
  than number f, and n - f and the dangling ones older than number n may come to no more than two batches
  (`EntityForgetting.EntityIsForgottenIff`). With cascading that takes snapshots without entries of their own, as
  revisions make them (`StoreRuns.EntityIsForgottenIffAfterRun`, `EntityForgetting.CascadeTakesEntry`).
- Forgetting an entity does not reach records of it that no entry leads to, other than the snapshots that go with a
  record when cascading (`EntityForgetting.EntityIsForgottenIff`).
- Forgetting a snapshot takes along the temporal entry of the memory it was taken of: the two have one creation
  time and, unless it was changed, one entity (`ForgetProperties.OwnerKeepsEntryIff`).
- Of memories with equal content the ranking keeps the first in map order, not the most relevant; a memory is sure
  to be replaced by none less relevant exactly if none with its content is (`Ranking.MostRelevantIsKeptIff`,
  `Ranking.MoreRelevantIsDropped`).
- The cap on accumulated text is overshot by one separator for every text that comes when it is reached, and nothing
  bounds how often that happens (`SubscriptionRuns.OvershootIsCounted`, `SubscriptionRuns.CapHoldsIff`,
  `SubscriptionRuns.OvershootIsUnbounded`).
- On the in-memory backend a revision that keeps the entity loses the temporal entry
  (`BatchOrder.RevisionLosesEntryInMemory`), and the batch of every revision loses the vector
  (`BatchOrder.RevisionLosesVectorInMemory`), which a later commit of the vector index writes back
  (crates/hebbs-index/src/manager.rs:261-283).

## Model

| member | source | states |
|---|---|---|
| `Record.BuildEntry` | crates/hebbs-core/src/memory.rs:8-21 | the inner loop of the table builder leaves in an entry the index clocked eight times through the reflected shift register with constant 0x82F63B78 |
| `Record.BuildTable` | crates/hebbs-core/src/memory.rs:6-24 | the table has 256 entries, each of them the one for its index |
| `Record.ComputeCrc32c` | crates/hebbs-core/src/memory.rs:26-33 | the table loop computes the function that the theorems below are about, for every byte string |
| `CyclicCode.FeedIsRemainder` | crates/hebbs-core/src/memory.rs:26-33 | feeding a message bit by bit through the register gives the remainder of a long division of the message polynomial, offset by the initial state, by the generator of section 12.1 of RFC 3720 |
| `Record.Crc32cIsTheRemainder` | crates/hebbs-core/src/memory.rs:26-33 | on every byte string the table-driven checksum is the complemented remainder of the message polynomial, first 32 coefficients complemented, on division by the generator |
| `CyclicCode.CodewordsHaveOneResidue` | crates/hebbs-core/src/memory.rs:26-33 | a trailer is the checksum of a message exactly if the two together leave one fixed residue |
| `CyclicCode.BurstsAreDetected` | crates/hebbs-core/src/memory.rs:26-33 | two codewords of one length that differ only within 32 consecutive bits are the same |
| `CyclicCode.UndetectedIffDivides` | crates/hebbs-core/src/memory.rs:26-33 | what a codeword is turned into is a codeword again exactly if the generator divides the polynomial of the flipped bits |
| `CyclicCode.OddFlipsAreDetected` | crates/hebbs-core/src/memory.rs:26-33 | no odd number of flipped bits, however far apart, leads from a codeword to another, as every codeword has an even number of ones |
| `CyclicCode.LongerBurstGoesUndetected` | crates/hebbs-core/src/memory.rs:26-33 | the 32 bits are as many as can be: a burst of 33 that is the generator leads from every codeword to another, wherever it falls |
| `Record.ChecksumRightIffCodeword` | crates/hebbs-core/src/memory.rs:213-236 | from_bytes accepts the trailer of a marked record exactly if payload and trailer bits form a codeword |
| `Record.ChecksummedRoundTrip` | crates/hebbs-core/src/memory.rs:198-236 | an untouched checksummed record decodes to the memory it was made of |
| `Record.BurstIsReported` | crates/hebbs-core/src/memory.rs:198-236 | any change confined to 32 consecutive bits after the marker, in payload, trailer or both, makes from_bytes return the checksum error |
| `Record.OddFlipsAreReported` | crates/hebbs-core/src/memory.rs:198-236 | so does any odd number of flipped bits after the marker |
| `Record.UnreportedIffDivides` | crates/hebbs-core/src/memory.rs:198-236 | exactly those changes after the marker go unreported whose flipped bits form a multiple of the generator |
| `Record.FourChangedBytesAreReported` | crates/hebbs-core/src/memory.rs:198-236 | so does any change confined to four consecutive bytes after the marker |
| `Record.PlainRoundTrip` | crates/hebbs-core/src/memory.rs:186-236 | a plain encoding that begins with neither marker decodes to the memory it was made of |
| `Record.PlainRoundTripIff` | crates/hebbs-core/src/memory.rs:186-236 | with a decoder that accepts nothing else for the memory, no other plain encoding does |
| `RateLimiter.TokenBucket.Refill` | crates/hebbs-core/src/rate_limit.rs:111-119 | refilling adds rate times elapsed time up to the maximum and moves the clock of the bucket |
| `RateLimiter.TokenBucket.TryAcquire` | crates/hebbs-core/src/rate_limit.rs:99-109 | answer and new bucket are those of the specification: a token is taken, or the deficit is turned into a retry time |
| `RateLimiter.TokenBucket.Remaining` | crates/hebbs-core/src/rate_limit.rs:121-124 | reading the remaining tokens refills the bucket and takes nothing |
| `RateLimiter.Limiter.Check` | crates/hebbs-core/src/rate_limit.rs:153-173 | the answer and every bucket afterwards are those of the specification; a missing bucket starts full at its own reading of the clock, and buckets of other tenants and classes are untouched |
| `RateLimiter.Limiter.Status` | crates/hebbs-core/src/rate_limit.rs:175-202 | limit, remaining tokens and refill time, and every bucket afterwards, are those of the specification |
| `RateLimiter.CallsAreEvents` | crates/hebbs-core/src/rate_limit.rs:90-202 | calls with two readings of the clock, one for a bucket they create and one for the refill, leave the buckets that calls with one reading leave if a status call at its birth precedes the first use of each bucket |
| `RateLimiter.AnswersAreEvents` | crates/hebbs-core/src/rate_limit.rs:90-202 | and get the same answers, so that what follows about runs of events holds of them |
| `RateLimiter.LevelIsLeastAllowance` | crates/hebbs-core/src/rate_limit.rs:99-119 | after any run the level of a bucket is the least allowance left by any earlier event of it: burst plus rate times the time since, less the admissions since |
| `RateLimiter.AdmittedIffWithinAllowance` | crates/hebbs-core/src/rate_limit.rs:99-119 | in any run a check is admitted if and only if the burst is at least one and, from every earlier event of its bucket, the admissions since plus this one stay within burst + rate * elapsed |
| `RateLimiter.WindowBound` | crates/hebbs-core/src/rate_limit.rs:99-119 | no window of any run admits more than burst + rate * length, or than the burst if the rate is negative |
| `RateLimiter.WindowBoundIff` | crates/hebbs-core/src/rate_limit.rs:99-119 | with the rate as it is, burst + rate * length bounds all windows of all runs exactly if the rate is not negative |
| `RateLimiter.LevelDependsOnChecks` | crates/hebbs-core/src/rate_limit.rs:153-202 | with a rate that is not negative a bucket holds what the checks of its own tenant and class alone would leave |
| `RateLimiter.AnswerDependsOnChecks` | crates/hebbs-core/src/rate_limit.rs:90-202 | for calls with two readings of the clock: if limiting is off, the rate is not negative, the burst is zero, or it is one and the clock moves between the readings, every answer is the one the checks of the same tenant and class would get on their own |
| `RateLimiter.StatusIsTransparentIff` | crates/hebbs-core/src/rate_limit.rs:90-202 | that condition is exact, both if the two readings may coincide and if they never do: otherwise some run of calls has an answer that a status call changed |
| `RateLimiter.NegativeRateIsNotTransparent` | crates/hebbs-core/src/rate_limit.rs:90-202 | such a run: with a negative rate, and a token left when a fresh bucket is first looked at, an early status call turns an admission into a refusal |
| `RateLimiter.RetryAfterIsTight` | crates/hebbs-core/src/rate_limit.rs:99-109 | of a refused check and a later one of the same bucket: the later is admitted if the retry time has passed and no check was admitted in between, whatever else came, and it is refused a whole millisecond before that or earlier, whatever came |
| `RateLimiter.RetryIsCutIff` | crates/hebbs-core/src/rate_limit.rs:99-109 | a retry time is the greatest 64-bit number only if the wait is longer than that or there is no rate |
| `RateLimiter.FullInSeconds` | crates/hebbs-core/src/rate_limit.rs:175-202 | with a positive rate a bucket left alone is full after the seconds a status call gives, and not a whole second or more before |
| `RateLimiter.OperationMeetsLimits` | crates/hebbs-core/src/rate_limit.rs:24-73 | writing operations meet the write limits, administrative ones the admin limits and all others the read limits, each kind from a bucket of its own for every tenant |
| `Decay.Storage.RunBatch` | crates/hebbs-core/src/decay.rs:336-448 | one pass of the loop reads the store anew, rescores, lists candidates and moves or resets the cursor as the specification says |
| `Decay.Storage.RunDecaySweep` | crates/hebbs-core/src/decay.rs:321-449 | a sweep leaves records, candidates and cursor as its batches do, one after the other |
| `Decay.SweepIsRun` | crates/hebbs-core/src/decay.rs:336-449 | a sweep is a run of at most max_batches batches of which only the last can reset the cursor |
| `Decay.SweepsAreRun` | crates/hebbs-core/src/decay.rs:229-449 | sweeps in a row, each with its own configuration, are a run of batches, each beginning where the one before it stopped |
| `Decay.SteadySweep` | crates/hebbs-core/src/decay.rs:229-449 | a sweep over batches of one configuration is the sweep that is run with it |
| `Decay.BatchWindow` | crates/hebbs-core/src/decay.rs:337-366 | a batch processes, in order, exactly the keys it reads between the cursor it finds and the one it leaves |
| `Decay.ProcessedInOrder` | crates/hebbs-core/src/decay.rs:336-449 | within a cycle keys are processed in strictly increasing order |
| `Decay.CycleCoversOnce` | crates/hebbs-core/src/decay.rs:229-449 | over a cycle, with any writes of others and any change of configuration between batches, each key lies in the stretch of one batch and is processed exactly if that batch finds it; a key that every batch finds is processed, and none twice |
| `Decay.SweepsPerCycle` | crates/hebbs-core/src/decay.rs:321-449 | with a fixed set of n keys the sweep that ends the cycle is number n / (batch size * batches), counting from zero |
| `Decay.BatchScores` | crates/hebbs-core/src/decay.rs:372-405 | a processed record ends within epsilon of its score with all other fields as they were and is listed below the threshold; other records do not change |
| `Decay.StoredScore` | crates/hebbs-core/src/decay.rs:372-405 | the stored score is exactly the new one if that moved by more than epsilon and exactly the old one otherwise |
| `Decay.CandidateIff` | crates/hebbs-core/src/decay.rs:395-427 | whatever others clear from the list between batches, a record is a candidate after a run exactly if it was one before or fell below the threshold in some batch, and was not cleared since: a recovered score does not take it off, so the list is not that of the most recent sweep |
| `Decay.RecoveredStaysListed` | crates/hebbs-core/src/decay.rs:336-448 | a store of one record that scores below the threshold in one cycle and above it in the next lists it after both |
| `Decay.ScoreIsMonotone` | crates/hebbs-core/src/decay.rs:127-153 | a score falls with time, rises with accesses, starts at the importance or above and stays between zero and twice the importance |
| `Decay.ScoreHalves` | crates/hebbs-core/src/decay.rs:127-153 | a score halves with every half life without access |
| `Decay.AccessesReinforce` | crates/hebbs-core/src/decay.rs:127-153 | accesses add to the score of a memory without any in the proportion of their logarithm to that of the cap: at the cap it is doubled, and without a cap they count nothing |
| `Decay.ScoreBegins` | crates/hebbs-core/src/decay.rs:127-153 | a memory that was just accessed and never before scores its importance; without importance or half life every score is zero |
| `AutoForget.CandidateList.AutoForget` | crates/hebbs-core/src/engine.rs:1816-1833 | the listed ids are forgotten by id in one call and the list is cleared if that call succeeds |
| `AutoForget.ListedCandidates` | crates/hebbs-core/src/engine.rs:1816-1833 | it takes the listed memories that still exist, smallest id first, as many as fit one batch, whatever their score is by now |
| `AutoForget.AutoForgetForgets` | crates/hebbs-core/src/engine.rs:1816-1833 | exactly those, with their snapshots if it cascades, are gone; candidates beyond the batch are kept though the list is cleared |
| `AutoForget.ListedIsForgotten` | crates/hebbs-core/src/engine.rs:1816-1833 | a memory listed alone is forgotten, whatever its score has become |
| `Bloom.BloomFilter.Insert` | crates/hebbs-core/src/subscribe.rs:340-348 | or-ing bits into 64-bit words adds exactly the indices of the keyword to the set of bits and counts it; all word and bit indices are in range |
| `Bloom.BloomFilter.Test` | crates/hebbs-core/src/subscribe.rs:352-364 | the answer is true exactly if something was put in and all bits of the keyword are set |
| `Bloom.BloomFilter.TestAny` | crates/hebbs-core/src/subscribe.rs:368-370 | the answer is true exactly if some keyword tests positive |
| `Bloom.InsertedTestsPositive` | crates/hebbs-core/src/subscribe.rs:340-370 | a keyword tests positive exactly if something was put in and each of its bits was set by some keyword put in; every keyword put in does |
| `Bloom.PositiveIff` | crates/hebbs-core/src/subscribe.rs:325-375 | a keyword tests positive exactly if something was put in and every probe of it, walking from the first hash by steps of the second in 64 bits, falls where one of a keyword put in fell |
| `OutputQueue.OutputBuffer.Append` | crates/hebbs-core/src/subscribe.rs:496-504 | a push drops the oldest item when the buffer is full and counts the drop |
| `OutputQueue.OutputBuffer.TryRecv` | crates/hebbs-core/src/subscribe.rs:507-509 | a receive takes the oldest item, or nothing from an empty buffer |
| `OutputQueue.OutputBuffer.RecvTimeout` | crates/hebbs-core/src/subscribe.rs:512-518 | a blocking receive takes the oldest item there is after the wait, whatever was pushed meanwhile |
| `OutputQueue.QueueIsEndOfHistory` | crates/hebbs-core/src/subscribe.rs:483-523 | in any run the buffer is the end of the history of pushes, at most its capacity long; what was received is a subsequence in order of what came before; pushes = received + dropped + queued |
| `Subscriptions.CentroidState.Add` | crates/hebbs-core/src/subscribe.rs:552-558 | an embedding is added to the sum component by component and counted |
| `Subscriptions.CentroidState.Unit` | crates/hebbs-core/src/subscribe.rs:561-572 | the cached result is always the normalized mean of what was added |
| `SubscriptionWorker.BuildScopeData` | crates/hebbs-core/src/subscribe.rs:1259-1287 | filter and centroid are those of all keywords and all embeddings of the scanned memories |
| `SubscriptionWorker.SubscriptionWorker.ProcessChunk` | crates/hebbs-core/src/subscribe.rs:1049-1144 | the pipeline leaves worker and output as its specification says, each stage rejecting or letting through |
| `SubscriptionWorker.SubscriptionWorker.ProcessNotification` | crates/hebbs-core/src/subscribe.rs:1154-1212 | a notification leaves worker and output as its specification says |
| `SubscriptionWorker.SubscriptionWorker.Handle` | crates/hebbs-core/src/subscribe.rs:952-1010 | every message, and none, leaves the worker as its specification says |
| `SubscriptionWorker.SubscriptionWorker.Turn` | crates/hebbs-core/src/subscribe.rs:931-1025 | a turn of the loop is a step of the specification, pause, shutdown and rebuild included |
| `SubscriptionRuns.TurnGrows` | crates/hebbs-core/src/subscribe.rs:931-1025 | a turn that is no reset sends only admitted pushes of ids that were not in the dedup set and are now; a reset empties the set and sends nothing; while paused or after the end nothing is sent |
| `SubscriptionHits.SearchPushes` | crates/hebbs-core/src/subscribe.rs:1095-1147 | a search pushes, in the order of its hits, exactly the first near hit of each wanted id not pushed before, with one less its distance |
| `SubscriptionHits.TurnPushes` | crates/hebbs-core/src/subscribe.rs:1050-1220 | a turn that flushes pushes exactly these for its chunk, a notification its memory if the sum of products with the context is near, and any other turn nothing |
| `SubscriptionHits.FlushedIdIff` | crates/hebbs-core/src/subscribe.rs:1095-1147 | an id is pushed by such a turn exactly if it is that of a record of the entity, kinds and time scope, was not pushed before and has a hit with one less the distance at the threshold |
| `SubscriptionHits.InnerProductIsDot` | crates/hebbs-core/src/subscribe.rs:1239-1242 | the inner product is the sum of the products of the components |
| `SubscriptionRuns.DedupIsSentSinceReset` | crates/hebbs-core/src/subscribe.rs:931-1025 | in every run the dedup set is exactly the ids pushed since the last reset that took effect, and those pushes have distinct ids |
| `SubscriptionRuns.EverySentWasAdmitted` | crates/hebbs-core/src/subscribe.rs:1098-1141 | everything ever pushed was sent in a turn that met the worker running and not paused, at or above the threshold, in the scope of entity, kinds and time, and as stored |
| `SubscriptionRuns.RunAddsUp` | crates/hebbs-core/src/subscribe.rs:1061-1141 | in every run the counter of pushes is their number and no chunk is rejected twice |
| `SubscriptionRuns.FilterIsOfLastScan` | crates/hebbs-core/src/subscribe.rs:1012-1024 | in every run the filter is the one of the memories found by the last scan |
| `SubscriptionState.CentroidIs` | crates/hebbs-core/src/subscribe.rs:1259-1288 | the centroid of memories counts the embeddings of the right dimensions, and its mean times their number is their sum in every place |
| `SubscriptionState.CentroidIsOfScope` | crates/hebbs-core/src/subscribe.rs:1154-1200 | in every run the centroid is that of the memories of the last scan and of those notified since that belong to the scope |
| `SubscriptionState.TurnScope` | crates/hebbs-core/src/subscribe.rs:898-1040 | the scope is scanned again exactly when the interval is over or enough memories of it were written |
| `SubscriptionState.TurnCounts` | crates/hebbs-core/src/subscribe.rs:1049-1095 | a flush counts one chunk, rejected exactly if no keyword passes or it is below the coarse threshold, and becomes the context exactly if it is embedded |
| `SubscriptionState.TurnFlags` | crates/hebbs-core/src/subscribe.rs:898-1040 | when a worker stops and when it is paused |
| `SubscriptionState.FilterHasSize` | crates/hebbs-core/src/subscribe.rs:305-322 | the filter of keywords has the number of bits and of hash functions computed for their number, but no fewer than 64 bits and from 1 to 20 functions |
| `SubscriptionRuns.SharedKeywordPasses` | crates/hebbs-core/src/subscribe.rs:1064-1068 | in no run is a chunk rejected at stage 1 if it shares a keyword with a memory that the last scan found |
| `SubscriptionRuns.ChunkIsJoinedText` | crates/hebbs-core/src/subscribe.rs:409-462 | in every run, up to the maximum length, the buffered text, which a flush processes, is the texts taken since the last flush joined by single spaces |
| `SubscriptionState.TextIsGathered` | crates/hebbs-core/src/subscribe.rs:405-425 | in every run the token count is the sum over the texts since the last flush and the waiting time begins with the first of them that is not empty |
| `SubscriptionState.FlushesIff` | crates/hebbs-core/src/subscribe.rs:431-447 | a turn flushes exactly when these tokens reach the minimum, on demand if there is any text, or when three tokens or more have waited for the maximum time |
| `SubscriptionRuns.OvershootIsCounted` | crates/hebbs-core/src/subscribe.rs:405-425 | in every run the buffered text is longer than the maximum by at most the number of texts that came over the cap since the last flush, and by exactly that if there were any |
| `SubscriptionRuns.CapHoldsIff` | crates/hebbs-core/src/subscribe.rs:405-425 | so the cap on the accumulated text holds after a run exactly if no text came over it since the last flush |
| `SubscriptionRuns.OvershootContinues` | crates/hebbs-core/src/subscribe.rs:405-441 | from any full buffer that is short of the minimum of tokens, n further texts without tokens make it n longer |
| `SubscriptionRuns.OvershootIsUnbounded` | crates/hebbs-core/src/subscribe.rs:405-441 | for every n there is a run from the start that overshoots the maximum by n |
| `Store.Database.WriteBatch` | crates/hebbs-storage/src/rocksdb_backend.rs:200-221 | a batch is applied in its order |
| `Store.Database.AddEdge` | crates/hebbs-core/src/engine.rs:501-534 | add_edge writes the forward and the reverse entry with one metadata value |
| `Store.EdgeAddedIsPaired` | crates/hebbs-core/src/engine.rs:501-534 | add_edge keeps every forward entry matched by an equal reverse entry |
| `Store.EdgeAddedIsSymmetricIff` | crates/hebbs-core/src/engine.rs:501-534 | add_edge keeps Contradicts symmetric exactly if the edge is of another type, a loop, or already there the other way with the same metadata |
| `Store.ApplyPrepareDelete` | crates/hebbs-index/src/manager.rs:324-368 | the batch of a delete takes away the record, its temporal entry, its vector and every edge entry it collected, and nothing else |
| `Store.TouchingIsIncident` | crates/hebbs-index/src/graph.rs:398-434 | when forward and reverse entries match, the keys collected for a delete are those of all edges at either end |
| `Contradictions.CheckMemory` | crates/hebbs-core/src/contradict.rs:395-623 | the check writes exactly the changes it reports, or nothing on an error |
| `Contradictions.ChangesKeepGraph` | crates/hebbs-core/src/contradict.rs:472-623 | changes of checks and commits keep forward and reverse matched and Contradicts symmetric with equal metadata, and lose no edge |
| `Contradictions.CheckSkipsJoined` | crates/hebbs-core/src/contradict.rs:429-460 | a check reports nothing about a pair joined by Contradicts, from whichever side |
| `Contradictions.ReclassifiedUnlessOutgoing` | crates/hebbs-core/src/contradict.rs:395-623 | for every configuration, classifier and list of neighbours a check says something about two memories exactly if they can be compared, no Contradicts or RevisedFrom edge leads from the one checked to the other, and a near enough neighbour is the other with an accepted answer |
| `Classification.ChangeIffWarranted` | crates/hebbs-core/src/contradict.rs:429-610 | a check makes exactly the changes that accepted answers about open pairs of close neighbours warrant |
| `Classification.AnswerDecides` | crates/hebbs-core/src/contradict.rs:470-610 | an accepted contradiction of the LLM writes Contradicts, an accepted revision RevisedFrom, each with its confidence, and an accepted suspicion of the heuristic a pending record with score and similarity |
| `Classification.CheckedEdges` | crates/hebbs-core/src/contradict.rs:484-575 | afterwards Contradicts joins an open pair exactly if the LLM says contradiction, and RevisedFrom leads from the other memory exactly if it says revision or led before, with the confidence of the answer |
| `Contradictions.RevisionIsSkippedFromOneSide` | crates/hebbs-core/src/contradict.rs:429-460 | so a revision is never classified again from the newer memory, but from the older one it is under the same conditions |
| `Contradictions.RevisionIsReclassified` | crates/hebbs-core/src/contradict.rs:429-460 | one such check, for any two memories that can be compared |
| `Contradictions.CommitContradictions` | crates/hebbs-core/src/contradict.rs:660-807 | a commit applies the changes of all verdicts, with the details and the three counters, or on any error changes nothing |
| `Contradictions.CommitSucceedsIff` | crates/hebbs-core/src/contradict.rs:660-702 | a commit goes through exactly if every verdict names a pending record |
| `Contradictions.CommitErrorIff` | crates/hebbs-core/src/contradict.rs:660-701 | a commit that fails returns the error of the first verdict whose reference is not hex, has the wrong length, or names no pending record |
| `Contradictions.CountersAddUp` | crates/hebbs-core/src/contradict.rs:704-793 | the three counters add up to the number of verdicts |
| `Contradictions.CommitEffect` | crates/hebbs-core/src/contradict.rs:660-807 | the pending records named are gone and others untouched; an edge changes exactly if a verdict stands for it, and the last one decides; memories and indexes stay as they were |
| `Contradictions.RunKeepsGraph` | crates/hebbs-core/src/contradict.rs:395-807 | over all runs of checks, commits and added edges of other types both graph invariants hold, and a joined pair stays joined |
| `Contradictions.JoinedOnceNeverReclassified` | crates/hebbs-core/src/contradict.rs:429-460 | over all such runs a pair once joined by Contradicts is never classified again by a check |
| `Contradictions.PendingPairIsQueuedAgain` | crates/hebbs-core/src/contradict.rs:429-460 | a pair that waits for review is queued again exactly if it would be queued without that: pending records make no difference to a check |
| `Contradictions.CommitClassifiesIff` | crates/hebbs-core/src/contradict.rs:704-793 | a commit classifies a pair exactly if a verdict names a pending record of it and does not dismiss it, joined or not |
| `Revisions.Revise` | crates/hebbs-core/src/engine.rs:1353-1608 | revise returns the revised memory and leaves the state of its specification; every refusal leaves the state alone |
| `Revisions.ApplyReviseOps` | crates/hebbs-core/src/engine.rs:1510-1596 | the batch applied in order stores the snapshot and the revised memory, moves the temporal entry, replaces the vector, adds the edges and prunes |
| `Revisions.Revised` | crates/hebbs-core/src/engine.rs:1356-1508 | a revised memory keeps its id and creation time, advances its logical clock by one and has an embedding |
| `Revisions.ReviseSucceedsIff` | crates/hebbs-core/src/engine.rs:1356-1508 | documents when a revision goes through: valid input, an existing memory, a vector of the right length, embedded anew only for new content, and a context that fits |
| `Revisions.ReviseErrorIs` | crates/hebbs-core/src/engine.rs:1353-1510 | which error a revision that does not go through returns: a broken rule of the input, a missing memory, a failed or missing embedding, a context too large or a vector of wrong length, in this order |
| `Revisions.RevisedFields` | crates/hebbs-core/src/engine.rs:1446-1508 | documents the fields: what is given is set and the rest kept; a merged context has the keys of both, the given ones winning; besides only time, kind, score (reset to the importance) and clock change |
| `Revisions.RevisingAgainOnlyTicks` | crates/hebbs-core/src/engine.rs:1446-1508 | the same revision once more succeeds and changes only the time and the clock |
| `Revisions.ReviseKeepsPaired` | crates/hebbs-core/src/engine.rs:1353-1608 | a revision keeps forward and reverse entries matched |
| `Revisions.ReviseKeepsSymmetric` | crates/hebbs-core/src/engine.rs:1353-1608 | a revision that adds no Contradicts edge keeps Contradicts symmetric, whatever it prunes |
| `Lineage.RevisedMetadata` | crates/hebbs-core/src/engine.rs:1528-1550 | after a revision an edge has the confidence that was asked for last, 1 if none was and for the snapshot, and the creation time of the memory, or what it had if the revision does not write it |
| `Lineage.OwnRevision` | crates/hebbs-core/src/engine.rs:1510-1596 | a revision of a memory adds the state it replaces to its snapshots and drops the oldest beyond the limit |
| `Lineage.OtherRevision` | crates/hebbs-core/src/engine.rs:1510-1596 | a revision of another memory leaves record and snapshots alone |
| `Lineage.LastStatesSurvive` | crates/hebbs-core/src/engine.rs:1353-1608 | after any run of revisions of a memory and of others, k of them its own, its snapshots are the states before the last min(k, limit), in id order, all older ones are gone, and the memory holds its latest state with its id, creation time and a clock advanced by k |
| `Lineage.AdoptedMemoryIsLost` | crates/hebbs-core/src/engine.rs:1562-1582 | a memory that only RevisedFrom edges of other origin enter counts as a snapshot: at the limit the next revision of their source deletes it and leaves its temporal entry behind |
| `ForgetProperties.ReviseKeepsIndexIff` | crates/hebbs-core/src/engine.rs:1562-1582 | a revision keeps the temporal index free of dangling entries exactly if it prunes neither the revised memory, while that stays indexed, nor another indexed one whose entry the revision does not itself take over or remove |
| `Forgetting.ResolveByIds` | crates/hebbs-core/src/engine.rs:2214-2231 | ids are resolved in order up to the limit, missing ones skipped, a malformed one reached before the limit refused |
| `Forgetting.ResolveCandidates` | crates/hebbs-core/src/engine.rs:2151-2212 | candidates are those of the specification for ids, entity, ids with filters, and scans |
| `Forgetting.Forget` | crates/hebbs-core/src/engine.rs:1635-1757 | forget returns the counters and leaves the state of its specification; tombstones and forgotten memories are counted alike |
| `Forgetting.ApplyForgetOps` | crates/hebbs-core/src/engine.rs:1664-1722 | the batch applied in order deletes candidates and snapshots and writes a tombstone for each candidate |
| `ForgetOutcome.ForgottenIffAskedFor` | crates/hebbs-core/src/engine.rs:2151-2275 | after a forget that is not cut off and whose scan sees everything, a record that no cascade takes is gone exactly if by its own fields it is what was asked for: named, of the entity and kind, and below every bound given |
| `ForgetOutcome.BelowIsForgotten` | crates/hebbs-core/src/engine.rs:2246-2267 | by one bound alone exactly the records go whose last access, access count or score is below it |
| `ForgetOutcome.RefusedIff` | crates/hebbs-core/src/engine.rs:2151-2212 | a forget is refused exactly if nothing is asked for or an id that is looked at is malformed |
| `ForgetOutcome.ReportedIff` | crates/hebbs-core/src/engine.rs:1664-1757 | forgotten and cascaded together are at least the number of records gone, and exactly that if and only if no record is taken twice |
| `ForgetProperties.CandidatesMatch` | crates/hebbs-core/src/engine.rs:2151-2275 | every candidate is a record that meets all criteria, and there are no more than a batch takes |
| `ForgetProperties.UntruncatedTakesWindow` | crates/hebbs-core/src/engine.rs:2151-2212 | a forget that was not cut off takes exactly what matches within the scan it made before filtering |
| `ForgetProperties.UntruncatedIsComplete` | crates/hebbs-core/src/engine.rs:2151-2212 | when that scan sees everything, a forget that was not cut off leaves nothing that matches |
| `ForgetProperties.UntruncatedIsCompleteIff` | crates/hebbs-core/src/engine.rs:2151-2212 | it leaves nothing that matches exactly if the criteria are ids alone or everything that matches lies within that scan |
| `ForgetProperties.UntruncatedMayMiss` | crates/hebbs-core/src/engine.rs:2151-2212 | when something matches but nothing in that scan does, nothing is reported forgotten and nothing left |
| `ForgetProperties.MatchBeyondWindow` | crates/hebbs-core/src/engine.rs:2151-2212 | a store of three records where that happens |
| `ForgetProperties.OwnerKeepsEntryIff` | crates/hebbs-core/src/engine.rs:1664-1722 | a memory that stays and owns its temporal entry keeps it exactly if nothing forgotten has its entity and creation time |
| `ForgetProperties.ForgetRemovesExactly` | crates/hebbs-core/src/engine.rs:1664-1722 | a forget removes exactly its candidates and, if it cascades, their RevisedFrom targets entered by RevisedFrom edges alone, with vectors, temporal entries and all edges at either end, and writes a tombstone with entity, content and cascade count for each candidate |
| `ForgetProperties.ForgetKeepsStore` | crates/hebbs-core/src/engine.rs:1635-1757 | a forget keeps forward and reverse matched, Contradicts symmetric and the temporal index free of dangling entries |
| `EntityCalls.CallLeaves` | crates/hebbs-core/src/engine.rs:1635-1757 | one call for an entity removes exactly the records it took and, with cascading, their snapshots; no other live entry goes and no dangling one, unless a snapshot has an entry of its own |
| `EntityCalls.CallTakes` | crates/hebbs-core/src/engine.rs:2151-2275 | it takes the oldest live entries: a whole batch exactly if there are as many and no more than a batch of dangling ones is older than the last of them, and otherwise all exactly if live and older dangling ones fit twice the batch |
| `EntityCalls.EntityCall` | crates/hebbs-core/src/engine.rs:1635-1757 | a call is cut off exactly if it takes a whole batch; with at most a batch of dangling entries one that is not cut off leaves no live one |
| `EntityCalls.CutOffWithNothingLeftIff` | crates/hebbs-core/src/engine.rs:1621-1657 | cascading or not, as long as snapshots have no entries of their own, a call that is cut off leaves nothing exactly if the last live entry completes the batch, so the flag does not say that candidates remain |
| `EntityCalls.CutOffWithNothingLeft` | crates/hebbs-core/src/engine.rs:1621-1657 | a store of one live entry and a batch of one, where the call is cut off and no record or entry is left, cascading or not |
| `EntityForgetting.EntityIsForgotten` | crates/hebbs-core/src/engine.rs:1635-1757 | repeating the call while it is cut off takes at most n / batch + 1 calls for n live entries, and leaves none if at most a batch of the entries of the entity dangles |
| `EntityForgetting.EntityIsForgottenIff` | crates/hebbs-core/src/engine.rs:1635-1757 | cascading or not, as long as snapshots have no entries of their own, it leaves no live entry exactly if the dangling ones, by a count of those older than two of the live ones, are not in the way, and takes n / batch + 1 calls then; the records that live entries led to are gone and with cascading their snapshots, and all others stay but, with cascading, for RevisedFrom targets that became snapshots on the way |
| `EntityForgetting.CascadeTakesEntry` | crates/hebbs-core/src/engine.rs:1664-1722 | a store where a cascade takes a record with an entry of its own: two calls instead of three |
| `EntityForgetting.DanglingEntriesHideLive` | crates/hebbs-core/src/engine.rs:2151-2212 | a store where two dangling entries make the first call find nothing, say that it was not cut off and leave a live entry |
| `IndexAgreement.ReviseKeepsAgreement` | crates/hebbs-core/src/engine.rs:1353-1582 | no revision under a new id, whatever it prunes, makes an entry lead to a record of another entity or time |
| `IndexAgreement.ForgetKeepsAgreement` | crates/hebbs-core/src/engine.rs:1635-1757 | nor does any forget |
| `IndexAgreement.LineageIsApart` | crates/hebbs-core/src/engine.rs:1432-1456 | if RevisedFrom leads to records of the same creation time, as to snapshots, these have no entries of their own |
| `IndexAgreement.ReviseKeepsLineage` | crates/hebbs-core/src/engine.rs:1353-1608 | a revision under a new id keeps that, if the caller adds no RevisedFrom edge |
| `Truncation.RemainingIs` | crates/hebbs-core/src/engine.rs:1635-1757 | for criteria of any kind, what meets them and can be reached after a forget is what did before less what is gone |
| `Truncation.TruncatedLeavesIff` | crates/hebbs-core/src/engine.rs:1621-1657 | for criteria of any kind that name no id twice, a forget that was cut off leaves something that meets them exactly if more than a batch of it was there, not counting matching snapshots that went along |
| `Truncation.OneIdCutOff` | crates/hebbs-core/src/engine.rs:1621-1657 | forgetting one id at a batch of one is cut off and leaves nothing |
| `StoreRuns.RunKeepsStore` | crates/hebbs-core/src/engine.rs:1353-1757 | over all runs of checks, commits, added edges, revisions, forgets and auto-forgets the graph invariants hold and records stay under their ids; a pair joined by Contradicts stays joined until a forget takes one of the two as a candidate |
| `StoreRuns.RunKeepsAgreement` | crates/hebbs-core/src/engine.rs:1353-1757 | over all such runs with new ids for snapshots an entry of the temporal index leads to no record or to one of its entity and time |
| `StoreRuns.EntityIsForgottenAfterRun` | crates/hebbs-core/src/engine.rs:1353-1757 | so after any such run repeated forgets of an entity leave no live entry of it if at most a batch of its entries dangles |
| `StoreRuns.RunKeepsLineage` | crates/hebbs-core/src/engine.rs:1353-1757 | over all runs in which only revisions add RevisedFrom edges these lead to records of the same creation time |
| `StoreRuns.EntityIsForgottenIffAfterRun` | crates/hebbs-core/src/engine.rs:1353-1757 | so after any such run, cascading or not, it is exact when repeated forgets of an entity leave no live entry and how many calls they take |
| `StoreRuns.JoinedStaysSettled` | crates/hebbs-core/src/contradict.rs:429-460 | until then no check says anything about the pair |
| `BatchOrder.MemoryFamily.WriteBatch` | crates/hebbs-storage/src/memory_backend.rs:82-138 | the in-memory backend applies all puts of a family and then all its deletes |
| `BatchOrder.BackendsAgreeIff` | crates/hebbs-storage/src/memory_backend.rs:82-138 | it leaves on a key what RocksDB leaves exactly unless the batch deletes the key and puts it back |
| `BatchOrder.RevisionLosesEntryInMemory` | crates/hebbs-index/src/manager.rs:426-452 | so a revision that keeps the entity loses the temporal entry on the in-memory backend, and one that changes it does not |
| `BatchOrder.RevisionLosesVectorInMemory` | crates/hebbs-index/src/manager.rs:435-474 | the batch of every revision leaves the memory without a vector on the in-memory backend, and with the new one on RocksDB unless the memory itself is pruned |
| `Ranking.MergeById` | crates/hebbs-core/src/engine.rs:3078-3094 | the map holds for each id found the first memory, the highest relevance and all details in order |
| `Ranking.RemoveRepeats` | crates/hebbs-core/src/engine.rs:3096-3103 | in iteration order exactly the memories stay whose content was not seen before |
| `Ranking.MergeAndRank` | crates/hebbs-core/src/engine.rs:3066-3127 | the result is the ranking for some iteration order of the map |
| `Ranking.RankingIsSound` | crates/hebbs-core/src/engine.rs:3066-3127 | for every iteration order: at most top_k results in descending order, ids and contents distinct, each with the highest relevance and all details of its id; every memory found has one of its content that is in the ranking or was cut off a full one in which nothing scores less |
| `Ranking.LaterOfSameContentIsDropped` | crates/hebbs-core/src/engine.rs:3096-3103 | of memories with one content the first in iteration order stays, however relevant the others |
| `Ranking.MostRelevantIsKeptIff` | crates/hebbs-core/src/engine.rs:3096-3103 | whatever the iteration order, the memory kept for a content is at least as relevant as a given one exactly if every memory found with that content is |
| `Ranking.MoreRelevantIsDropped` | crates/hebbs-core/src/engine.rs:3096-3103 | two memories and an order for which the more relevant is not in the ranking |
| `Ranking.ScoreIsBounded` | crates/hebbs-core/src/engine.rs:3269-3296 | with weights that are not negative a score lies between zero and their sum and does not fall when the relevance rises |
| `Scoring.AgeDecides` | crates/hebbs-core/src/engine.rs:3269-3298 | within the maximum age two memories alike otherwise differ in score by the recency weight times their difference in age over the maximum, in favour of the younger |
| `Scoring.AgeIsBounded` | crates/hebbs-core/src/engine.rs:3275-3280 | beyond the maximum age, in the future, or without a maximum the age makes no difference |
| `Scoring.ImportanceDecides` | crates/hebbs-core/src/engine.rs:3282-3297 | importance within 0 and 1 counts by its weight, and what is outside as the nearer end |
| `Scoring.RelevanceDecides` | crates/hebbs-core/src/engine.rs:3269-3298 | so does relevance |
| `Scoring.UseDecides` | crates/hebbs-core/src/engine.rs:3284-3291 | up to the cap accesses count by the ratio of logarithms, so that more score strictly more |
| `Scoring.UseIsBounded` | crates/hebbs-core/src/engine.rs:3284-3291 | above the cap, or without one, their number makes no difference |
| `Scoring.ScoreEnds` | crates/hebbs-core/src/engine.rs:3257-3298 | all signals at their full make the sum of the weights and all at their least make zero |
| `Scoring.YoungerComesFirst` | crates/hebbs-core/src/engine.rs:3257-3298 | of two kept memories alike but for age the younger stands before the older in every ranking, and is in it if the older is |
| `ByteOrder.PrefixIsContiguous` | crates/hebbs-core/src/engine.rs:949-972 | keys that share a prefix are contiguous in byte order |
| `Keys.BigEndianRoundTrip` | crates/hebbs-core/src/keys.rs:86-98 | a number read back from its big-endian bytes is the number |
| `Keys.BigEndianOrder` | crates/hebbs-core/src/keys.rs:82-98 | big-endian numbers of one width compare as bytes as they do as numbers |
| `Keys.TemporalKeyOrder` | crates/hebbs-core/src/keys.rs:37-42 | byte order of the temporal keys of an entity is order in time |
| `Keys.PrefixIdentifiesEntity` | crates/hebbs-core/src/keys.rs:48-53 | a temporal key matches the prefix of an entity only if it belongs to it |
| `Keys.TemporalKeyIsInjective` | crates/hebbs-core/src/keys.rs:37-42 | equal temporal keys have equal entity and time |
| `Keys.QueryRangeFinds` | crates/hebbs-index/src/temporal.rs:79-115 | a range query returns in the order asked for, up to the limit, entries of its entity from start up to but not at end; such an entry is missing exactly if the limit is reached by ones before it |
| `Keys.EntityKeysAreContiguous` | crates/hebbs-core/src/engine.rs:949-972 | the keys of an entity are contiguous in byte order |
| `Keys.ListEntities` | crates/hebbs-core/src/engine.rs:949-972 | each indexed entity is listed exactly once, even when one id is a prefix of another |
| `Keys.TombstoneTimeRoundTrip` | crates/hebbs-core/src/forget.rs:164-172 | the time read back from a tombstone key is the one encoded |
| `Keys.TombstoneExpires` | crates/hebbs-core/src/engine.rs:1851-1870 | a tombstone is collected exactly if it is older than the cutoff |
| `Keys.TombstoneStaysIff` | crates/hebbs-core/src/engine.rs:1841-1882 | a tombstone written at t is kept exactly as long as the time is no later than t plus the time to live |
| `Keys.MetaFamily.GcTombstones` | crates/hebbs-core/src/engine.rs:1841-1882 | exactly the expired tombstones are deleted, nothing else, and their number is returned |
| `Calendar.DaysToYmdCounts` | crates/hebbs-cli/src/format.rs:123-137 | for every n the algorithm gives the date n applications of the Gregorian next-day rule after 1 January 1970 (section 5.7 and Appendix C of RFC 3339) |
| `Calendar.DaysToYmdIncreases` | crates/hebbs-cli/src/format.rs:123-137 | later days have later dates |
| `Calendar.DaysSinceEpochInverts` | crates/hebbs-cli/src/format.rs:123-137 | counting the days of the date gives the day number back |
| `Calendar.DaysToYmdInverts` | crates/hebbs-cli/src/format.rs:123-137 | every valid date from 1970 on is the date of its day number |
| `Calendar.FormattedTimeRecombines` | crates/hebbs-cli/src/format.rs:99-121 | the fields of a formatted time recombine to the milliseconds formatted |
| `Calendar.YearFits` | crates/hebbs-cli/src/format.rs:99-137 | the year of any 64-bit microsecond count fits the integer type it is cast to |
| `Tokenizer.Tokenize` | crates/hebbs-cli/src/tokenizer.rs:7-66 | the loop computes the tokens or the error of the quote automaton |
| `Tokenizer.ErrorIffInsideQuote` | crates/hebbs-cli/src/tokenizer.rs:7-66 | an error is returned exactly if the input ends inside a quote, and it names that quote |
| `Tokenizer.NoTokenIsEmpty` | crates/hebbs-cli/src/tokenizer.rs:7-66 | no token is empty |
| `Tokenizer.TokensAppend` | crates/hebbs-cli/src/tokenizer.rs:7-66 | input that ends outside quotes, a blank and more input give the tokens of both |
| `Tokenizer.QuotedLineRoundTrip` | crates/hebbs-cli/src/tokenizer.rs:7-66 | texts double-quoted with quotes and backslashes escaped and joined by blanks tokenize to the texts that are not empty |
| `Tokenizer.QuotedLineLosesNothing` | crates/hebbs-cli/src/tokenizer.rs:7-66 | for texts none of which is empty that is the same list |
| `CommandLines.LineGivesWords` | crates/hebbs-cli/src/tokenizer.rs:7-66 | every line of bare characters, double-quoted units, single-quoted texts and blanks tokenizes to its words: what stands between blanks, put together |
| `CommandLines.TokenizesIffLine` | crates/hebbs-cli/src/tokenizer.rs:7-66 | the tokenizer accepts exactly such lines |
| `CommandLines.PlainWordsRoundTrip` | crates/hebbs-cli/src/tokenizer.rs:7-66 | words without blanks and quotes, separated by blanks or tabs, tokenize to the words |
| `CommandLines.SingleQuotedText` | crates/hebbs-cli/src/tokenizer.rs:7-66 | a text in single quotes is taken as it is, backslashes included |
| `CommandLines.AdjacentPieces` | crates/hebbs-cli/src/tokenizer.rs:7-66 | plain, double-quoted and single-quoted pieces that stand together make one token |
| `Base64Url.Encode` | crates/hebbs-core/src/auth.rs:232-272 | the loop computes the encoding that the lemmas below are about |
| `Base64Url.AlphabetIsTable` | crates/hebbs-core/src/auth.rs:233-235 | the alphabet is the table of section 5 of RFC 4648 |
| `Base64Url.Encoded` | crates/hebbs-core/src/auth.rs:232-272 | an encoding of n bytes has ceil(4n / 3) symbols |
| `Base64Url.EncodeRoundTrip` | crates/hebbs-core/src/auth.rs:232-272 | a decoder by the table of section 5 of RFC 4648 recovers every input |
| `Base64Url.EncodeIsInjective` | crates/hebbs-core/src/auth.rs:232-272 | different inputs have different encodings |
| `Base64Url.EncodedInAlphabet` | crates/hebbs-core/src/auth.rs:232-272 | every symbol is in the alphabet |

## Left out

- RateLimiter.LevelDependsOnChecks: requires a rate that is not negative; with a negative one a bucket that a status call created drains while one not yet created is full. What that does to answers is stated exactly by `RateLimiter.StatusIsTransparentIff`.
- RateLimiter.LevelIsLeastAllowance: like the other statements about runs of events, reads the clock once per call; `RateLimiter.CallsAreEvents` reduces calls that read it twice to such runs.
- Decay.SweepsPerCycle: is about one configuration and a store whose set of keys does not change; `Decay.CycleCoversOnce` is about one that does.
- EntityForgetting.EntityIsForgottenIff: with cascading requires that no RevisedFrom target of the entity has an entry of its own; where one has, as in `EntityForgetting.CascadeTakesEntry`, what is stated is `EntityForgetting.EntityIsForgotten` and `EntityCalls.CallLeaves`. Which records became snapshots only on the way is stated as bounds.
- IndexAgreement.ReviseKeepsAgreement: requires that the id of the snapshot is that of no record and no temporal entry, as generated ids are.
- Revisions.Revised: counts the logical clock without bound; in the source it stops at the greatest 64-bit number.
- Lineage.LastStatesSurvive: requires that no revision of the run touches the snapshots or gives them other edges, because otherwise they are kept or lost for other reasons, as `Lineage.AdoptedMemoryIsLost` shows.
- Subscriptions.Appended: counts characters; in the source the cut at the cap is a byte position, and a cut inside a UTF-8 character panics (crates/hebbs-core/src/subscribe.rs:422).
- SubscriptionRuns.ChunkIsJoinedText: is about texts that together stay within the maximum length; beyond it text is cut.
- OutputQueue.QueueIsEndOfHistory: requires a capacity of at least one, which the validated configuration guarantees.
- Contradictions.RunKeepsGraph: like `StoreRuns.RunKeepsStore`, leaves out edges of type Contradicts that a caller adds in one direction; `Store.EdgeAddedIsSymmetricIff` says when they are harmless.
- The heuristic classifier, keyword extraction and token counting are unspecified functions: their Unicode rules are not modelled.
- The vector index, its in-memory commits and the second vector family are not modelled; vectors are entries that are put and deleted.
- Marking insights stale after a revision or a forget, compaction and best-effort writes that fail are not modelled.
- The criteria description in a tombstone is not modelled.
- The API key cache is left out: its operations are single map updates.
- Reflection, recall strategies, the remember operation, entity extraction, tenants' scoping of keys, and all servers and clients are not part of this model.
- Threads and channels are modelled as the sequence of messages that a worker takes; queue capacities of the channels, statistics of dropped notifications and the subscription registry are left out.
