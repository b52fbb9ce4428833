# Measurement and verification tooling, modelled in Dafny

The repository's Python and TypeScript scripts measure a code-search engine and guard its
releases: they rank dense search results, score retrieval, talk to the engine over pipes,
drive a witnessed workload, take a census of its storage, audit retired vocabulary, and plan
merge-queue evaluations. This project models the logic of those scripts and proves what they
are relied on for. `dafny verify dfyconfig.toml` checks all of it.

How the model relates to the scripts:

- Files, subprocesses, HTTP, git, SQLite, clocks and threads are inputs: byte sequences,
  snapshots, oracles that say what each attempt is answered, schedules of steps, status
  sequences. Every theorem holds for all of them.
- Loops that update variables are methods with invariants; objects are classes; each is tied to
  a function or a predicate that the lemmas then speak about.
- Scores, gains and percentages are exact reals. JSON, UTF-8, regular expressions, hashes,
  `unescapeJsString` and NumPy's `argpartition` are opaque functions, the last one with the
  partition property its documentation promises.
- Where a proof needs only the laws of a part (a discount, a scanner, white space, what one turn
  of a loop does), the statement is made for every part with those laws, and the script's own
  part is shown to have them.

| module | what it models |
|---|---|
| `DenseTopK` | chunked top-k over per-query bounded heaps |
| `SemanticBin`, `SemanticReaders`, `DensePass` | the `semantic.bin` format, its two readers, and the dense pass from file bytes to heaps |
| `Metrics`, `NdcgRange` | greedy matching, DCG and nDCG, recall, precision, reciprocal rank; exactly when nDCG stays within [0, 1] |
| `NdjsonStream`, `AftClient`, `Broker` | framing, request ids, and the id-less broker protocol |
| `Workload`, `ProcessTree` | the witnessed workload and the process ownership fixpoint |
| `Census`, `CensusSources`, `Counter` | the retention census, the sources of its identity records, and its byte counters |
| `LineText`, `Occurrences`, `Allowlist` | the content-keyed vocabulary audit |
| `PullRequests`, `MergeQueue` | retry schedules, member lookup and the merge-queue plan |
| `StringLiterals`, `StringExpressions` | the JavaScript string scanners of the token audit |
| `Leb128`, `Settle`, `TestInventory`, `Percentile` | WebAssembly sections, the settle detector, the test partition proof, nearest ranks |
| `Basics`, `Ordering`, `Picking`, `Decimal`, `Text`, `JsText` | options and bytes, sorting, reading positions, decimal numerals, text search, white space |

Where a promise turned out not to hold of the code, the model keeps the code, a lemma shows a
failing input, and another states exactly when the promise holds:

- nDCG can leave [0, 1]: gains are read without a check of their sign, and one negative gain takes
  it above 1 (`Metrics.NegativeGainBreaksBound`). `NdcgRange.NdcgRangeIff` gives the exact guard for
  truths with distinct bodies and equality as relevance. With a positive ideal, all prediction lists
  score within [0, 1] exactly when no gain lies in (-1, 0), where it could still win a match, and no
  negative gain lies within the ideal cut. An ideal of 0 always scores 0. With a negative ideal no
  gain may be positive and the worst answer may not fall below the ideal. The first guard suffices
  for every relevance and discount (`Metrics.NdcgInUnitInterval`).
- The census says that failed probes are no permission to delete. A pointer database that cannot
  be read protects a live root's generations, but a directory whose root is gone is planned for
  removal all the same (`Census.FailedProbePlanned`, `Census.FailedProbeKeepsIff`). A registry, an
  owner file or a retention record that cannot be read drops its records: a root alive only there is
  planned as missing (`CensusSources.LostRegistryPlanned`). Such a plan would also be made with the
  lost records exactly when each of them is old, unowned and of a root that is gone
  (`CensusSources.MissingRootSurvivesIff`); plans of superseded files never depend on them
  (`CensusSources.SupersededSurvives`).
- The inventory proof compares the unit shards with the unit shardable listing, which it does not
  compare with the unit listing. That listing skips every test whose name contains a serial name,
  while serial tests are recognised by the end of their name; so an accepted inventory can hold a
  test that is neither serial nor in a shard (`TestInventory.AcceptedWithUnshardedTest`). A unit test
  lies in exactly one shard if and only if it matches and its name contains neither skip string
  (`TestInventory.UnitShardIff`).
- The performance gate's percentile has no clamp: it raises exactly for percentages above 100
  (`Percentile.GateFailsIff`).

## Model

| member | source | states |
|---|---|---|
| `DenseTopK.OfferKeepsBest` | benchmarks/aft-search/run_query_instruction_ab.py:249-254 | offering an item to the bounded heap leaves the k best of what was there and the item, as sorting and taking k would |
| `DenseTopK.CandidatesSuffice` | benchmarks/aft-search/run_query_instruction_ab.py:245-247 | the partition's candidates of a chunk stand for the whole chunk: offering only them gives the same k best scores, whatever order the partition picks |
| `DenseTopK.ScoreQuery` | benchmarks/aft-search/run_query_instruction_ab.py:244-254 | after a chunk a query's heap holds the top of the longer stream |
| `DenseTopK.ScoreChunk` | benchmarks/aft-search/run_query_instruction_ab.py:227-256 | the same for all queries at once, an empty chunk changing nothing |
| `DenseTopK.ResolveHeaps` | benchmarks/aft-search/run_query_instruction_ab.py:207-271 | for every row stream, chunk size and partition, each final heap is the top k over the rows outside test paths, said of the rows themselves: rows at distinct positions, none in a test path, with their own file, text and score, greatest score first and the later of equals before, k of them or all there are, and no row left out scores more |
| `DenseTopK.NonTestKeeps` | benchmarks/aft-search/run_query_instruction_ab.py:266-268 | skipping keeps exactly the rows outside test paths, each once and in order |
| `DenseTopK.NonTestCounts` | benchmarks/aft-search/run_query_instruction_ab.py:266-268 | of a test row no copy is kept, of any other row as many as there are |
| `DenseTopK.TopLeads` | benchmarks/aft-search/run_query_instruction_ab.py:227-271 | sort-and-take heaps over the kept rows lead the whole stream in that sense |
| `Metrics.BestMatchingTruthIndex` | benchmarks/aft-search/metrics.py:94-110 | the first unused relevant truth of greatest gain, gains of -1 or less never winning; none exactly when there is none |
| `Metrics.BestIsBest` | benchmarks/aft-search/metrics.py:94-110 | that answer exists and is unique |
| `Metrics.MatchedWithoutReuse` | benchmarks/aft-search/metrics.py:157-169 | matched gains and gains left over make up all gains: no truth is used twice |
| `Metrics.MissesCost` | benchmarks/aft-search/metrics.py:157-169 | if no gain in (-1, 0) can win a match, greedy DCG is non-negative, and leaving misses out, which moves later gains forward, never lowers it |
| `Metrics.SortingGains` | benchmarks/aft-search/metrics.py:172-182 | rearrangement: descending order has the greatest discounted gain |
| `Metrics.WeightedIsDiscount` | benchmarks/aft-search/metrics.py:166-168 | the gain times any positive non-increasing weight of the rank obeys the laws of a discount |
| `Metrics.DcgAtK` | benchmarks/aft-search/metrics.py:157-169 | the loop computes the discounted sum of the greedily collected gains |
| `Metrics.DcgAtMostIdeal` | benchmarks/aft-search/metrics.py:157-182 | greedy DCG is non-negative and never exceeds the ideal DCG when no negative gain can win a match or lies within the ideal cut |
| `Metrics.NdcgAtK` | benchmarks/aft-search/metrics.py:172-182 | the quotient, 0 where the script says 0, and within [0, 1] when no negative gain can win a match or lies within the ideal cut |
| `Metrics.NdcgInUnitInterval` | benchmarks/aft-search/metrics.py:172-182 | under that guard nDCG is within [0, 1] for all predictions, truths, cuts, relevances and discounts |
| `Metrics.NegativeGainBreaksBound` | benchmarks/aft-search/metrics.py:172-182 | with a negative gain inside the cut nDCG exceeds 1 under every weight |
| `NdcgRange.NdcgRangeIff` | benchmarks/aft-search/metrics.py:94-182 | for distinct truths, every list of predictions scores within [0, 1] if and only if the guard holds: k not positive, ideal 0, ideal positive with no winning loss and no loss in the cut, or ideal negative with no positive gain and no answer worse than the ideal |
| `NdcgRange.PositiveIdealIff` | benchmarks/aft-search/metrics.py:94-182 | the case of a positive ideal: a gain in (-1, 0) answered alone scores below 0, a negative gain in the cut lets a perfect ranking of the others score above 1, and otherwise nothing does |
| `NdcgRange.NegativeIdealIff` | benchmarks/aft-search/metrics.py:94-182 | the case of a negative ideal |
| `NdcgRange.WorstAttained` | benchmarks/aft-search/metrics.py:157-182 | some answer scores exactly the discounted sum of the winnable gains in ascending order |
| `NdcgRange.WorstBounds` | benchmarks/aft-search/metrics.py:157-182 | and without positive gains no answer scores less |
| `Metrics.PerfectRankingScoresOne` | benchmarks/aft-search/metrics.py:172-182 | answering each truth once, in descending gain, scores exactly 1 |
| `Metrics.NdcgPositiveIffHit` | benchmarks/aft-search/metrics.py:131-182 | with positive gains nDCG is positive exactly when some prediction in the cut is relevant |
| `Metrics.IsRelevant` | benchmarks/aft-search/metrics.py:90-91 | relevant to some truth |
| `Metrics.CoveredTruthIndexes` | benchmarks/aft-search/metrics.py:120-128 | exactly the truths some prediction in the cut reaches |
| `Metrics.RecallAtK` | benchmarks/aft-search/metrics.py:131-136 | the share of truths some prediction in the cut reaches: within [0, 1], 1 exactly when all are reached, positive exactly on a hit |
| `Metrics.PrecisionAtK` | benchmarks/aft-search/metrics.py:139-145 | the hits in the cut over k: within [0, 1], 1 exactly when the first k predictions are there and all hit, positive exactly on a hit |
| `Metrics.MrrAtK` | benchmarks/aft-search/metrics.py:148-154 | the reciprocal of the first relevant rank, 0 without one |
| `NdjsonStream.FramesConcat` | benchmarks/aft-search/ndjson_stream.py:66-78 | frames of a stream cut after a newline are the frames of the parts |
| `NdjsonStream.RunConserves` | benchmarks/aft-search/ndjson_stream.py:39-92 | for every split into chunks, every interleaving of drain, pull and cut steps and every rest unread in the pipe, frames delivered and frames of buffer, queue and pipe make up the frames of the whole stream |
| `NdjsonStream.EndMeansAllDelivered` | benchmarks/aft-search/ndjson_stream.py:39-52 | once the end has been seen and the buffer is drained, every complete frame has been delivered |
| `NdjsonStream.NdjsonStream.Drain` | benchmarks/aft-search/ndjson_stream.py:54-64 | queues exactly the pipe's chunks in order, the end mark last |
| `NdjsonStream.NdjsonStream.NextBufferedFrame` | benchmarks/aft-search/ndjson_stream.py:66-78 | delivers the first frame in the buffer, or none only when no line is complete; no byte is lost |
| `NdjsonStream.NdjsonStream.Pull` | benchmarks/aft-search/ndjson_stream.py:80-92 | moves one queued chunk to the buffer or notes the end |
| `NdjsonStream.NdjsonStream.ReadFrame` | benchmarks/aft-search/ndjson_stream.py:39-52 | a read ends with the first complete frame as soon as one is there after the chunks pulled so far, and without one only when the next pull brings nothing (deadline passed, queue empty, end of the pipe, turns over); what was not pulled stays queued |
| `NdjsonStream.ReadIffInTime` | benchmarks/aft-search/ndjson_stream.py:39-52 | a frame comes back if and only if some number of pulls in a row bring chunks in time and then one is complete, and it is the first frame of all that was buffered, queued or still to come |
| `NdjsonStream.StripMeans` | benchmarks/aft-search/ndjson_stream.py:69 | only white space is stripped off both ends of a line, and none is left there |
| `AftClient.StepKeepsInvariant` | benchmarks/aft-search/run.py:142-175 | every step of client, server and stream keeps ids fresh and replies tagged |
| `AftClient.CallerSeesOwnReply` | benchmarks/aft-search/run.py:142-175 | in every run a returned frame was produced for that very call, late replies and push frames notwithstanding |
| `AftClient.AftClient.RecvResponse` | benchmarks/aft-search/run.py:165-175 | returns the first frame carrying the id, having dropped exactly the others before it; every poll makes one read, starting where the one before ended; a timeout comes only after a read at every poll, an exit only at a poll that finds the process gone |
| `AftClient.AftClient.Call` | benchmarks/aft-search/run.py:142-157 | the reply returned is the answer to the request sent, under a fresh id, with the same account of polls and reads |
| `AftClient.SeeingCovers` | benchmarks/aft-search/run.py:165-175 | so every poll sees the first frame that completes in time, if one does |
| `Broker.Broker.Read` | scripts/views-performance-gate.py:255-270 | one whole line off the stream, the first there is, bytes behind it kept; a broken or ended pipe at the first wait that finds it; a timeout exactly when the waits are over before either |
| `Broker.Broker.Call` | scripts/views-performance-gate.py:272-284 | while not failed, requests sent and replies consumed balance; after a transport failure every later call raises; a reply that is not JSON is consumed and fails only its own call; and with a first-in-first-out server the value returned is the parse of the reply to this very request |
| `Broker.TakenArePrefix` | scripts/views-performance-gate.py:255-270 | lines taken are the first lines sent |
| `Broker.EveryReplyIsOurs` | scripts/views-performance-gate.py:255-284 | with a first-in-first-out server that sends at most one line per request, the lines taken are exactly the replies to the requests sent, one for one |
| `Workload.ScheduleDistinct` | scripts/views-performance-gate.py:29-33 | all state names of a run differ, for every number of roots and rounds |
| `Workload.ScheduleNames` | scripts/views-performance-gate.py:29-33 | the list is the binds, then round by round and root by root the six edits, then the worktree's two states, under these names |
| `Workload.AcceptedIff` | scripts/views-performance-gate.py:80-93 | the validator accepts exactly the complete, ordered, duplicate-free and correct logs |
| `Workload.RejectedIff` | scripts/views-performance-gate.py:80-93 | what each rejection says of a log: no cases, a duplicate, a missing state, another order, an incorrect row |
| `Workload.Acquisition.Observe` | scripts/views-performance-gate.py:436-523 | the run goes on exactly when the probe holds the intended content and the outcome is correct; the row is correct exactly for the intended content with a correct outcome or a failed sample after it; only a reply that is not JSON leaves no row |
| `Workload.Acquisition.BindPhase` | scripts/views-performance-gate.py:636-648 | completes exactly when every bind succeeds and every root is seen ready at its base content; otherwise it has logged the bind states up to the failed bind or the first root not ready |
| `Workload.Acquisition.EditRoot` | scripts/views-performance-gate.py:550-570 | completes exactly when all six edits are good, and then the root's probe is back to its base content and no other changed; otherwise it ends at the first that is not, with the states logged up to it |
| `Workload.Acquisition.Round` | scripts/views-performance-gate.py:548-575 | splices the round before the last two names; completes exactly when every edit of every root is good, with every probe at its base content; otherwise it stops at the first edit that is not |
| `Workload.Acquisition.Workload` | scripts/views-performance-gate.py:544-586 | ends accepted if and only if every edit of every round and root reported success, left the intended content and was answered correctly, and so were the worktree's creation and removal; then the log is the spliced list and every probe is restored. Otherwise the log is the schedule up to the first turn that was not |
| `ProcessTree.ClosedHoldsChain` | scripts/views-performance-gate.py:178-195 | a set closed under children holds every parent chain that reaches it |
| `ProcessTree.Owned` | scripts/views-performance-gate.py:178-195 | the loop ends with exactly the root and every process whose parent chain reaches it, for any parent relation, cycles included |
| `SemanticBin.ParseIffEncoding` | benchmarks/aft-search/run_embed_body_cap_ab.py:188-261 | a file parses to an index exactly when it is that index's encoding and the index is well formed |
| `SemanticBin.ProperPrefixRejected` | benchmarks/aft-search/run_embed_body_cap_ab.py:188-261 | no proper prefix of an encoding parses |
| `SemanticBin.OnlyWholeEncoding` | benchmarks/aft-search/run_embed_body_cap_ab.py:188-261 | no encoding with bytes added behind it parses |
| `SemanticReaders.TakeAt` | benchmarks/aft-search/run_embed_body_cap_ab.py:188-192 | reading at an offset is taking from the remaining bytes, truncation included |
| `SemanticReaders.MetricRowAt` | benchmarks/aft-search/run_embed_body_cap_ab.py:206-261 | the report's row view is the kind and embed text of the row parsed there, and ends where the parser ends |
| `SemanticReaders.DenseRowAt` | benchmarks/aft-search/run_query_instruction_ab.py:258-265 | the dense pass's row view is the file, embed text and vector of the same row, at the same end |
| `SemanticReaders.SemanticBinMetrics` | benchmarks/aft-search/run_embed_body_cap_ab.py:206-261 | accepts exactly the encodings with an empty or JSON fingerprint and decodable texts, and reports the true row, summary and character figures |
| `SemanticReaders.MaxCharsIsMaximum` | benchmarks/aft-search/run_embed_body_cap_ab.py:206-261 | the reported maximum bounds every row and is attained |
| `SemanticReaders.DenseRows` | benchmarks/aft-search/run_query_instruction_ab.py:210-280 | accepts exactly the encodings with decodable names and texts, and visits every row's file, embed text and vector in order |
| `DensePass.DenseHeaps` | benchmarks/aft-search/run_query_instruction_ab.py:207-280 | from file bytes to heaps: a file is accepted exactly when it is an index whose names and texts all decode, and then every heap leads that index's rows: their decoded file and text, their own vector's score, none in a test path, none left out that scores more |
| `DensePass.HeapsOfEncoding` | benchmarks/aft-search/run_query_instruction_ab.py:207-280 | on the encoding of any well-formed index with decodable texts the pass ends, with the top k over that very index |
| `Census.Protections` | scripts/storage-retention-report.py:66-81 | exactly the generations live pins and readers hold, any unreadable one holding all |
| `Census.Examine` | scripts/storage-retention-report.py:184-220 | a directory's liveness, protection, current generations, age and owners, as a declarative reading of the snapshot |
| `Census.Inventory` | scripts/storage-retention-report.py:159-236 | sizes and plans are the sums of each file's own verdict; the memo of directories changes nothing |
| `Census.ViewPlace` | scripts/storage-retention-report.py:167-169 | a file below views/v2/KEY belongs to that directory and key, for every key and tail |
| `Census.DomainPlace` | scripts/storage-retention-report.py:170-172 | a file below DOMAIN/KEY likewise |
| `Census.NestedPlace` | scripts/storage-retention-report.py:173-179 | a file below HARNESS/DOMAIN belongs to that directory, its key the first sixteen characters of the next component if they spell one, and is shared otherwise |
| `Census.OtherPlace` | scripts/storage-retention-report.py:180-182 | every other file is shared under its first component |
| `Census.ViewPlans` | scripts/storage-retention-report.py:167-235 | the plans for a file below views/v2/KEY, said of that path's own pins, readers, pointer, bindings and age |
| `Census.BucketIff` | scripts/storage-retention-report.py:222-236 | the bucket of a file: shared, of a dead root, superseded, or of a live root and not superseded |
| `Census.SupersededIff` | scripts/storage-retention-report.py:186-233 | a file is planned as superseded exactly when its root lives, it spells a generation, nothing is unclear, the generation is neither current, pinned nor read, and it is no derived store that one in use refers to |
| `Census.MissingRootIff` | scripts/storage-retention-report.py:84-95 | a missing-root plan needs recorded bindings, all old, none of an existing root, none owned, and nobody holding the directory; and these suffice |
| `Census.FailedProbeKeepsIff` | scripts/storage-retention-report.py:189-197 | exactly when a failed pointer probe keeps a file out of every plan (lost identity records: `CensusSources`) |
| `Census.FailedProbePlanned` | scripts/storage-retention-report.py:189-235 | a dead directory whose pointer cannot be read is planned for removal |
| `CensusSources.Gather` | scripts/storage-retention-report.py:125-157 | the identity map files, in order and under their keys, exactly the records of all sources as far as each could be read |
| `CensusSources.MissingRootSurvivesIff` | scripts/storage-retention-report.py:84-157 | a missing-root plan made after some sources failed would also be made with the lost records exactly when each lost record of the key is old, unowned and of a root that is gone |
| `CensusSources.SupersededSurvives` | scripts/storage-retention-report.py:125-233 | a superseded plan stays the same whatever records were lost |
| `CensusSources.LostRegistryPlanned` | scripts/storage-retention-report.py:148-157 | with the registry of a live root unreadable and an old record of the same key, the directory is planned as that of a missing root |
| `Census.Conserved` | scripts/storage-retention-report.py:165-236 | every file is counted in exactly one bucket and at most one plan; the buckets add up to all allocated bytes |
| `Census.OrderFree` | scripts/storage-retention-report.py:110-120 | the report does not depend on the order in which files are met |
| `Counter.TallyTotals` | scripts/storage-retention-report.py:255 | a counter's values add up to what was put in |
| `Counter.TallyPermutes` | scripts/storage-retention-report.py:160-163 | the order of additions does not matter |
| `LineText.SameNormalFormIff` | scripts/audit-v049-agent-surface.ts:223-225 | two lines normalise alike exactly when they have the same words |
| `LineText.NormalizeKeepsCount` | scripts/audit-v049-agent-surface.ts:223-261 | normalising a line keeps the number of mentions of a spelling |
| `Occurrences.ScanLinesForOccurrences` | scripts/audit-v049-agent-surface.ts:244-271 | every mention once, in order of lines, each at a true position and none of a spelling at or inside the previous one on its line, with its ordinal among equal mentions |
| `Occurrences.NumberedSet` | scripts/audit-v049-agent-surface.ts:264-270 | the ordinals of a mention are exactly 1 up to its number of occurrences |
| `Occurrences.RawCounts` | scripts/audit-v049-agent-surface.ts:244-263 | a mention occurs as often as its line has copies, times its mentions on that line |
| `Occurrences.KeyInjective` | scripts/audit-v049-agent-surface.ts:435-439 | within a file the key text determines spelling, line text and ordinal |
| `Occurrences.KeysDistinct` | scripts/audit-v049-agent-surface.ts:244-271 | the keys of a file are pairwise distinct |
| `Occurrences.SameKeysIff` | scripts/audit-v049-agent-surface.ts:223-271 | two versions of a file have the same keys exactly when every line with a mention has, up to white space, equally many copies in both |
| `Occurrences.Reindented` | scripts/audit-v049-agent-surface.ts:216-225 | changing a line's white space changes no key |
| `Occurrences.Inserted` | scripts/audit-v049-agent-surface.ts:244-271 | inserting a line without a mention changes no key |
| `Occurrences.Moved` | scripts/audit-v049-agent-surface.ts:428-434 | moving a block of lines changes no key |
| `Allowlist.FixtureByPath` | scripts/audit-v049-agent-surface.ts:322-398 | whether a mention is a fixture's is decided by its file, never by its line |
| `Allowlist.FixtureFiles` | scripts/audit-v049-agent-surface.ts:322-382 | which files are fixtures: plugin tests, and other test directories that are no agent surface |
| `Allowlist.ClassIff` | scripts/audit-v049-agent-surface.ts:362-398 | the other classes: agent text on an agent surface is prohibited, the rest there a boundary, and elsewhere it goes by the directory |
| `Allowlist.CollapseFileLevelEntries` | scripts/audit-v049-agent-surface.ts:305-320 | every line-level entry is kept in order, and one entry stays per file and spelling of a fixture |
| `Allowlist.OccurrenceEntries` | scripts/audit-v049-agent-surface.ts:273-297 | the expected keys are those of the files, file by file |
| `Allowlist.ClassifyOccurrenceDrift` | scripts/audit-v049-agent-surface.ts:447-470 | the failures in order: new, incomplete, prohibited, then stale |
| `Allowlist.CheckedLast` | scripts/audit-v049-agent-surface.ts:448 | of several allowlist entries with one key the last one counts |
| `Allowlist.NoDriftIff` | scripts/audit-v049-agent-surface.ts:447-470 | no drift exactly when live and allowlisted keys coincide and the entry that counts for each is complete and not prohibited |
| `Allowlist.CleanMeans` | scripts/audit-v049-agent-surface.ts:447-470 | a clean allowlist has no key left over and for every live key a counting entry, each with a class, a reason and a location and not prohibited |
| `Allowlist.AuditSourceOccurrences` | scripts/audit-v049-agent-surface.ts:472-475 | the audit passes exactly when the files' keys and the allowlist are clean in that sense |
| `Allowlist.VerdictUnchanged` | scripts/audit-v049-agent-surface.ts:216-271 | edits to white space, line order and lines without mentions change no expected key and no verdict, whatever the allowlist |
| `PullRequests.GhApiJson` | scripts/merge-queue-search.py:104-145 | the first reply not retried decides, in at most 6 attempts and 67 seconds of waiting; every attempt before the last was worth retrying, and exactly the listed waits lie between |
| `PullRequests.OutcomeIff` | scripts/merge-queue-search.py:104-145 | a call has the outcome of a reply exactly when that reply decides it: every earlier attempt was worth retrying and this one is not |
| `PullRequests.ExhaustedIff` | scripts/merge-queue-search.py:104-145 | a call is given up exactly when every attempt was worth retrying |
| `PullRequests.LookupIff` | scripts/merge-queue-search.py:148-167 | a search answers a list exactly when the deciding attempt brings that list and it is shorter than a page; a full page, a reply that is no list, a definite failure and exhaustion are exactly its faults |
| `PullRequests.MemberPr` | scripts/merge-queue-search.py:186-222 | the nested schedule ends within 36 API attempts and 462 seconds of waiting, with the outcome its answers determine; the waits between the searches are exactly the listed ones |
| `PullRequests.MemberIff` | scripts/merge-queue-search.py:186-222 | a pull request is returned exactly when it alone is named by the first search that names any, or none is and it is the queue reference's own, bound to this head |
| `PullRequests.MemberIsBound` | scripts/merge-queue-search.py:178-218 | what is returned is bound to the head, into main of this repository |
| `MergeQueue.FirstParentBetween` | scripts/merge-queue-search.py:41-54 | the walk computes the chain |
| `MergeQueue.ChainIff` | scripts/merge-queue-search.py:41-54 | the chain exists exactly when the base is on the first-parent history, and is the history before it, oldest first |
| `MergeQueue.WalkMerges` | scripts/merge-queue-search.py:261-274 | all members, or the first merge that stops the walk and why |
| `MergeQueue.QueueMembers` | scripts/merge-queue-search.py:248-277 | early faults in order, then the walk, then the check of the last member |
| `MergeQueue.MembersOkIff` | scripts/merge-queue-search.py:248-277 | members are found exactly when nothing stands in the way, every merge has its own pull request and the last is the queue reference's |
| `MergeQueue.NoEarlyFaultIff` | scripts/merge-queue-search.py:248-262 | nothing stands in the way exactly for two full hashes, the head checked out, the base its ancestor and on its first-parent line, and no reference of an unknown form |
| `MergeQueue.FoundIff` | scripts/merge-queue-search.py:263-272 | a merge's pull request is the one its first naming search names alone; the queue reference's own counts only for the last merge, when no search names any |
| `MergeQueue.MembersCover` | scripts/merge-queue-search.py:248-277 | members cover the first-parent way from base to head one to one, each bound to its merge's second parent, no pull request twice |
| `MergeQueue.MemberDescriptor` | scripts/merge-queue-search.py:225-245 | the one descriptor at the member's head, equal to the group head's, or a fault exactly when there is none such |
| `MergeQueue.FiledNext` | scripts/merge-queue-search.py:283-290 | filing a descriptor over another under the same path changes nothing for earlier members |
| `MergeQueue.MakePlan` | scripts/merge-queue-search.py:280-304 | a plan is returned exactly when there is one: covering members, described each on its own diff, at most one ranking, the evaluations being the paths of the members that decide, each once in order of first occurrence, and every one resolvable on the group |
| `MergeQueue.PlanEvaluates` | scripts/merge-queue-search.py:299-303 | a plan evaluates something and nothing twice; without a ranking member a path is evaluated exactly when an unwired member has it, and without those exactly when any member has it |
| `MergeQueue.RankingAlone` | scripts/merge-queue-search.py:291-300 | a ranking member is evaluated alone |
| `StringLiterals.ParseQuotedString` | scripts/tool-token-audit.ts:197-219 | the loop computes the quoted scan, ending between start + 1 and length + 1 |
| `StringLiterals.ParseBacktickString` | scripts/tool-token-audit.ts:221-249 | the loop computes the template scan, with the same bounds |
| `StringLiterals.QuotedComplete` | scripts/tool-token-audit.ts:197-219 | every quoted body followed by its quote is read back, and not beyond |
| `StringLiterals.QuotedSound` | scripts/tool-token-audit.ts:197-219 | whatever the quoted scanner closes is such a body |
| `StringLiterals.TemplateComplete` | scripts/tool-token-audit.ts:221-249 | every template body with balanced interpolations is read back, and not beyond |
| `StringLiterals.TemplateSound` | scripts/tool-token-audit.ts:221-249 | whatever the template scanner closes is such a body |
| `StringLiterals.ExtractBacktickStrings` | scripts/tool-token-audit.ts:55-100 | exactly the texts of the successive closed template scans, an unclosed one ending it |
| `StringExpressions.ParseStringExpression` | scripts/tool-token-audit.ts:153-195 | the loops compute the meaning of the expression, nothing when its text is empty |
| `StringExpressions.MeaningOfWritten` | scripts/tool-token-audit.ts:153-195 | literals joined by `+` read as their unescaped texts in order, ending right behind the last, whenever none is joined on there |
| `StringExpressions.MeaningBounds` | scripts/tool-token-audit.ts:153-195 | an expression with text ends between start + 1 and length + 1 |
| `Settle.Settle` | benchmarks/aft-search/bench_rerank.py:56-96 | returns at the first settled poll and raises exactly when the deadline passes before one; with a clock that advances by the sleep it has decided by the first poll whose sleeps exceed the deadline |
| `Settle.SettledMeans` | benchmarks/aft-search/bench_rerank.py:69-96 | a poll is settled exactly when the minimum wait is over and every poll of a window of at least 5 seconds saw one identical ready, idle state, with the greatest entry count ever observed |
| `Leb128.WriteUleb` | grammars/build.py:68-75 | the loop writes the encoding |
| `Leb128.DecodeUleb` | grammars/build.py:68-75 | decoding an encoding followed by anything returns the number and the rest |
| `Leb128.PrefixFree` | grammars/build.py:68-75 | no encoding is a prefix of another |
| `Leb128.MinimalUnique` | grammars/build.py:68-75 | it is the only minimal encoding of its number |
| `Leb128.VariantAddsOneCustomSection` | grammars/build.py:78-81 | a section reader sees the module's sections and one custom section more, with the fixture's name and payload |
| `Leb128.ModuleWritten` | grammars/build.py:78-81 | magic, version and any sections written out read back as those sections, and nothing without that magic and version is a module |
| `TestInventory.KeyIff` | scripts/rust-test-inventory-proof.py:41-65 | for parts without the separator, two listed tests have one key exactly when kind, suite and name agree, and the source too unless the target is a library, binary or test binary |
| `TestInventory.CleanIffSameTests` | scripts/rust-test-inventory-proof.py:279-287 | no error is reported exactly when the shards together hold the expected tests as often as expected |
| `TestInventory.Check` | scripts/rust-test-inventory-proof.py:737-821 | the coverage map built bucket by bucket gives the acceptance condition |
| `TestInventory.AcceptedCoversOnce` | scripts/rust-test-inventory-proof.py:737-821 | acceptance runs every baseline test in exactly one bucket and every shardable integration test in exactly one shard, with no watcher test in a shard and no serial test in a unit shard |
| `TestInventory.UnitShardIffListedOnce` | scripts/rust-test-inventory-proof.py:737-779 | an accepted unit test is in exactly one shard if and only if the shardable listing names it once |
| `TestInventory.UnitShardIff` | scripts/rust-test-inventory-proof.py:640-779 | with the shardable listing made by the two `--skip` names, an accepted unit test is in exactly one shard if and only if it matches and its name contains neither |
| `TestInventory.AcceptedWithUnshardedTest` | scripts/rust-test-inventory-proof.py:803-821 | an accepted inventory, its three shards of each kind built by those skips, with a matching unit test that is not serial and in no shard |
| `Percentile.IndexesAgree` | benchmarks/aft-search/run.py:413-421 | for 0 to 100 percent the three index formulas pick the same rank |
| `Percentile.FormsAgree` | scripts/views-performance-gate.py:104-105 | and so the three percentiles agree |
| `Percentile.NearestRankLaw` | benchmarks/aft-search/run_embed_body_cap_ab.py:154-159 | the value is the least element with at least ceil(n * p / 100) values not above it |
| `Percentile.GateFailsIff` | scripts/views-performance-gate.py:104-105 | the gate's form indexes out of range exactly for percentages above 100 |

## Left out

- Binary heap layout: `heapq` is kept as a list in rank order, so sift operations and array order are not modelled.
- Numerics: NumPy float rounding, normalisation and finiteness checks, `math.log2` and the rounding of reported figures.
- Order inside the dense pass: the script scores a chunk as soon as it is full, the model reads the whole file first; no heap is used before the file has been read to its end.
- Diagnostics after the dense pass: vocabulary bands, `aggregate_dense`, `is_test_path` and `content_tokens` (the test-path predicate is opaque).
- Arm definitions, `tokens_for_body_chars`, fixtures, reports and drivers: tables and plumbing with only easy facts.
- Threads and clocks: `_drain` runs as interleaved steps, timeouts are choices of the schedule, elapsed time is a sequence of readings.
- Workload polling: which planes one observation asks for, idling and latency rows; an observation is its outcome.
- Process sampling beyond ownership: per-process totals and missing files in `/proc`.
- Census inputs: the hashing of root paths into keys, how each record file is parsed, `process_live`, `manifest_keys`, blob payload accounting, directory counts and the gap messages.
- File-name patterns of generations in the census are an opaque function of key and name.
- Audit of emitted schemas, prompts and manifests, the line patterns of `classifyOccurrence` and its reason texts; the list of tracked files is an input.
- Merge-queue descriptors: their JSON, `resolve_descriptor`, schema blobs, the classification of API errors by text, and `evaluate`.
- `unescapeJsString`: any function.
- `parse_cargo_list`, nextest listing and the split-archive mode of the inventory proof; listings are inputs.
- The 32-bit width of WebAssembly integers: `uleb` is modelled on all naturals, as the script has it.
- Parity capture scripts and release helpers: not modelled.
