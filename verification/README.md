# A verified model of the search server's protocols and algorithms

The repository is a search server. This project models, in Dafny, the parts of it that are
protocols or algorithms with invariants, and proves what they promise. Every for-all statement
below ranges over all inputs, all runs, or all interleavings.

- **Result cache** (`ResultCache`, `ResultCacheMachine`). `ResultCache.Database` is the table with
  the Go methods as methods; each SQL statement or transaction is a function on an abstract table.
  `ResultCacheMachine` interleaves those statements for any number of pinned views, where a Lookup
  is a first SELECT, possibly a second one, and a DELETE or UPDATE whose failure is ignored.
- **Paged reader** (`Utf8`, `PagedReader`, `PagedReaderMachine`). Reading a saved result by rune
  offset, with the shared `(cacheChar, cacheByte)` pair, over any bytes; UTF-8 as in sections 3 and 4
  of RFC 3629, and Go's rule that an ill-formed byte is one rune of size 1.
- **Rate limiter** (`RateLimiter`). The class keeps its windows in arrays that `FilterAfter`
  compacts in place; the reference is a stateless check of the whole admission history.
- **Token stream** (`TokenStream`). Producer, bounded channel, result channel, cancellation,
  deadline, consumer and progress batcher as interleaved steps.
- **Rank fusion** (`Ranking`, `Fusion`, `AcademicMerge`, `AcademicFloor`, `Mmr`). Reciprocal rank
  fusion, the two-key academic merge, stable sort, score floors, and greedy MMR.
- **Settings** (`Yaml`, `YamlNodes`, `Settings`). Reading and setting a YAML path, on values and in
  place on a tree of nodes, and the write / read back / roll back transaction around it.
- **Page ranges** (`Text`, `PageRanges`, `PageBatches`). The page-specification parser, its printer,
  and the budgeted batch planner with its resume page.
- **Provider choice and quota periods** (`ApiPool`, `QuotaPeriods`).

The code that loops and updates is written as methods with loops, classes and arrays; each such
method is proved against a function, and the promises are lemmas about that function.

## Where the code does something else than one would expect

Each of these is stated as a lemma with the exact condition or a concrete run.

- A cache lifetime below one second is stored as 0 seconds, which reads as the six-hour default
  (`ResultCache.TtlHonoured`).
- `UpdateSummary` does not look at the academic flag: it fills in the summary of both rows of an
  intent (`ResultCache.SummaryThenLookup`).
- A Lookup evicts by row id after its SELECT. Whatever else runs in between, the row that goes is
  expired exactly if it was last written so (`ResultCacheMachine.LateEviction`); under a clock that
  does not go back that is so if and only if no Store of the same key, intent and flag came in
  between (`ResultCacheMachine.LateEvictionSafe`). `ResultCacheMachine.LateEvictionDropsFreshRow` is
  a run in which one did.
- The academic merge is not transitive: an entry whose DOI and URL already belong to two different
  aggregates joins the first and leaves both (`AcademicMerge.BridgeLeavesTwo`). The results are the
  connected components of the entries under shared keys if and only if there is no such entry
  (`AcademicMerge.ComponentsIffNoBridge`). They share no key in any case.
- The comment on the academic floor promises that every engine's first result is kept, judged as the
  merge does. The merge knows all keys of a paper's entries, the floor only the two that its result
  kept. The first result survives exactly under the condition of `AcademicFloor.EngineGuarantee`. It
  always does up to a threshold of its own rank mass plus twice the least mass of any entry
  (`AcademicFloor.FirstResultKept`), hence at the default threshold with weights of 1 or more and at
  most 541 results an engine (`AcademicFloor.KeptAtDefault`). A loss needs a threshold above the mass
  of the merged result: `AcademicFloor.LostAboveMergedMass` is a family of buckets where exactly that
  decides, and `AcademicFloor.FirstResultCanBeLost` one of them at threshold 0.06.
- The window that the resume hint suggests is one batch wide. It takes in the whole next batch exactly
  if that batch ends within a batch's width of the last parsed page: a full batch with any gap is
  missed in part (`PageBatches.SuggestedWindowCovers`, `PageBatches.WindowMissesGap`).
- With a page budget below the first batch a call parses nothing (`PageBatches.NothingKept`); with any
  other, following the resume page parses everything (`PageBatches.ResumingReadsAll`).
- A comment on `cacheByte` says that a negative value means no cache; the code starts with the pair
  (0, 0), which is itself a rune boundary. A comment on `ApplyMMR` calls lambda 0 pure diversity; the
  code reads every lambda up to 0 as 0.7. The model follows the code.

## Model

| member | source | states |
|---|---|---|
| ResultCache.KeyInjective | pkg/cache/sqlite.go:181-186 | The key text determines namespace, generation and query, whatever colons, digits or NULs they contain. |
| ResultCache.TtlHonoured | pkg/cache/sqlite.go:294-297 | A positive lifetime is honoured, rounded down to seconds, if and only if it is at least a second; below that the six-hour default applies. |
| ResultCache.UpsertEffect | pkg/cache/sqlite.go:303-314 | A store keeps the unique index, writes only under the current generation, changes at most the row with its key, intent and flag, and never reuses an id. |
| ResultCache.LookupEffect | pkg/cache/sqlite.go:188-260 | exact_intent is answered if and only if a live row of the asked intent and flag has a summary; a miss means no row or an expired one; only expired rows go, at most one; nothing but the hit time changes. |
| ResultCache.StoreThenLookup | pkg/cache/sqlite.go:282-326 | What a current view stored is what the next Lookup returns, until it expires. |
| ResultCache.SummaryThenLookup | pkg/cache/sqlite.go:328-335 | A late summary turns the row into an exact_intent answer; a summary already there stays; either academic flag is served. |
| ResultCache.Database.Clear | pkg/cache/sqlite.go:149-169 | All rows go, the generation moves on, ids do not restart, and the count is the number of rows. |
| ResultCache.Database.SelectExact | pkg/cache/sqlite.go:202-209 | The row of the key, intent and flag if there is one, else none. |
| ResultCache.Database.SelectFallback | pkg/cache/sqlite.go:232-240 | A row of the key with the latest hit if there is one, else none. |
| ResultCache.Database.Lookup | pkg/cache/sqlite.go:188-260 | Exact row, else the latest-hit row of the key; an expired one is dropped and is a miss, a live one is touched and returned as it was. |
| ResultCache.Database.Store | pkg/cache/sqlite.go:282-326 | The row is inserted or replaced exactly when the view's generation is current. |
| ResultCache.Database.UpdateSummary | pkg/cache/sqlite.go:328-335 | Exactly the rows of the key and intent with an empty summary receive it. |
| ResultCache.Database.EvictStale | pkg/cache/sqlite.go:346-358 | Exactly the rows last hit before the cutoff go, and their number is returned. |
| ResultCacheMachine.PinsAgreeUnlessCleared | pkg/cache/sqlite.go:149-179 | Two requests with one fingerprint pin the same view if and only if no Clear lies between them. |
| ResultCacheMachine.StepKeepsInv | pkg/cache/sqlite.go:149-358 | Every statement of every view keeps the invariant: unique index, fresh ids, every row explained by accepted writes of the current generation, every held row a genuine answer to its request. |
| ResultCacheMachine.StaleViewIsInert | pkg/cache/sqlite.go:188-335 | In any reachable state a view of a past generation changes no row and its SELECTs find none, even when it touches or evicts by id. |
| ResultCacheMachine.ClearIsFinal | pkg/cache/sqlite.go:149-179 | In every interleaving, after a Clear no view pinned before it adds, changes or hits a row, and all rows are of the current generation. |
| ResultCacheMachine.HitIsGenuine | pkg/cache/sqlite.go:188-335 | Every hit comes from an accepted Store of the same view and query, has not outlived its lifetime when the Lookup began, and is exact_intent only for the asked intent and flag with a summary. |
| ResultCacheMachine.HitIsStored | pkg/cache/sqlite.go:188-335 | For every delivered hit some Store step of the run, by the same view and for the same query, had its raw results, intent, flag and time of creation as arguments, and its summary, unless that was empty and a later UpdateSummary of the run by that view supplied it. |
| ResultCacheMachine.UndisturbedExact | pkg/cache/sqlite.go:188-226 | With nothing in between, the statements of a Lookup that finds its exact row answer and leave the table as `Database.Lookup` says. |
| ResultCacheMachine.UndisturbedFallback | pkg/cache/sqlite.go:228-260 | The same for a Lookup that falls back to the key alone. |
| ResultCacheMachine.NothingIsHeldBack | pkg/cache/sqlite.go:171-358 | A pinned view may act at any time, and every started Lookup can go on until it has answered. |
| ResultCacheMachine.OnlyStoreRewrites | pkg/cache/sqlite.go:262-335 | No hit or summary update moves created_at, no summary update replaces a summary; only a store rewrites, and only the row it addresses. |
| ResultCacheMachine.LateEviction | pkg/cache/sqlite.go:211-214 | However late an eviction by id runs, the id denotes the row that was read or nothing, and the row is expired exactly if the last store of its key, intent and flag wrote it so. |
| ResultCacheMachine.LateEvictionSafe | pkg/cache/sqlite.go:249-275 | Under a clock that does not go back, an eviction by id drops an expired row if and only if no store of that key, intent and flag came in between. |
| ResultCacheMachine.LateEvictionDropsFreshRow | pkg/cache/sqlite.go:211-214 | A run in which a late eviction drops a row that a store has just renewed. |
| ResultCacheMachine.RowStaysIfKept | pkg/cache/sqlite.go:149-358 | A row leaves the table exactly by a Clear, an EvictStale that reaches it or an eviction by its id, and for good. |
| ResultCacheMachine.RowIsFound | pkg/cache/sqlite.go:202-226 | In every interleaving, while a row is kept each exact SELECT for its key, intent and flag picks it, as last written up to a late summary and the hit time. |
| ResultCacheMachine.StoredIsFound | pkg/cache/sqlite.go:282-326 | An accepted Store leaves exactly its arguments in the table, and every later exact SELECT of its view, query, intent and flag that its row lives to see finds it, with what the last such Store gave. |
| Utf8.EncodeOfDecode | mcp/tool_result.go:164-172 | Writing a well-formed rune gives back exactly the bytes it was read from. |
| Utf8.DecodeOfEncode | mcp/tool_result.go:164-172 | Every scalar value survives being written and read, and any other number comes back as U+FFFD, whatever follows. |
| Utf8.IllFormedExactly | mcp/tool_result.go:164-172 | Decoding fails exactly where the bytes begin with the encoding of no scalar value. |
| PagedReader.CachedReadIsScan | mcp/tool_result.go:134-189 | With any true pair a read returns the same content, next offset, eof or error as a scan from byte 0, and leaves a true pair. |
| PagedReader.NextReadSeeks | mcp/tool_result.go:179-188 | After a page that is not the last, the next page's start is the cached pair. |
| PagedReader.ErrorsExactly | mcp/tool_result.go:144-170 | Beyond-the-end exactly past the last rune; unavailable exactly when an ill-formed rune lies in the page. |
| PagedReader.FollowReadsWhole | mcp/tool_result.go:158-189 | Following next_offset from 0 reads a valid UTF-8 document whole, once, and ends, whatever positive limits are asked for. |
| PagedReader.ResultFiles.Issue | mcp/tool_result.go:77-104 | Expired entries go, the new one starts with the pair (0, 0). |
| PagedReader.ResultFiles.SkipRunes | mcp/tool_result.go:144-156 | The byte offset of the asked rune, counting ill-formed bytes as runes, or none when the file ends first. |
| PagedReader.ResultFiles.CollectRunes | mcp/tool_result.go:158-174 | The page's bytes and rune count, or failure at an ill-formed rune. |
| PagedReader.ResultFiles.ReadSavedResult | mcp/tool_result.go:106-190 | The answer is that of the uncached scan or the exact error, and only the pair of this reference changes. |
| PagedReaderMachine.StepKeepsInv | mcp/tool_result.go:95-188 | Pairs stay rune boundaries whichever of the concurrent readers writes last. |
| PagedReaderMachine.AllRuns | mcp/tool_result.go:106-190 | In every interleaving of readers, every finished read answered as an uncached scan of the file its reference was issued for. |
| PagedReaderMachine.ReadsAreInTime | mcp/tool_result.go:112-131 | In every run a finished read took its entry up before the expiry time given in the step that issued its reference, and it answered with a scan of the file issued there, or as unavailable when the file was not intact. |
| PagedReaderMachine.EntryLives | mcp/tool_result.go:95-101 | Over any run an entry keeps its file and expiry time, and is gone exactly when another reference was issued at or after that time. |
| PagedReaderMachine.FinishLeavesNext | mcp/tool_result.go:177-188 | An intact page before eof leaves its entry's pair at next_offset, whatever others wrote meanwhile; any other outcome leaves every pair alone. |
| PagedReaderMachine.FollowingReadsWhole | mcp/tool_result.go:106-190 | In every interleaving with other readers a client that follows next_offset from 0 to eof receives the whole valid document once. |
| PagedReaderMachine.FollowingEnds | mcp/tool_result.go:175-189 | In every interleaving and for any bytes, a client that follows next_offset from 0 makes no more reads than the file has runes, or one. |
| RateLimiter.FilterAfter | pkg/antirobot/limiter.go:66-75 | In-place compaction keeps exactly the later times, in order. |
| RateLimiter.RateLimiter.WithMinInterval | pkg/antirobot/limiter.go:24-29 | Only the interval changes. |
| RateLimiter.RateLimiter.Allow | pkg/antirobot/limiter.go:45-64 | The decision and the new windows are those of `Step` on the old ones, although both windows are compacted in place. |
| RateLimiter.LimiterIsStateless | pkg/antirobot/limiter.go:45-75 | With a monotone clock the limiter grants exactly the calls that a check of the whole admission history grants. |
| RateLimiter.WindowsRespected | pkg/antirobot/limiter.go:45-64 | No half-open second has more than perSec admissions, no half-open minute more than perMin, and admissions are at least minInterval apart. |
| TokenStream.ProgressBatcher.Token | mcp/tool_summarize.go:67-73 | The token is appended and pushed when the interval has passed; nothing shown is lost or repeated. |
| TokenStream.ProgressBatcher.Flush | mcp/tool_summarize.go:75-83 | What is pending is pushed once; an empty batch has no effect. |
| TokenStream.StepKeepsInv | pkg/llm/llm.go:134-217 | Every step keeps: what was sent is a prefix of the answer, equals the consumer's text plus the buffer, the channel closes before the result is sent, and the batcher has shown the text. |
| TokenStream.ReturnedTextIsExact | mcp/tool_summarize.go:31-40 | A consumer that leaves through the closed channel has all sent tokens in order, the producer's final error, and has pushed the same text; without an error it is the whole answer. |
| TokenStream.ErrorsHaveCauses | pkg/llm/llm.go:135-216 | A failed request is reported exactly when the request failed, a read failure only after a read error, a cancellation only after one or the deadline; without an error there was no read error and the text is the whole answer. |
| TokenStream.CleanRunAnswers | pkg/llm/llm.go:134-217 | A run that nothing disturbs and that cannot go on has returned the whole answer without an error, and has pushed it. |
| TokenStream.AtMostOneMore | pkg/llm/llm.go:184-210 | After a cancellation or the deadline the producer sends at most one more token. |
| TokenStream.ChannelTakes64 | mcp/tool_summarize.go:25-26 | The channel never holds more than 64 tokens and takes one as long as it holds fewer. |
| TokenStream.NeverStuck | pkg/llm/llm.go:134-217 | In every reachable unfinished state some side can move; after cancellation the producer never waits for the consumer, nor the consumer while receiving. |
| TokenStream.RunsComplete | pkg/llm/llm.go:134-217 | Every run is bounded by the number of lines, and one that cannot go on has finished on both sides. |
| Ranking.SortDescIsStableSort | pkg/search/enhance/enhance.go:184-187 | The sort is by descending score and keeps the order of equal scores. |
| Ranking.SortPermutes | pkg/search/enhance/enhance.go:184-187 | The sort permutes its input. |
| Ranking.PassingIsPrefix | pkg/search/enhance/enhance.go:223-232 | On sorted input what passes a floor is a prefix. |
| Fusion.FuseBuckets | pkg/search/enhance/enhance.go:129-165 | The nested loops compute the fusion of the flattened entries. |
| Fusion.FusionIsFaithful | pkg/search/enhance/enhance.go:129-165 | Keys are distinct and are those that occur; each key's value is the sum over all its occurrences, with its engines and engine families once each. |
| Fusion.FusedIsRrfSum | pkg/search/enhance/enhance.go:132-158 | That sum, for any buckets: w/(60+rank) over every result with the key, with w the weight of its bucket, or 1 when that is not positive. |
| Fusion.FusedIsWeightedSum | pkg/search/enhance/enhance.go:132-158 | For buckets one per engine and with no key twice, it is the sum of w/(60+rank) over the key's table of ranks and the table of weights. |
| Fusion.FusionIsFullest | pkg/search/enhance/enhance.go:147-156 | A fused result has a text at least as long as every occurrence's and a title and date if any has one. |
| Fusion.FirstTitleWins | pkg/search/enhance/enhance.go:152-154 | A fused result's title is the first non-empty one. |
| Fusion.StructuredDateWins | pkg/search/core/inf.go:142-155 | A fused result bears the first structured date of its key's occurrences, else their first date, and its structured mark says which. |
| Fusion.FusionKeepsArrival | pkg/search/enhance/enhance.go:142-146 | Keys stand in the order of their first occurrence. |
| Fusion.FusionConservesMass | pkg/search/enhance/enhance.go:132-165 | The results together carry the rank mass of all entries with a key. |
| Fusion.RRFScore | pkg/search/enhance/enhance.go:27-38 | The sum of 1/(K+rank) over a map, in whatever order it is iterated. |
| Fusion.FusedIsRRFScore | pkg/search/enhance/enhance.go:27-38 | For buckets of weight 1, one per engine and with no key twice, a fused result's value is RRFScore of the ranks its key has in them. |
| Fusion.RankedScores | pkg/search/enhance/enhance.go:167-187 | Every ranked result is that of a key, scored (sum x domain x (0.5 + 0.5 x alignment) x rare + 0, 0.05, 0.10 or 0.12 by the number of engine families + authority) x recency, with the engines that list it. |
| Fusion.CutMeans | pkg/search/enhance/enhance.go:201-203 | The first maxSize results, or all when that is not positive or too large. |
| Fusion.ApplyScoreFloor | pkg/search/enhance/enhance.go:215-239 | The loop computes `Floor`. |
| Fusion.FloorIsPrefix | pkg/search/enhance/enhance.go:209-239 | On sorted input the floor keeps a prefix, at least two results if there are two, and beyond those exactly what reaches the threshold. |
| Fusion.EnhanceResultsMMR | pkg/search/enhance/enhance.go:122-207 | The pipeline is fuse, score, stable sort, floor, optional MMR, cut. |
| Fusion.MmrOffIsPrefix | pkg/search/enhance/enhance.go:184-206 | With MMR off the answer is a prefix of the score-sorted results. |
| Fusion.MmrOnReorders | pkg/search/enhance/enhance.go:192-199 | With MMR on Top-1 stays first and the answer takes distinct results of the floor. |
| Mmr.FindBest | pkg/search/enhance/mmr.go:51-65 | The scan finds the best value, the first on ties. |
| Mmr.ApplyMMR | pkg/search/enhance/mmr.go:17-75 | The output lists the results in the greedy order. |
| Mmr.MmrIsGreedy | pkg/search/enhance/mmr.go:17-75 | Top-1 first, the asked number, none twice, and each later pick maximises the trade-off over everything not yet picked, ties to the earlier result. |
| Mmr.MmrMaximises | pkg/search/enhance/mmr.go:25-66 | Each later pick has the greatest lambda x score - (1 - lambda) x m over everything not yet picked, ties to the earlier result, where m is the greatest similarity to a picked one or 0, and lambda is 0.7 when not positive and at most 1. |
| Mmr.LessAlikeFirst | pkg/search/enhance/mmr.go:52-64 | Below lambda 1, of two results of the same score the one that resembles the picked ones less is picked first. |
| Mmr.MmrLength | pkg/search/enhance/mmr.go:31-36 | As many results as asked for, or all when that is not positive or too large. |
| Mmr.JaccardMeans | pkg/search/enhance/enhance_text.go:106-121 | The similarity is the number of common tokens over that of all tokens, and 0 without common ones. |
| Mmr.MmrPrefix | pkg/search/enhance/mmr.go:50-68 | The run for k results is the first k of the full run. |
| Mmr.MmrPureRelevance | pkg/search/enhance/mmr.go:19-29 | With lambda 1 or more a score-sorted input is unchanged. |
| AcademicMerge.MergeBuckets | pkg/search/enhance/academic_enhance.go:118-174 | The nested loops compute the merge of the flattened entries. |
| AcademicMerge.MergeKeepsInv | pkg/search/enhance/academic_enhance.go:118-174 | At every point an aggregate's DOI leads to it, its URL key is indexed, if perhaps for another aggregate, and no two have one URL key. |
| AcademicMerge.IndexesOnlyGrow | pkg/search/enhance/academic_enhance.go:134-147 | A DOI entry is never rewritten, a URL entry never removed, an aggregate never dropped. |
| AcademicMerge.MergedKeysDisjoint | pkg/search/enhance/academic_enhance.go:118-174 | No two merged results share a non-empty DOI or URL key, and each has one. |
| AcademicMerge.MassConserved | pkg/search/enhance/academic_enhance.go:168 | Total rank mass equals that of the accepted entries. |
| AcademicMerge.AggregateIsRrfSum | pkg/search/enhance/academic_enhance.go:123-168 | For any buckets an aggregate carries the sum of w/(60+rank) over the results that went into it, with w the weight of each one's bucket, or 1 when that is not positive. |
| AcademicMerge.AggregatesHold | pkg/search/enhance/academic_enhance.go:138-172 | Each aggregate carries exactly its entries' mass, is as complete as each of them, and its text and citation count are those of one of them. |
| AcademicMerge.FirstTextsWin | pkg/search/enhance/academic_enhance.go:152-167 | Title, journal, PDF link and DOI are the first non-empty ones among the aggregate's entries. |
| AcademicMerge.StructuredDateWins | pkg/search/core/inf.go:142-155 | The same of a merged result and the entries that went into it, whichever key brought them. |
| AcademicMerge.EnginesListedOnce | pkg/search/enhance/academic_enhance.go:169-172 | An aggregate lists only engines of its entries, each once. |
| AcademicMerge.CompleteIffNoBridge | pkg/search/enhance/academic_enhance.go:129-147 | Every key of every entry still leads to the aggregate that took the entry in, if and only if no entry's DOI and URL were already known for two different aggregates. |
| AcademicMerge.OneHomeIffNoBridge | pkg/search/enhance/academic_enhance.go:129-147 | Entries that share a key always end in one result, if and only if no entry bridges two aggregates. |
| AcademicMerge.JoinsForAReason | pkg/search/enhance/academic_enhance.go:134-147 | An entry that joins an aggregate shares a key with an earlier entry of it. |
| AcademicMerge.OneHomeIsLinked | pkg/search/enhance/academic_enhance.go:118-174 | Entries of one result are connected by shared keys, for any buckets. |
| AcademicMerge.ComponentsIffNoBridge | pkg/search/enhance/academic_enhance.go:118-174 | The results are the connected components of the entries under shared keys, if and only if no entry bridges two aggregates. |
| AcademicMerge.BridgeLeavesTwo | pkg/search/enhance/academic_enhance.go:134-147 | Three entries connected by shared keys that come out as two results, whatever other URL the first one has. |
| AcademicFloor.ApplyAcademicScoreFloor | pkg/search/enhance/academic_enhance.go:206-280 | The three loops and the sort compute `Floor`. |
| AcademicFloor.FloorKeepsExactly | pkg/search/enhance/academic_enhance.go:206-280 | On sorted input with disjoint keys it keeps, in order, exactly Top-1, what reaches the threshold, and what shares a key with some engine's first result. |
| AcademicFloor.EnhanceAcademicResults | pkg/search/enhance/academic_enhance.go:111-204 | The pipeline is merge, score, stable sort, floor, cut. |
| AcademicFloor.PipelineIsSelection | pkg/search/enhance/academic_enhance.go:176-204 | For any buckets the answer is that selection of the ranked results, sorted, without shared keys, cut to maxSize. |
| AcademicFloor.AggregateScore | pkg/search/enhance/academic_enhance.go:176-188 | A scored result is its aggregate's, under (sum x citation factor + journal boost + 0.03 with a PDF) x recency. |
| AcademicFloor.RankedIsPermutation | pkg/search/enhance/academic_enhance.go:190-193 | The ranked list holds each scored result once, by descending score. |
| AcademicFloor.BetterSignalScoresHigher | pkg/search/enhance/academic_enhance.go:177-183 | Of two aggregates of equal positive mass, the one that is better by citations, journal, PDF or recency and worse by none has the higher score. |
| AcademicFloor.BetterSignalRanksHigher | pkg/search/enhance/academic_enhance.go:190-193 | A higher score stands before a lower one. |
| AcademicFloor.TopKeysAre | pkg/search/enhance/academic_enhance.go:239-249 | The top keys are those of the engines' first results, and no others. |
| AcademicFloor.EngineGuarantee | pkg/search/enhance/academic_enhance.go:206-272 | An engine's first result survives, in the result it was merged into, if and only if that is Top-1, reaches the threshold, or has its own DOI or URL key among the engines' top keys. |
| AcademicFloor.FirstResultKept | pkg/search/enhance/academic_enhance.go:168-183 | With signals in the source's ranges, an engine's first result survives whenever the threshold is at most its own rank mass plus twice the least mass of any entry. |
| AcademicFloor.OwnMassSuffices | pkg/search/enhance/academic_enhance.go:168-183 | In particular whenever the threshold is at most its own rank mass. |
| AcademicFloor.KeptAtDefault | pkg/search/enhance/academic_enhance.go:213-215 | At the default threshold, with weights of 1 or more and at most 541 results an engine, every engine's first result survives. |
| AcademicFloor.FirstResultLost | pkg/search/enhance/academic_enhance.go:239-272 | One paper under two URLs, known to an engine only by the second: behind another result it survives exactly at the threshold. |
| AcademicFloor.LostAboveMergedMass | pkg/search/enhance/academic_enhance.go:176-272 | With signals in the source's ranges and nothing but ranks speaking for that paper, the first result is lost if and only if the threshold is above 1/60 + 1/61 + 1/62. |
| AcademicFloor.FirstResultCanBeLost | pkg/search/enhance/academic_enhance.go:239-272 | Such buckets, signals in range, and threshold 0.06, at which it is lost. |
| Yaml.SetThenGet | pkg/dashboard/settings.go:145-174 | After a set succeeds, the path and everything below it reads the new value. |
| Yaml.SetFrame | pkg/dashboard/settings.go:145-174 | A path that is neither prefix nor extension of the set one reads as before. |
| Yaml.SetMakesMappings | pkg/dashboard/settings.go:150-166 | All nodes above the set path are mappings afterwards. |
| Yaml.SetSucceedsWhen | pkg/dashboard/settings.go:150-153 | A set succeeds if and only if nothing but mappings or absent nodes lie above the path. |
| Yaml.GetThenSet | pkg/dashboard/control_settings.go:49-71 | Setting what a path reads changes nothing. |
| Yaml.SetTwice | pkg/dashboard/settings.go:145-174 | The second of two sets of a path wins. |
| Yaml.SetAllReads | pkg/dashboard/control_settings.go:339-343 | Pairwise non-prefix changes all apply if and only if each would alone, and then every path reads as the changes say or as before. |
| Yaml.OrderIsIrrelevant | pkg/dashboard/control_settings.go:339-343 | The iteration order of the change map affects neither success nor any reading. |
| YamlNodes.YamlPath | pkg/dashboard/control_settings.go:49-71 | The pointer walk finds the node of the path, or nil exactly when there is none. |
| YamlNodes.SetYAMLPath | pkg/dashboard/settings.go:145-174 | The in-place update succeeds exactly when `Set` does and then turns the tree into `Set` of the old one; on failure the tree is unchanged. |
| Settings.DifferenceReaches | pkg/dashboard/control_settings.go:135-143 | Applying a difference reaches the target's values, keeps the other settings, and is empty exactly when nothing differs. |
| Settings.Rewrite | pkg/dashboard/control_settings.go:335-347 | The changes loop yields the rewritten text for some key order, and fails only on an unparsable text or an obstructed path; with independent keys it succeeds if and only if every path is settable. |
| Settings.ConfigFiles.Check | pkg/dashboard/control_settings.go:275-331 | The checks before a write pass exactly for an admissible request. |
| Settings.ConfigFiles.Commit | pkg/dashboard/control_settings.go:348-402 | The change is applied exactly when no operation from the backup to the cache clearing fails; otherwise the old text stands or the error reports a failed rollback. |
| Settings.ConfigFiles.Rollback | pkg/dashboard/control_settings.go:360-369 | The plain error is returned exactly when the old text was written and read back, else the error names the failed rollback. |
| Settings.ConfigFiles.ApplySettingsFile | pkg/dashboard/control_settings.go:271-403 | A request is applied if and only if it is admissible, confirmed and rewritable and no operation fails. What is written are the changes asked for, or those that reach the settings of the backup. For any pattern of failures: applied means the file is the new text and the backup the old one; otherwise the file is the old text unless the error reports a failed rollback, and then the backup holds it. |
| Settings.AppliedReads | pkg/dashboard/control_settings.go:335-347 | After an applied request with independent keys every changed path reads its new value and every unrelated path its old one. |
| Text.TrimSpaceMeans | mcp/tool_pdf.go:334-346 | Trimming takes all spaces off both ends and nothing else. |
| Text.SplitMeans | mcp/tool_pdf.go:340 | Splitting gives parts without the separator whose join is the text. |
| Text.AtoiMeans | mcp/tool_pdf.go:346-362 | Digits with at most one sign are their value, if that fits 64 bits. |
| Text.AtoiRejects | mcp/tool_pdf.go:346-362 | Nothing else is a number. |
| PageRanges.PlainPart | mcp/tool_pdf.go:341-369 | A part without a dash is blank, a page from 1 on, or malformed. |
| PageRanges.DashedPart | mcp/tool_pdf.go:345-353 | A part with a dash is a range of two numbers in order from 1 on, too wide above the cap, or malformed. |
| PageRanges.ParsePagesSpec | mcp/tool_pdf.go:331-373 | The loops compute `Parse`, errors included. |
| PageRanges.ParseMeans | mcp/tool_pdf.go:331-373 | A specification is accepted if and only if every part is blank, a page or a range within the cap; then the list is strictly increasing and is exactly the set denoted. |
| PageRanges.StandardPageRanges | pkg/fetch/mineru/client.go:150-181 | The nested loops print the runs, or report the page-limit error. |
| PageRanges.RunsAreMaximal | pkg/fetch/mineru/client.go:167-179 | The printed ranges cover exactly the pages, in order, each followed by a gap. |
| PageRanges.PrintThenParse | pkg/fetch/mineru/client.go:166-180 | Parsing what was printed gives the list back if and only if no run is wider than the cap, else the width error. |
| PageRanges.StandardThenParse | pkg/fetch/mineru/client.go:153-181 | For a limit no larger than the cap: the limit error comes exactly when a page lies beyond the limit, and everything printed is read back, as the selection or the first pages; with no selection and no maximum nothing is printed. |
| PageRanges.NoFirstPages | pkg/fetch/mineru/client.go:154-161 | A limit below 1 prints a range from 1 down to it, which the parser refuses. |
| PageBatches.SplitPageBatches | pkg/fetch/mineru/batch.go:3-21 | The loop computes `Split`. |
| PageBatches.SplitCovers | pkg/fetch/mineru/batch.go:3-21 | Batches are non-empty, full but for the last, and concatenate to the pages. |
| PageBatches.PlanPageBatches | pkg/fetch/mineru/batch.go:23-40 | The loop computes `Plan`. |
| PageBatches.PlanMeans | pkg/fetch/mineru/batch.go:23-40 | Kept batches are a prefix of all, fit the budget, no further one would, and truncated holds exactly when pages were dropped. |
| PageBatches.ResumeSeesDropped | mcp/tool_pdf.go:319-320 | Of an increasing selection exactly the dropped pages lie at or after the resume page. |
| PageBatches.ResumingReadsAll | mcp/tool_pdf.go:255-320 | Whenever the first call keeps anything, calling again from the resume page until nothing is dropped parses every selected page once, in order. |
| PageBatches.NothingKept | mcp/tool_pdf.go:255-258 | Nothing of a non-empty selection is kept exactly when its first batch exceeds a positive budget. |
| PageBatches.SuggestedWindowCovers | mcp/tool_pdf.go:319-322 | The suggested window takes in the next batch if and only if that ends within one batch's width of the last parsed page; for a full batch, if and only if it has no gap. |
| PageBatches.WindowMissesGap | mcp/tool_pdf.go:319-322 | Pages 1, 3 and 5 in batches and a budget of one: the suggested window misses page 3. |
| ApiPool.WeightedChoiceIsExact | pkg/search/apipool/apipool.go:146-167 | Of all equally likely draws exactly effectiveWeight(i) choose provider i. |
| ApiPool.EffectiveWeightMeans | pkg/search/apipool/apipool.go:169-190 | 1 for a free engine; otherwise the configured weight, or 1 without one, times the usable keys, and 0 for a weight that is not positive. |
| ApiPool.StartsRotate | pkg/search/apipool/apipool.go:131-144 | n consecutive round-robin requests, or weighted ones without any weight, start once at each of the n providers; priority starts at the first; a weighted draw starts at the provider whose share it falls into. |
| ApiPool.Pool.PickWeighted | pkg/search/apipool/apipool.go:149-167 | It chooses the provider of the draw exactly when some weight is positive. |
| ApiPool.Pool.PickStartIndex | pkg/search/apipool/apipool.go:131-144 | Priority starts at 0, weighted at the draw, and round-robin, also as weighted's fallback, at the cursor, which only then moves. |
| ApiPool.Pool.Search | pkg/search/apipool/apipool.go:104-129 | Providers are called in cyclic order from the start until one answers, the request is cancelled, or all have failed; the calls made explain the answer. |
| ApiPool.CyclesOnce | pkg/search/apipool/apipool.go:120-143 | Any n consecutive cursor values, and the attempts of one request, meet every provider exactly once. |
| ApiPool.FailsOnlyIfAllFail | pkg/search/apipool/apipool.go:115-128 | Uncancelled, a request fails if and only if every provider fails, and otherwise answers what some provider returned. |
| QuotaPeriods.MonthlyPeriod | pkg/config/config.go:896-918 | A monthly period runs from the reset day of one month to that of the next, also around short months and leap days. |
| QuotaPeriods.OpensOnResetDay | pkg/config/config.go:868-874 | A monthly period opens on the configured day, or on the first when that is not in 1 to 28. |
| QuotaPeriods.PeriodLengths | pkg/config/config.go:911-915 | A daily period is 24 hours long, a weekly one seven days. |
| QuotaPeriods.WeeksRunFromMonday | pkg/config/config.go:889-893 | A weekly period runs from Monday to Monday, a daily one is the day. |
| QuotaPeriods.PeriodsPartitionTime | pkg/config/config.go:884-919 | PeriodStart(t) <= t < NextReset(t), PeriodStart is constant in between, and the next reset starts the next period. |
| QuotaPeriods.YearLength | pkg/config/config.go:887-901 | A year has 366 days when it is divisible by 4 and not by 100, or by 400. |
| QuotaPeriods.MonthsOfYear | pkg/config/config.go:887-901 | The model's calendar has the months' lengths and 365 or 366 days a year. |

## Left out

- The HTTP clients, engines, result parsers, MCP transport, dashboard pages, i18n and logging.
- Cache views without a generation (their keys are the plain queries), errors of the SELECT and INSERT statements, JSON of the stored results, and wrap-around of the 64-bit generation and ids.
- The cache's clock: every step may carry any time; nothing assumes it monotone.
- I/O errors and cancellation inside a read of a saved result: in the machine a read may be abandoned at any time, and the pair is then not written.
- RateLimiter.LimiterIsStateless: assumes a clock that does not go back, as Go's monotone readings do not.
- TokenStream: the network read is assumed to return; a progress notification is assumed to be delivered; the citation formatting of the returned text is not modelled.
- Floating-point rounding: scores, weights and lambda are reals.
- Tokenisation, domain, authority, recency, citation and journal signals, URL and DOI normalisation: function parameters. Of the normalisations only that they map the empty text to the empty key is assumed; of the academic signals, where a lemma says so, only their ranges.
- Aggregate pointers of the academic merge: they are positions in the result order, which never shrinks, so two indexes share an aggregate as in the source.
- YAML anchors, aliases, comments and node styles: a node that is not a mapping is a text, and a mapping node has as many keys as values. Parsing and rendering are parameters.
- YamlNodes.SetYAMLPath: recursion down the path instead of a moving pointer; the order of the writes is the same. The replacement node is taken as given instead of being marshalled from a value.
- The settings checks that only read (locked keys, value validation, source combination, backup names) are parameters; settings values are compared after canonicalisation, and a missing value differs from a present one.
- Settings.ConfigFiles.Commit: a backup write that succeeds is taken to have written the old text, and one that fails to have left no backup; the source never reads the backup back, and that the backup holds the old text rests on this.
- External writers of the configuration file between the read back and the result; rename-free writing is modelled by letting any write leave any text.
- Invalid UTF-8 in a page specification; sorting is modelled by insertion where the source calls the library.
- The markdown merging and the partial results of the batch loop, and cropping itself.
- The key retry loop inside one provider call: a provider answers or all its keys fail. The number of available keys is a parameter.
- Wrap-around of the round-robin cursor.
- The "none" quota period, which has no boundaries, and time zones whose offset changes.
