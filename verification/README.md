# VectorLift in Dafny

VectorLift retrieves passages with a lexical and a dense backend, fuses and reranks the
results, caches them, indexes corpora in batches or from Kafka, and evaluates retrieval
systems. This project models the parts of it where an error would be silent and proves what
they promise, for all inputs, all runs and all interleavings.

| file | subject | form |
|---|---|---|
| `Metrics.dfy`, `MetricAggregation.dfy`, `MetricValues.dfy` | ranking metrics, their aggregation, and the reported values in terms of judgements and rankings | functions, loops proved against them |
| `ServiceMetrics.dfy` | the second metric implementation of the evaluation service | functions, one loop |
| `KafkaWorker.dfy`, `KafkaRuns.dfy`, `KafkaOutcomes.dfy` | the indexing worker, what its runs keep, and what becomes of each message | class, state machine |
| `ResultCache.dfy`, `CachedSearch.dfy` | the Redis result cache under concurrent searches, and what a search returns | state machine, class |
| `RankFusion.dfy`, `Fusion.dfy`, `FusionValues.dfy` | reciprocal rank fusion: laws, and the loops over result objects; merged rows written out | functions, class |
| `WeightedFusion.dfy`, `SharedObjects.dfy` | in-place normalisation and weighted score fusion; lists that share or repeat objects | class over heap objects, functions |
| `HybridRetrieval.dfy` | fetch, fuse, fall back, truncate, renumber | class |
| `TokenTruncation.dfy`, `TextChunking.dfy` | lexing, truncation and chunking of text | functions, loops |
| `BatchIndexing.dfy`, `IndexingSuccess.dfy` | two interleaved indexing tasks with a manifest, and when a run succeeds | class, state machine |
| `EmbeddingResume.dfy` | resumable embedding files | class |
| `FaissIds.dfy` | id bookkeeping around the FAISS index | class |
| `Bootstrap.dfy`, `BootstrapValues.dfy` | paired bootstrap test over a given resample matrix, and its figures written out | functions |
| `Sequences.dfy`, `RealFacts.dfy` | slices, the stable sort, facts on reals | helpers |

Conventions. Scores and metrics are exact reals. 1/log2(i+2) is any positive, strictly
decreasing weight sequence. Encoders, retrievers, rerankers, digests and the character
classes of the regular expressions are function parameters. Which call of a backend fails,
what `poll()` returns, how concurrent tasks interleave and when keys expire are inputs over
which the theorems quantify. Where the source changes objects, the model has a class whose
methods are proved equal to a specification function, and the laws are proved about that
function; for every main operation some of these laws give its results in terms of its inputs
alone, without the function. A method whose result is only a computation carries the law in
the lemma named beside it.

## Where the code does less than it seems to

Each of these is stated as an exact condition or with a concrete input.

- A merge constructs its rows with rank 0 before ranking them, which the constructor of a
  result rejects (`Fusion.Construct`). As written a non-empty merge raises and hybrid
  retrieval returns the top of the BM25 list (`AsWrittenHybridIsBm25`). The merges are also
  modelled as `tests/unit/test_fusion.py` describes them; `Checks(rejectsLowRanks)` selects,
  true being the code as written.
- A cutoff listed twice in `k_values` doubles its metrics (`ProportionsExactly`); repeated
  ids in a ranking push recall above 1 (`RecallBoundedExactly`); negative grades make the
  NDCG clamp act (`ClampActsExactly`).
- `rerank_top_n` is not in the cache key, so requests that differ in it can be served each
  other's results (`TransparentForAllBackendsExactly`, `CandidateCountGoesStale`), and a mode
  that ends with a `|` and another mode can collide with it (`KeysCollideExactly`).
- `commit()` in mid-batch commits messages that are still pending (`MidBatchCommitGap`,
  `FirstPollOpensGap`).
- An object listed twice is rescaled twice by the in-place normalisation and can leave [0,1]
  (`NormalisesIntoUnitExactly` for one list, `BothInUnitExactly` for two).
- An interval above zero need not be reported as significant when resamples are few
  (`IntervalAboveZeroReportedExactly`).
- The index manifest records BM25 work only, so a BM25-only run hides its passages from
  later dense runs (`DenseCoverageExactly`, `Bm25OnlyRunBlocksDense`).
- An unreadable embedding file is replaced, and earlier ids are lost (`LoadFailureForgets`).
- `FaissIndex.add` does not compare the numbers of vectors and ids (`FaissIndex.Add`).
- `tests/unit/test_text_utils.py:155-161` expects two chunks where the loop yields three
  (`ThreeChunks`); the model follows the loop. A negative overlap passes the parameter check
  and loses text (`RebuildsExactly`).
- A truncation marker of several units exceeds the budget in words and tokens
  (`TruncationFitsExactly`).
- For an observed difference of zero the p-value can depend on the order of the systems
  (`SymmetricPValueExactly`, `TiedSystemsDisagree`); the p-value called two-sided in the
  documentation is the share of one tail.

## Model

| member | source | states |
|---|---|---|
| Sequences.SortDescCorrect | retrieval/hybrid/fusion.py:53 | `sort(key=..., reverse=True)` yields a descending permutation of the list |
| Sequences.SortIgnoresSwap | pipelines/evaluation/metrics.py:64 | the sorted labels do not depend on the order of two neighbours |
| Sequences.SortIsStable | retrieval/hybrid/fusion.py:53 | elements with equal keys keep their order |
| Metrics.IdealDominates | pipelines/evaluation/metrics.py:64-68 | no order of the labels has a larger prefix sum than the sorted order |
| Metrics.AbelBound | pipelines/evaluation/metrics.py:45-50 | Abel summation: if one label list dominates another in prefix sums, its discounted surplus is at least the last discount times the undiscounted surplus |
| Metrics.AbelEquality | pipelines/evaluation/metrics.py:45-50 | and equal discounted sums force equal prefixes |
| Metrics.DcgAtMostIdeal | pipelines/evaluation/metrics.py:31-71 | DCG@k is at most the ideal DCG@k, with equality exactly when the first k labels are those of the ideal order, for grades of any sign and any cutoff |
| Metrics.NdcgIsOneExactly | pipelines/evaluation/metrics.py:53-71 | NDCG@k is at most 1, and exactly when it is 1 |
| Metrics.ClampActsExactly | pipelines/evaluation/metrics.py:67-71 | `min(ratio, 1.0)` changes a value exactly when the ideal DCG is negative and the ranking does not start ideally |
| Metrics.ClampHidesNegativeGrades | pipelines/evaluation/metrics.py:67-71 | the grades -2, -1 at k = 1 have the ratio 2, reported as 1 |
| Metrics.NdcgInUnitInterval | pipelines/evaluation/metrics.py:53-71 | for non-negative grades NDCG@k is in [0,1] and is the exact ratio |
| Metrics.GainAfterSwap | pipelines/evaluation/metrics.py:45-50 | the exact change of discounted gain when two neighbours are exchanged, for every cutoff |
| Metrics.PromotionRaisesDcg | pipelines/evaluation/metrics.py:31-50 | moving a better neighbour up never lowers DCG@k and raises it exactly when the pair differs and is within the cutoff |
| Metrics.PromotionRaisesNdcg | pipelines/evaluation/metrics.py:53-71 | the same for NDCG@k, with its exact condition, for grades of any sign |
| Metrics.ComputeAveragePrecision | pipelines/evaluation/metrics.py:74-96 | the loop with its running hit count computes the mean of precision@rank over the hits |
| Metrics.PromotionRaisesAveragePrecision | pipelines/evaluation/metrics.py:74-96 | promotion never lowers AP and raises it exactly when a hit passes a non-hit |
| Metrics.AveragePrecisionIsOneExactly | pipelines/evaluation/metrics.py:74-96 | AP is in [0,1], 0 exactly without a hit, 1 exactly when there is a hit and all hits precede all non-hits |
| Metrics.ComputeReciprocalRank | pipelines/evaluation/metrics.py:99-111 | the loop returns 1/rank of the first hit, 0 without one |
| Metrics.PromotionRaisesReciprocalRank | pipelines/evaluation/metrics.py:99-111 | promotion never lowers the reciprocal rank and raises it exactly when the promoted label is the first hit |
| Metrics.MrrGrowsWithCutoff | pipelines/evaluation/metrics.py:99-111 | the reciprocal rank of a slice is in [0,1] and never drops as the slice grows |
| Metrics.CutoffsOrderMrrExactly | pipelines/evaluation/metrics.py:210-213 | for k <= k' the reciprocal rank of the slice `[:k]` is at most that of `[:k']` in every list exactly unless k is negative and k' is not |
| Metrics.RecallGrowsWithCutoff | pipelines/evaluation/metrics.py:114-129 | recall@k never drops as the cutoff grows |
| Metrics.PrecisionInUnitInterval | pipelines/evaluation/metrics.py:132-145 | precision@k is in [0,1] for every cutoff |
| MetricAggregation.AccumulateQuery | pipelines/evaluation/metrics.py:210-215 | the inner loop adds each metric of one query to its accumulator once per occurrence of the cutoff |
| MetricAggregation.ComputeMetrics | pipelines/evaluation/metrics.py:161-239 | every reported value is the mean over the evaluated queries, times the number of occurrences of its cutoff; nothing is reported without an evaluated query |
| MetricAggregation.HitsAreFound | pipelines/evaluation/metrics.py:114-158 | over distinct ids the number of hits is the number of relevant ids found |
| MetricAggregation.RecallBoundedExactly | pipelines/evaluation/metrics.py:114-129 | recall@k is at most 1 for all judgements exactly when the first k results are distinct |
| MetricAggregation.QueryMetricInUnitInterval | pipelines/evaluation/metrics.py:31-158 | each metric of one query is in [0,1] for non-negative grades and distinct results |
| MetricAggregation.AggregateInUnitInterval | pipelines/evaluation/metrics.py:196-239 | so is every reported mean when no cutoff other than 0 is repeated |
| MetricAggregation.AggregateGrowsWithCutoff | pipelines/evaluation/metrics.py:206-230 | the reported recall@k and mrr@k never drop as the cutoff grows, over all benchmarks, if the larger cutoff is listed at least as often |
| MetricAggregation.NeverDropsExactly | pipelines/evaluation/metrics.py:206-230 | for a positive cutoff k and a larger k' the reported recall or mrr never drops from k to k' in any benchmark exactly when k' is listed at least as often as k |
| MetricAggregation.RepeatedCutoffOverflows | pipelines/evaluation/metrics.py:210-215 | for every repeated non-zero cutoff there is a one-query benchmark with mrr@k of at least 2 |
| MetricAggregation.ProportionsExactly | pipelines/evaluation/metrics.py:161-239 | all reported values of all benchmarks are in [0,1] exactly when no non-zero cutoff is repeated |
| MetricValues.QueryNdcgIsOneExactly | pipelines/evaluation/metrics.py:53-71 | for non-negative grades and k > 0 ndcg@k of a query is 1 exactly when some retrieved document has a positive grade, the first k are in descending grade and none behind them has a larger one |
| MetricValues.GradesMatter | pipelines/evaluation/metrics.py:148-158 | grades 1 and 3 in this order at k = 2 give (d0 + 3 d1)/(3 d0 + d1), less than 1 |
| MetricValues.PrecisionAndRecallCount | pipelines/evaluation/metrics.py:114-145 | precision@k times k and recall@k times the relevant judgements are both the number of relevant documents among the first k; recall is 0 without relevant judgements |
| MetricValues.MrrIsFirstHit | pipelines/evaluation/metrics.py:99-111 | mrr@k is the reciprocal rank of the first relevant document among the first k, 0 without one |
| MetricValues.AveragePrecisionGrows | pipelines/evaluation/metrics.py:74-96 | a further label adds precision at its rank to AP times hits when it is relevant, nothing otherwise |
| MetricValues.OneMoreQuery | pipelines/evaluation/metrics.py:196-230 | one more query is skipped exactly when it has neither results nor judgements; otherwise it counts as one and adds its metric once per occurrence of the cutoff; a judged query without results adds 0 and counts |
| MetricValues.PromotionRaisesReport | pipelines/evaluation/metrics.py:196-230 | in any benchmark exchanging two neighbouring results within a listed cutoff raises the reported ndcg@k exactly when the lower one has the larger grade |
| ServiceMetrics.ComputeServiceAp | apps/api/services/evaluation_service.py:78-87 | the loop computes the precision sum over the hits divided by all relevant documents |
| ServiceMetrics.AveragePrecisionsAgree | apps/api/services/evaluation_service.py:78-87 | service AP times total relevant equals pipeline AP times retrieved hits; service AP is at most pipeline AP, and equal exactly when everything relevant was retrieved |
| ServiceMetrics.IdealsCompared | apps/api/services/evaluation_service.py:52-59 | sorting after the cut gives an ideal DCG at most that of sorting before it, equal exactly when the cut kept the labels the ideal order starts with, for grades of any sign |
| ServiceMetrics.BinaryIdealsCompared | apps/api/services/evaluation_service.py:52-59 | for binary labels that is when the cut is all hits or keeps all hits |
| ServiceMetrics.ServiceNdcgDominates | apps/api/services/evaluation_service.py:50-60 | for binary labels service NDCG@k is at least pipeline NDCG@k, and exactly when they are equal |
| ServiceMetrics.ServiceNdcgInUnitInterval | apps/api/services/evaluation_service.py:50-60 | for graded labels service NDCG@k is in [0,1], 0 exactly when the cut list has no hit, and 1 exactly when it has one and is in ideal order |
| ServiceMetrics.GradedNdcgsDiffer | apps/api/services/evaluation_service.py:50-60 | for grades 1, 2 the service value (d0 + 3 d1)/(3 d0 + d1) is below the pipeline value (d0 + 2 d1)/(2 d0 + d1) |
| ServiceMetrics.ComputeServiceMrr | apps/api/services/evaluation_service.py:63-68 | the service loop computes the pipeline's reciprocal rank of the slice |
| ServiceMetrics.ServiceRecallAgrees | apps/api/services/evaluation_service.py:71-75 | the two recalls agree exactly for a positive cutoff, no relevant document, or a slice without a hit |
| ServiceMetrics.ServicePrecisionDominates | apps/api/services/evaluation_service.py:90-92 | for a positive cutoff service precision@k is at least pipeline precision@k and at most 1, equal exactly when the list fills the cutoff or has no hit; a cutoff of 0 raises; a negative one gives a non-positive value |
| KafkaWorker.IndexingConsumer.constructor | apps/worker/kafka_consumer.py:125-141 | a group without committed offsets that reads from the earliest offset starts at 0 of every partition, with empty stores |
| KafkaWorker.IndexingConsumer.IndexPassage | apps/worker/kafka_consumer.py:232-260 | what one indexing attempt writes to each store under each fault, a store call raising before or after it has written, and when it succeeds |
| KafkaWorker.IndexingConsumer.ProcessMessage | apps/worker/kafka_consumer.py:206-230 | dispatch by message type refines one attempt of the machine |
| KafkaWorker.IndexingConsumer.HandleFailure | apps/worker/kafka_consumer.py:266-318 | the retry loop refines the retries of the machine, ending in success or a dead letter |
| KafkaWorker.IndexingConsumer.HandleMessage | apps/worker/kafka_consumer.py:171-179 | process, commit the poll position, count, or fail over to the retries |
| KafkaWorker.IndexingConsumer.HandleSlice | apps/worker/kafka_consumer.py:171-179 | the inner loop handles the messages of one partition in order |
| KafkaWorker.IndexingConsumer.HandleBatch | apps/worker/kafka_consumer.py:170-179 | the nested loops over a poll refine one poll step of the machine |
| KafkaWorker.IndexingConsumer.Start | apps/worker/kafka_consumer.py:147-195 | the consume loop refines a run of the machine up to the loop head at which it stops |
| KafkaWorker.IndexingConsumer.Resume | apps/worker/kafka_consumer.py:147-195 | a new process continues at the committed offsets |
| KafkaRuns.HandleRecordEffect | apps/worker/kafka_consumer.py:171-179 | a message is given up exactly when its first attempt or commit and all retries failed; it is recorded once, dead-lettered exactly when given up, writes only its own id, and takes at most 1 + max_retries attempts |
| KafkaRuns.BatchInOrder | apps/worker/kafka_consumer.py:158-179 | a poll returns the next messages of each partition in order and moves the position right behind them |
| KafkaRuns.CommittedOffsetsAreResolved | apps/worker/kafka_consumer.py:158-195 | at every loop head of every run with any faults and restarts, all polled offsets are resolved and the committed offsets are not ahead of the poll position |
| KafkaRuns.MidBatchCommitGap | apps/worker/kafka_consumer.py:170-179 | at every point of a batch the committed offsets cover only resolved messages exactly when no earlier message of the batch was processed and committed at its first attempt, or all that remain were resolved before the poll |
| KafkaRuns.BatchCommits | apps/worker/kafka_consumer.py:171-179 | part of a batch commits the whole poll position once some message goes straight through, and nothing otherwise |
| KafkaRuns.FirstPollOpensGap | apps/worker/kafka_consumer.py:170-179 | the gap in the first poll of a fresh worker: two passages, no fault, the first indexed, offset 2 committed, the second pending |
| KafkaRuns.LastIndexedVersionIsHeld | apps/worker/kafka_consumer.py:232-296 | after every run, an id whose last delivered message was indexed has that message's version in the stores |
| KafkaRuns.ReplayEqualsOnePass | apps/worker/kafka_consumer.py:170-179 | once the worker is again past all it delivered, each id holds what one failure-free pass leaves, however often and from where it restarted; ids stay in one partition as in apps/worker/kafka_producer.py:105-107 |
| KafkaRuns.DrainedRunsAgree | apps/worker/kafka_consumer.py:147-195 | any two runs that read the whole log and gave nothing up leave the same two stores, also with different faults, commit failures and retry limits |
| KafkaOutcomes.DeliveryOutcome | apps/worker/kafka_consumer.py:171-296 | by message, fault and commit: a delivery ends indexed at its first attempt that goes through, among the first one and max_retries retries, and is given up after all of them when none does |
| KafkaOutcomes.RunsAreAccounted | apps/worker/kafka_consumer.py:232-260 | after every run each stored document and point is that of a delivered passage of its id, each vector is the encoding of the text stored with it, and without failures exactly the passages that lack id or text are given up |
| KafkaOutcomes.LastIndexedPassage | apps/worker/kafka_consumer.py:232-260 | an id whose last delivered message was indexed has that text and title in Elasticsearch and, if id and text are not empty, the encoding of the text, the text and the title in Qdrant |
| KafkaOutcomes.FailedPollsLeaveNoTrace | apps/worker/kafka_consumer.py:158-168 | a run ends as the same run without its raising polls |
| KafkaOutcomes.BatchFollowsPoll | apps/worker/kafka_consumer.py:170-171 | the messages of a poll are handled partition by partition as returned, each partition's next messages in order |
| ResultCache.PayloadRoundTrip | retrieval/reranker/pipeline.py:53-60 | deserialising a serialised result list gives it back exactly when every row can be constructed again |
| ResultCache.RawKeysAgree | retrieval/reranker/pipeline.py:46-50 | raw keys of stripped queries agree on top_k, on the query when the mode is the same, and for different modes only when one ends with a separator and the other after a possible end of a query |
| ResultCache.SeparatorInModeCollides | retrieval/reranker/pipeline.py:46-50 | the query `" a "` in a mode that is `x`, the separator and `bm25` has the cache key of the query that is `a`, the separator and `x` in mode `bm25` |
| ResultCache.KeysCollideExactly | retrieval/reranker/pipeline.py:46-50 | two different modes have requests with a common cache key exactly when they clash in this way |
| ResultCache.SameKeySameRequest | retrieval/reranker/pipeline.py:46-50 | with an injective digest and modes that do not clash, equal cache keys mean equal stripped query, mode and top_k |
| ResultCache.SearchPipeline.CacheGet | retrieval/reranker/pipeline.py:300-311 | a failed GET, a missing key and an unreadable payload are all misses |
| ResultCache.SearchPipeline.CacheSet | retrieval/reranker/pipeline.py:313-321 | a SET stores the serialised rows under the key or changes nothing |
| ResultCache.SearchPipeline.Search | retrieval/reranker/pipeline.py:104-214 | one undisturbed search is exactly the submit, get, compute and set steps of the machine |
| ResultCache.StepKeepsCoherent | retrieval/reranker/pipeline.py:148-201 | every step of every search and every expiry keeps: finished searches are right, entries are stored results of requests with their key |
| ResultCache.RunsStayCoherent | retrieval/reranker/pipeline.py:104-274 | so does every interleaving of searches, cache warming, expiries and failed calls |
| ResultCache.TransparencyExactly | retrieval/reranker/pipeline.py:104-214 | over a set of requests every interleaving returns what the uncached pipeline returns exactly when requests with one key have one result |
| ResultCache.CacheIsTransparent | retrieval/reranker/pipeline.py:104-274 | every search of every interleaving returns what the uncached pipeline returns, for backends that look at the stripped query only and requests whose key fixes the stripped query and the number of candidates |
| ResultCache.TransparentForAllBackendsExactly | retrieval/reranker/pipeline.py:139-214 | with a reranker that is exact: it holds for all such backends exactly when any two requests with one key have the same stripped query and number of candidates |
| ResultCache.UniformKeysFixWork | retrieval/reranker/pipeline.py:46-50 | which is so for modes that do not clash and one number of candidates per query, mode and top_k |
| ResultCache.CandidateCountIsNotInTheKey | retrieval/reranker/pipeline.py:139-151 | over two requests that differ in rerank_top_n and in their results some interleaving returns the wrong one |
| ResultCache.CandidateCountGoesStale | retrieval/reranker/pipeline.py:139-214 | a concrete pipeline whose search with one candidate makes the search with two return the wrong passage |
| CachedSearch.StripRemovesBlanks | retrieval/reranker/pipeline.py:46-50 | stripping removes blanks at both ends and nothing else |
| CachedSearch.StripIsEmptyExactly | retrieval/reranker/pipeline.py:130-131 | a query is rejected as empty exactly when all its characters are blanks |
| CachedSearch.KeyOfRequest | retrieval/reranker/pipeline.py:46-50 | the key is the prefix and the digest of stripped query, lower-cased mode (the default for a missing or empty one) and top_k |
| CachedSearch.FreshResultIsDirect | retrieval/reranker/pipeline.py:139-192 | the uncached result is the reranker's answer for top_k over the requested candidates, 3 * top_k by default, or without a reranker the first top_k of the retriever numbered from 1 |
| CachedSearch.SearchOutcome | retrieval/reranker/pipeline.py:104-214 | for every cache and every failing call: a blank query raises, a readable entry is returned, otherwise the fresh result is returned and stored, or a failing backend raises |
| CachedSearch.SecondSearchIsServed | retrieval/reranker/pipeline.py:148-201 | after a miss the next search with the same request gets the stored rows whatever the backends do |
| CachedSearch.ResultsFitTopK | retrieval/reranker/pipeline.py:104-214 | if the reranker returns at most as many rows as asked, no finished search of any interleaving has more than its top_k rows |
| RankFusion.FusionConservesScore | retrieval/hybrid/fusion.py:195-221 | the merged scores add up to the sum of 1/(k+rank) over all entries of all lists |
| RankFusion.FusionRanksTheUnion | retrieval/hybrid/fusion.py:195-221 | the merge lists exactly the ids of the inputs, each once, with its score and the last passage seen, in descending score with ranks 1..n |
| RankFusion.ListOrderIsIrrelevant | retrieval/hybrid/fusion.py:198-205 | permuting the input lists changes no score |
| RankFusion.DominatingPassagePrecedes | retrieval/hybrid/fusion.py:195-221 | over duplicate-free lists a passage nowhere behind another and somewhere ahead of it precedes it in the merge |
| FusionValues.OneMoreListFused | retrieval/hybrid/fusion.py:198-205 | a further list raises the merged score of each of its ids by 1/(k + rank), the rank being the field if it is at least 1 and else the position, and its passages replace earlier ones |
| FusionValues.TwoListsFused | retrieval/hybrid/fusion.py:198-219 | a row of the merge of two lists scores the sum of its two reciprocal ranks and carries the passage of the second list where that has one |
| FusionValues.TiesKeepFirstSeen | retrieval/hybrid/fusion.py:198-221 | passages with equal merged scores stand in the order in which the lists first show them |
| Fusion.RankInPlace | retrieval/hybrid/fusion.py:51-56 | sorts the given objects by descending score and numbers them from 1 in place |
| Fusion.SortByScore | retrieval/hybrid/fusion.py:53 | the stable descending sort of the objects |
| Fusion.Renumber | retrieval/hybrid/fusion.py:54-55 | the i-th object gets rank i, nothing else changes |
| Fusion.Construct | retrieval/interfaces/base.py:41-43 | constructing a result raises exactly for a rank below 1, if ranks are checked |
| Fusion.ReciprocalRankFusion.Accumulate | retrieval/hybrid/fusion.py:200-205 | the dictionary loop keeps score, insertion order and last passage of every id seen |
| Fusion.ReciprocalRankFusion.Collect | retrieval/hybrid/fusion.py:207-219 | one fresh object of rank 0 per dictionary entry, in insertion order; with ranks checked the first one raises |
| Fusion.ReciprocalRankFusion.Merge | retrieval/hybrid/fusion.py:175-228 | fails exactly for a non-positive constant or, as written, a non-empty input; otherwise returns the fused ranking as fresh objects and changes no input |
| WeightedFusion.NormRowsSpanUnit | retrieval/hybrid/fusion.py:31-48 | normalised scores are in [0,1], the best is 1 and the worst 0 unless all were equal |
| WeightedFusion.NormaliseIdempotent | retrieval/hybrid/fusion.py:31-48 | normalising twice is normalising once |
| WeightedFusion.NormaliseIgnoresScale | retrieval/hybrid/fusion.py:31-48 | a positive affine change of the scores does not change the normalised list |
| WeightedFusion.FusedScoreInUnit | retrieval/hybrid/fusion.py:121-124 | the weighted score of normalised lists is in [0,1] |
| WeightedFusion.FusedScoresIgnoreScale | retrieval/hybrid/fusion.py:104-124 | the fused id-to-score map does not depend on the scale of either list, nor on normalising again |
| WeightedFusion.SetAllToOne | retrieval/hybrid/fusion.py:42-44 | the loop for equal scores sets every listed object to 1 and nothing else |
| WeightedFusion.RescaleAll | retrieval/hybrid/fusion.py:45-47 | the loop for differing scores rescales the listed objects in order, an object listed twice twice |
| WeightedFusion.Normalise | retrieval/hybrid/fusion.py:31-48 | the in-place loop gives exactly the specified scores to all objects, listed once or repeatedly; others and all ranks stay |
| WeightedFusion.DistinctObjectsNormalise | retrieval/hybrid/fusion.py:31-48 | without repeated objects that is the normalisation of the values |
| WeightedFusion.NormalisesIntoUnitExactly | retrieval/hybrid/fusion.py:31-48 | under every assignment of scores a list normalises into [0,1] exactly when no object repeats or it holds a single object |
| WeightedFusion.RepeatedObjectLeavesUnit | retrieval/hybrid/fusion.py:41-47 | the list x, x, y, z with scores 5, 2 and 10 leaves x below zero |
| WeightedFusion.SeparateListsNormalise | retrieval/hybrid/fusion.py:103-105 | two lists that share no object are normalised independently |
| SharedObjects.SharedObjectsStayInUnit | retrieval/hybrid/fusion.py:103-105 | lists that share or repeat objects still end in [0,1] if the dense list repeats no object among others and contains every object the BM25 list repeats among others, or both hold the same objects and the BM25 list each once |
| SharedObjects.BothInUnitExactly | retrieval/hybrid/fusion.py:103-105 | for any two lists that condition is exact: it holds exactly when under every assignment of scores both lists end in [0,1] |
| WeightedFusion.ScoreFusion.Collect | retrieval/hybrid/fusion.py:118-136 | one fresh row of rank 0 per id of the union with its weighted score and the dense passage preferred; with ranks checked the first one raises |
| WeightedFusion.ScoreFusion.Merge | retrieval/hybrid/fusion.py:82-146 | fails for a weight outside [0,1] with nothing changed; otherwise normalises both lists in place and ranks the weighted union, or raises as written |
| FusionValues.WeightedRowIs | retrieval/hybrid/fusion.py:103-136 | a merged row scores w times its min-max normalised dense score plus 1 - w times its normalised BM25 score, a missing one counting 0, and carries the dense passage where there is one |
| SharedObjects.MergedScoresInUnit | retrieval/hybrid/fusion.py:82-146 | under the same condition every merged score is in [0,1] |
| SharedObjects.RepeatedObjectMergesBelowZero | retrieval/hybrid/fusion.py:103-124 | the repeated object above reaches the merge with a negative score |
| WeightedFusion.MergeIsRepeatable | retrieval/hybrid/fusion.py:103-138 | merging the same separate lists again works on the same scores |
| HybridRetrieval.HybridRetriever.Fuse | retrieval/hybrid/hybrid_retriever.py:162-190 | dispatch by strategy for any objects, shared or repeated: the merge as fresh objects, or the BM25 objects when it raises; the score strategy leaves both lists normalised either way |
| HybridRetrieval.HybridRetriever.FuseRows | retrieval/hybrid/hybrid_retriever.py:138-145 | the fused list in terms of the rows the two backends returned |
| HybridRetrieval.HybridRetriever.Retrieve | retrieval/hybrid/hybrid_retriever.py:104-160 | nothing for a blank query; raises exactly when a backend does; otherwise the first top_k of the fused list, numbered from 1, each backend asked for the given depth or max(3 * top_k, 50) for none or 0; with ranks checked the top of the BM25 list |
| HybridRetrieval.AsWrittenHybridIsBm25 | retrieval/hybrid/hybrid_retriever.py:144-190 | with ranks checked the result is, whatever the dense backend found, the first top_k BM25 passages with ranks 1..n, with the backend's scores under RRF and their min-max normalisation under score fusion |
| HybridRetrieval.CutLosesAtMost | retrieval/hybrid/hybrid_retriever.py:134-142 | cutting a full ranking at depth n loses at most 1/(k+n+1) for any id, nothing for a list that fits |
| HybridRetrieval.TruncationError | retrieval/hybrid/hybrid_retriever.py:134-148 | fetching bk and dk results lowers a fused score by at most 1/(k+bk+1) + 1/(k+dk+1) and never raises it |
| HybridRetrieval.ClearWinnersKeepTheirOrder | retrieval/hybrid/hybrid_retriever.py:134-151 | passages whose computed scores differ by more keep their order under full rankings |
| HybridRetrieval.DefaultDepthError | retrieval/hybrid/hybrid_retriever.py:134 | with the defaults the error is at most 2/111, and at least three candidates are fetched per result |
| FusionValues.RetrievedByRank | retrieval/hybrid/hybrid_retriever.py:144-153 | while the merge does not raise, row i returned under RRF has rank i + 1, the sum of its reciprocal ranks in both lists and the dense passage where there is one |
| FusionValues.RetrievedByScore | retrieval/hybrid/hybrid_retriever.py:144-153 | likewise under score fusion, with the weight alpha on the normalised dense score |
| TokenTruncation.RejoinTokens | core/utils/text.py:186-197 | the append loop prints tokens with a blank before words only |
| TokenTruncation.LexConcat | core/utils/text.py:174 | lexing a concatenation that joins no two words lexes the parts |
| TokenTruncation.LexUndoesRejoin | core/utils/text.py:172-197 | lexing a printed token list gives it back, for every token list |
| TokenTruncation.SplitUndoesJoin | core/utils/text.py:164-170 | splitting words joined by blanks gives them back |
| TokenTruncation.RejoinBlanks | core/utils/text.py:186-197 | in a printed token list blanks are the only white space, single, inside the text and exactly the gaps before words |
| TokenTruncation.JoinBlanks | core/utils/text.py:164-170 | words are joined by single blanks, none at the ends |
| TokenTruncation.TruncationFailsExactly | core/utils/text.py:149-183 | exactly when the call raises |
| TokenTruncation.CutKeepsPrefix | core/utils/text.py:159-180 | a cut text consists of the first units of the original and the units of the marker, in every unit |
| TokenTruncation.TruncationFitsExactly | core/utils/text.py:113-183 | the result fits the budget exactly when nothing was cut, the unit is characters, or the marker is at most one unit |
| TokenTruncation.ShortTextStays | core/utils/text.py:159-183 | a text of at most max_length units is returned as it is |
| TokenTruncation.CutIs | core/utils/text.py:159-183 | a longer one is its first units as printed and the marker, behind a blank for words and tokens |
| TokenTruncation.TextStaysExactly | core/utils/text.py:159-183 | the result is the text exactly when the text fits or is itself what the cut prints, which takes a marker of several units |
| TokenTruncation.LongMarkerOverflows | core/utils/text.py:172-180 | cutting four tokens to three with the marker `...` leaves five |
| TokenTruncation.TruncationIdempotent | core/utils/text.py:113-183 | truncating again changes nothing, for every unit and marker |
| TextChunking.ChunkSequence | core/utils/text.py:276-291 | the window loop yields the chunks of the specification |
| TextChunking.TooShortStaysTooShort | core/utils/text.py:285-290 | discarded windows form a suffix |
| TextChunking.ChunksAreWindows | core/utils/text.py:276-291 | chunk i is the window from i * (chunk_size - overlap) of chunk_size units, cut at the end of the text, and there are as many as reach the minimum |
| TextChunking.ChunksExistExactly | core/utils/text.py:276-291 | there is a chunk exactly when the text is not empty and its slice `[:chunk_size]` is at least the minimum, for every overlap and chunk size that pass the check |
| TextChunking.ChunksCover | core/utils/text.py:276-291 | the chunks without their repeated parts are the text but for at most max(0, min_chunk_size-1-overlap) trailing units |
| TextChunking.ThreeChunks | core/utils/text.py:276-291 | five units in windows of three with overlap one give three chunks, the last of a single unit |
| TextChunking.RebuildsExactly | core/utils/text.py:205-291 | for all parameters that pass the check, every long enough text can be rebuilt exactly when max(1, min_chunk_size) <= overlap + 1 |
| TextChunking.ChunkTextOutcomes | core/utils/text.py:240-257 | exactly when the call raises and exactly when it returns any chunk, for all parameters |
| TextChunking.ChunkStringsSplitBack | core/utils/text.py:205-273 | there is one string per window, and splitting it gives the units of the window |
| TextChunking.ChunkTextReturns | core/utils/text.py:240-273 | string i is by characters the slice of the text at its window, by words the words of its window joined by blanks |
| BatchIndexing.BatchIndexer.constructor | pipelines/indexing/batch_indexer.py:80-93 | a fresh indexer knows exactly the ids of the manifest |
| BatchIndexing.BatchIndexer.IndexBm25Batch | pipelines/indexing/batch_indexer.py:241-249 | the retried call succeeds exactly when fewer than five attempts fail, and then leaves the batch as if written once, whatever parts the failing attempts wrote; otherwise those parts stay |
| BatchIndexing.BatchIndexer.UpsertQdrantBatch | pipelines/indexing/batch_indexer.py:316-329 | likewise for the vectors, texts and titles of a batch |
| BatchIndexing.BatchIndexer.Bm25Turn | pipelines/indexing/batch_indexer.py:213-221 | one batch is indexed and its ids become known, or after five failed attempts only the parts they wrote are in the store |
| BatchIndexing.BatchIndexer.DenseTurn | pipelines/indexing/batch_indexer.py:277-296 | one batch is encoded and upserted, or only what five failed attempts wrote is in the store; encoding is not retried |
| BatchIndexing.BatchIndexer.Gather | pipelines/indexing/batch_indexer.py:133-139 | the two interleaved tasks refine the machine, also after one of them failed |
| BatchIndexing.BatchIndexer.IndexCorpus | pipelines/indexing/batch_indexer.py:99-141 | stores, known ids, manifest and success of a whole run; the manifest is written only when both tasks are through |
| BatchIndexing.KnownIdsAreIndexed | pipelines/indexing/batch_indexer.py:214-221 | at every moment of every interleaving known ids are in the BM25 store, and so are those of the manifest |
| BatchIndexing.RunResult | pipelines/indexing/batch_indexer.py:99-141 | a run that returns has the result of one clean unbatched pass; a failed one changes nothing a full pass would not redo |
| BatchIndexing.CleanResultHolds | pipelines/indexing/batch_indexer.py:115-141 | after a clean run every new id is in both stores with text, title and vector of its last passage, the manifest lists all ids, and nothing else changed |
| BatchIndexing.CleanIsFinal | pipelines/indexing/batch_indexer.py:115-119 | after a clean result nothing is new and another run changes nothing |
| BatchIndexing.RecoveryEqualsCleanRun | pipelines/indexing/batch_indexer.py:99-141 | any sequence of failed and successful runs by fresh indexers ends as one clean run once one succeeded |
| IndexingSuccess.RunSucceedsExactly | pipelines/indexing/batch_indexer.py:99-141 | for a positive batch size and each choice of backends a run over n new passages returns normally exactly when each enabled task gets ceil(n / batch_size) turns and these all succeed with fewer than five failing attempts, the dense ones after encoding |
| IndexingSuccess.FaultlessRunSucceeds | pipelines/indexing/batch_indexer.py:99-141 | without failing calls and with enough turns a run succeeds with the clean result |
| IndexingSuccess.SuccessfulRunHolds | pipelines/indexing/batch_indexer.py:115-141 | a successful run over either or both backends leaves each new id with the text, title and vector of its last passage in the stores it covers and everything else alone; ids become known by BM25 work |
| IndexingSuccess.OnePassageIsIndexed | pipelines/indexing/batch_indexer.py:99-141 | one passage with the default batch size: both stores and the manifest afterwards |
| BatchIndexing.DenseCoverageExactly | pipelines/indexing/batch_indexer.py:115-139 | a successful dense run leaves the whole corpus in the dense store exactly when the skipped ids were there before |
| BatchIndexing.Bm25OnlyRunBlocksDense | pipelines/indexing/batch_indexer.py:214-221 | after a successful BM25-only run no later run adds its corpus to the dense store |
| EmbeddingResume.EmbeddingGenerator.Generate | pipelines/embedding/generator.py:63-151 | one row per text in order for any positive batch size; fails exactly without texts, with a batch size that is not positive, or when an encoder call raises |
| EmbeddingResume.BatchesRoundUp | pipelines/embedding/generator.py:117-126 | the number of encoder calls is the number of texts divided by the batch size, rounded up |
| EmbeddingResume.EmbeddingGenerator.GenerateAndSave | pipelines/embedding/generator.py:157-226 | appends exactly the missing passages to the file, or leaves it when nothing is missing or an encoder call raises |
| EmbeddingResume.RunKeepsFaithful | pipelines/embedding/generator.py:180-222 | rows stay aligned with ids, each the embedding of its text, and old rows are an unchanged prefix |
| EmbeddingResume.ResumedEqualsOneShot | pipelines/embedding/generator.py:157-226 | runs over any split of a corpus, with overlaps and repetitions, give the id-to-vector map of one run over all of it |
| EmbeddingResume.RerunChangesNothing | pipelines/embedding/generator.py:194-199 | running again on the same corpus changes nothing |
| EmbeddingResume.LoadFailureForgets | pipelines/embedding/generator.py:183-222 | after a failed load the file holds exactly the ids of the current corpus, unless that is empty |
| FaissIds.FaissIndex.Build | retrieval/dense/faiss_index.py:97-141 | fails exactly for different lengths; otherwise vectors, ids and positions are aligned |
| FaissIds.FaissIndex.Add | retrieval/dense/faiss_index.py:143-165 | fails exactly before build; an aligned index stays aligned exactly when the lengths agree |
| FaissIds.FaissIndex.Search | retrieval/dense/faiss_index.py:171-208 | fails exactly before build or for a hit beyond the id list, never on an aligned index; otherwise ids and scores of the hits without sentinels |
| FaissIds.PositionsGrow | retrieval/dense/faiss_index.py:136-164 | building and adding leaves the positions of one build over everything |
| FaissIds.PositionsInvert | retrieval/dense/faiss_index.py:137 | the position map knows exactly the listed ids, each at its last occurrence |
| FaissIds.FoundDropsPadding | retrieval/dense/faiss_index.py:199-206 | with sentinels at the end the result is the real hits in order, each with the id at its position |
| FaissIds.OldHitsKeepTheirIds | retrieval/dense/faiss_index.py:160-206 | positions found before an add resolve to the same ids after it |
| Bootstrap.PercentileMirrors | pipelines/evaluation/significance.py:160-162 | the interpolated quantile 1-q of the negated values is the negated quantile q |
| Bootstrap.SwapMirrorsTest | pipelines/evaluation/significance.py:131-177 | exchanging the systems negates the difference and mirrors the interval; for given resamples the p-value stays exactly when the means differ or the resamples lean neither way |
| Bootstrap.SymmetricPValueExactly | pipelines/evaluation/significance.py:151-157 | the p-value is the same in both orders for every matrix of n resamples exactly when the means differ or the scores are the same |
| Bootstrap.TiedSystemsDisagree | pipelines/evaluation/significance.py:151-157 | two tied systems with p-value 0 in one order and 1 in the other |
| Bootstrap.IntervalWithinDifferences | pipelines/evaluation/significance.py:143-162 | difference and interval lie within any bounds on the per-query differences, the p-value in [0,1]; the interval is ordered up to alpha 1 and reversed beyond |
| Bootstrap.LowerEndAgainstTally | pipelines/evaluation/significance.py:151-161 | how many resamples at or below zero keep the lower end positive, from both sides |
| Bootstrap.IntervalAboveZeroReportedExactly | pipelines/evaluation/significance.py:151-172 | with B ahead, n resamples always report an interval above zero as significant exactly when alpha is positive and n is 1 or one resample weighs less than alpha |
| Bootstrap.CoarseBootstrapDisagrees | pipelines/evaluation/significance.py:151-172 | with fewer resamples an interval above zero can be reported as not significant |
| Bootstrap.UniformlyBetter | pipelines/evaluation/significance.py:143-172 | if B is better on every query the p-value is 0 and the interval above zero |
| Bootstrap.SharedQueriesDecide | pipelines/evaluation/significance.py:215-240 | only shared queries matter, and exactly when the comparison fails |
| Bootstrap.ComparisonWithinDifferences | pipelines/evaluation/significance.py:215-262 | the comparison goes from a to b: difference and interval lie within any bounds on b's advantage over the shared queries |
| Bootstrap.CompareAllSystems | pipelines/evaluation/significance.py:286-309 | the loop over pairs, each with the next seed, skips pairs that fail with a ValueError, ends with an error exactly when a pair meets an empty resample matrix, and otherwise computes the report |
| Bootstrap.EveryPairIsReportedOnce | pipelines/evaluation/significance.py:286-309 | the report is in descending effect and holds exactly one comparison for every pair of systems that can be compared, with the seed of its position |
| Bootstrap.SelfComparison | pipelines/evaluation/significance.py:215-240 | a system against itself has no difference, a degenerate interval and p-value 1 |
| BootstrapValues.TestFigures | pipelines/evaluation/significance.py:131-177 | the test returns exactly for lists of one positive length, alpha in [0, 2] and some resample; it returns the means, their difference, the share of resamples that contradict its sign, and the interpolated quantiles alpha/2 and 1 - alpha/2 of the resampled differences |
| BootstrapValues.ComparisonFigures | pipelines/evaluation/significance.py:215-240 | a comparison is that test on the shared queries in sorted order with the resamples of the given seed |
| BootstrapValues.PairAt | pipelines/evaluation/significance.py:291 | pairs are numbered in lexicographic order |
| BootstrapValues.ReportHoldsComparisons | pipelines/evaluation/significance.py:291-309 | the report holds exactly the comparisons of the pairs i < j that do not fail, each with the seed raised by the number of its pair |

## Left out

- Internals of Elasticsearch, Qdrant, Redis, Kafka, FAISS and Postgres: stores are maps whose upserts apply or raise, the broker a log per partition, FAISS hits an input.
- The per-item error handling inside the Elasticsearch bulk helper (`retrieval/bm25/elasticsearch_retriever.py:227-241`): a call succeeds or raises as a whole.
- Crashes in the middle of a polled batch and failed writes of the dead-letter file: the code gives no recovery guarantee there, and restarts are modelled at a loop head.
- Reusing a `BatchIndexer` after a failed run (its set of known ids has already advanced), and negative batch sizes of it; a batch size of 0 never completes.
- SHA-256: the digest is a parameter, injective where a theorem needs it.
- Logarithms, floating-point rounding, the numpy generator and Cohen's d.
- BatchIndexing.RecoveryEqualsCleanRun: a task that `asyncio.gather` leaves running after the other one failed is assumed to end before the next run starts; one that overlaps the next run could write an older passage of a repeated id last.
- HybridRetrieval.HybridRetriever.Retrieve: each backend returns result objects of its own, each once; `Fuse` itself allows shared and repeated ones.
- KafkaWorker.IndexingConsumer.constructor: the reset policy `latest` and a group that already has committed offsets, because the theorems on whole runs start from empty stores and the whole log.
- The order of ids with equal scores in the weighted merge: the code iterates a set there, so the model allows every order.
- ResultCache.SearchPipeline.Search: rows are values, so aliasing between returned and backend-owned result objects is not captured; metadata holds JSON values only.
- The counters and the semaphore of `warm_cache`: its searches are ordinary searches of the machine.
- The errors of constructing a fuser with an out-of-range weight or constant: such an object never exists, so the constructors require the range.
- Custom fusion callables, `clean_text`, the sentence splitter and the unit `sentences`, score normalisation helpers, `per_query_metrics`, the percentile selection in `_aggregate` and the synthetic results of the evaluation service.
- Saving and loading the FAISS index, back-off sleeps, signal handlers, latency dictionaries, logging, progress bars and metrics export.
