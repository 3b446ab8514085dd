# Verified model of the query engine's core

A Dafny model of the columnar SQL engine, with proofs that its fast or clever parts do what a simple description says
they do. Every part of the engine that changes things step by step is modelled as methods and classes over arrays,
heap nodes and mutable fields; recursive compilers and plan rewrites are functions. Each of them is tied to an
independent meaning: a sorted map, a three-valued row evaluator, the rows of a plan over all the data, the history of a
run.

- **B+tree** (`BTreeSpec`, `BTreeContents`, `BTreeHistory`, `BTreeIndexes`): nodes on the heap, split and spliced in
  place, with a linked chain of leaves. Any sequence of inserts keeps the tree well formed and makes it the sorted map
  of the insertions; searches and ranges read that map.
- **Zone maps** (`ZoneMaps`, `ZonePruner`, `RowEval`, `RowMeaning`, `ZoneSoundness`, `ZoneSkips`): the predicate compiler
  over chunk summaries is sound for the row evaluator, exact for order comparisons and null tests, and for every form of
  predicate the chunks it must skip are stated.
- **Hash tables, LRU cache, Space-Saving counter** (`KeyIdentities`, `KeyDirectory`, `HashProbing`, `HashTables`,
  `LruSpec`, `LruCaches`, `SpaceSaving`): each class refines its abstract value, and histories of any length mean what
  they should.
- **K-way merge** (`RowOrder`, `SortedRows`, `MergeSpec`, `MergeHeap`, `MergeExchanges`): whatever order messages
  arrive in, the output is a sorted arrangement of all rows, or the front of one.
- **Pipeline scheduler** (`PipelineRuns`, `Pipelines`): every run respects dependencies and concurrency, ends as its
  pipelines did, and a deadlock is reported only when the dependencies have a cycle.
- **Query transformations** (`Subqueries`, `SubqueryHoisting`, `Conjuncts`, `JoinKeys`, `JoinLinks`, `Plans`,
  `UniqueKeys`).
- **Distributed plans** (`DistributedPlans`, `DistributedPasses`, `DistributedRows`, `DistributedTop`,
  `DistributedRefinement`, `DistributedRewrites`, `DistributedResults`, `PartialAggregates`). A plan has one meaning over
  data at a site (`Means`), and a distributed plan has runs (`Runs`): the planner places subplans on the workers, an
  exchange gathers what its child yields on every partition when the child is placed there and passes its child through
  when it is not (`src/distributed/planner/distributed-planner.ts:588-641`), and a merge exchange merges any number of
  streams. The main theorem says that every run of a plan that went through the four passes is a meaning of the plan.
- **Result sink, exchange channel** (`ResultSinks`, `ExchangeRouting`, `Exchanges`, `ExchangeReceivers`,
  `ExchangeRuns`): steps between await points, interleaved in any order.
- **Histogram** (`HistogramSpec`, `Histograms`) over exact reals, and **morsels and parallel filters** (`Morsels`,
  `SelectionVectors`, `ParallelFilters`).

`Wrappers`, `Sequences` and `SqlValues` hold what several of them share.

## Findings

Properties the code does not have. Each is stated with an input that shows it and with the exact condition under which
the code does have it.

- **A join key pair may stand for another equality** (`src/execution/join-utils.ts:27-48`). When only one side of an
  equality is found by its qualified name and the other side is found through its bare name, both columns may come from
  the same input: with columns A.X, A.Y and B.Y the condition `A.X = A.Y` becomes the key pair (A.X, B.Y).
  `JoinKeys.StrayIsReached` gives that input, `JoinKeys.StrayPairIsWrong` two rows on which any such pair is wrong, and
  `JoinKeys.PairExact` the condition: a pair stands for its equality on all rows if and only if it is not stray, which
  can be read off the two mappings.
  For a condition of several column equalities `JoinLinks.WholeExact` gives it for the whole: the keys stand for the
  condition on all rows if and only if equalities and pairs connect the same positions.
- **A count that a clause drops comes out as zero** (`src/planner/logical-planner.ts:17-24`, `305-323`). The planner
  replaces a missing value of an ungrouped COUNT by 0 without looking at HAVING, LIMIT and OFFSET, which can leave the
  scalar subquery without a row and its value null. `SubqueryHoisting.DroppedCountIsReached` shows
  `0 = (SELECT COUNT ..)` turning from unknown into true for any count with such a clause.
  `SubqueryHoisting.ScalarExact` gives the condition on a row: the value is kept if and only if the subquery is no count
  or has a row. `SubqueryHoisting.CountExact` gives the one that can be read off the query: it is kept on all rows if and
  only if the subquery is no count or has no HAVING, no LIMIT 0 and no OFFSET.
- **ALL over values of another type may come out inverted** (`src/planner/logical-planner.ts:26-39`, `297-299`). `x op ALL`
  becomes NOT (`x inverse(op) ANY`), but a text that is no number is neither less than a number nor greater or equal
  (`src/execution/value-ops.ts:63-79`), and nothing checks the types (`src/binder/binder.ts:631-635`).
  `SubqueryHoisting.MixedTypesAreReached` shows `text < ALL (numbers)` turning from false into true.
  `SubqueryHoisting.AllExact` gives the condition for any comparison of values: it is right on all lists if and only if
  for each value exactly one of the operator and its inverse holds. `SubqueryHoisting.MixedTypesExact` spells it out for
  the evaluator's: if and only if the operator is `=` or `<>`, or each value has the type of x or reads, as x does, as a
  number.
- **NOT over a negated EXISTS loses one negation** (`src/planner/logical-planner.ts:259-272`). The parser can build it
  below an operator (`src/parser/parser.ts:602-612`). `SubqueryHoisting.LostNegationIsReached` gives an input,
  `SubqueryHoisting.DoubleNegationFlips` says what comes out instead, and `SubqueryHoisting.NotExistsExact` the
  condition: rows and value are kept if and only if the EXISTS is not itself negated.
- **The compound filter fallback skips filters without a kernel**
  (`src/parallel/parallel-dispatch.ts:417-440`). `ParallelFilters.MissingKernelWidens` gives rows that are reported
  although a filter refuses them. `ParallelFilters.FallbackExact` says for any filters, any set of kernels and both
  operators on exactly which data the result is right, `ParallelFilters.FallbackExactOnAll` when it is right on all data;
  a kernel for every filter is enough (`ParallelFilters.FallbackMeets`). Inside the repository nothing calls
  `compoundFilterParallel`, so this concerns direct users of `ParallelDispatch`.

A distributed Limit is right without a condition. Its local copy below the exchange would lose the order of a sorted
input, but the planner places a Sort on the workers only directly below a node that combines, so over a sorted input
the exchange passes through (`DistributedRewrites.LimitRefines`).

## Model

| member | source | states |
|---|---|---|
| BTreeSpec.InsertGood | src/storage/btree.ts:74-136 | an insert into any well-formed subtree, with whatever leaf and inner splits it causes, leaves subtrees with strictly sorted keys, fewer than `order` of them, separators bounding them and uniform depth, and keeps nodes filled |
| BTreeContents.EntriesAscend | src/storage/btree.ts:16-30 | the in-order entries of a well-formed tree are strictly ascending and inside its bounds |
| BTreeContents.InsertIsPut | src/storage/btree.ts:74-102 | the entries after an insert, splits included, are those of the sorted map after putting the location under its key |
| BTreeContents.DescentFinds | src/storage/btree.ts:104-112 | everything stored under a key lies in the child the binary search descends into |
| BTreeHistory.HistoryRecovered | src/storage/btree.ts:64-149 | after any sequence of insertions the map is ascending and holds under every key exactly the locations inserted under it, oldest first |
| BTreeHistory.RangeRecovered | src/storage/btree.ts:151-189 | after any sequence of insertions an interval selects exactly the locations inserted under its keys, as often as inserted, in ascending key order |
| BTreeIndexes.FindIndex | src/storage/btree.ts:54-62 | the binary search of a leaf finds the first key not below the one sought |
| BTreeIndexes.FindChildIndex | src/storage/btree.ts:104-112 | the binary search of an inner node finds the first separator above the key sought |
| BTreeIndexes.SplitLeafNode | src/storage/btree.ts:114-124 | a leaf is cut in half in place, the right half a new node linked behind it, and its first key goes up |
| BTreeIndexes.SplitInnerNode | src/storage/btree.ts:126-136 | an inner node is cut in place around its middle key, which goes up and stays in neither half |
| BTreeIndexes.AdoptSplit | src/storage/btree.ts:86-101 | splicing a separator and a right half into the parent on the heap shows exactly the value-level insert, cutting the parent when full, and keeps the leaf chain |
| BTreeIndexes.InsertInternal | src/storage/btree.ts:74-102 | on the heap the recursive insert leaves one or two trees that are the value-level result, with the chain of leaves running through them and on to where it led |
| BTreeIndexes.MirrorsChain | src/storage/btree.ts:114-124 | following `next` from the first leaf visits exactly the in-order leaves |
| BTreeIndexes.BTreeIndex.Insert | src/storage/btree.ts:64-72 | the index stays valid and its contents are the old ones with the location put under the key |
| BTreeIndexes.BTreeIndex.Search | src/storage/btree.ts:138-149 | returns exactly the locations the contents hold under the key |
| BTreeIndexes.BTreeIndex.Range | src/storage/btree.ts:151-189 | returns exactly the locations of the contents under keys of the interval, in order, for open and closed ends |
| BTreeIndexes.SearchAfter | src/storage/btree.ts:64-149 | on an index built by any insertions a search returns exactly the locations inserted under the key, oldest first |
| BTreeIndexes.RangeAfter | src/storage/btree.ts:64-189 | on an index built by any insertions a range returns exactly the locations inserted within the interval, in ascending key order |
| ZoneMaps.SummarizeColumn | src/storage/zone-map.ts:31-52 | minimum and maximum occur among the active values and bound them all; there is none when all are null; the null flag is exact |
| ZoneMaps.BuildChunkZoneMap | src/storage/zone-map.ts:54-58 | every column of a chunk is summarised over its selected rows |
| ZoneSoundness.AndReached | src/execution/zone-map-pruner.ts:77-85 | the Kleene conjunction of two truth sets holds nothing that no pair of their values yields |
| ZoneSoundness.OrReached | src/execution/zone-map-pruner.ts:87-95 | the Kleene disjunction of two truth sets holds nothing that no pair of their values yields |
| ZoneSoundness.RangeRule | src/execution/zone-map-pruner.ts:97-122 | for each operator the test on the ends of a range allows every outcome a value of the range can have |
| ZoneSoundness.ComparisonSound | src/execution/zone-map-pruner.ts:154-185 | a compiled comparison, flipped or not, admits the value the row evaluator gives |
| ZoneSoundness.BetweenSound | src/execution/zone-map-pruner.ts:204-211 | a compiled BETWEEN or NOT BETWEEN admits the row's value |
| ZoneSoundness.InListSound | src/execution/zone-map-pruner.ts:228-266 | a compiled IN or NOT IN admits the row's value, with nulls in the list and in the column |
| ZoneSoundness.PrefixBounds | src/execution/zone-map-pruner.ts:276-278 | a text with a prefix lies at or above the prefix and below its successor |
| ZoneSoundness.LikeSound | src/execution/zone-map-pruner.ts:268-302 | a compiled LIKE or NOT LIKE admits the row's value |
| ZoneSoundness.CompileSound | src/execution/zone-map-pruner.ts:304-316 | whatever the predicate, its value on any row the zone map accounts for is in the computed truth set |
| ZoneSoundness.SkipIsSafe | src/execution/zone-map-pruner.ts:333-338 | a chunk is only skipped when none of its rows passes a filter on the predicate |
| ZoneSoundness.OrderSkipExact | src/execution/zone-map-pruner.ts:154-185 | for order comparisons with a literal of the column's type a chunk is skipped if and only if no row satisfies the comparison |
| ZoneSoundness.NullSkipExact | src/execution/zone-map-pruner.ts:213-226 | for IS NULL and IS NOT NULL a chunk is skipped if and only if no row satisfies the test |
| ZoneSoundness.EqualitySkip | src/execution/zone-map-pruner.ts:98-101 | equality with a literal skips exactly the chunks whose range leaves the literal out |
| ZoneSkips.UnequalSkip | src/execution/zone-map-pruner.ts:97-122 | inequality skips exactly the chunks of nulls and of the literal alone |
| ZoneSkips.FlippedSkip | src/execution/zone-map-pruner.ts:154-185 | a comparison written the other way round skips the same chunks |
| ZoneSkips.BetweenSkip | src/execution/zone-map-pruner.ts:204-211 | BETWEEN skips exactly the chunks of nulls and those whose range lies outside, NOT BETWEEN those whose range lies inside |
| ZoneSkips.InListSkip | src/execution/zone-map-pruner.ts:228-266 | IN skips exactly the chunks of nulls and those with no list value in their range; NOT IN those the list covers, and all with a null in the list |
| ZoneSkips.LikeSkip | src/execution/zone-map-pruner.ts:268-302 | LIKE skips exactly the chunks of nulls and those whose range has no text with the literal prefix; NOT LIKE only those of nulls |
| ZoneSkips.HeadIsLongest | src/execution/zone-map-pruner.ts:268-274 | the literal prefix is all of the pattern before its first wildcard |
| ZoneSkips.LogicalSkip | src/execution/zone-map-pruner.ts:187-195 | AND skips what either side skips, OR what both skip |
| RowMeaning.LikeExact | src/execution/expression-eval.ts:263-273 | a text matches a pattern if and only if it can be cut into one piece for every unit of the pattern: that unit, one unit for an underscore, any number for a percent sign, none of them a line terminator |
| RowMeaning.TruthTables | src/execution/value-ops.ts:80-90 | with false below unknown below true, AND is the least, OR the greatest, and NOT turns the order round |
| ZonePruner.ScanListLoop | src/execution/zone-map-pruner.ts:241-258 | the loop over an IN list computes whether a member may match and whether one must |
| ZonePruner.LiteralHeadLoop | src/execution/zone-map-pruner.ts:268-274 | the loop finds the part of a pattern before its first wildcard |
| KeyIdentities.IdentityIsSameKey | src/execution/hash-table.ts:18-32 | two values have one identity exactly when they are the same key, whatever their representation |
| KeyIdentities.SameKeyTuple | src/execution/hash-table.ts:211-221 | two rows have one key exactly when they agree column by column |
| KeyIdentities.KeyIdentityText | src/execution/hash-table.ts:57-69 | the loop over the columns builds the text of the key |
| KeyIdentities.KeyTextFaithful | src/execution/hash-table.ts:57-69 | two rows have the same key text if and only if they agree column by column |
| KeyDirectory.FirstSeenOrder | src/execution/hash-table.ts:175-190 | after any rows, two have one number exactly when their keys are equal, and a new key gets the number of keys seen before it |
| KeyDirectory.IdsNeverChange | src/execution/hash-table.ts:175-190 | a number given out stays that key's number however many keys follow |
| HashProbing.ProbeIsComplete | src/execution/hash-table.ts:175-202 | a probe that meets an empty slot has passed every entry with its hash |
| HashProbing.HousedPut | src/execution/hash-table.ts:234-245 | an entry put into the first empty slot of its probe leaves every entry reachable |
| HashProbing.ProbeNotDone | src/execution/hash-table.ts:175-202 | with fewer entries than slots no probe goes all the way round without meeting an empty slot |
| HashTables.OpenAddressingHashTable.FindOrInsert | src/execution/hash-table.ts:175-190 | the table's keys are the old ones, with a new key behind them, the result is the key's number, and the original values of a new key are kept |
| HashTables.OpenAddressingHashTable.Find | src/execution/hash-table.ts:192-202 | returns the key's number, or NO_ENTRY when the key was never inserted |
| HashTables.OpenAddressingHashTable.GrowSlots | src/execution/hash-table.ts:253-264 | rehouses every entry in twice as many slots |
| HashTables.OpenAddressingHashTable.Clear | src/execution/hash-table.ts:204-209 | empties the table and leaves it usable |
| HashTables.OpenAddressingHashTable.KeyAt | src/execution/hash-table.ts:171-173 | the value first seen in that column of the key |
| HashTables.OpenAddressingHashTable.HashAt | src/execution/hash-table.ts:167-169 | the hash of the key with that number, also after growth |
| HashTables.SingleKeyHashTable.FindOrInsert | src/execution/hash-table.ts:115-124 | the same numbering as the open-addressing table for keys of one column |
| HashTables.SingleKeyHashTable.Find | src/execution/hash-table.ts:126-129 | the key's number or NO_ENTRY |
| HashTables.SingleKeyHashTable.Clear | src/execution/hash-table.ts:131-135 | empties the table |
| HashTables.NumberAll | src/execution/hash-table.ts:138-190 | for any sequence of rows the table holds their keys in first-seen order and every row got its key's number |
| HashTables.NumberAllSingle | src/execution/hash-table.ts:91-136 | the same for the single-key table, so both refine one directory |
| LruSpec.RunOrdered | src/utils/lru-cache.ts:62-101 | after any history entries stand in order of last use, hold the last value written and are at most maxSize |
| LruSpec.EvictsLeastRecent | src/utils/lru-cache.ts:54-83 | a write that overflows pushes out exactly the key whose last use is oldest |
| LruSpec.KeepsTheRest | src/utils/lru-cache.ts:69-83 | a write that does not overflow loses no other key |
| LruCaches.LRUCache.Detach | src/utils/lru-cache.ts:21-34 | unlinks one node; the list through the pointers is the old one without it |
| LruCaches.LRUCache.Prepend | src/utils/lru-cache.ts:36-46 | the list through the pointers is the old one with the node in front |
| LruCaches.LRUCache.MoveToHead | src/utils/lru-cache.ts:48-52 | the list through the pointers is the old one with the node moved to the front |
| LruCaches.LRUCache.EvictTail | src/utils/lru-cache.ts:54-60 | drops the last node and its map entry and returns its key, or does nothing on an empty list |
| LruCaches.LRUCache.Get | src/utils/lru-cache.ts:62-67 | returns the value of the key, which becomes the most recent |
| LruCaches.LRUCache.Set | src/utils/lru-cache.ts:69-83 | the key with its new value is the most recent; what is evicted, if anything, is the least recent key |
| LruCaches.LRUCache.Delete | src/utils/lru-cache.ts:89-95 | removes the key and keeps the order of the others |
| LruCaches.LRUCache.Clear | src/utils/lru-cache.ts:97-101 | empties the cache |
| LruCaches.LRUCache.Has | src/utils/lru-cache.ts:85-87 | whether the cache holds the key, without a use of it |
| LruCaches.LRUCache.Size | src/utils/lru-cache.ts:103-105 | the number of entries, never above maxSize |
| LruCaches.RunAll | src/utils/lru-cache.ts:8-106 | the linked list after any sequence of operations stands for the history's entries |
| SpaceSaving.SpaceSavingCounter.Swap | src/catalog/space-saving.ts:57-62 | exchanges two places and keeps values, counts and positions aligned |
| SpaceSaving.SpaceSavingCounter.SiftUp | src/catalog/space-saving.ts:64-72 | restores heap order from a place whose count may be too small, keeping every value's count |
| SpaceSaving.SpaceSavingCounter.SiftDown | src/catalog/space-saving.ts:74-87 | restores heap order from a place whose count may be too big, keeping every value's count |
| SpaceSaving.SpaceSavingCounter.Add | src/catalog/space-saving.ts:25-48 | one more observation keeps heap order, positions, the sum of counts equal to the number observed and the error bound of every value; the value is monitored |
| SpaceSaving.SpaceSavingCounter.EstimateBounds | src/catalog/space-saving.ts:25-48 | for every stream: true count <= count <= true count + least count, an unmonitored value occurs at most the least count times, and the least count times capacity is at most the stream's length |
| SpaceSaving.SpaceSavingCounter.FrequentIsMonitored | src/catalog/space-saving.ts:25-48 | every value occurring more than N / capacity times is monitored |
| SpaceSaving.SpaceSavingCounter.Top | src/catalog/space-saving.ts:50-55 | the k highest monitored counts in descending order, nothing bigger left out |
| SpaceSaving.SpaceSavingCounter.TopIsHeavy | src/catalog/space-saving.ts:50-55 | whatever is not reported occurs at most as often as the least reported count |
| RowOrder.RowLeOrder | src/execution/operators/sort.ts:16-42 | the comparison of rows by any sort keys, directions and null orders is a total preorder |
| RowOrder.EqualRowsAgree | src/execution/operators/sort.ts:21-42 | rows that compare equal have the same key values |
| RowOrder.KeyDecides | src/execution/operators/sort.ts:16-30 | of two values of one type that differ the smaller comes strictly first ascending and strictly last descending; nulls come first exactly when FIRST is asked, or no null order is given and the key is descending |
| RowOrder.FirstDifferenceDecides | src/execution/operators/sort.ts:32-42 | the first sort key on which two rows differ decides which of them comes first |
| RowOrder.SortedExact | src/execution/operators/sort.ts:16-42 | rows are sorted if and only if no row stands behind one that it must precede |
| RowOrder.SortedNumbers | src/execution/operators/sort.ts:16-42 | sorted by one ascending key of numbers, the numbers do not decrease |
| SqlValues.LexFirstDifference | src/execution/operators/sort.ts:21-30 | of two texts the smaller is the proper prefix, or the one with the smaller unit where they first differ |
| SortedRows.SortedPrefixUnique | src/distributed/execution/merge-exchange.ts:72-139 | two sorted prefixes of the same rows agree on the sort keys at every place |
| MergeSpec.TakeRun | src/distributed/execution/merge-exchange.ts:103-133 | moving a run that comes no later than any other stream's head to the output keeps the merge invariant |
| MergeSpec.MergeStopped | src/distributed/execution/merge-exchange.ts:72-139 | wherever a merge stops, its output is the front of a sorted arrangement of all rows |
| MergeHeap.MinHeap.Push | src/distributed/execution/merge-exchange.ts:294-297 | adds one entry and keeps heap order |
| MergeHeap.MinHeap.Pop | src/distributed/execution/merge-exchange.ts:299-308 | removes an entry that comes no later than any other and keeps heap order |
| MergeExchanges.MergeExchangeOperator.HandleChunk | src/distributed/execution/merge-exchange.ts:205-224 | the next message of any one source is buffered behind what it sent before, or ends it |
| MergeExchanges.MergeExchangeOperator.WaitForData | src/distributed/execution/merge-exchange.ts:251-266 | on return the source has data or has ended, whatever else arrived meanwhile |
| MergeExchanges.MergeExchangeOperator.NextEntry | src/distributed/execution/merge-exchange.ts:226-241 | takes the stream's next unread row, dropping chunks read through; loses no row and touches no other stream |
| MergeExchanges.MergeExchangeOperator.ComputeRunLength | src/distributed/execution/merge-exchange.ts:141-154 | a run inside the chunk whose last row comes no later than any head in the heap, and that ends only at the end of the chunk or before a row that comes later than some head |
| MergeExchanges.MergeExchangeOperator.CopyRun | src/distributed/execution/merge-exchange.ts:172-199 | the output grows by exactly the rows of the run; every chunk put out is full |
| MergeExchanges.MergeExchangeOperator.Generate | src/distributed/execution/merge-exchange.ts:72-139 | for any number of sorted streams cut and delivered in any way, the chunks put out are a sorted arrangement of all rows, or with a limit its first min(limit, total) rows, where sorted means what directions and null orders ask for; all chunks but the last are full |
| PipelineRuns.NeverTooMany | src/execution/scheduler.ts:57-63 | at every moment of a run at most `concurrency` pipelines run |
| PipelineRuns.StartsOnce | src/execution/scheduler.ts:57-63 | no pipeline starts twice |
| PipelineRuns.StartsAfterNeeds | src/execution/pipeline.ts:64-89 | a pipeline starts only after everything it depends on has started and finished |
| PipelineRuns.CycleNeverStarts | src/execution/pipeline.ts:51-89 | nothing on a dependency cycle ever starts |
| PipelineRuns.StuckHasCycle | src/execution/scheduler.ts:33-38 | pipelines that each wait for one of themselves contain a cycle |
| Pipelines.PipelineGraph.AddDependency | src/execution/pipeline.ts:51-57 | the pipeline depends on one more, and the ready set and back links follow |
| Pipelines.PipelineGraph.GetReadyPipelines | src/execution/pipeline.ts:64-75 | returns exactly the pipelines that may start, each once |
| Pipelines.PipelineGraph.MarkRunning | src/execution/scheduler.ts:60-61 | starting a pipeline that may start extends the run legally and changes no other state |
| Pipelines.PipelineGraph.MarkPipelineDone | src/execution/pipeline.ts:77-89 | finishing a running pipeline extends the run legally and releases its dependents |
| Pipelines.PipelineGraph.MarkPipelineFailed | src/execution/pipeline.ts:91-96 | failing a running pipeline extends the run legally and changes no other state |
| Pipelines.PipelineGraph.CancelPipeline | src/execution/pipeline.ts:98-106 | cancels that pipeline only if it is pending or running |
| Pipelines.TaskScheduler.StartReadyPipelines | src/execution/scheduler.ts:57-63 | starts until the limit is reached or nothing is startable |
| Pipelines.TaskScheduler.CancelRunning | src/execution/scheduler.ts:65-67 | afterwards nothing runs; what was not running is unchanged |
| Pipelines.TaskScheduler.Schedule | src/execution/scheduler.ts:20-55 | for any set of pipelines that throw: an error ends the run only of one of them, and what completed is not among them; it is cancelled only when the token is, and at once when it was before; not cancelled, it completes with every pipeline done if and only if no pipeline throws and the dependencies have no cycle; a deadlock leaves pending pipelines on a cycle |
| Subqueries.LogicalPlanner.WalkAndReplace | src/planner/logical-planner.ts:331-367 | the recursive walk that pushes joins and counts marks computes the rewriting proved right below |
| Subqueries.LogicalPlanner.ExtractSubqueries | src/planner/logical-planner.ts:237-329 | yields the expression left over, with no subquery in it, and exactly the joins hoisted, in order, one for every subquery |
| Subqueries.WalkHoistsAll | src/planner/logical-planner.ts:237-367 | for every condition the walk reaches, what it leaves holds no subquery, and the joins are for the subqueries of the condition, each once and in order |
| SubqueryHoisting.AllIsNotAny | src/planner/logical-planner.ts:26-39 | x op ALL rows equals NOT (x inverse(op) ANY rows) in three-valued logic, nulls included, when x and the rows have one type or compare one way or the other |
| SubqueryHoisting.AnyMeans | src/execution/operators/nested-loop-join.ts:42-90 | ANY is true when some row compares true, false when all compare false, and unknown otherwise |
| SubqueryHoisting.AllMeans | src/planner/logical-planner.ts:297-299 | ALL is true when all rows compare true, false when some compares false, and unknown otherwise |
| SubqueryHoisting.AllExact | src/planner/logical-planner.ts:26-39 | on all lists of some values it does so if and only if of each value exactly one of the operator and its inverse holds |
| SubqueryHoisting.MixedTypesExact | src/execution/value-ops.ts:63-79 | with the evaluator's comparisons that is if and only if the operator tests equality, or each value has the type of x or reads, as x does, as a number |
| SubqueryHoisting.MixedTypesAreReached | src/binder/binder.ts:631-635 | `text < ALL (numbers)` is false and what is left of it is true |
| SubqueryHoisting.CountRow | src/planner/logical-planner.ts:17-24 | an ungrouped COUNT has a row on every outer row if and only if it has no HAVING, no LIMIT 0 and no OFFSET |
| SubqueryHoisting.ScalarExact | src/planner/logical-planner.ts:305-323 | a scalar subquery keeps its value whatever the join puts into its column if and only if it is no count or has a row |
| SubqueryHoisting.CountExact | src/planner/logical-planner.ts:305-323 | it does so on all outer rows if and only if it is no count or no clause can drop its row |
| SubqueryHoisting.DroppedCountIsReached | src/planner/logical-planner.ts:17-24 | for every count with such a clause there is an outer row on which `0 = (SELECT COUNT ..)` is unknown and what is left of it true |
| SubqueryHoisting.WalkKeepsValue | src/planner/logical-planner.ts:237-367 | outside a conjunction the rewritten expression, which holds no subquery, has over the joined columns the original's three-valued value, the conditions of NotExistsExact, CountExact and AllIsNotAny given |
| SubqueryHoisting.HoistingKeepsRows | src/planner/logical-planner.ts:237-367 | under the same conditions a row survives the hoisted joins and passes what is left of the condition, which holds no subquery, if and only if the condition was true on it |
| SubqueryHoisting.WalkIsFresh | src/planner/logical-planner.ts:237-329 | no two joins add the same column |
| SubqueryHoisting.JoinsCanRun | src/planner/logical-planner.ts:237-329 | for every input the joined columns have values that fit all the joins |
| SubqueryHoisting.DoubleNegationFlips | src/planner/logical-planner.ts:259-272 | NOT over a negated EXISTS comes out with the opposite value |
| SubqueryHoisting.NotExistsExact | src/planner/logical-planner.ts:259-272 | NOT over EXISTS keeps its rows and its value if and only if the EXISTS is not negated |
| SubqueryHoisting.LostNegationIsReached | src/parser/parser.ts:602-612 | for `column = NOT NOT EXISTS (..)` there is an input on which the condition is true and what is left of it false |
| Conjuncts.SplitConjuncts | src/binder/conjuncts.ts:11-25 | the stack loop finds the conjuncts in order |
| Conjuncts.RecombinedValue | src/binder/conjuncts.ts:11-37 | splitting and recombining keeps the three-valued value on every row |
| JoinKeys.ExtractJoinKeys | src/execution/join-utils.ts:83-133 | the loop yields the key pairs and residual that JoinKeysExact is about |
| JoinKeys.CommonKeyMatches | src/execution/join-utils.ts:50-81 | a key common to all branches of an OR matches whenever the condition is true |
| JoinKeys.CommonKeyFound | src/execution/join-utils.ts:50-81 | two branches that start from the same equality of the inputs do give its key, with the whole condition as residual |
| JoinKeys.JoinKeysExact | src/execution/join-utils.ts:83-133 | a condition is true on two rows if and only if all key pairs are non-null and equal and the residual is true, common keys and the constant key included |
| JoinLinks.WholeExact | src/execution/join-utils.ts:83-133 | for a condition of column equalities, stray ones included, the keys stand for the condition on all rows if and only if equalities and pairs connect the same positions |
| JoinLinks.ForcesExact | src/execution/join-utils.ts:83-133 | one set of position equalities implies another on all rows if and only if it connects the other's positions and demands them non-null |
| JoinKeys.PairExact | src/execution/join-utils.ts:27-48 | a pair stands for its equality on all rows if and only if it is not stray |
| JoinKeys.StrayPairIsWrong | src/execution/join-utils.ts:27-48 | every stray pair is wrong on some two rows |
| JoinKeys.StrayIsReached | src/execution/join-utils.ts:27-48 | `A.X = A.Y` with a column Y in the other input gives a stray pair |
| UniqueKeys.TranslateThroughProject | src/optimizer/unique-keys.ts:19-35 | the loop translates keys to the columns they are projected from, or finds that one is computed |
| UniqueKeys.ProjectOutputKeys | src/optimizer/unique-keys.ts:37-48 | the loop collects the output columns of a projection |
| UniqueKeys.UniqueKeysSound | src/optimizer/unique-keys.ts:58-93 | a yes means no two rows of the plan's result agree on the keys, in every database whose primary keys hold |
| UniqueKeys.ScanExact | src/optimizer/unique-keys.ts:62-67 | a scan gets a yes if and only if its rows are unique on the keys whatever the table holds that keeps its declared primary key |
| UniqueKeys.ProjectedColumns | src/optimizer/unique-keys.ts:95-108 | over a projection of plain columns the answer is yes if and only if the input is found unique on the columns shown |
| UniqueKeys.DistinctIsDropped | src/optimizer/unique-keys.ts:58-108 | the answer is yes over columns that include the primary key, or all grouping columns, whatever filters, sorts and limits lie in between |
| UniqueKeys.DistinctRowsSound | src/optimizer/unique-keys.ts:95-108 | a yes means the result has no duplicate row |
| UniqueKeys.DistinctMayGo | src/optimizer/passes/distinct-elimination.ts:32 | dropping DISTINCT after a yes keeps the result |
| DistributedPasses.PassesAreOneRewrite | src/engine/query-engine.ts:794-801 | the four passes one after the other, each bottom-up, build the same plan as one traversal |
| DistributedRefinement.LocalSpreads | src/distributed/optimizer/repartition.ts:41-65 | under the guard of the rewrites, what the partitions yield is together what all the data yields |
| DistributedTop.TopOfTops | src/distributed/optimizer/distributed-sort.ts:32-57 | the first f rows of the first f rows of every sorted part are the first f rows of all |
| DistributedRewrites.DistinctRefines | src/distributed/optimizer/distributed-distinct.ts:15-29 | a local Distinct on every partition, gathered and made distinct, is the Distinct of all the data, whatever exchanges the input holds |
| DistributedRewrites.UnionAllSpreads | src/distributed/optimizer/distributed-setop.ts:21-23 | UNION ALL of inputs partitioned alike may stay on the partitions |
| DistributedRewrites.UnionRefines | src/distributed/optimizer/distributed-setop.ts:15-42 | UNION and UNION ALL rewritten either way yield only what the union may yield |
| DistributedRewrites.MergedSortRefines | src/distributed/optimizer/distributed-sort.ts:16-30 | a merge exchange over local sorts, of whatever streams reach it, is the sorted whole |
| DistributedRewrites.MergedTopNRefines | src/distributed/optimizer/distributed-sort.ts:32-57 | a limit over a merge exchange over local TopNs is the TopN, also when nothing is fetched |
| DistributedRewrites.TopNRefines | src/distributed/optimizer/distributed-limit.ts:22-36 | a TopN over an exchange of local TopNs is the TopN |
| DistributedRewrites.LimitRefines | src/distributed/optimizer/distributed-limit.ts:18-36 | a Limit over an exchange of local Limits yields only what the Limit may yield, order included |
| DistributedRewrites.RewriteRefines | src/distributed/optimizer/distributed-pass.ts:1-32 | rewriting any plan bottom-up is right, and stays right under any node that combines the partitions |
| DistributedRewrites.DistributedIsRight | src/distributed/planner/distributed-planner.ts:588-641 | for every partitioning, whatever a distributed plan yields at the coordinator the plan may yield over all the data |
| DistributedResults.SameRows | src/distributed/optimizer/distributed-setop.ts:15-42 | distributed Distinct, UNION and UNION ALL plans yield the same rows, each as often, as on unpartitioned data |
| DistributedResults.SameTopKeys | src/distributed/optimizer/distributed-sort.ts:32-57 | a distributed TopN and the TopN over all the data have the same length and the same sort keys at every place |
| DistributedResults.LimitDraws | src/distributed/optimizer/distributed-limit.ts:26-36 | a distributed Limit yields min(count, max(0, total - offset)) rows, those that follow the first `offset` rows in some order its input may take |
| DistributedResults.PartsSendFew | src/distributed/optimizer/distributed-limit.ts:18-36 | for a Limit or TopN over partitioned rows no partition sends more than count + offset rows |
| DistributedResults.PartsSendDistinct | src/distributed/optimizer/distributed-distinct.ts:15-29 | for a Distinct over partitioned rows no partition sends a row twice |
| DistributedResults.StreamsComeSorted | src/distributed/optimizer/distributed-sort.ts:16-57 | a Sort or TopN above an exchange becomes a merge on its keys of streams sorted by them, which fetches count + offset rows for a TopN |
| DistributedResults.DistributedRuns | src/distributed/planner/distributed-planner.ts:588-641 | every distributed plan has a run, so the statements about all runs are about something |
| PartialAggregates.FoldAppend | src/execution/operators/hash-aggregate.ts:406-481 | folding two lists one after the other is merging the states of each |
| PartialAggregates.DirectMeans | src/execution/operators/hash-aggregate.ts:406-491 | the direct value, without the accumulators: COUNT counts the non-null values and COUNT(*) all; SUM is null over nulls only and else their sum; AVG times COUNT is that sum; MIN is null over nulls only and else one of the values, none smaller; MAX dually |
| PartialAggregates.FinalIsDirect | src/distributed/optimizer/partial-aggregate.ts:29-114 | final over partial values, arriving in any order, is the direct aggregate over all values, with nulls, all-null and empty lists, and what the aggregate should be by its definition |
| PartialAggregates.GroupReaches | src/distributed/optimizer/partial-aggregate.ts:36-52 | a group reaches the final aggregate if and only if it occurs in the data |
| PartialAggregates.GroupedFinalIsDirect | src/distributed/optimizer/partial-aggregate.ts:29-114 | for every group and every split of the rows, the final value is the value over all the group's rows, and what the aggregate of them should be by its definition |
| PartialAggregates.UngroupedFinalIsDirect | src/distributed/optimizer/partial-aggregate.ts:29-114 | without groups, over any partitions, empty ones and only empty ones included, the final value over their partial rows in any order is the value over all rows, and what the aggregate of them should be by its definition |
| PartialAggregates.FinalExact | src/execution/operators/hash-aggregate.ts:271-283 | why a partial aggregate without groups emits a row over no input: the final value is the direct one if and only if a partial row arrives or the aggregate is not a count |
| ResultSinks.ResultSink.Enqueue | src/execution/result-sink.ts:75-83 | the chunk is the last in the ring and a waiting consumer is woken |
| ResultSinks.ResultSink.Dequeue | src/execution/result-sink.ts:183-196 | the oldest chunk leaves the ring and a suspended producer is woken |
| ResultSinks.ResultSink.Consume | src/execution/result-sink.ts:54-84 | up to its await, consume drops an empty chunk, throws on an error, suspends on a full ring and enqueues otherwise |
| ResultSinks.ResultSink.ConsumeResumed | src/execution/result-sink.ts:72-83 | after its await, consume throws on an error and enqueues its chunk otherwise |
| ResultSinks.ResultSink.Next | src/execution/result-sink.ts:205-217 | next fails on an error, delivers the oldest chunk, ends when done and drained, and waits otherwise |
| ResultSinks.ResultSink.Finalize | src/execution/result-sink.ts:117-126 | nothing more comes and a waiting consumer is woken |
| ResultSinks.ResultSink.Fail | src/execution/result-sink.ts:128-143 | the first error stays and both sides are woken |
| ResultSinks.ResultSink.CancelProducer | src/execution/result-sink.ts:145-153 | the first producer error stays and a suspended producer is woken |
| ResultSinks.ResultSink.NotBothWaiting | src/execution/result-sink.ts:66-83 | producer and consumer never wait for each other |
| ResultSinks.ResultSink.EndedIsDrained | src/execution/result-sink.ts:205-217 | an iteration that ended has delivered every chunk accepted |
| ResultSinks.RunStreaming | src/execution/result-sink.ts:54-219 | under any interleaving of one producer and one consumer, with failure, cancellation or abandonment at any point, a run ends with nobody waiting and delivers a prefix of the non-empty chunks in order; without error or abandonment exactly those chunks |
| ResultSinks.MaterializedResults.CollectChunk | src/execution/result-sink.ts:86-111 | a chunk is kept behind the others, spilled or resident |
| ResultSinks.MaterializedResults.Replay | src/execution/result-sink.ts:167-181 | spilled and then resident chunks come back in the order they were consumed |
| HistogramSpec.CountsAddUp | src/catalog/statistics.ts:345-369 | the bucket counts add up to the sample |
| HistogramSpec.BoundariesAscend | src/catalog/statistics.ts:345-369 | the boundaries ascend and none is below the lower bound |
| HistogramSpec.LinearWithin | src/catalog/statistics.ts:187-208 | inside a bucket the fraction is linear and its range is not empty |
| HistogramSpec.EstimateIsMonotone | src/catalog/statistics.ts:187-208 | the estimate grows with the value asked for |
| HistogramSpec.EstimateIsClose | src/catalog/statistics.ts:187-208 | the estimate is off from the true fraction of the sample by at most the largest bucket's share |
| HistogramSpec.UncountedIsMonotone | src/catalog/statistics.ts:179-185 | without counts the estimate is monotone as well |
| Histograms.BucketOf | src/catalog/statistics.ts:165-173 | the binary search finds the first boundary not below the value |
| Histograms.PrefixSums | src/catalog/statistics.ts:231-239 | every sum is that of the counts before it |
| Histograms.EstimateLessThan | src/catalog/statistics.ts:187-208 | lies in [0, 1] and is the fraction the lemmas above are about, or one half without boundaries or a numeric value |
| Histograms.BuildEquiDepthHistogram | src/catalog/statistics.ts:345-369 | summarises the sorted sample with exact counts and distinct counts per bucket; with four values or more every bucket holds four at least, all but the last the same number and the last less than that plus the number of buckets; there are maxBuckets, or one more would need four values more than there are; fewer than four values make one bucket |
| Histograms.BuiltIsClose | src/catalog/statistics.ts:345-369 | what is built from n values estimates their fractions with an error of at most 7 / n if n is below 4 maxBuckets, and else at most (n / maxBuckets + maxBuckets - 1) / n |
| ExchangeRouting.Routing.SharesConserve | src/distributed/execution/exchange-operator.ts:75-136 | over all targets gather and shuffle give out every row exactly as often as it came in |
| ExchangeRouting.Routing.SameKeysSameTarget | src/distributed/execution/exchange-operator.ts:103-136 | rows with the same keys go to the same target |
| ExchangeRouting.Routing.MeetingExact | src/distributed/execution/exchange-operator.ts:89-136 | rows meet at a target if and only if the hashes of their keys leave the same remainder by partitions and then by targets |
| ExchangeRouting.Routing.NoKeysOneTarget | src/distributed/execution/exchange-operator.ts:103-136 | without keys one target gets every row |
| Exchanges.ExchangeSender.PartitionByKey | src/distributed/execution/exchange-operator.ts:103-136 | the bucket of a target holds exactly its share of the chunk's active rows |
| Exchanges.ExchangeSender.SendShuffle | src/distributed/execution/exchange-operator.ts:89-101 | every target is sent its share of the chunk |
| Exchanges.ExchangeSender.Consume | src/distributed/execution/exchange-operator.ts:48-64 | every target is sent its share under the exchange's kind; nothing after the end or for an empty chunk |
| Exchanges.ExchangeSender.Finalize | src/distributed/execution/exchange-operator.ts:66-73 | every target is sent one end marker behind everything else |
| ExchangeReceivers.ExchangeReceiver.HandleChunk | src/distributed/execution/exchange-operator.ts:209-228 | a data chunk is buffered last, an end marker completes its source, and a waiting generator is woken |
| ExchangeReceivers.ExchangeReceiver.Next | src/distributed/execution/exchange-operator.ts:178-198 | yields the oldest buffered chunk; with none it fails on an error, ends when all sources ended, and waits otherwise |
| ExchangeReceivers.Receive | src/distributed/execution/exchange-operator.ts:178-228 | under any interleaving the generator ends, having yielded every data chunk of every source once and in its order |
| ExchangeReceivers.ReceivedIsSum | src/distributed/execution/exchange-operator.ts:178-228 | every row is received as often as the sources together sent it |
| ExchangeRuns.SendAll | src/distributed/execution/exchange-operator.ts:48-136 | a sender's whole run gives every target its share of the input and then one end marker |
| ExchangeRuns.RunExchange | src/distributed/execution/exchange-operator.ts:19-237 | with any number of senders, one receiver for every target and any interleaving, every target receives its share of every input, and unless it is a broadcast the targets together receive every row exactly as often as it was consumed |
| ExchangeRuns.EveryRowOnce | src/distributed/execution/exchange-operator.ts:19-237 | over all targets of a gather or shuffle every row is received exactly as often as the senders consumed it |
| Morsels.MorselScheduler.Next | src/parallel/morsel-scheduler.ts:30-34 | the k-th call, by whichever worker, gets the morsel at k times the size in 32-bit arithmetic, or nothing |
| Morsels.ExactlyOneMorsel | src/parallel/morsel-scheduler.ts:30-34 | every unit lies in exactly one morsel |
| Morsels.FitsExact | src/parallel/morsel-scheduler.ts:30-41 | all calls of a run get the morsels they should if and only if (morsels + workers - 1) times the size stays below 2^31 |
| Morsels.DrainAll | src/parallel/morsel-scheduler.ts:30-41 | while the counter has that room, under any interleaving of any number of workers the claimed morsels are disjoint, inside the units and cover every unit once |
| SelectionVectors.ShiftedSlice | src/parallel/worker-thread.ts:180-192 | what a worker finds in a slice, moved by the slice's start, is what lies there in the whole |
| SelectionVectors.IntersectMeans | src/parallel/parallel-dispatch.ts:493-502 | the merge of two ascending vectors is ascending and holds exactly what both hold |
| SelectionVectors.UnionMeans | src/parallel/parallel-dispatch.ts:504-515 | the merge of two ascending vectors is ascending and holds exactly what either holds |
| SelectionVectors.MergedIsMatching | src/parallel/worker-thread.ts:249-262 | merging the vectors of filters one by one is the vector of the compound |
| ParallelFilters.WorkerRegion.Alloc | src/parallel/worker-thread.ts:59-67 | hands out the next aligned stretch behind everything allocated, or nothing when it does not fit |
| ParallelFilters.WorkerRegion.RunFilter | src/parallel/worker-thread.ts:128-142 | writes the ascending positions that pass and leaves earlier words alone |
| ParallelFilters.WorkerRegion.IntersectSV | src/parallel/worker-thread.ts:144-159 | writes the intersection of two vectors and leaves earlier words alone |
| ParallelFilters.WorkerRegion.UnionSV | src/parallel/worker-thread.ts:161-178 | writes the union of two vectors and leaves earlier words alone |
| ParallelFilters.WorkerRegion.Shift | src/parallel/worker-thread.ts:186-189 | moves every position by the base index without wrapping |
| ParallelFilters.WorkerRegion.Handle | src/parallel/worker-thread.ts:180-265 | a filter or compound, fused or not, yields exactly the rows of the slice that pass, at their positions in the whole; it fails only in a region too small for the slice, whatever was run there before |
| ParallelFilters.SplitRange | src/parallel/parallel-dispatch.ts:328-341 | the slices lie one behind the other and cover all rows; all but the last are of one size, no more than a morsel and than an even share of the workers; they are no more than workers or morsels |
| ParallelFilters.GatherSelectionVectors | src/parallel/parallel-dispatch.ts:343-358 | the results one behind the other, none lost |
| ParallelFilters.FoundIsWhole | src/parallel/parallel-dispatch.ts:343-358 | the slices' vectors one behind the other are the vector of the whole |
| ParallelFilters.FilterParallel | src/parallel/parallel-dispatch.ts:119-208 | whichever worker takes which slice, the result is that of filtering sequentially, and there is one unless some region is too small |
| ParallelFilters.CompoundFilterFallback | src/parallel/parallel-dispatch.ts:417-440 | the fallback merges the vectors of exactly the filters that have a kernel |
| ParallelFilters.FallbackMeets | src/parallel/parallel-dispatch.ts:417-440 | with a kernel for every filter the fallback is right |
| ParallelFilters.FallbackExact | src/parallel/parallel-dispatch.ts:417-440 | the fallback is right on some data if and only if kept and all filters agree on every row, for any filters, kernels and operator |
| ParallelFilters.FallbackExactOnAll | src/parallel/parallel-dispatch.ts:417-440 | it is right on all data if and only if they agree on every value |
| ParallelFilters.MissingKernelWidens | src/parallel/parallel-dispatch.ts:417-440 | a row refused only by a filter without a kernel is reported |

## Left out

- BTreeIndexes.BTreeIndex.Range: one call; the generator's interleaving with later inserts is not captured.
- BTreeIndexes.BTreeIndex.Search: returns a value; that the source hands out its own array is not captured.
- B+tree keys are reals, standing for any one ordered type; null keys are its least value; the order is at least 2.
- ZoneSoundness.CompileSound: the column resolver is a parameter that agrees with the evaluator; `schemaColumnResolver` and
  materialized columns are not modelled. Numbers are exact and of one type per column, operators spelt in upper case.
- Names of tables and columns are taken as upper-cased already, which the source does on every look-up.
- Hash functions are arbitrary functions of identities, and the Int32 capacity of slot arrays is not modelled.
- HashTables.OpenAddressingHashTable.Find: the probe loop that find and findOrInsert each spell out is one method here.
- MergeExchanges.MergeExchangeOperator.Generate: rows are copied whole, without column buffers and null bitmaps; no
  decode errors, polling or timeouts; data chunks have a row, as the senders see to it; sources are numbered.
- MergeExchanges.MergeExchangeOperator.CopyRun: works on rows where the source copies column by column.
- Pipelines.TaskScheduler.Schedule: pipelines settle in any order, and which of them throw and whether the token is
  cancelled are inputs of the run; parent tokens, the settle timeout and polling of sources are left out, and concurrency
  is at least 1.
- SubqueryHoisting.HoistingKeepsRows: stated under the conditions found exact above: no NOT over a negated EXISTS, no count
  that a clause can drop, and opposed comparisons under ALL. Subqueries inside function arguments and IN lists are not
  hoisted by the source and stay opaque.
- JoinKeys.JoinKeysExact: for conditions without stray pairs; with them WholeExact covers conditions of column equalities,
  not such with other conjuncts. The evaluator's equality is identity of values; names bind as the mappings say.
- UniqueKeys.UniqueKeysSound: assumes distinct output names and that declared primary keys hold.
- DistributedRewrites.DistributedIsRight: joins and aggregates are no nodes of these plans; a partial aggregate enters as
  the exchange above it. The distribution-aware join pass, partition pruning, Sort nodes with a limit of their own,
  INTERSECT and EXCEPT are left out.
- Which worker a shuffled row of an exchange reaches does not matter to these plans: the coordinator gathers all of them.
- PartialAggregates.FinalIsDirect: sums and averages over exact reals; MIN and MAX compare values of one type.
- ResultSinks.ResultSink.Consume: one producer and one consumer; streaming and materialized mode are two classes, and
  whether the memory budget is exceeded is an input.
- ExchangeRuns.RunExchange: the codec round trip is taken as given; a message that fails to decode only occurs in
  `ExchangeReceiver.HandleCorrupt`; nothing arrives after cleanup; sources are numbered.
- Histograms.EstimateLessThan: exact reals; `estimateEqual`, `estimateRange`, frequent values and correlations are left out.
- Histograms.BuildEquiDepthHistogram: the sample is given; reservoir sampling is left out.
- Morsels.DrainAll: what workers do with a morsel beyond the units, once the counter has wrapped around, is left out.
- ZoneSkips.InListSkip: like the other rows of that module for literals of the column's type.
- ParallelFilters.WorkerRegion.Handle: the size called enough for a compound is a bound, not the least; a fused kernel's
  operands are counted in it but not stored. The WASM kernels are filters, a fused kernel computes its compound, and a
  slice ends within Uint32 positions; the region for the data itself is left out.
- ParallelFilters.FilterParallel: aggregates, projections and pipelines over filtered morsels are left out.
- The main thread's sorted merges (`src/parallel/parallel-dispatch.ts:493-515`) are the worker's loops; both are covered by
  the same functions.
- HyperLogLog, cost formulas, the lexer, parser and binder, storage and transport have no comparably hard property.
