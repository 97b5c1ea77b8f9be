# Verification of the hotskew measurement instrument

This project models the part of hotskew that produces its numbers and proves what the audit scripts
and tests assume of it, for every input and every run.

- **Cache cascade** (`Bits`, `Flat`, `CacheSpec`, `CacheModel`, `Lru`, `Hierarchy`, `Cascade`, `Ways`,
  `Tokens`, `Warm`, `Classes`, `WarmRuns`, `Coverage`, `Freshness`, `Statistics`).
  `CacheModel.CacheLevel` is the set-associative level with its tag, stamp, valid and dirty arrays. It
  refines `CacheSpec`, a move-to-front list per set, and every result about runs is proved on that
  list: residency by reuse distance, inclusion in the number of ways, conservation of dirty copies,
  traffic from cold and warm starts, line coverage, freshness of data and what the statistics count.
- **Trackers** (`SummarySpec`, `SpaceSaving`, `ColdTail`, `Accuracy`, `CountMin`, `Selection`,
  `Scoring`, `Trackers`). The indexed heap and the sketch with its CAM: bounds over every stream, the
  exact condition for an exact estimate, and when a score is perfect.
- **Observation** (`Observation`, `PairedObserver`, `CounterSpec`, `CounterTable`, `Summary`,
  `Recorders`). Both recorders carry the stream they saw; their contents are functions of it.
- **Profiler** (`ProfilerSpec`, `ProfilerRuns`, `Agreement`, `RefWindows`, `Audit`, `ColdRuns`,
  `Commutation`, `RunLog`, `Profiler`, `Reports`). `ProfilerSpec` is the state machine of the locked
  callbacks, `Profiler.Profiler` the object that takes its steps with the real structures. `RunLog`
  tells what a run records and where windows end from its references alone, and the other modules
  hold what is true in every reachable state and for every interleaving.
- **Probe** (`ProbeSpec`, `Probe`). Counters and trackers behind the simulator interface.
- **Around the instrument** (`ReplySpec`, `RawReplies`, `ReplyLaws`, `Replies`, `EpochReader`,
  `InducedGraph`, `Placement`, `PlacementLaws`). The load generator's incremental reply parser, the
  chunked reader of raw records, the induced subgraph and the placement study.

An operation that changes state is proved equal to a specification function, and what that function
means is proved separately, in terms that do not use it: a statement over whole streams or runs, an
exact count, or both directions of a condition.

Conventions: a class keeps the source's fields and adds ghost fields for the stream it has seen. Where
a method's contract reads `Contents() == Some(...)`, `Contents` is the meaning of a well-formed object.
`hide` statements keep definitions out of proofs that do not need them. Line numbers are 64-bit byte
addresses shifted right by six; clocks and totals are unbounded, while the 16-bit word counters, the
32-bit set count and the bitwise address arithmetic are written out.

Where code and documentation disagree, the model follows the code. Five such points came out as
theorems, each with an input and the exact condition: the self-test's sizing threshold
(`ColdTail.StatedThresholdAllowsTies`, `ColdTail.TopIsHotSet`), the audit's threefold bound from warm
caches (`WarmRuns.WarmRunsExceedTheBound`, `Warm.WarmTrafficBound`, `WarmRuns.WarmBoundIsMet`), page
counts as sums of word counts (`CounterSpec.WordSumFails`, `CounterSpec.PageIsSumOfWords`), reference
windows of unpaired runs (`RefWindows.WindowStretches`, `RefWindows.ReferenceWindow`) and replies
decided by the bytes held (`RawReplies.BlankBulk`, `RawReplies.BulkSettles`, `RawReplies.McSettles`).

## Model

| member | source | states |
|---|---|---|
| Bits.MaskIsModulo | src/profiler/pintool/cache_model.hpp:105 | masking with a power of two less one is the remainder modulo it, for every word |
| Bits.JoinIsSum | src/profiler/pintool/cache_model.hpp:142 | joining a shifted tag and a set index with bitwise or is their sum, because they share no bits |
| Bits.PowerTest | src/profiler/pintool/cache_model.hpp:68-74 | the test `v & (v - 1)` is zero exactly for the powers of two |
| Bits.PowerTruncates | src/profiler/pintool/cache_model.hpp:75 | a power of two of 2^32 or more becomes zero when kept in 32 bits |
| Bits.Log2 | src/profiler/pintool/cache_model.hpp:72-76 | the shifting loop finds the exponent of every power of two |
| CacheModel.Geometry | src/profiler/pintool/cache_model.hpp:67-76 | accepts exactly the representable geometries; sets, bits and mask belong together; the set count is cut to 32 bits |
| CacheModel.CacheLevel.Init | src/profiler/pintool/cache_model.hpp:67-85 | succeeds exactly for representable geometries; the level then stands for empty lists, unless 2^32 or more sets leave it disabled; a rejection changes associativity and line shift only, and only if the sets alone were at fault |
| CacheModel.GeometryMeans | src/profiler/pintool/cache_model.hpp:67-76 | a geometry is accepted if and only if the size is a power of two of sets of so many ways of lines of a power of two bytes |
| CacheModel.CacheLevel.Access | src/profiler/pintool/cache_model.hpp:99-153 | every access of the arrays is one access of the move-to-front lists with the same outcome, and the three statistics follow the outcome |
| CacheModel.CacheLevel.Lookup | src/profiler/pintool/cache_model.hpp:99-153 | hit and miss paths together are one step of the move-to-front lists |
| CacheModel.CacheLevel.Probe | src/profiler/pintool/cache_model.hpp:110-118 | finds the way holding the line exactly if the list of its set contains it |
| CacheModel.CacheLevel.PickVictim | src/profiler/pintool/cache_model.hpp:123-139 | while the list is short, the first invalid way; otherwise the way of the last entry of the list |
| CacheModel.CacheLevel.Oldest | src/profiler/pintool/cache_model.hpp:133-139 | the scan for the smallest stamp finds the least recently used way |
| CacheModel.CacheLevel.Evicted | src/profiler/pintool/cache_model.hpp:140-144 | a dirty victim is written back under its original line number, reconstructed from tag and set |
| CacheModel.HitStep | src/profiler/pintool/cache_model.hpp:110-118 | restamping a way moves its entry to the front of the list and marks it dirty on a write |
| CacheModel.FillStep | src/profiler/pintool/cache_model.hpp:147-152 | filling a way puts the new line at the front and drops the old entry of that way |
| CacheModel.OldestIsLast | src/profiler/pintool/cache_model.hpp:132-139 | in a full set the smallest stamp belongs to the last entry of the list |
| CacheSpec.Effect | src/profiler/pintool/cache_model.hpp:99-153 | one access keeps the line, loses at most one other, hands that one down exactly if it was dirty, and leaves all other lines as they were |
| Lru.Residency | src/profiler/pintool/cache_model.hpp:99-153 | from cold, a line is held exactly if it was referenced and fewer than `assoc` distinct lines of its set were referenced since |
| Lru.PositionIsReuseDistance | src/profiler/pintool/cache_model.hpp:99-153 | the position of an entry in its list counts the distinct lines of its set referenced after it |
| Lru.TokenBalance | src/profiler/pintool/cache_model.hpp:113-150 | dirty copies plus writebacks of one access balance: a store to a clean or absent line adds one, nothing else does |
| Statistics.StatisticsMean | src/profiler/pintool/cache_model.hpp:113-150 | over any stream hits are the accesses that find their line held, misses all others, and writebacks plus dirty lines are the starting dirty lines plus the stores to lines not dirty yet |
| Statistics.HitsAreShortReuse | src/profiler/pintool/cache_model.hpp:99-153 | from cold the hit statistic counts exactly the accesses whose reuse distance within their set is below the associativity |
| Hierarchy.AccessPrivate | src/profiler/pintool/cache_hierarchy.hpp:12-21 | L1, then the L1 victim into L2, then the demand read of L2, in that order, with the recorded outcomes |
| Hierarchy.AccessShared | src/profiler/pintool/cache_hierarchy.hpp:23-36 | the two outgoing lines in order, then the demand fill; events in the order the recorder is called |
| Hierarchy.VisitL2 | src/profiler/pintool/cache_hierarchy.hpp:17-19 | the dirty L1 victim is written to L2 before the demand read |
| Hierarchy.SendOut | src/profiler/pintool/cache_hierarchy.hpp:26-30 | a line leaving L2 is written to the LLC and may push one dirty line to memory |
| Hierarchy.Demand | src/profiler/pintool/cache_hierarchy.hpp:31-35 | an L2 miss reads the LLC: first the LLC victim if dirty, then the fill if absent |
| Cascade.SharedServes | src/profiler/pintool/cache_hierarchy.hpp:23-36 | the LLC serves a request sequence that depends on private outcomes only |
| Ways.Inclusion | src/profiler/pintool/cache_model.hpp:99-153 | with the same sets, a level with fewer ways holds a part of what one with more ways holds, after every access |
| Ways.MoreWaysLessTraffic | experiments/run_paired.py:89 | from cold caches more LLC ways never raise fills, writebacks or total traffic at any prefix of any run, nor change private states |
| Ways.MoreWaysAddNoFill | experiments/run_paired.py:89 | no single transaction fills a line with more ways that it would not fill with fewer |
| Ways.SweepKeepsSets | experiments/run_paired.py:89 | the sweep of w ways at 4096 w KB is accepted for every w and always has 65536 sets |
| Tokens.Conservation | src/profiler/pintool/cache_hierarchy.hpp:12-36 | memory writes plus dirty copies at all levels of all threads never exceed the copies dirty at the start plus the stores so far |
| Tokens.TxnTokens | src/profiler/pintool/cache_hierarchy.hpp:12-36 | one transaction emits at most four events and at most one fill, and balances dirty copies |
| Tokens.ColdTrafficBound | src/analysis/compare_reproduction.py:46 | from cold caches traffic is at most fills plus stores, hence at most twice the accesses, which implies the audit bound of three |
| Warm.WarmTrafficBound | src/analysis/compare_reproduction.py:46 | from any start, three times the traffic is at most six times the accesses plus twice the dirty copies; hence at most three times the accesses whenever twice the dirty copies are at most 3 n + 2 |
| Warm.RunCredits | src/profiler/pintool/cache_hierarchy.hpp:12-36 | over any run, a potential of the dirty copies pays three for every writeback and earns three an access |
| Warm.TxnCredits | src/profiler/pintool/cache_hierarchy.hpp:12-36 | one transaction pays for its writebacks to memory out of three credits and the potential |
| WarmRuns.WarmRunsExceedTheBound | src/analysis/compare_reproduction.py:46 | the audit bound of three fails on warm starts, and the warm bound is met with equality: for every n a run from cold caches leaves 3 n dirty copies and the next n accesses make 4 n events |
| WarmRuns.WarmBoundIsMet | src/analysis/compare_reproduction.py:46 | the warm condition is exact: for every n a run from cold caches leaves the least number of dirty copies beyond it and the next n accesses make 3 n + 1 events |
| Classes.RunInPart | src/profiler/pintool/cache_model.hpp:99-105 | a run within one residue class of lines acts on the sets of that class as on a hierarchy of its own, event for event, and leaves the other classes alone |
| Classes.AccessInPart | src/profiler/pintool/cache_model.hpp:99-153 | one access of a level is one access of the class of its line, the lines numbered within the class |
| WarmRuns.StepIsSmall | src/profiler/pintool/cache_hierarchy.hpp:12-36 | over a two-way L1 set and one-way sets below it the transaction computed copy by copy reaches the same state with as many events |
| Classes.PlayedEverywhere | src/profiler/pintool/cache_model.hpp:99-105 | the classes take their turns independently, whatever each one plays |
| Coverage.LinesOfRun | src/profiler/pintool/cache_hierarchy.hpp:12-36 | over any run every fill is of an accessed line, every accessed line that was not warm is filled, no other line appears in the traffic |
| Coverage.ColdLineSetsAgree | src/analysis/audit_results.py:41-43 | from cold caches the line sets of accesses, fills and traffic of any run with any number of threads are the same |
| Coverage.StepIn | src/profiler/pintool/cache_hierarchy.hpp:12-36 | cached lines were accessed before, so the first touch of a line misses every level and fills it |
| Freshness.DemandIsFresh | src/profiler/pintool/cache_hierarchy.hpp:12-36 | with one thread every demand access obtains the version last stored to its line |
| Freshness.RunKeeps | src/profiler/pintool/cache_hierarchy.hpp:12-36 | what the top level sees of any line is its last stored version after every transaction, from any coherent start |
| Freshness.TransactKeeps | src/profiler/pintool/cache_hierarchy.hpp:12-36 | one transaction keeps all versions, also when the L1 victim pushes the demanded line out of L2 |
| Freshness.SharedKeeps | src/profiler/pintool/cache_hierarchy.hpp:23-36 | the order eviction, demand eviction, fill leaves memory and LLC consistent |
| Freshness.DataFollowsTags | src/profiler/pintool/cache_hierarchy.hpp:12-36 | the data movement ends with the LLC of the tag model, and writes memory at exactly the lines of the emitted writebacks |
| SpaceSaving.SpaceSaving.Access | src/profiler/pintool/tracker.hpp:78-104 | every access is a step of the abstract algorithm; heap order and index are restored by one sift; evictions count exactly the replacements |
| SpaceSaving.SpaceSaving.SiftUp | src/profiler/pintool/tracker.hpp:144-151 | from a heap but for one slot too small, restores the heap and keeps the table |
| SpaceSaving.SpaceSaving.SiftDown | src/profiler/pintool/tracker.hpp:153-162 | from a heap but for one slot too large, restores the heap and keeps the table |
| SpaceSaving.SpaceSaving.SwapAt | src/profiler/pintool/tracker.hpp:138-142 | exchanges two slots and keeps the key index exact |
| SpaceSaving.SpaceSaving.Increment | src/profiler/pintool/tracker.hpp:80-84 | adds one to a tracked key and nothing else |
| SpaceSaving.SpaceSaving.Insert | src/profiler/pintool/tracker.hpp:85-94 | adds a key with count one and no error |
| SpaceSaving.SpaceSaving.Evict | src/profiler/pintool/tracker.hpp:95-103 | replaces a key of minimum count; the new key starts at that count plus one with that count as its error |
| SpaceSaving.SpaceSaving.TopK | src/profiler/pintool/tracker.hpp:107-116 | distinct keys, best first, forming a maximal selection of k |
| SpaceSaving.SpaceSaving.Contains | src/profiler/pintool/tracker.hpp:118 | tells whether a key is tracked, and says yes for every key above n / N |
| SpaceSaving.SpaceSaving.Reset | src/profiler/pintool/tracker.hpp:72-76 | forgets everything |
| SpaceSaving.RootIsMin | src/profiler/pintool/tracker.hpp:55-57 | the root of the heap is a minimum |
| SpaceSaving.UpStep | src/profiler/pintool/tracker.hpp:144-151 | moving a slot up past a larger parent leaves a heap but for the parent position |
| SpaceSaving.DownStep | src/profiler/pintool/tracker.hpp:153-162 | moving a slot down to its smaller child leaves a heap but for the child position |
| SummarySpec.RunBounds | src/profiler/pintool/tracker.hpp:50-53 | after any stream: counts sum to n, tracked keys satisfy count - error <= true <= count, errors and untracked keys are at most the minimum |
| SummarySpec.HeavyHitters | src/profiler/pintool/tracker.hpp:50-53 | every key occurring more than n / N times is tracked and no error exceeds n / N, however ties are broken |
| SummarySpec.RoomyRun | src/profiler/pintool/tracker.hpp:78-94 | with a slot for every key of the stream the table holds exactly those keys, with their true counts and no error |
| SummarySpec.FreqIsMultiplicity | src/profiler/pintool/tracker.hpp:50-53 | the true count of a key is its multiplicity in the stream |
| SummarySpec.BoundsStep | src/profiler/pintool/tracker.hpp:78-104 | one access keeps all bounds |
| ColdTail.HotKeysSurvive | src/sim/standalone_driver.cpp:18-22 | if N > h and the tail is at most (N - h) c long, every hot key keeps its slot with count c and error 0 |
| ColdTail.HotKeysAreLost | src/sim/standalone_driver.cpp:18-28 | beyond a tail of (N - h)(c + 1) some hot key is lost, and once hot and tail accesses exceed c + (N - 1)(c + 1) all are, however ties are broken |
| ColdTail.SelfTestFigures | src/sim/standalone_driver.cpp:18-28 | with 64 hot pages of 400 hits and a tail of 100000, 256 entries hold no hot page and 512 recover exactly the hot set |
| ColdTail.TopIsHotSet | src/sim/standalone_driver.cpp:18-28 | every maximal selection of h keys is the hot set exactly if the tail is at most (N - h)(c - 1) long |
| ColdTail.StatedThresholdAllowsTies | src/sim/standalone_driver.cpp:22-28 | the documented threshold does not exclude ties: at a concrete setting another selection is also maximal |
| CountMin.CountMinTopK.Access | src/profiler/pintool/tracker.hpp:219-234 | counts the key in every row; when due every cached estimate becomes current; then the key is offered to the CAM, which keeps it unless full of entries at least as good, and holds all keys of the stream as long as it is not full |
| CountMin.OfferIsDetermined | src/profiler/pintool/tracker.hpp:302-324 | which CAM entry is refreshed, filled or replaced, and with what, is fully determined |
| CountMin.CountMinTopK.Bump | src/profiler/pintool/tracker.hpp:220-226 | one counter per row is raised; the result is the current estimate, which is the least of them (EstimateIsLowest) |
| CountMin.CountMinTopK.Read | src/profiler/pintool/tracker.hpp:293-300 | the result is the current estimate, the least of the key's counters (EstimateIsLowest) |
| CountMin.CountMinTopK.RefreshCam | src/profiler/pintool/tracker.hpp:289-291 | every cached estimate becomes current, no key changes |
| CountMin.CountMinTopK.OfferToCam | src/profiler/pintool/tracker.hpp:302-324 | refreshes the entry of a cached key, fills a free one, or lets the lowest cached entry, re-read, yield to a better estimate |
| CountMin.CountMinTopK.Challenge | src/profiler/pintool/tracker.hpp:314-323 | the first entry of lowest cached estimate is re-read and replaced exactly if the new estimate is higher |
| CountMin.CountMinTopK.TopK | src/profiler/pintool/tracker.hpp:236-245 | distinct CAM keys in descending current, not cached, estimate, forming a maximal selection |
| CountMin.CountMinTopK.Reset | src/profiler/pintool/tracker.hpp:213-217 | zeroes the sketch and empties the CAM |
| CountMin.NeverUnder | src/profiler/pintool/tracker.hpp:172-174 | an estimate is never below the true count, for any hash |
| CountMin.EstimateIsLowest | src/profiler/pintool/tracker.hpp:220-226 | an estimate is at most the key's counter in every row and equal to it in some row |
| CountMin.HitsCount | src/profiler/pintool/tracker.hpp:220-223 | a counter is the number of accesses whose key its row maps to it |
| CountMin.CellIsExact | src/profiler/pintool/tracker.hpp:220-223 | a key's counter in a row is its true count if and only if no other key of the stream shares it |
| CountMin.EstimateIsExact | src/profiler/pintool/tracker.hpp:172-174 | an estimate is the true count if and only if in some row no other key of the stream shares the key's counter |
| CountMin.OfferMeans | src/profiler/pintool/tracker.hpp:302-324 | a held key stays, a new one takes a free entry, and in a full CAM the first key of lowest cached estimate yields exactly if its current estimate is lower than the new one's |
| CountMin.OfferKeeps | src/profiler/pintool/tracker.hpp:302-324 | the CAM holds keys of the stream only, and all of them unless it is full |
| CountMin.KeepsAll | src/profiler/pintool/tracker.hpp:302-313 | a CAM with room for every key of the stream holds them all |
| CountMin.RowSumsToStream | src/profiler/pintool/tracker.hpp:219-226 | the counters of every row add up to the length of the stream |
| CountMin.CountMinTopK.RowsSumToStream | src/profiler/pintool/tracker.hpp:219-226 | every row of the object's sketch adds up to the accesses since the last reset |
| CountMin.EstimateGrows | src/profiler/pintool/tracker.hpp:219-226 | counting another key never lowers an estimate |
| CountMin.OfferKeepsWeight | src/profiler/pintool/tracker.hpp:302-324 | no way of updating the CAM that the code takes lowers the held total |
| Selection.PartialSort | src/profiler/pintool/tracker.hpp:113 | stands for the library sort: a permutation with the n best scores first in descending order |
| Selection.TopIsBest | src/profiler/pintool/tracker.hpp:334-343 | no set of at most k keys outscores a maximal selection of k |
| Selection.TopExists | src/profiler/pintool/tracker.hpp:334-343 | a maximal selection always exists |
| Scoring.ScoreTopK | src/profiler/pintool/tracker.hpp:353-382 | ideal is the sum of every maximal selection, picked the exact sum of the first k picks, hits the number of those picks that fewer than k keys exceed; picked <= ideal for distinct picks, and a perfect pick has all hits |
| Scoring.PicksWithinIdeal | src/profiler/pintool/tracker.hpp:334-343 | whatever is picked without repetition never exceeds the ideal |
| Scoring.HitsAreBest | src/profiler/pintool/tracker.hpp:374-380 | the picks that reach the k-th count are those that fewer than k keys exceed |
| Scoring.TopHits | src/profiler/pintool/tracker.hpp:374-380 | all picks of a maximal selection are hits |
| Scoring.ReachesThreshold | src/profiler/pintool/tracker.hpp:363-372 | a count reaches the n-th largest if and only if fewer than n keys exceed it |
| Accuracy.AccuracyOfRun | src/profiler/pintool/tracker.hpp:332-343 | N times the ideal count is at most N times the picked count plus k times n, for every stream and tie-break |
| Accuracy.PicksNearIdeal | src/profiler/pintool/tracker.hpp:50-53 | picking by counts loses at most the minimum count per pick |
| Trackers.RoomyIsPerfect | src/profiler/pintool/tracker.hpp:353-382 | a Space-Saving table with a slot for every key, or a sketch with an entry and an uncollided row for every key, scores the ideal sum and hits with every pick |
| PairedObserver.PairedObserver.Record | src/profiler/pintool/paired_observer.hpp:17-23 | adds one mark to the window and to the run; masks and event counts are those of the marks |
| PairedObserver.PairedObserver.Empty | src/profiler/pintool/paired_observer.hpp:24 | true exactly if nothing was marked in the window |
| PairedObserver.PairedObserver.EndEpoch | src/profiler/pintool/paired_observer.hpp:47-57 | reports the histogram and events of the window's marks, pools them and starts an empty window |
| PairedObserver.PairedObserver.Finish | src/profiler/pintool/paired_observer.hpp:58-63 | reports the pooled histograms of all closed windows, and histogram and events of all marks of the run |
| PairedObserver.PairedObserver.constructor | src/profiler/pintool/paired_observer.hpp:14-16 | starts with nothing seen |
| PairedObserver.Histograms | src/profiler/pintool/paired_observer.hpp:25-35 | every bin of every stream and population counts exactly its pages |
| PairedObserver.CountPage | src/profiler/pintool/paired_observer.hpp:27-33 | one page adds one to exactly the bins it belongs to |
| PairedObserver.Pool | src/profiler/pintool/paired_observer.hpp:51-53 | the pooled bins are the sums of the windows' bins |
| Observation.BitMeaning | src/profiler/pintool/paired_observer.hpp:17-20 | a mask bit is set exactly if its line was recorded on that stream |
| Observation.HistTotal | src/profiler/pintool/paired_observer.hpp:25-35 | the 65 bins of a histogram together count its population once |
| Observation.HistMeans | src/profiler/pintool/paired_observer.hpp:25-35 | bin n of a stream on a population counts the pages with n distinct lines marked on that stream that have any mark on the population's own stream |
| Observation.MaskIs | src/profiler/pintool/paired_observer.hpp:17-20 | the mask of a page on a stream is the set of its lines marked on it |
| Observation.EventsCount | src/profiler/pintool/paired_observer.hpp:21-22 | an event count is the number of marks on its stream |
| Observation.AccessCdfBelowFillCdf | src/analysis/audit_results.py:37-40 | if filled lines were accessed, the access CDF on fill-touched pages is nowhere above the fill CDF and both count the same pages |
| Observation.PooledAccessBelowFill | src/analysis/audit_results.py:37-40 | the same for the pooled histograms of any number of windows |
| Observation.WholeAtMostPooled | src/analysis/audit_results.py:26 | whole-run pages never outnumber pooled pages |
| Observation.WholeIsUnion | src/profiler/pintool/paired_observer.hpp:17-20 | the whole-run masks are the union of the windows' masks |
| CounterTable.CounterTable.Record | src/profiler/pintool/counter_table.hpp:71-94 | adds one access; all page records, the total and the saturation count are functions of the recorded stream |
| CounterTable.CounterTable.Find | src/profiler/pintool/counter_table.hpp:75-80 | the one-entry cache never changes which region is found |
| CounterTable.CounterTable.LookupRegion | src/profiler/pintool/counter_table.hpp:127-135 | finds the region or adds a zeroed one, sharing no array |
| CounterTable.CounterTable.Count | src/profiler/pintool/counter_table.hpp:85-93 | one record changes by one access; a saturated word is left and counted |
| CounterTable.CounterTable.TouchedPageList | src/profiler/pintool/counter_table.hpp:98-108 | visits every touched page exactly once with its record |
| CounterTable.CounterTable.ResetCounters | src/profiler/pintool/counter_table.hpp:113-119 | zeroes everything but keeps the regions |
| CounterTable.CounterTable.TotalAccesses | src/profiler/pintool/counter_table.hpp:121 | the length of the recorded stream |
| CounterSpec.AddressParts | src/profiler/pintool/counter_table.hpp:72-83 | the shifts and masks of the byte address recover region, page and word of the line |
| CounterSpec.RecordedIn | src/profiler/pintool/counter_table.hpp:71-94 | counting one more access changes one record of its region |
| CounterSpec.MaskIsTouched | src/profiler/pintool/counter_table.hpp:104 | a page's mask is empty exactly if no access went to it |
| CounterSpec.VisitsCoverStream | src/profiler/pintool/counter_table.hpp:98-108 | the visited pages account for every access once |
| CounterSpec.PageIsSumOfWords | src/profiler/pintool/counter_table.hpp:12-14 | a page's count is the sum of its words exactly if no word was accessed more often than its 16 bits hold |
| CounterSpec.WordSumFails | src/profiler/pintool/counter_table.hpp:12-14 | 65536 accesses to one line make a page whose count is not the sum of its words |
| CounterSpec.SaturationStep | src/profiler/pintool/counter_table.hpp:86-90 | a saturation is counted exactly for accesses to a word already at its maximum |
| CounterSpec.CountsMean | src/profiler/pintool/counter_table.hpp:84-91 | word and page counts are the numbers of recorded accesses to the line, and to the page in one direction |
| CounterSpec.RecordMeans | src/profiler/pintool/counter_table.hpp:84-91 | a page record: its reads, its writes, every word's accesses up to 65535, and a mask of the words with any |
| Profiler.Profiler.Reference | src/profiler/pintool/hotskew.cpp:316-338 | the locked part of one reference is one step of the state machine |
| Profiler.Profiler.AnalyzeLine | src/profiler/pintool/hotskew.cpp:308-339 | with the private part inside the lock, caches and shared state of a thread make one step together |
| ProfilerSpec.AnyThread | src/profiler/pintool/hotskew.cpp:308-331 | a reference does to any thread of any machine what it does to that thread alone, and nothing to the others |
| Profiler.Profiler.AnalyzeMemRef | src/profiler/pintool/hotskew.cpp:301-340 | every line an operand touches (TouchedLines) is one step, in ascending order; an operand that wraps the address space is none |
| ProfilerSpec.TouchedLines | src/profiler/pintool/hotskew.cpp:301-308 | an operand inside the address space references exactly the lines that some byte of it lies in, each once, in ascending order and with its type; one that wraps references none |
| Profiler.Profiler.FinishEpoch | src/profiler/pintool/hotskew.cpp:399-590 | closes the window unless nothing was recorded; the summary histogram and total follow |
| Profiler.Profiler.CountBbl | src/profiler/pintool/hotskew.cpp:343-386 | phase changes, the length limit and the instruction window as the state machine has them |
| Profiler.Profiler.RoiEnter | src/profiler/pintool/hotskew.cpp:634-642 | enables recording and restarts the instruction window |
| Profiler.Profiler.RoiExit | src/profiler/pintool/hotskew.cpp:644-656 | one step of the machine: recording is disabled and, with windows per visit, a window that recorded something is closed (ExitCloses) |
| Profiler.Profiler.Fini | src/profiler/pintool/hotskew.cpp:836-850 | one step of the machine, which closes the last window (ControlWindows) |
| Profiler.Profiler.Callback | src/profiler/pintool/hotskew.cpp:301-386 | any callback of a run with one thread is one step of the machine |
| Profiler.Profiler.constructor | src/profiler/pintool/hotskew.cpp:925-929 | starts in the phase the targets call for with nothing recorded |
| Profiler.Profiler.RecordAll | src/profiler/pintool/hotskew.cpp:332-334 | records the events of a transaction, writebacks only if they are counted |
| Recorders.RecordDram | src/profiler/pintool/hotskew.cpp:265-271 | a fill is a fill and traffic, a writeback traffic only, and both reach the counters |
| Recorders.RecordEvents | src/profiler/pintool/hotskew.cpp:332-334 | the callback leaves in both recorders exactly the kept events in order |
| Summary.AddPages | src/profiler/pintool/hotskew.cpp:418-426 | each page goes to the bin of its unique words, and the page totals add up to the stream |
| ProfilerRuns.RunKeeps | src/profiler/pintool/hotskew.cpp:301-590 | in every reachable state both recorders of every window match, clocks have not overrun and epoch ids count windows |
| ProfilerRuns.MatchingStep | src/profiler/pintool/hotskew.cpp:265-271 | one recorded reference keeps the recorders matched and fills only its own, accessed line |
| ProfilerRuns.EmittedShape | src/profiler/pintool/cache_hierarchy.hpp:23-36 | one transaction emits at most four events and fills only its own line |
| ProfilerRuns.PhasesInOrder | src/profiler/pintool/hotskew.cpp:343-386 | phases advance in order, nothing is recorded before the profile phase, and its instruction limits hold throughout |
| ProfilerRuns.PhasesFromStart | src/profiler/pintool/hotskew.cpp:343-386 | from program start every moment of a run keeps the instruction bounds of its phase, and no later moment is in an earlier phase |
| ProfilerRuns.ControlKeeps | src/profiler/pintool/hotskew.cpp:343-386 | every other callback keeps the invariant, and the last one leaves nothing open |
| RunLog.DramsOfRun | src/profiler/pintool/hotskew.cpp:316-338 | over any run exactly the references of the profile phase inside the region are counted, and the recorded DRAM accesses are those the cascade makes of them, in order, or without caches one access of each line in its direction |
| RunLog.MarksOfRun | src/profiler/pintool/hotskew.cpp:319-334 | over any paired run the access stream is the recorded references, the fill stream the reads among the recorded DRAM accesses, the traffic stream all of them |
| RunLog.CachesOfRun | src/profiler/pintool/hotskew.cpp:309-331 | over any run the caches serve every reference until the end of profiling, recorded or not |
| RunLog.KeptMeans | src/profiler/pintool/hotskew.cpp:332-334 | every fill is kept, every writeback exactly if writebacks are counted, each as often as it occurs |
| RunLog.ReferenceWindows | src/profiler/pintool/hotskew.cpp:319-338 | a reference outside the region leaves the windows alone; one inside extends the open window and closes it exactly if a clock is due and something was recorded |
| RunLog.ControlWindows | src/profiler/pintool/hotskew.cpp:343-386 | any other callback closes the open window exactly if something was recorded in it and the callback closes windows; otherwise it leaves all windows alone |
| RunLog.ExitCloses | src/profiler/pintool/hotskew.cpp:644-656 | with windows per visit, leaving the region adds exactly what was recorded to the closed windows and leaves nothing open |
| RunLog.RoiOfRun | src/profiler/pintool/hotskew.cpp:634-656 | over any run recording is enabled as the last marker left it |
| RunLog.RetireMoves | src/profiler/pintool/hotskew.cpp:343-386 | retiring instructions changes the phase exactly when its target is reached, and restarts the clocks exactly then |
| RunLog.EndsOnTime | src/profiler/pintool/hotskew.cpp:357-372 | over any run profiling ends only after the full length of the profile phase or the last window |
| Agreement.RecordersAgree | src/analysis/audit_results.py:30-40 | in every reachable state of a paired run: traffic masks equal the counters', pooled equals summary histogram, events add up to totals, CDFs are ordered |
| Agreement.MasksAgree | src/profiler/pintool/counter_table.hpp:71-119 | the traffic mask of every page is the counter table's touched mask |
| Agreement.PooledIsSummary | src/analysis/audit_results.py:36 | the pooled own-traffic histogram is the summary's unique-word histogram |
| Agreement.TrafficTotal | src/analysis/audit_results.py:35 | the traffic events of all windows are the DRAM accesses of the summary |
| Reports.ReportsAgree | src/analysis/audit_results.py:30-40 | after any run of the profiler object from its constructor, its pooled array, unique-word array, event counters and totals satisfy the equations and the order of the audit |
| Reports.Session | src/analysis/audit_results.py:30-40 | a session that builds the profiler and delivers any callbacks of one thread ends in the state of the machine, with arrays that satisfy the audit |
| Reports.StateAgrees | src/analysis/audit_results.py:30-40 | the same equations in the reached state of the machine |
| Reports.ArraysMean | src/analysis/audit_results.py:30-40 | what the fields and arrays of a well-formed profiler hold |
| Audit.AuditedTraffic | src/analysis/compare_reproduction.py:45-47 | recorded traffic against recorded accesses when every reference is recorded: at most twice from cold caches, at most three times if twice the starting dirty copies are at most 3 n + 2 |
| Audit.TrafficOfRun | src/analysis/compare_reproduction.py:45-47 | recorded traffic is at most twice the recorded references plus starting dirty copies plus unrecorded stores, over every run |
| Audit.MarksAreRecorded | src/analysis/audit_results.py:35 | in every reachable state the traffic events are the recorded DRAM accesses and the fills are among them |
| Agreement.RefsAreAccesses | src/analysis/audit_results.py:34 | the access events are the profiled references |
| Agreement.FillsWereAccessed | src/profiler/pintool/hotskew.cpp:319-334 | in every window each filled line was also accessed |
| Agreement.WholeWithinPooled | src/analysis/audit_results.py:26 | after the closing step whole-run pages never outnumber pooled ones |
| Agreement.ClosedOnTime | src/profiler/pintool/hotskew.cpp:335-337 | a window closed by event clock E holds E to E + 3 events, by reference clock R exactly R references if paired; other closings come earlier |
| RefWindows.ReferenceWindow | src/profiler/pintool/hotskew.cpp:335-337 | in any run an unpaired window closed by the clock of R references holds exactly R if and only if something reached DRAM among its first R; otherwise only its last reference did |
| RefWindows.WindowStretches | src/profiler/pintool/hotskew.cpp:335-337 | from cold caches, for every R and every k, some run closes a window of R + k references |
| Agreement.LimitIsFinal | src/profiler/pintool/hotskew.cpp:586-589 | once the epoch limit is reached nothing is recorded or closed again |
| ColdRuns.LineSetsOfRun | src/analysis/audit_results.py:41-43 | a run that records all it serves fills every accessed line that was not warm, and transfers only lines warm or accessed |
| ColdRuns.ColdHistogramsAgree | src/analysis/audit_results.py:41-43 | from cold caches the whole-run histograms of accesses, fills and traffic are equal |
| Commutation.WorkAheadIsInvisible | src/profiler/pintool/hotskew.cpp:309-331 | for every interleaving, private work done ahead of the lock leaves shared state, windows and clocks as if done inside it |
| Commutation.OnlyLockOrderMatters | src/profiler/pintool/hotskew.cpp:314-316 | interleavings with the same lock order are indistinguishable |
| Commutation.ThreadOrderKept | src/profiler/pintool/hotskew.cpp:308-315 | what a thread has committed, then what it has waiting, is what it computed, in order |
| ColdRuns.DoneStays | src/profiler/pintool/hotskew.cpp:318 | no step leaves the final phase |
| Probe.Probe.OnLine | src/sim/hotskew_probe.hpp:142-158 | one request reaches counters and all trackers; the epoch closes after every n requests |
| Probe.Probe.OnRequest | src/sim/hotskew_probe.hpp:134-140 | a request of several bytes is one request per line it touches; one that wraps the address space is none |
| Probe.RequestedLines | src/sim/hotskew_probe.hpp:134-140 | a request inside the address space is one event for exactly the lines that some byte of it lies in, each once, in ascending order and of its kind; one that wraps is none |
| Probe.Probe.EndEpoch | src/sim/hotskew_probe.hpp:163-216 | an epoch with requests is reported and everything reset; an empty one is not |
| Probe.Probe.Measure | src/sim/hotskew_probe.hpp:163-207 | pages, accesses, unique words and histogram are those of the requests; every tracker is scored within the ideal |
| Probe.Probe.Note | src/sim/hotskew_probe.hpp:142-156 | trackers see exactly the page and line streams that the counters count |
| Probe.Probe.constructor | src/sim/hotskew_probe.hpp:106-131 | takes its trackers and settings and starts with nothing seen by counters or trackers |
| Probe.BuildTrackers | src/sim/hotskew_probe.hpp:106-131 | two trackers a budget, 512 if none is given, with the slots or the sketch width the budget allows, sharing nothing and empty |
| Probe.Probe.ScoresAreAccurate | src/sim/hotskew_probe.hpp:186-200 | in every report page trackers of N slots fall short of the ideal by at most k n / N, and word trackers too unless a word counter overflowed |
| Probe.EpochsPartitionRequests | src/sim/hotskew_probe.hpp:158 | no request is lost or counted twice, and automatic epochs hold exactly n requests |
| Probe.ClosedEpochsAreNotEmpty | src/sim/hotskew_probe.hpp:163-167 | no epoch without requests is closed, and closing loses none and leaves none open |
| Probe.Probe.RoomyScoresArePerfect | src/sim/hotskew_probe.hpp:182-200 | in every report a tracker that can tell all keys of the epoch apart collects the ideal sum and hits with every pick, a word tracker unless a word counter overflowed |
| Probe.SizedWithinBudget | src/sim/hotskew_probe.hpp:106-128 | a tracker spends its budget: as many slots, or rows so wide that one more cell in each would overdraw it, and at least one cell |
| Probe.FeedAll | src/sim/hotskew_probe.hpp:147-156 | every tracker of a list sees the key once |
| Trackers.Feed | src/sim/hotskew_probe.hpp:149-155 | either kind of tracker appends the key to what it has seen |
| Trackers.Pick | src/profiler/pintool/tracker.hpp:107-116 | at most k distinct keys; for Space-Saving a maximal selection of some run over the stream |
| Trackers.ScoreTracker | src/sim/hotskew_probe.hpp:186-200 | the score never exceeds the ideal; Space-Saving with N slots falls short by at most k n / N |
| ProbeSpec.BuildPages | src/sim/hotskew_probe.hpp:170-171 | the counts handed to scoring are the exact page frequencies |
| ProbeSpec.BuildWords | src/sim/hotskew_probe.hpp:177-180 | the word counts handed to scoring are the 16-bit counts of all requested lines |
| ProbeSpec.PagesAreExact | src/sim/hotskew_probe.hpp:171 | page trackers are scored against exact counts |
| ProbeSpec.WordsAreExact | src/sim/hotskew_probe.hpp:177-180 | word trackers are scored against exact counts exactly if no word counter overflows |
| ProbeSpec.CountWords | src/sim/hotskew_probe.hpp:174-176 | the unique words of all pages are the distinct lines requested |
| Replies.ReplyBuffer.TryOneReply | benchmarks/zipf_client.c:125-159 | decides what the code decides from the bytes held and those behind them, moves past a complete reply and otherwise leaves the cursor; ReplyLaws says what each form of reply comes to |
| Replies.ReplyBuffer.TryElements | benchmarks/zipf_client.c:146-157 | array elements are all consumed or none |
| Replies.ReplyBuffer.TryOneReplyMc | benchmarks/zipf_client.c:171-197 | the same for the text protocol, data taken by declared length |
| Replies.ReplyBuffer.FindCrlf | benchmarks/zipf_client.c:117-121 | finds the first line end at or after the cursor |
| Replies.ReplyBuffer.DrainN | benchmarks/zipf_client.c:201-221 | consumes from the front only; if the length fields of the n replies have non-blanks then, however the bytes are cut, it succeeds exactly if they begin with n replies each fitting the buffer, and consumes exactly those; whenever the bytes held decide, nothing is received and the outcome is theirs |
| Replies.ReplyBuffer.Compact | benchmarks/zipf_client.c:211-215 | moves the pending bytes to the front unchanged |
| Replies.DrainIsItems | benchmarks/zipf_client.c:201-221 | draining n RESP replies is parsing n in a row |
| Replies.BuildHset | benchmarks/zipf_client.c:264-275 | prints HSET, key and ten fields into the bytes given; that is the array of its arguments exactly if the value fills a field |
| Replies.CommandIsArray | benchmarks/zipf_client.c:264-275 | the printed command is the array of its arguments if and only if the value has at least 100 bytes |
| Replies.CommandFits | benchmarks/zipf_client.c:264-275 | the printed command always fits its buffer |
| Replies.HsetIsOneReply | benchmarks/zipf_client.c:264-275 | the command is taken as exactly one array whatever follows it and whatever the buffer held |
| Replies.DeclaredBytes | benchmarks/zipf_client.c:178-187 | the number read after the third blank of the header line, on into the bytes behind it |
| Replies.CommandMeans | benchmarks/zipf_client.c:264-275 | the command has 22 arguments: its name, the key, and ten numbered fields each with the first hundred bytes of the value |
| Replies.HeldIsFits | benchmarks/zipf_client.c:201-207 | with length fields that have non-blanks the replies decided from the bytes held are the replies of the grammar |
| RawReplies.DecisionStable | benchmarks/zipf_client.c:123-197 | once decided a reply is decided for good, whatever arrives or was held before, if its length fields have non-blanks |
| RawReplies.DecisionLocal | benchmarks/zipf_client.c:123-197 | a reply with non-blank length fields that ends within the bytes held is decided by them |
| RawReplies.RawIsFirst | benchmarks/zipf_client.c:123-197 | on such bytes the code decides as the grammar does |
| RawReplies.NumberIsLocal | benchmarks/zipf_client.c:137 | a line decides its number if and only if the field has a non-blank |
| RawReplies.BulkSettles | benchmarks/zipf_client.c:136-145 | the header of a bulk string settles its decisions if and only if its length has a non-blank |
| RawReplies.ArraySettles | benchmarks/zipf_client.c:146-157 | over elements with non-blank lengths the header of an array settles its decisions if and only if its count has a non-blank |
| RawReplies.McSettles | benchmarks/zipf_client.c:178-190 | the header line of a hit settles its decisions if and only if its byte count has a non-blank |
| RawReplies.BlankBulk | benchmarks/zipf_client.c:136-145 | with a blank length, bytes taken as a complete reply stop being one when a digit arrives, or if a stale one lies behind them |
| RawReplies.BlankArray | benchmarks/zipf_client.c:146-157 | with a blank count, an empty array until a digit arrives or lies behind |
| RawReplies.BlankMc | benchmarks/zipf_client.c:178-190 | with a blank byte count, a complete reply until a digit arrives or lies behind |
| RawReplies.ArrayIsPlain | benchmarks/zipf_client.c:264-275 | printed commands have no blank length field |
| ReplySpec.BulkParses | benchmarks/zipf_client.c:136-145 | a bulk string is one reply whatever bytes it contains |
| ReplySpec.ArrayParses | benchmarks/zipf_client.c:146-157 | an array of bulk strings is exactly one reply |
| ReplySpec.NumberReads | benchmarks/zipf_client.c:137 | a printed length is read back |
| ReplyLaws.LineParses | benchmarks/zipf_client.c:132-135 | a simple string, an error or an integer is its line, whatever follows and whatever the buffer held |
| ReplyLaws.IntegerParses | benchmarks/zipf_client.c:132-135 | the answer to the loading command, any integer, is its line |
| ReplyLaws.OtherLinesAreBad | benchmarks/zipf_client.c:158 | a line of any other kind is malformed |
| ReplyLaws.NullBulkParses | benchmarks/zipf_client.c:136-140 | a bulk string of negative length is its header |
| ReplyLaws.NullArrayParses | benchmarks/zipf_client.c:146-157 | an array of negative count has no elements |
| ReplyLaws.BulkIsTaken | benchmarks/zipf_client.c:136-145 | a bulk string of any bytes is its header, its bytes and a line end |
| ReplyLaws.ArrayOfReplies | benchmarks/zipf_client.c:146-157 | an array of complete replies of any kinds, arrays among them, is one reply |
| ReplyLaws.BeginningsNeedMore | benchmarks/zipf_client.c:123-197 | no proper beginning of a complete reply is decided |
| ReplyLaws.NegativeReads | benchmarks/zipf_client.c:137 | a negative number is read with its sign |
| ReplyLaws.PlusReads | benchmarks/zipf_client.c:137 | a plus sign is read over |
| ReplyLaws.RangeIsKept | benchmarks/zipf_client.c:137 | numbers beyond 64 bits are read as the nearest that fits |
| ReplyLaws.McLineParses | benchmarks/zipf_client.c:171-197 | a text-protocol line that announces no value is a reply |
| ReplyLaws.HitParses | benchmarks/zipf_client.c:178-193 | a hit is its line, as many bytes of any kind as it announces, and the closing line |
| ReplyLaws.BadHits | benchmarks/zipf_client.c:178-188 | a hit whose byte count is negative or missing is malformed |
| EpochReader.Epochs | src/analysis/revalidate_extensions.py:18-42 | for any chunk size: completes exactly if no record is cut off and epochs count from zero; gives the maximal equal-epoch runs in order, and on failure those before the misnumbered one or those completed by the whole chunks |
| EpochReader.RunsPartition | src/analysis/revalidate_extensions.py:29-37 | the runs put together are the file and neighbours differ in epoch |
| EpochReader.SplitBlock | src/analysis/revalidate_extensions.py:28-37 | hands out every run a block completes and keeps the last pending |
| EpochReader.ConsecutiveMeans | src/analysis/revalidate_extensions.py:31-40 | the runs of a file are numbered from zero if and only if its first epoch is zero and each next record has the same epoch or the one after |
| InducedGraph.Induce | experiments/validate_pin_real_input.py:44-75 | accepts exactly inputs with valid header, sizes, offsets, selection and chosen rows; the result is the induced graph, or the first check that fails |
| InducedGraph.OneReason | experiments/validate_pin_real_input.py:44-70 | an input is accepted if and only if there is no reason against it, and there is never more than one |
| InducedGraph.EdgesKept | experiments/validate_pin_real_input.py:63-72 | edge (i, j) is present exactly if (chosen[i], chosen[j]) was |
| InducedGraph.SymmetryKept | experiments/validate_pin_real_input.py:63-72 | a symmetric source gives a symmetric result |
| InducedGraph.RelabelKeepsOrder | experiments/validate_pin_real_input.py:58-59 | ascending renumbering keeps sorted rows sorted |
| InducedGraph.SortedSourceAccepted | experiments/validate_pin_real_input.py:63-72 | a sorted, loop-free source with valid neighbours is never turned down |
| InducedGraph.OutputWellFormed | experiments/validate_pin_real_input.py:69-75 | accepted output is sorted, loop-free, in range, and accepted again |
| InducedGraph.RetainedMembers | experiments/validate_pin_real_input.py:67-68 | a row keeps exactly the chosen neighbours |
| InducedGraph.Select | experiments/validate_pin_real_input.py:34-41 | the vertices to keep, ascending |
| InducedGraph.CheckOffsets | experiments/validate_pin_real_input.py:53-54 | accepts exactly nondecreasing offsets from 0 to the entry count |
| Placement.Choose | src/analysis/causal_placement.py:9-13 | the first `capacity` pages with a positive score, higher score first, then lower page |
| Placement.ChoiceIsUnique | src/analysis/causal_placement.py:9-13 | the tie-break leaves one possible choice |
| Placement.ChoiceIsBest | src/analysis/causal_placement.py:9-13 | no set of at most `capacity` pages scores more |
| Placement.SelectWords | src/analysis/causal_placement.py:20-29 | cutting at a threshold and taking ties by address is the tie-broken top selection of exactly the budget |
| Placement.ThresholdIsChoice | src/analysis/causal_placement.py:22-28 | threshold plus lowest ties equals the ordered selection |
| Placement.Candidates | src/analysis/causal_placement.py:15-43 | the three sets and the words they rest on are chosen from the previous window alone, from exact counts or from tracker output |
| Placement.PicksAreUnique | src/analysis/causal_placement.py:15-43 | the previous window leaves no freedom in any of the three sets |
| Placement.PicksRespectLimits | src/analysis/causal_placement.py:15-43 | all respect the capacity, the page-driven set is part of the count-only one, and the words selected exactly spend the budget |
| PlacementLaws.BetterFirst | src/analysis/causal_placement.py:9-13 | with any chosen page every better scored one is chosen, and every lower numbered one of equal score |
| PlacementLaws.CountOnlyIsBest | src/analysis/causal_placement.py:30-33 | from exact counts no pages within the capacity had more accesses than those of the count-only set |
| PlacementLaws.CountOnlyIsListed | src/analysis/causal_placement.py:34-37 | from a tracker the count-only set holds as many listed pages of the window as fit, those whose last place in the list comes first |
| PlacementLaws.WordSetsAreBest | src/analysis/causal_placement.py:38-43 | no pages of the window within the capacity hold more of the selected words than the word-driven set, nor pages of the count-only set more than the page-driven one |
| PlacementLaws.SelectedWords | src/analysis/causal_placement.py:15-29 | from exact counts: touched words, as many as wanted but at least one and at most all, no others of so many with higher counts in total; from a tracker exactly those listed |
| Placement.FixedCapacity | src/analysis/causal_placement.py:45-47 | the integer part of the share of the first window's pages, but at least one page |
| Placement.Evaluate | src/analysis/placement_study.py:55-81 | the four tallies are those of the sets chosen round by round; the oracle captures at least what each of the three captures, and useful bytes never exceed moved bytes |
| Placement.OracleCapturesMost | src/analysis/placement_study.py:55-81 | in every single window the oracle captures at least what each of the three candidate sets captures |
| Placement.OracleIsBest | src/analysis/placement_study.py:55-81 | no policy of the same capacity, whatever it knows, captures more in total |
| Placement.CandidatesAreBeaten | src/analysis/placement_study.py:55-81 | over all windows the three candidate policies capture at most what the oracle captures |
| PlacementLaws.NoForesight | src/analysis/placement_study.py:64-70 | studies that agree on one window and its tracker output serve the next by the same candidate sets, whatever it holds |
| PlacementLaws.RoomyOracle | src/analysis/placement_study.py:66-79 | with room for every accessed page the oracle captures all accesses of the windows served |
| PlacementLaws.TallyExtremes | src/analysis/placement_study.py:74-79 | a page moves 4096 bytes, and all are useful if and only if each of its words was touched |

## Left out

- Pin callbacks, symbol hooks, knobs, thread-local storage and the lock implementations: a locked section is one atomic step, and a reference may arrive in any state although the tool only delivers them while active.
- `CacheLevel::invalidate` and `LevelConfig`: on no executed path of the hierarchy.
- CacheModel.CacheLevel.Access: the clock and statistics are unbounded; wrap-around of 64-bit counters is not modelled.
- CacheModel.CacheLevel.Oldest: the scan starts from the clock, which no stamp reaches, in place of the largest 64-bit number.
- CountMin.CountMinTopK.Bump: the running minimum starts from the first row in place of the largest 64-bit number; depth, width and capacity must be positive. The diagnostic ranking with an unbounded CAM is not modelled.
- SpaceSaving.SpaceSaving.Access: a capacity of zero is excluded; the code reads the root of an empty heap then.
- Probe.BuildTrackers: Space-Saving budgets and the capacity of a CAM must be positive, as a tracker of no slots is not modelled.
- Hash quality: the hash is an arbitrary fixed function and only deterministic bounds are proved.
- Selection.PartialSort: a selecting loop stands for the library's partial sort, of whose result only order and permutation are used; Placement.LexSort stands for the two-key sort in the same way.
- Scoring.ScoreTopK: ratios are kept as numerators and denominators; the code's floating-point division is not modelled.
- Observation: a 64-bit mask is the set of its set bits and its population count the size of that set.
- Profiler.Profiler.Reference: the events of a transaction are recorded after the LLC accesses instead of between them, in the same order; the recorders share nothing with the LLC.
- Profiler.Profiler.FinishEpoch: raw dumps, the access-count histogram, the four hottest words, per-epoch rows and tracker scores are left out; trackers are fed and scored as in Probe.
- Profiler.Profiler.AnalyzeLine: the object holds the caches of the calling thread only; ProfilerSpec.AnyThread carries its step to any thread of a machine.
- Profiler.Profiler.AnalyzeMemRef: loops on after the final phase instead of returning, which changes nothing.
- Reports.Session: one thread; ProfilerSpec.AnyThread and Commutation carry its steps to several.
- Profiler.Profiler.Fini: the printed report and the instruction totals summed over threads are left out; Reports.ReportsAgree says what the arrays it prints hold.
- Thread-local instruction counting (`-local_bbl`): only the final total, no phase or window.
- Coherence between threads: the cascade has none, and Freshness is stated for one thread.
- Warm.WarmTrafficBound: the condition is on the number of dirty copies alone; WarmRuns.WarmBoundIsMet shows that none weaker on that number suffices, even after runs from cold caches.
- The documented sizing threshold of the self-test is enough for survival of the hot set, not for an exact top-k with ties; ColdTail.TopIsHotSet gives the exact condition.
- The header comment that a page's count is the sum of its words fails once a word saturates; CounterSpec.PageIsSumOfWords gives the exact condition.
- Reference windows of an unpaired run can outgrow their length; RefWindows.ReferenceWindow gives the exact condition.
- Replies.ReplyBuffer.TryOneReply: a number is read on through the whole buffer if blanks and digits go on that long, and what lies behind the buffer is taken to end it.
- Replies.ReplyBuffer.DrainN: for replies with a blank length field only the consumption from the front is stated, as the outcome then depends on how the bytes are cut; RawReplies.BulkSettles and RawReplies.McSettles show the condition exact.
- Replies.Source: recv is an arbitrary positive number of the remaining bytes; errors of the socket are the end of the bytes.
- EpochReader.Epochs: numpy's boundary search is one pass over the block; decompression is not modelled.
- InducedGraph.Induce: the vertex hash is an arbitrary predicate, file positions are list positions.
- Placement.Candidates: scores are natural numbers.
- Placement.FixedCapacity: the product is taken over real numbers; the code rounds it to a double first, so that with 6 pages and the double nearest to 1/3 it takes 2 pages where the model takes 1.
- `prepare_twitter.cpp`: its renumbering repeats InducedGraph, its input splitting the reply buffer.
- gem5 configuration, checkpointing, campaign runners, plotting, publishing and everything compared against digitized values: no unbounded claim.
- Zipfian sampling and latency ratios: floating-point modelling choices.
