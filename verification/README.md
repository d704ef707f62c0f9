# Verified model of the ROOT index and scan

This Dafny project models the parts of root4duckdb whose correctness is hardest to see from the code: how an index over
ROOT files is built, published and read back, and why a scan that prunes, clips, pages and runs in parallel still returns
exactly what reading everything would return. `dafny verify dfyconfig.toml` checks it.

One module stands for one component.

- `Numbers`, `Expressions`, `Ranges`: doubles with both zeros, infinities and NaN; bound filter trees with SQL's
  three-valued meaning; the zonemap clause and the two range extractors derived from them.
- `Bloom`, `IndexBuilder`: the Bloom payload and the one-pass sweep that produces basket and file statistics.
- `EntrySelection`, `PathPredicates`: interval normal forms, the selection codec (Python encoder, C++ decoder), and
  candidate intervals from path predicates.
- `Planner`, `Executor`, `RowLimit`: tasks, coalescing, file groups; the interleaved workers; the atomic row limit.
- `TypedTransport`: what the 64-bit transport leaves in its buffer, and for which scans that matters.
- `EndToEnd`: index rows, plan and execution against the specification "read every value of every entry, then filter".
- `DirectScan`: the narrowed entry window and its scheduler.
- `Cursor`, `Lookup`, `PathReader`, `Lockstep`: paged traversal resumed from an index tuple and the independent walk that
  determines it, the reader state machine over it, and several readers in lockstep.
- `Build`, `BuildRun`: durable segments with crashes and quarantine; runs without failures and their end.
- `Publish`, `PublishRun`, `Evolution`: publication into append-only tables with the commit receipt last, when an
  uninterrupted publication commits, and generations that replace or extend one another.
- `ChunkPlanner`: the greedy chunk split.

Where the code keeps state that methods change, the model is a class with the same fields, or a state machine over its
steps when several actors interleave or the process can die between steps. Hash rounds, what a serialized decoder
answers, the order of query results and hash-map walks, and the outcome of opening files are parameters, so the theorems
hold for all of them.

Three statements are false of the code without a condition; the project proves the exact condition and a witness.

- Zonemap pruning by a value filter ignores infinities: `Planner.NeverPrunesExactly`.
- NaN compares equal to every constant in path predicates, but the metadata test ignores it:
  `PathPredicates.NeverLosesExactly`, `PathPredicates.NaNBasketIsLost`.
- A claim of the 64-bit transport rewinds a buffer it does not clear: `TypedTransport.TypedExactly`,
  `EndToEnd.TypedAnswer`, `TypedTransport.TypedTransportRepeats`.

Accordingly `EndToEnd` asks that no infinity satisfies the value filter and that no event of a floating path satisfies a
predicate by NaN alone, and answers for the 64-bit transport under the condition that it is exact.

## Model

| member | source | states |
|---|---|---|
| `EndToEnd.IndexedScanIsFullScan` | src/dataset/root_dataset_execute.cpp:93-333 | for every data set, filters, path predicates, selection and worker interleaving of a finished run: a row satisfying all pushed expressions is emitted exactly as often as reading everything and filtering would emit it, a row failing an exact filter never, plus what a claim carried over; nothing is carried over by the double transport, nor by a 64-bit scan whose tasks leave nothing behind |
| `EndToEnd.ExactAnswer` | src/dataset/root_dataset_plan.cpp:165-438 | without optional filters every finished run of the double transport, for any workers and schedule, emits exactly the rows of the filtered full scan, as a multiset |
| `EndToEnd.TypedAnswer` | src/dataset/root_dataset_execute.cpp:165-178 | without optional filters every finished run of the 64-bit transport emits exactly the filtered full scan if and only if no kept task but the last one leaves a passing row in the typed buffer |
| `EndToEnd.EntryReaders` | src/dataset/root_dataset_plan.cpp:236-418 | after catalog condition, Bloom test and clipping each entry is read by exactly one piece if the basket holding it survives, else by none, whatever the order of the query result |
| `EndToEnd.WantedIsPlanned` | src/dataset/root_dataset_plan.cpp:244-342 | an entry that qualifies and has one row satisfying all pushed expressions is never pruned |
| `EndToEnd.WantedRowSelected` | src/dataset/root_dataset_plan.cpp:236-287 | the catalog row of a basket holding a wanted entry meets the whole WHERE condition |
| `EndToEnd.ValueKeepsBasket` | src/dataset/root_dataset_plan.cpp:244-342 | zonemaps of file and basket and the Bloom filter keep a basket that holds a satisfying value |
| `EndToEnd.PredicateKeepsEntry` | src/dataset/root_entry_selection.cpp:144-202 | an event that satisfies a path predicate by some value other than NaN keeps the index basket that holds its entry |
| `EndToEnd.QualifyingIsCandidate` | src/dataset/root_entry_selection.cpp:204-246 | entries that satisfy all path predicates and the selection lie in the intersected candidate intervals |
| `EndToEnd.PlanScan` | src/dataset/root_dataset_plan.cpp:165-220 | planning hands over either no task (impossible range) or the coalescing of the surviving pieces in which no task could still be joined to its successor, together with clip ranges equal to the extracted ranges; the counters of all tasks fit |
| `EndToEnd.PlannedReaders` | src/dataset/root_dataset_plan.cpp:359-418 | after coalescing, still exactly one task reads a surviving entry |
| `EndToEnd.PiecesSound` | src/dataset/root_dataset_plan.cpp:296-358 | every piece stays within the entries of one file, and tasks of one root_uri share file id and event base |
| `EndToEnd.PlanIsValidScan` | src/dataset/root_dataset_plan.cpp:131-163 | a plan with its file groups satisfies everything the executor relies on |
| `EndToEnd.WantedSurvivesClips` | src/dataset/root_dataset_execute.cpp:112-151 | a row satisfying the event and entry filters survives the clips of its task |
| `EndToEnd.TasksWorth` | src/dataset/root_dataset_execute.cpp:220-333 | what all tasks owe of a row is the number of readers of its entry times its qualifying occurrences |
| `EndToEnd.OrderIrrelevant` | src/dataset/root_dataset_plan.cpp:291-300 | counting over the query result does not depend on its order |
| `EndToEnd.FullScanShare` | src/dataset/root_dataset_execute.cpp:186-218 | the specification holds a row as often as its entry does, provided entry and row qualify |
| `EndToEnd.CountFromCatalog` | src/dataset/root_dataset_plan.cpp:606-635 | without any filter, predicate or selection the sum of the value counts of the file rows is the number of rows of the full scan |
| `IndexBuilder.BuildPath` | src/index/root_index_builder.cpp:261-490 | the written rows tell the truth: baskets are disjoint, own exactly the entries of the file, flat offsets accumulate; value, absent, NaN and infinity counts of every basket row and of the file row are exact multiplicities in their entries and the extremes are attained; the file row admits every basket value |
| `IndexBuilder.Sweep` | src/index/root_index_builder.cpp:330-388 | one pass with a forward-only active basket gives every basket exactly the entries of its range |
| `IndexBuilder.Advance` | src/index/root_index_builder.cpp:338-345 | the active basket moves past exactly the ranges that ended |
| `IndexBuilder.BasketRanges` | src/index/root_index_builder.cpp:188-224 | basket ranges are ordered, non-empty and cover exactly the entries of the file |
| `IndexBuilder.AddEntriesTallies` | src/index/root_index_builder.cpp:65-117 | counters, extremes and Bloom input of an accumulator mean what they should for all entries it saw, with NaN, infinities and both zeros |
| `IndexBuilder.TalliesDescribe` | src/index/root_index_builder.cpp:65-117 | such an accumulator describes its values: which special values occur, and a zone enclosing all finite ones |
| `IndexBuilder.WriteRow` | src/index/root_index_builder.cpp:421-456 | one basket row has the exact counts and attained extremes of the values of its entry range, and a Bloom filter that covers them |
| `IndexBuilder.WriteRows` | src/index/root_index_builder.cpp:411-464 | all basket rows do so for their ranges, flat offsets follow one another, and the totals are the exact counts and attained extremes of all values together |
| `IndexBuilder.AddStatsDescribes` | src/index/root_index_builder.cpp:423-463 | adding a basket to the file statistics keeps special values recorded and every finite value enclosed |
| `IndexBuilder.AddStatsExact` | src/index/root_index_builder.cpp:423-463 | adding a basket adds its counts: the sums are the exact counts of the concatenated values, and the widened extremes are attained |
| `IndexBuilder.TalliesCount` | src/index/root_index_builder.cpp:65-117 | the row made of an accumulator has exact counts, and its extremes are values it saw |
| `IndexBuilder.FoldStatsDescribes` | src/index/root_index_builder.cpp:411-487 | the aggregated file statistics describe the values of all baskets together |
| `IndexBuilder.FileStatsExact` | src/index/root_index_builder.cpp:411-487 | folding the rows of baskets that tile the file gives the exact counts and attained extremes of all its entries |
| `Bloom.BuildFilter` | src/index/root_bloom.cpp:77-168 | whatever values are added, through buffered hashes or streaming bits, the serialized filter has exactly the probe bits of their finite ones set, so it rejects no equal value |
| `Bloom.RootBloomBuilder.Add` | src/index/root_bloom.cpp:94-121 | an added finite value is recorded, kept as a hash or as its bits, across the switch to streaming |
| `Bloom.RootBloomBuilder.SerializeAndRelease` | src/index/root_bloom.cpp:129-168 | the payload has exactly the probe bits of the added hashes set, in either mode |
| `Bloom.SerializedNeverRejects` | src/index/root_bloom.cpp:129-203 | header and payload together never reject a hashed value: the probe uses the modulus, the count and the payload that the builder used |
| `Bloom.MayContainExactly` | src/index/root_bloom.cpp:172-203 | such a filter answers maybe exactly for the values each of whose probe bits some added value has |
| `Bloom.HeaderRoundTrip` | src/index/root_bloom.cpp:129-203 | the header fields read back as written |
| `Bloom.LittleEndianRoundTrip` | src/index/root_bloom.cpp:45-75 | little-endian integers read back as written |
| `Bloom.SetBloomBits` | src/index/root_bloom.cpp:82-92 | exactly the probe bits of the hash are added, none is cleared |
| `Bloom.SuccessiveProbesDiffer` | src/index/root_bloom.cpp:82-92 | two successive probes of a hash never fall on the same bit, since the step is odd and a payload has whole bytes |
| `Bloom.SetAllBits` | src/index/root_bloom.cpp:129-168 | replaying buffered hashes onto zeros sets every probe bit of each and no other bit |
| `Bloom.EqualValuesHashAlike` | src/index/root_bloom.cpp:19-33 | equal finite values, the two zeros included, hash alike |
| `Bloom.Probe` | src/index/root_bloom.cpp:172-203 | the early-exit probe loop decides exactly whether the bytes may contain the value; malformed bytes may contain everything |
| `Expressions.ZonemapSound` | src/dataset/root_dataset_predicates.cpp:264-336 | for every filter tree, a zone enclosing a finite value for which the filter is TRUE passes the generated SQL condition under three-valued logic |
| `Expressions.ComparisonClauseSound` | src/dataset/root_dataset_predicates.cpp:225-248 | the clause of one comparison passes for every zone that encloses a satisfying value |
| `Expressions.InClauseSound` | src/dataset/root_dataset_predicates.cpp:294-309 | the clause of an IN list passes when one of its constants equals an enclosed value |
| `Expressions.ComparisonClauseExact` | src/dataset/root_dataset_predicates.cpp:225-248 | the clause of a comparison with a usable constant passes a zone if and only if some number between its extremes satisfies the comparison |
| `Expressions.ConjunctionClauseExact` | src/dataset/root_dataset_predicates.cpp:310-336 | the clause of a conjunction of such comparisons passes a zone if and only if each of them is satisfied by some number between its extremes |
| `Planner.ZoneKeepsSound` | src/dataset/root_dataset_plan.cpp:244-259 | a finite or NaN value that satisfies the value filter keeps its basket and file |
| `Planner.NeverPrunesExactly` | src/dataset/root_dataset_plan.cpp:250-257 | zonemap pruning is safe for every filter if and only if the basket holds no infinity or also holds a NaN |
| `Planner.EqualityHit` | src/dataset/root_dataset_predicates.cpp:350-381 | a value satisfying a pure equality filter equals one of the extracted constants |
| `Planner.BloomKeepsSound` | src/dataset/root_dataset_predicates.cpp:383-408 | the Bloom probe keeps every basket holding a value that satisfies the filter |
| `Planner.BloomKeepsExactly` | src/dataset/root_dataset_predicates.cpp:383-408 | on a filter with exactly the bits of the added hashes the probe drops a basket if and only if every constant is usable and has a probe bit that no added value has |
| `Planner.SourceClauseSound` | src/dataset/root_dataset_predicates.cpp:445-503 | the condition on file_id is never false for a source id that satisfies the filter |
| `Planner.FilterRangeSound` | src/index/root_filter.cpp:390-395 | an entry id or event number satisfying the filter lies in the extracted range |
| `Ranges.ExtractRangeSound` | src/index/root_filter.cpp:276-388 | for every expression tree, a value satisfying it lies in the extracted range, which is never marked impossible then |
| `Ranges.ComparisonRangeSound` | src/index/root_filter.cpp:185-230 | the range of one comparison admits every satisfying value, with the 64-bit edges |
| `Ranges.InRangeSound` | src/index/root_filter.cpp:323-360 | the joined range of an IN list admits every listed value |
| `Ranges.ExtractRangeExact` | src/index/root_filter.cpp:276-388 | for integer comparisons and their conjunctions the extracted range admits exactly the values that satisfy them |
| `Ranges.ExtractHintSound` | src/direct/root_scan_filter_pruning.cpp:239-327 | the same for the hint extractor of the direct scan, with its sign-magnitude constants of every type that is written as an integer |
| `Ranges.ComparisonHintSound` | src/direct/root_scan_filter_pruning.cpp:73-189 | the interval of one comparison admits every satisfying entry id, for negative and oversized constants, HUGEINT and DECIMAL without a fraction included |
| `Ranges.ExtractHintExact` | src/direct/root_scan_filter_pruning.cpp:239-327 | for comparisons with constants written as integers, and their conjunctions, the hint admits exactly the entry ids that satisfy them |
| `DirectScan.ScanBind.CollectHints` | src/direct/root_scan_filter_pruning.cpp:329-369 | narrowing the bind data keeps every entry that satisfies all filters and, for integer comparisons and their conjunctions, no other |
| `DirectScan.NarrowWindow` | src/direct/root_scan_state.cpp:189-288 | every entry passing all filters of a single-file scan falls into the narrowed window and, for integer comparisons and their conjunctions, no other does |
| `DirectScan.RootEntryScheduler.ClaimWork` | src/direct/root_scan_state.cpp:29-47 | a claim takes the next batch of the window and advances past it, or reports that none is left |
| `DirectScan.ClaimsDisjoint` | src/direct/root_scan_state.cpp:29-47 | no entry is in two claimed batches |
| `DirectScan.ClaimsCover` | src/direct/root_scan_state.cpp:29-47 | claims run to completion cover every entry of the window |
| `DirectScan.ScanFile` | src/direct/root_scan_state.cpp:189-288 | hints, window and claims together: no entry is claimed twice; once a worker has been told that nothing is left every entry passing all filters is in exactly one claimed batch; for integer comparisons and their conjunctions no other entry is ever claimed |
| `EntrySelection.NormalizeIntervals` | src/dataset/root_entry_selection.cpp:6-30 | the result is sorted, disjoint and non-adjacent and covers exactly the same entries |
| `EntrySelection.NormalFormUnique` | src/dataset/root_entry_selection.cpp:6-30 | two normal forms covering the same entries are equal |
| `EntrySelection.IntersectIntervals` | src/dataset/root_entry_selection.cpp:117-142 | on normal forms the two-pointer loop denotes set intersection and stays in normal form |
| `EntrySelection.ParseSelection` | src/dataset/root_entry_selection.cpp:32-115 | the decoder accepts exactly the valid selections and denotes exactly the entries they select, in normal form |
| `EntrySelection.ParseDelta` | src/dataset/root_entry_selection.cpp:70-100 | delta lists are accepted exactly when every step is positive and stays below the limit, and denote their running sums |
| `EntrySelection.Encode` | scripts/production/build_entry_selection.py:12-34 | the encoder produces a valid selection of exactly the given entries, for every list and min_run of at least 2 |
| `EntrySelection.EncodeThenParse` | scripts/production/build_entry_selection.py:12-34 | decoding an encoded list succeeds and yields the normal form of exactly the input set |
| `EntrySelection.SplitRuns` | scripts/production/build_entry_selection.py:16-27 | runs and sparse entries together are the sorted set, the sparse part ascending |
| `PathPredicates.MetadataSound` | src/dataset/root_dataset_predicates.cpp:527-591 | a basket holding a matching value other than NaN is never rejected by the metadata test |
| `PathPredicates.MetadataExact` | src/dataset/root_dataset_predicates.cpp:527-591 | without the Bloom filter the metadata test keeps a basket if and only if some number between its extremes, or an infinity it counts, matches; not stated for <> and reversed BETWEEN bounds, where it keeps more |
| `PathPredicates.SingleValue` | src/dataset/root_path_predicates.cpp:275-306 | a single value other than NaN matches as SQL compares it with the constants; NaN matches except under <>, < and > |
| `PathPredicates.QuantifierSplits` | src/dataset/root_path_predicates.cpp:308-328 | an event without values never matches; of a longer one ALL asks both parts and ANY one of them |
| `PathPredicates.EventMatchesExactly` | src/dataset/root_path_predicates.cpp:308-328 | so ALL holds if and only if there are values and each matches alone, ANY if and only if one does |
| `PathPredicates.NeverLosesExactly` | src/dataset/root_path_predicates.cpp:154-190 | the metadata test is safe for all data of a path if and only if the path is not floating or its operator is one that NaN cannot satisfy |
| `PathPredicates.NaNBasketIsLost` | src/dataset/root_path_predicates.cpp:179-185 | the witness for floating paths: a basket of NaN only, which the executor matches and the metadata test rejects |
| `PathPredicates.EventKeepsBasket` | src/dataset/root_path_predicates.cpp:308-328 | an event with a matching value other than NaN keeps its basket, whatever NaN is beside it |
| `PathPredicates.MatchesWithoutNaN` | src/dataset/root_path_predicates.cpp:308-328 | an event that matches, holds no NaN or meets an operator that rejects NaN, has a matching value other than NaN |
| `PathPredicates.CollectIntervals` | src/dataset/root_entry_selection.cpp:144-202 | the collected intervals of a file cover exactly the baskets whose metadata may match |
| `PathPredicates.NormalizeAll` | src/dataset/root_entry_selection.cpp:198-202 | normalising every file keeps the covered entries |
| `PathPredicates.IntersectCandidates` | src/dataset/root_entry_selection.cpp:223-243 | candidate maps intersect file by file |
| `PathPredicates.BuildIntersection` | src/dataset/root_entry_selection.cpp:204-246 | the candidates are exactly the selected entries that every predicate admits, in normal form, also on the early exit |
| `Planner.PlanTasks` | src/dataset/root_dataset_plan.cpp:291-430 | the tasks are the coalescing of the surviving pieces of the rows consumed, and no task could still be joined to its successor; planning stops early only when nothing can reject a value and enough values are planned; planned values, baskets and bytes are the sums over the baskets kept and fit 64 bits, and every task fits its value, basket and byte counters |
| `Planner.CoalescingPreserves` | src/dataset/root_dataset_plan.cpp:379-410 | coalescing changes neither who reads an entry nor the value and basket counts |
| `Planner.CoalescedSpan` | src/dataset/root_dataset_plan.cpp:383-403 | the byte span of a task contains all its baskets, with gaps between 0 and the limit |
| `Planner.CoalescedRun` | src/dataset/root_dataset_plan.cpp:383-410 | a run of joined baskets keeps entries, counts and the byte range from its first to its last basket |
| `Planner.CoalescingBounds` | src/dataset/root_dataset_plan.cpp:379-410 | every task is non-empty and reaches from the begin of one piece to the end of another of the same file |
| `Planner.TasksAreAdjacentRuns` | src/dataset/root_dataset_plan.cpp:379-410 | two successive baskets share a task if and only if they belong to one tree, follow each other entry after entry, and the second starts at most the gap behind the first |
| `Planner.CoalescingUnique` | src/dataset/root_dataset_plan.cpp:379-410 | only one coalescing of a basket list has no joinable neighbours |
| `Planner.ClippedReaders` | src/dataset/root_dataset_plan.cpp:343-358 | clipping to a normal form reads exactly the entries in both, each once |
| `Planner.AddCandidate` | src/dataset/root_dataset_plan.cpp:379-412 | a candidate is joined if it can be and appended otherwise, unless joining would exceed a guarded range; no joinable neighbours arise and all counters stay in range |
| `Planner.EarlyStopKeepsEnough` | src/dataset/root_dataset_plan.cpp:307-308 | after an early stop the tasks still hold at least min(row limit, all values) |
| `Planner.ScansEntireFileSequentially` | src/dataset/root_dataset_plan.cpp:107-128 | true exactly for a gap-free walk through all entries and baskets of one file |
| `Planner.CompleteScanReads` | src/dataset/root_dataset_plan.cpp:107-128 | such a walk reads each entry of its file once and nothing else |
| `Planner.BuildFileTaskGroups` | src/dataset/root_dataset_plan.cpp:131-163 | groups are maximal runs per root_uri that partition the task list; the cache is on exactly for explicit caches and unrestricted complete scans |
| `Executor.ClipExact` | src/dataset/root_dataset_execute.cpp:112-151 | the two clips keep exactly the entries in the event and local ranges and count every other one as skipped |
| `Executor.StepConserves` | src/dataset/root_dataset_execute.cpp:93-333 | every step of every worker conserves what is due: nothing is lost, nothing is done twice except what a stale buffer repeats |
| `Executor.RunConserves` | src/dataset/root_dataset_execute.cpp:93-333 | the same after every run, for any interleaving and any number of workers |
| `Executor.FinishedRun` | src/dataset/root_dataset_execute.cpp:538-628 | a finished run has done every claim, skip, read and row exactly as often as due, plus what was carried |
| `Executor.DoubleCarriesNothing` | src/dataset/root_dataset_execute.cpp:175-177 | the double transport never carries rows over |
| `Executor.FinishedClaims` | src/dataset/root_dataset_execute.cpp:93-184 | in a finished run each task is claimed once and exactly the wanted entries are read, once each |
| `Executor.CounterTracksSkips` | src/dataset/root_dataset_execute.cpp:123-151 | the shared skipped_entries counter equals the skips recorded |
| `Executor.EntriesAccounted` | src/dataset/root_dataset_execute.cpp:93-184 | in a finished run the entries actually read plus skipped_entries equal the planned entries |
| `TypedTransport.TypedExactly` | src/dataset/root_dataset_execute.cpp:175-178 | every finished run of a 64-bit scan, for any workers, schedule and reader routes, does everything exactly as often as due if and only if every kept task but the last kept one leaves no passing row in the buffer of its last admitted entry |
| `TypedTransport.TidyStep` | src/dataset/root_dataset_execute.cpp:165-178 | under that condition no step carries anything over: buffers are clean whenever a claim can rewind them |
| `TypedTransport.LeftoverRepeats` | src/dataset/root_dataset_execute.cpp:175-178 | without it one worker taking the tasks in order finishes with a row emitted more often than due |
| `TypedTransport.RunOut` | src/dataset/root_dataset_execute.cpp:538-628 | a single worker always finishes, and the repetition cannot be averted on the way |
| `TypedTransport.LastObjectPage` | src/reader/root_offset_reader.cpp:490-515 | an object cursor leaves the values behind the last full page: a short page completes it, a full one is followed by an empty page that clears the buffer |
| `TypedTransport.LastSerializedPage` | src/serialized/root_serialized_codec.cpp:272-318 | a serialized cursor leaves the page that holds the last value, full or not |
| `TypedTransport.TypedTransportRepeats` | src/dataset/root_dataset_execute.cpp:175-178 | a concrete finished run over two tasks that the planner never joins, which emits a row twice that is due once |
| `RowLimit.StepKeepsInvariant` | src/dataset/root_dataset_execute.cpp:509-536 | every load and compare-exchange step keeps grants equal to emitted_rows, within the limit, and stop_requested only at the limit |
| `RowLimit.RunKeepsLimit` | src/dataset/root_dataset_execute.cpp:509-536 | the same after every interleaving: never more rows than the limit, and the stop flag only once it is reached |
| `RowLimit.RefusedOnlyAtLimit` | src/dataset/root_dataset_execute.cpp:509-536 | a request is refused only when the limit has been reached |
| `RowLimit.ExchangeGrants` | src/dataset/root_dataset_execute.cpp:519-536 | a reservation that gets through is given all it asked for, or all that was left of the limit |
| `RowLimit.OtherStepsGrantNothing` | src/dataset/root_dataset_execute.cpp:509-536 | no other step changes what a thread has been granted |
| `RowLimit.StepAccounts` | src/dataset/root_dataset_execute.cpp:509-536 | what has been asked for stays granted or pending until the limit is used up |
| `RowLimit.AllGranted` | src/dataset/root_dataset_execute.cpp:509-536 | once all reservations have ended, for any interleaving and spurious failures, exactly min(limit, everything requested) has been granted |
| `Cursor.ReadPages` | src/reader/root_offset_reader.cpp:490-515 | for every object, level list and positive page sizes, the pages together are the unpaged traversal, each within its size, and paging terminates |
| `Cursor.OffsetValueCursor.ReadPage` | src/reader/root_offset_reader.cpp:490-515 | a page holds the next values, a resumed cursor always finds its place, and exhaustion is reported exactly at the end |
| `Cursor.OffsetValueCursor.Open` | src/reader/root_offset_reader.cpp:481-488 | opening starts at the first value |
| `Cursor.CollectDirect` | src/reader/root_offset_reader.cpp:474-479 | the unpaged reader delivers the traversal, cut at the maximum if there is one |
| `Cursor.Traversal.Collect` | src/reader/root_offset_reader.cpp:327-455 | the recursion feeds exactly the values below an object, in order, whatever part of them the page takes |
| `Cursor.Traversal.CollectItems` | src/reader/root_offset_reader.cpp:346-393 | a loop that starts at the resume position and stops on a full page accounts for all its elements |
| `Cursor.Traversal.StartIndex` | src/reader/root_offset_reader.cpp:243-276 | the start index is the element that holds the previous tuple |
| `Cursor.Traversal.PushArrayCoordinates` | src/reader/root_offset_reader.cpp:66-94 | the pushed columns are the mixed-radix digits of the flat index |
| `Cursor.Traversal.Emit` | src/reader/root_offset_reader.cpp:278-316 | a value is delivered, or recognised as the last one delivered; anything else while resuming is an error |
| `Cursor.FlatOfDigits` | src/reader/root_offset_reader.cpp:66-94 | recomputing the flat index of pushed coordinates gives the index back |
| `Cursor.DigitsOfFlat` | src/reader/root_offset_reader.cpp:262-275 | pushing the recomputed flat index gives the coordinates back |
| `Cursor.FlatIndex` | src/reader/root_offset_reader.cpp:262-275 | the checked fold accepts exactly coordinates in range whose flat index fits 64 bits |
| `Cursor.RowsUnique` | src/reader/root_offset_reader.cpp:327-455 | no two values of an object share an index tuple |
| `Cursor.RowsExtend` | src/reader/root_offset_reader.cpp:66-94 | all tuples of a path have the same length, the index depth |
| `Lookup.TraversalExact` | src/reader/root_offset_reader.cpp:327-455 | a value with its index tuple is in the traversal if and only if walking that tuple down the object, through pointers, containers and fixed arrays, leads to the value; the tuples ascend lexicographically |
| `Lookup.TraversalUnique` | src/reader/root_offset_reader.cpp:327-455 | at most one sequence of values has these two properties |
| `Lookup.ReadAllPages` | src/reader/root_offset_reader.cpp:490-515 | for positive page sizes the pages of an object add up to exactly the values that index tuples lead to, in lexicographic order; no page is empty or too long |
| `PathReader.ReadEntry` | src/reader/root_path_reader.cpp:387-483 | inside the validation window and after a fallback an entry delivers the object traversal up to the equality of decoded values; an accepted decoding, or pages that do not break, are delivered as they are; a reader started in serialized mode delivers only decoder output |
| `PathReader.RootPathReader.BeginNumericEntry` | src/reader/root_path_reader.cpp:387-430 | serialized pages are chosen if and only if the member is fixed, the window is over and a page cursor starts; serialized values if and only if pages do not apply and the decoding is accepted; at most one page source is open, and a fallback is reported exactly when it is new |
| `PathReader.RootPathReader.TryReadSerialized` | src/reader/root_path_reader.cpp:303-370 | a serialized result is accepted if and only if serialized reading is active, the decoder answers and, in the validation window, the answer equals the object traversal |
| `PathReader.RootPathReader.StartSerialized` | src/reader/root_path_reader.cpp:214-244 | which route a start takes in each mode, with the fallback counter reset |
| `PathReader.RootPathReader.ActivateFallback` | src/reader/root_path_reader.cpp:599-620 | serialized mode throws and changes nothing; otherwise serialized reading ends and only the first fallback is reported |
| `PathReader.RootPathReader.ReadNumericPage` | src/reader/root_path_reader.cpp:432-483 | a page continues its source where the last one ended; a serialized page that breaks is an error, never a switch to objects |
| `PathReader.DrainObject` | src/reader/root_path_reader.cpp:280-288 | object pages of any sizes add up to the traversal of the object |
| `PathReader.DrainSerialized` | src/serialized/root_serialized_codec.cpp:272-318 | serialized pages add up to the decoded sequence unless decoding breaks |
| `Lockstep.ReadEntry` | src/direct/root_scan_execute.cpp:90-326 | an entry is done if and only if all columns start with serialized pages, none of them breaks and all have the same tuples throughout, and then it is their join; otherwise it goes to the whole-entry path with nothing emitted, or fails after an aligned prefix of the join |
| `Lockstep.ScanState.ReadAndCacheEntry` | src/direct/root_scan_execute.cpp:216-326 | a cached page continues all columns at the same row; an entry that is not cached is done if and only if what was left of its columns is aligned and unbroken |
| `Lockstep.ScanState.ReadCursorPage` | src/direct/root_scan_execute.cpp:90-153 | data is reported only for equal shapes; without data the end is reported if and only if what was left of the columns is aligned and unbroken; a mismatch falls back only when nothing of the entry has been emitted |
| `Lockstep.ShapeIsTuples` | src/direct/root_scan_execute.cpp:106-128 | with one index depth, comparing sizes and flat indices compares every full tuple |
| `Lockstep.JoinedTuples` | src/direct/root_scan_execute.cpp:96-153 | every joined row carries the tuple that each column has at its position, and that column’s value |
| `Lockstep.JoinPages` | src/direct/root_scan_execute.cpp:96-153 | joining page by page is joining the columns |
| `Publish.CommittedIsReadable` | src/iceberg/root_iceberg_publish.cpp:199-452 | after any run with crashes, resumes and other generations: no table lists a data file twice, and a committed generation has exactly one mapping per table to a version that lists its data file |
| `Publish.StepKeepsInvariant` | src/iceberg/root_iceberg_publish.cpp:199-452 | every publication step, crash and staging change keeps the catalog sound |
| `Publish.CommitsAreStable` | src/iceberg/root_iceberg_publish.cpp:199-285 | tables only grow and data files never change, so a committed generation stays as it was |
| `Publish.SavedMapping` | src/iceberg/root_iceberg_publish.cpp:288-312 | a snapshots part kept from an earlier attempt passes the comparison only if it maps every table once, to a good version |
| `Publish.SameMappingExact` | src/iceberg/root_iceberg_publish.cpp:288-312 | equal row count and agreement on every collected table leave no room for other rows |
| `Publish.ListKeeps` | src/iceberg/root_iceberg_publish.cpp:240-285 | listing a data file, or finding it listed, keeps the catalog sound |
| `Publish.CopyKeeps` | src/iceberg/root_iceberg_publish.cpp:203-239 | copying under an immutable name, or comparing with it, keeps the catalog sound |
| `Publish.MappingIsOwnPart` | src/dataset/root_dataset_catalog.cpp:208-222 | the rows that readers find for a generation are exactly those of its own snapshots part |
| `Publish.ResolveSources` | src/dataset/root_dataset_catalog.cpp:183-240 | resolution succeeds exactly if the pinned generation, or any when none is pinned, is committed; it answers for the latest such generation by commit time and returns versions that list its data files, the four base tables included |
| `Publish.LatestCommit` | src/dataset/root_dataset_catalog.cpp:189-207 | the committed generation with the largest commit time among the eligible ones, or none if there is none |
| `PublishRun.PublishesExactly` | src/iceberg/root_iceberg_publish.cpp:199-452 | an uninterrupted publication ends committed if and only if the generation was committed before or every part is staged and agrees with what earlier attempts left; then the receipt carries its manifest, its dictionary and the time of the step that wrote it |
| `PublishRun.CourseStep` | src/iceberg/root_iceberg_publish.cpp:376-452 | every step of such a publication goes on to the next stage with the mapping collected so far, or ends it because a part is missing or disagrees |
| `PublishRun.ReadPublished` | src/dataset/root_dataset_catalog.cpp:183-240 | pinned to a generation published in this way, resolution answers for that generation with its four base tables |
| `Build.EveryFileOnce` | src/index/root_index_coordinator.cpp:189-396 | over every history of builds, crashes, quarantines and resumes: no file is in two segments; compaction reads every planned file exactly once and nothing else; compacted tables hold each exactly once |
| `Build.StepKeepsInvariant` | src/index/root_index_coordinator.cpp:569-682 | every step of a run, of any worker, keeps this |
| `Build.NamesAreFree` | src/index/root_index_coordinator.cpp:372-396 | in every reachable state new worker directories, segment names and quarantine names are free |
| `Build.NextCheckpointWorkerId` | src/index/root_index_coordinator.cpp:372-396 | the id is one more than the largest existing worker directory |
| `Build.WorkerStepReach` | src/index/root_index_metadata.cpp:247-293 | no worker step brings a file closer to being in two segments |
| `Build.RestoredExactly` | src/index/root_index_coordinator.cpp:201-370 | once all segments have been looked at, the restored files are exactly those in segments |
| `Build.ValidateKeeps` | src/index/root_index_coordinator.cpp:684-707 | when every file is reported OK, all of them are in segments: no worker holds anything back |
| `Build.CompactKeeps` | src/index/root_index_metadata.cpp:340-372 | a compaction of complete segments writes every planned file exactly once |
| `Build.TotalWithout` | src/index/root_index_metadata.cpp:340-372 | the order in which segments are read does not matter |
| `BuildRun.SmoothRunCompletes` | src/index/root_index_coordinator.cpp:569-707 | every run over a nonempty plan without crash, failed worker or unreadable file, whichever worker moves when, reaches compaction and ends with each planned file once in each compacted table |
| `BuildRun.SmoothStep` | src/index/root_index_coordinator.cpp:569-682 | each step of such a run gets closer to the end, and no file handed out is lost |
| `BuildRun.SmoothStepExists` | src/index/root_index_coordinator.cpp:569-682 | such a run is never stuck: until both tables are compacted some step that is no failure is possible |
| `BuildRun.ValidatePasses` | src/index/root_index_coordinator.cpp:684-707 | once all workers have ended in it, every file has been reported, and validation passes if and only if there is a file at all |
| `BuildRun.EveryHistoryCompletes` | src/index/root_index_coordinator.cpp:189-396 | whatever builds, crashes and quarantines of a nonempty plan have happened, after one restart the history can be continued without failures to complete compacted tables |
| `Evolution.ChainIsTrue` | src/index/root_index_evolution.cpp:163-222 | in every chain of committed generations the catalog holds, for each of them, exactly its path origins, one per path |
| `Evolution.OriginIndexedIt` | src/index/root_index_evolution.cpp:19-68 | the origin of a path is the one generation that indexed it since the last replacement |
| `Evolution.ExtendInherits` | src/index/root_index_evolution.cpp:174-222 | an extension never changes the origin of an inherited path |
| `Evolution.PreparePathSources` | src/index/root_index_evolution.cpp:163-222 | path sources are prepared exactly if the paths are distinct, there is one, and for an extension the latest committed generation has the same manifest and dictionary, one origin per path, unchanged source files behind every origin and none of the new paths; a checkpoint is kept exactly if it names the same parent; the new origins follow from that generation plus the own paths |
| `Evolution.ValidateOriginalFiles` | src/index/root_index_evolution.cpp:70-109 | the row-by-row comparison accepts exactly if every origin has the planned source files, in order and all readable |
| `Evolution.ChainFiles` | src/index/root_index_evolution.cpp:70-109 | in every chain whatever a generation answers for a path comes from index rows of its own source files |
| `Evolution.PreviousPaths` | src/index/root_index_evolution.cpp:19-68 | succeeds exactly when the parent has path sources, or index rows of its own, with one origin per path |
| `Evolution.AddOwnPaths` | src/index/root_index_evolution.cpp:214-220 | fails exactly when a path is named twice |
| `Evolution.PathSnapshot` | src/dataset/root_dataset_catalog.cpp:350-382 | one origin answers, several are a conflict, none means absent unless the generation has no path sources at all |
| `Evolution.ReadPath` | src/dataset/root_dataset_catalog.cpp:350-382 | every generation of a chain answers each path with the generation that indexed it since the last replacement, and knows the paths it lacks |
| `ChunkPlanner.GreedyIsOptimal` | scripts/production/plan_chunks.py:129-137 | no other in-order contiguous split that meets the caps has fewer chunks |
| `ChunkPlanner.GreedyStaysAhead` | scripts/production/plan_chunks.py:129-137 | a greedy split of a suffix needs no more chunks than any split of the whole |
| `ChunkPlanner.ChunkPlan.Plan` | scripts/production/plan_chunks.py:101-137 | the chunks are the manifest in order, meet the caps, and none could have taken the next file |
| `ChunkPlanner.ChunkPlan.Add` | scripts/production/plan_chunks.py:129-136 | adding a file keeps the split greedy and the order |
| `ChunkPlanner.ChunkPlan.Flush` | scripts/production/plan_chunks.py:106-127 | flushing moves the current files into a chunk with their count and bytes |

## Left out

- ROOT, DuckDB, Iceberg and Parquet calls: a query returns the matching rows in any order, an append adds one file and a new
  version, a rename is atomic.
- The serialized codecs: any decoder is allowed; only the page cursor's contract is modelled.
- `EndToEnd` takes from the reader that it delivers an entry's rows as the object traversal gives them; `PathReader.ReadEntry`
  shows this for the validation window and after a fallback, and nothing is claimed for a decoder that errs outside the window.
- Text, date and 64-bit values beyond their numeric order; conversion of a double into the output SQL type.
- Malformed JSON and unknown keys in selections and predicates; only the values that reach the checks are modelled.
- False-positive rates, payload sizing and the mixing rounds of the hashes: any payload of at least one byte and any hash
  count from 1 to 16.
- Basket accumulators are values in a sequence rather than shared objects; the pointer-based access to ROOT buffers is not
  modelled.
- Table versions count appends, so a version is the length of the prefix it lists; manifests and table metadata files are not
  modelled.
- Local `current.json` history, SQL-table publication, the moves of a staging directory between runs, and the build lock
  itself: one builder and one publisher at a time is taken as given.
- Builds with `allow_partial`: the segments of a failed worker stay where the compaction reads them, so the statement of
  `Build.EveryFileOnce` is made for `allow_partial = false`.
- The compacted schema and access tables, which are de-duplicated; the files and baskets tables are modelled by the source
  files whose rows they hold.
- Prefetching, the tree cache, metrics, progress, histogram and description views, and EXPLAIN output.
- The route by which a reader serves an entry is any that `Scan.routes` allows; that the validation window ties the routes of
  successive entries together is not modelled there, so `TypedTransport.TypedExactly` speaks of all allowed combinations.
- The whole-entry path of the direct scan after a fallback, and its object-page relations.
- The loop that emits the rows of a metadata-only count, and its row limit.
- Exactness of ranges, hints and zonemap clauses beyond conjunctions of comparisons: elsewhere they are proved sound only.
- The resource checks of the chunk planner before its loop, and the chunk ids.
- Which of two empty source files with the same event base comes first in the query that an extension compares.
