# Verification of the quant_master stores, order engine and nested calendar

A Dafny model of the parts of quant_master whose fast or stateful forms must agree with something simple:
caches and on-disk stores, the backtest ledger and order engine, and the nested trading calendars. Code
that changes things in place is modelled by classes and loops proved against functions; the properties are
lemmas about those functions. `dafny verify dfyconfig.toml` checks everything.

## Modules

| file | models |
|---|---|
| Common, Search, RealArith | options, results, cells; bisect and Python slices; facts about real products and quotients |
| PitDump, PitRead | the linked revision records of point-in-time data, written and read |
| MemoryCache | the size-accounted LRU cache, and the LRU in front of a quote query |
| CacheLocks | the readers-writer protocol over a shared key-value store, as a machine over all interleavings |
| Calendars, NestedExecution | locating calendar ranges, stepping, and executors nested to any depth |
| Expressions, ExpressionCache | expressions over series, and their incrementally updated binary cache |
| DatasetCache | the date-indexed dataset cache, patched on update |
| DecisionLog | rebuilding decision trees from flat logs |
| Position, Account, Exchange, Simulator | holdings and settlement, running totals and metrics, clipping and dealing of orders, a simulated step |
| NestedBacktest | the ledger under nested execution, and what carries over to runs of any depth |
| TargetOrders | target weights to amounts, amounts to orders |
| Indicators | order indicators and their aggregation over trees of steps |
| BinDump | binary feature files: full dumps and updates |

Money, prices and amounts are exact reals with the constants of the code (0.1, 1e-5, 2e-5, 5.0, 1e-8).
Times, dates and calendar points are integers (nanoseconds, or days for dumps). A file is a sequence of records
or values, a lock an atomic owner cell. Prices, factors, volumes, limits, closes, tradability, provider data
and strategy decisions are arbitrary inputs of each step.

## Where the code does not do what it is for

Each item names results that hold for all inputs and give the exact condition under which the code is right, or
show that it never is.

- A non-overwriting point-in-time dump reopens the data file at offset 0 and writes over the old records; it
  is right only when it has nothing to write (`PitDump.DumpBesideRecords`).
- A relative period range older than the oldest visible period wraps around through a negative slice end
  (`PitRead.WindowExact`).
- The expression cache reads and writes one file under two lock names, so readers and its writer are never
  kept apart (`CacheLocks.ExpressionNamesNeverExclude`).
- Differences to an earlier or later period, and exponentially weighted means, read outside the window they declare,
  so what the provider answers depends on the range it is asked for (`Expressions.DeltaIsNotLocal`,
  `Expressions.LoadedIsLocalExactly`, `Expressions.WeightedMeanNotWindowed`, of raw features, and
  `Expressions.DeltaWindowedExactly`, of pointwise expressions), and updated cache files differ from regenerated ones
  (`ExpressionCache.DeltaUpdateExactly`, `ExpressionCache.LoadedUpdatesExactly`,
  `ExpressionCache.WeightedMeanUpdateFails`).
- The expression-cache update places the new tail wrongly for an instrument whose cached series ends before
  the calendar does (`ExpressionCache.UpdateNeedsLiveSeries`).
- The dataset-cache update keeps old index rows for recomputed dates (`DatasetCache.UpdateIndexExact`), a short
  index leaves stale rows (`DatasetCache.UpdateRightExactly`), and rows that have all vanished are kept
  (`DatasetCache.UpdateDataExact`).
- Generating a cache file and updating it use the lock names of two data directories
  (`CacheLocks.GenerationExcludesUpdateExactly`).
- A decision with a pair of step indices as its range, which inner decisions without a range inherit, makes the
  atomic executor raise at the first step it is meant for (`NestedExecution.StepOutcome`,
  `NestedExecution.IndexRangeRaisesExactly`, `NestedExecution.IndexRangeAboveAtomic`).
- A step that ends before the first inner calendar point runs the whole inner calendar
  (`Calendars.LocateExact`, `NestedExecution.EarlyStepRunsWholeCalendar`).
- The closeness tests of exchange and position are relative to different numbers, so a sell of the whole
  holding may leave a residue (`Position.NearSellClearsExactly`); and rounding up may make the position
  reject a sell within the holding (`Exchange.RoundedSellRejectedExactly`, `Exchange.SellRejectedExactly`).
- A sell that the position rejects has already been added to cost and turnover (`Account.RejectedSellIsBooked`).
- A volume limit for one direction only makes orders of the other raise (`Exchange.UncoveredDirectionRaises`), and
  with a trade unit of at most 0.1 of a share an exhausted limit goes on dealing
  (`Simulator.SmallUnitEvadesCap`).
- An inner step whose fills of a stock net to zero loses their traded value, and outer prices differ from
  those of the fills (`Indicators.PriceIsFlatExactly`). Aggregation also overwrites the price metric of the
  inner indicator objects, which the inner level's history shares (`Indicators.OrderIndicator.AggOrderTradeInfo`).
- Of several orders of one stock in a step the indicators keep the last only (`Indicators.SecondOrderReplacesFirst`).
- A binary-file update misplaces values after a gap or a repeated date, and every value of a new field of an
  existing symbol (`BinDump.UpdateExact`, `BinDump.DuplicateDateShifts`, `BinDump.NewFieldMisplaced`).

## Model

| member | source | states |
|---|---|---|
| PitDump.PeriodOffsetInjective | quant_master/utils/__init__.py:108-113 | distinct valid periods, annual or quarterly, get distinct slots, in the order of the periods |
| PitDump.PeriodOffsetInRange | quant_master/utils/__init__.py:108-113 | a period has a slot among those of the years first..last exactly when its year is one of them |
| PitDump.YearsOfSlotsExact | scripts/dump_pit.py:192-200 | the years an index holds are the most whose slots are all there |
| PitDump.PositionsExact | scripts/dump_pit.py:240-264 | the reference list of a slot is strictly increasing and holds exactly the rows of that slot |
| PitDump.ChainIncreases | scripts/dump_pit.py:250-260 | a chain in a forward-linked file visits strictly increasing record numbers |
| PitDump.TailIsLast | scripts/dump_pit.py:252-258 | the record the tail search ends at is the last of the chain and has no successor |
| PitDump.EveryRecordOnOneChain | scripts/dump_pit.py:238-264 | in a right store offsets strictly increase along each chain, and each record lies on the chain of its own period and no other |
| PitDump.AppendRowKeepsChains | scripts/dump_pit.py:240-264 | writing a row at the end of the data keeps every chain exactly the publication-ordered records of its slot |
| PitDump.AppendRows | scripts/dump_pit.py:240-264 | any list of appended rows leaves a right store holding the old rows followed by the new ones |
| PitDump.ChainsDetermineFiles | scripts/dump_pit.py:240-264 | two right stores over the same rows are the same two files: the invariant leaves no freedom |
| PitDump.OverlayAppendsOnlyIfTrivial | scripts/dump_pit.py:225-240 | rows written from offset 0 of an existing file equal an append if and only if one of the two lists is empty |
| PitDump.PublishedAfterExact | scripts/dump_pit.py:225-230 | the rows kept for a non-overwriting dump are exactly those at the positions of a later publication, each once and in order |
| PitDump.WriteKeepsAcyclic | scripts/dump_pit.py:252-264 | writing one record and redirecting some links to it cannot close a cycle, wherever it is written |
| PitDump.DumpBesideRecords | scripts/dump_pit.py:225-264 | a dump beside existing records leaves a right store with old and new rows if and only if nothing new is written |
| PitDump.PitField.FindTail | scripts/dump_pit.py:252-258 | the tail loop terminates on any acyclic store and returns the tail of the slot's chain |
| PitDump.PitField.StoreRow | scripts/dump_pit.py:246-264 | a row of a period with a slot is linked into its chain and written; the store stays acyclic, it is the append when the position is the end, and it fails exactly when the offset exceeds 32 bits |
| PitDump.PitField.DumpRow | scripts/dump_pit.py:240-264 | one loop iteration: a period before the first year has no slot and stops the dump; else the row is stored or does not fit |
| PitDump.PitField.DumpRows | scripts/dump_pit.py:240-264 | the row loop writes the overlay of the rows up to the first period before the first year or offset that does not fit, and ends accordingly; from an empty file a complete run leaves a right store |
| PitDump.PitField.PrepareIndex | scripts/dump_pit.py:192-223 | the index is extended or rewritten so that no period lies beyond it, and when rewritten every row has a slot; nothing is done exactly when its years already reach the last period |
| PitDump.PitField.AddYears | scripts/dump_pit.py:217-223 | the slots of the missing years are appended, all empty |
| PitDump.PitField.WriteData | scripts/dump_pit.py:225-264 | whole data-file step: which rows are written, the resulting records, and each outcome exactly when it occurs |
| PitDump.PitField.OpenData | scripts/dump_pit.py:225-238 | the data file is created, truncated or kept, and opened at its first byte |
| PitDump.PitField.DumpPit | scripts/dump_pit.py:150-264 | each outcome exactly when it occurs; overwriting or fresh dumps are right for every input; a dump beside records is right if and only if it writes nothing |
| PitRead.VisiblePrefixExact | quant_master/data/data.py:829-835 | in a date-sorted file the binary-search prefix holds exactly the records published by the date |
| PitRead.ScanFromPositions | quant_master/utils/__init__.py:168-180 | a scan of all rows equals a scan of one slot's own rows |
| PitRead.FollowSplitsChain | quant_master/utils/__init__.py:171-180 | following a chain stops exactly after its visible part |
| PitRead.FollowIsScan | quant_master/utils/__init__.py:116-180 | as-of lookup through the chain is the last revision a linear scan finds published by the date |
| PitRead.DumpThenRead | scripts/dump_pit.py:150-264 | dumping date-sorted rows and reading as of any date gives the scan of the dumped rows |
| PitRead.UnsortedDatesHideARevision | scripts/dump_pit.py:185-186 | without the date sort a revision visible at the date is not found |
| PitRead.ResumeIsRestart | quant_master/utils/__init__.py:157-180 | a read resumed from the offset of an earlier read answers as a read from the slot |
| PitRead.ReadPeriodData | quant_master/utils/__init__.py:116-180 | the read loop returns the value and offset of the last visible revision |
| PitRead.GetPeriodList | quant_master/utils/__init__.py:78-105 | the periods of a range, each valid one once and in order; raises exactly when an end is out of the bounds 1900 to 2099 |
| PitRead.WindowExact | quant_master/data/data.py:836-846 | a relative period range selects the periods at the named distances if and only if Python's negative slice end does not wrap to something after the start |
| PitRead.WindowCounterexample | quant_master/data/data.py:836-846 | with three periods, asking for the fifth before the newest returns the oldest |
| PitRead.KnownPeriodsHaveSlots | quant_master/data/data.py:836-851 | every period read for the window has a slot |
| PitRead.ReadPeriods | quant_master/data/data.py:847-851 | the value loop fills each place with the period's last visible revision |
| PitRead.PeriodFeature | quant_master/data/data.py:796-856 | the whole series of a field as of a date: window of visible periods, each with its scan answer; raises exactly when a visible end is out of bounds |
| MemoryCache.EvictCountMinimal | quant_master/data/cache.py:64-67 | the evicted oldest-first prefix makes the rest fit, and no shorter prefix does |
| MemoryCache.UnlimitedForgetsNothing | quant_master/data/cache.py:54-128 | over any run without a limit the cache holds the last value stored under each key and all keys in the order of last use |
| MemoryCache.InsertKeepsWhatFits | quant_master/data/cache.py:54-67 | an insertion makes the pair the newest entry, keeps all others with value and order, and an entry is missing only if the sizes from it on, with the new pair, exceed the limit |
| MemoryCache.InsertEvictsMinimalPrefix | quant_master/data/cache.py:54-67 | after a limited insertion the stored sizes fit the limit and exactly the minimal oldest prefix is gone |
| MemoryCache.RemoveIsOthers | quant_master/data/cache.py:60-62 | moving a key to the end leaves the others in their order |
| MemoryCache.OversizedValueEvictsAll | quant_master/data/cache.py:54-67 | a value above the limit leaves the cache empty, itself included |
| MemoryCache.RunFaithful | quant_master/data/cache.py:54-128 | over any run from an empty cache, a lookup gives the last stored value or a miss, and what is kept are the most recently used of all keys ever stored |
| MemoryCache.StepFaithful | quant_master/data/cache.py:54-128 | each operation keeps that relation to the full history |
| MemoryCache.MemCacheUnit.SetItem | quant_master/data/cache.py:54-67 | insertion on the object: new pair newest, other entries keep value and order and go only if they do not fit, size total right; the loop terminates for an oversized value |
| MemoryCache.MemCacheUnit.EvictOldest | quant_master/data/cache.py:64-67 | the eviction loop removes exactly the minimal prefix |
| MemoryCache.MemCacheUnit.AdjustSize | quant_master/data/cache.py:124-128 | the size total accounts for a replaced value |
| MemoryCache.MemCacheUnit.PopOldest | quant_master/data/cache.py:112-116 | the oldest entry is removed and returned, the total reduced |
| MemoryCache.MemCacheUnit.Pop | quant_master/data/cache.py:118-122 | an entry is removed and returned; a missing key is an error |
| MemoryCache.MemCacheUnit.Get | quant_master/data/cache.py:79-86 | a lookup moves the entry to the newest place; a missing key changes nothing |
| MemoryCache.NumpyQuote.GetData | quant_master/backtest/high_performance_ds.py:158-168 | the cached query always returns the query's own value, keeps the other entries in order, and forgets the oldest one only above the maximal number |
| CacheLocks.StepKeepsInv | quant_master/data/cache.py:310-366 | every step of every process keeps the protocol invariant of every lock name |
| CacheLocks.RunKeepsInv | quant_master/data/cache.py:310-366 | the invariant holds after any schedule of any number of processes |
| CacheLocks.Exclusion | quant_master/data/cache.py:310-366 | while a process writes under a name, no other process reads or writes under it |
| CacheLocks.CounterIsReaders | quant_master/data/cache.py:325-344 | the stored count is the number of processes between increment and decrement |
| CacheLocks.ReadersShare | quant_master/data/cache.py:318-344 | for all names a and b, equal ones included, some schedule brings two processes into the cache together, one reading under a and one under b |
| CacheLocks.StartedReadReads | quant_master/data/cache.py:318-348 | over every schedule a process that has started a read and is idle again has been reading under that name in between |
| CacheLocks.StartedWriteWrites | quant_master/data/cache.py:350-366 | so has a writer that was not refused |
| CacheLocks.WaitsExactly | quant_master/data/cache.py:310-366 | a process waits exactly when it needs the short lock and another holds it, is a first reader while some process writes, or a writer while some process reads or writes |
| CacheLocks.RefusedExactly | quant_master/data/cache.py:352-366 | a write is refused exactly while another process writes under the name |
| CacheLocks.ResetFreesOnlyReaders | quant_master/data/cache.py:336-344 | the last reader's forced reset only frees a lock that readers own |
| CacheLocks.WriterReleasesOwnLock | quant_master/data/cache.py:352-366 | a writer releases its own lock although lock ids are shared |
| CacheLocks.NoDeadlock | quant_master/data/cache.py:310-366 | whenever a process is inside an operation, some process can advance |
| CacheLocks.OverlapExactly | quant_master/data/cache.py:310-366 | a read under one name and a write under another can overlap if and only if the names differ |
| CacheLocks.FilesHaveOwnNames | quant_master/data/cache.py:610-637 | two cache files of one kind have the same lock name only if they are the same file |
| CacheLocks.ExpressionNamesNeverExclude | quant_master/data/cache.py:610-637 | the expression cache reads and writes a file under different names, so its reader never waits for its writer |
| CacheLocks.DatasetNamesExcludeExactly | quant_master/data/cache.py:1083-1083 | a dataset read excludes an update exactly when both name the same directory |
| CacheLocks.BothWriteExactly | quant_master/data/cache.py:352-366 | writes under two names can overlap if and only if the names differ |
| CacheLocks.GenerationExcludesUpdateExactly | quant_master/data/cache.py:637-681 | generating an expression or dataset file and updating it exclude each other exactly when frequency and default frequency have the same directory |
| Calendars.LocateByBisect | quant_master/data/data.py:152-166 | the dictionary-and-bisect lookup of both ends, by positions in the sorted calendar |
| Calendars.LocateExact | quant_master/data/data.py:125-166 | locating fails exactly for a start past the calendar; else the range is exact if and only if it does not end before the first point |
| Calendars.CalendarExact | quant_master/data/data.py:85-123 | the guarded calendar query returns exactly the points of any optional range |
| Calendars.NewCalendar | quant_master/data/cache.py:690-704 | the calendar from a point on is the rest of the calendar |
| Calendars.AdjacentExactly | quant_master/backtest/utils.py:102-147 | consecutive outer steps locate adjacent disjoint inner ranges if and only if no inner point falls into the second between them |
| Calendars.RangeIdxExact | quant_master/backtest/utils.py:188-210 | the clipped index range is the set of steps the time range meets if and only if it meets any |
| Calendars.StepTimesExact | quant_master/backtest/utils.py:102-147 | the closed time ranges of the steps are disjoint, and an instant lies in none exactly when it is in the second some step leaves out at its end |
| NestedExecution.ClipKeepsSteps | quant_master/backtest/decision.py:391-450 | clipping a range limit to the calendar never changes which steps are inside it |
| NestedExecution.TradeCalendarManager.Reset | quant_master/backtest/utils.py:51-85 | a reset locates the range, or raises exactly when it starts past the calendar |
| NestedExecution.TradeCalendarManager.Step | quant_master/backtest/utils.py:94-97 | a step advances by one, or raises exactly when the calendar is finished |
| NestedExecution.CollectData | quant_master/backtest/executor.py:227-303 | at any nesting depth executing a step terminates, runs the inner levels to their end, advances its own calendar exactly once, and executes the specified atomic steps or raises as specified |
| NestedExecution.UpdateTradeDecision | quant_master/backtest/executor.py:396-404 | the decision in force is the strategy's last revision |
| NestedExecution.RunInner | quant_master/backtest/executor.py:406-483 | the inner loop steps its calendar once per iteration without raising, hands the range of the decision in force to inner decisions without one, and lists as many decisions as indicators |
| NestedExecution.CollectDataLoop | quant_master/backtest/backtest.py:52-92 | the outermost run executes the specified steps, or raises as specified; also when its range cannot be located |
| NestedExecution.InnerStepsAreEntered | quant_master/backtest/executor.py:420-475 | a nested step executes exactly the inner steps it enters, in order, up to the first error |
| NestedExecution.EnteredAreInsideLimit | quant_master/backtest/executor.py:420-475 | with the limit aligned and no empty decisions these are exactly the steps inside the range limit in force |
| NestedExecution.MidnightExact | quant_master/backtest/executor.py:597-597 | the start of the day of an instant is the multiple of 86400 seconds at or before it by less than 86400 seconds, and no other instant is |
| NestedExecution.SameDayExactly | quant_master/backtest/executor.py:597-600 | two instants have one start of the day if and only if they lie between the same two multiples of 86400 seconds |
| NestedExecution.InForceExactly | quant_master/backtest/executor.py:396-404 | the decision in force at an inner step is the latest revision up to it, or the decision given if there is none |
| NestedExecution.EnteredByTime | quant_master/backtest/decision.py:264-296 | under a range of times they are exactly the steps that meet those times counted from the multiple of 86400 seconds the step starts after, if and only if some step does |
| NestedExecution.OwnTimesShield | quant_master/backtest/decision.py:518-537 | an inner decision with a range of its own is not given the outer one: no atomic step raises then, whatever ranges the levels above have |
| NestedExecution.StepOutcome | quant_master/backtest/executor.py:265-268 | a step raises for an index range if and only if some atomic step it comes to ends up with one; else it raises beyond a calendar if and only if it does not come to its end; else it executes what it comes to |
| NestedExecution.RunOutcome | quant_master/backtest/backtest.py:52-92 | the same for a whole run |
| NestedExecution.RangeHandedDown | quant_master/backtest/decision.py:518-537 | a range is handed down through any number of levels to every atomic step reached |
| NestedExecution.IndexRangeRaisesExactly | quant_master/backtest/executor.py:265-268 | a step whose index range is handed down raises if and only if it comes to an atomic step at all |
| NestedExecution.IndexRangeAboveAtomic | quant_master/backtest/decision.py:339-343 | directly above the atomic level: if and only if its time can be located, it is not skipped as empty, and the pair lets some inner step run |
| NestedExecution.TimeRangesNeverRaise | quant_master/backtest/decision.py:277-287 | when no decision has an index range no atomic step raises, at any depth |
| NestedExecution.CutMonotone | quant_master/backtest/utils.py:118-147 | in an aligned run the inner index where a step begins does not decrease with the step |
| NestedExecution.BoundMonotone | quant_master/backtest/utils.py:118-147 | nor does the atomic index where it begins |
| NestedExecution.StepTiles | quant_master/backtest/executor.py:227-303 | without limits one step of any level executes exactly the atomic steps from its own bound to the next step's |
| NestedExecution.InnerStepsTile | quant_master/backtest/executor.py:406-483 | the same for the rest of an inner run |
| NestedExecution.RunTiles | quant_master/backtest/backtest.py:52-92 | a whole run executes one contiguous range of atomic steps, each once and in order, at any depth, if the steps it reaches are aligned |
| NestedExecution.StepAscends | quant_master/backtest/executor.py:406-483 | whatever the decisions, ranges and revisions, an aligned step comes to atomic steps between its own bound and the next step's only, each at most once and in order |
| NestedExecution.RunAscends | quant_master/backtest/backtest.py:52-92 | the same for a whole run |
| NestedExecution.EarlyStepRunsWholeCalendar | quant_master/data/data.py:152-166 | a step that ends before the first inner point runs the whole inner calendar |
| Expressions.SeriesIsEval | quant_master/data/ops.py:709-774 | evaluating index by index is applying each operator to the whole loaded series of its operands |
| Expressions.DeltaAddsBack | quant_master/data/ops.py:1186-1194 | a difference added to the value it refers to is the operand, and is missing exactly when one of the two is |
| Expressions.Locality | quant_master/data/ops.py:262-272 | the value of a local expression at an index depends only on the leaves in its extended window |
| Expressions.LocalDependsOnWindowOnly | quant_master/data/ops.py:750-774 | so it is the same for all loaded ranges that cut its window alike |
| Expressions.DeltaIsNotLocal | quant_master/data/ops.py:1186-1194 | a difference of a raw feature to another period, earlier or later, reads outside the window it declares |
| Expressions.LoadedIsLocalExactly | quant_master/data/ops.py:1339-1355 | an aggregate of everything loaded of a raw feature keeps to its window if and only if it looks at no more than as many last values |
| Expressions.WeightedMeanNotWindowed | quant_master/data/ops.py:1339-1355 | no window is enough for an exponentially weighted mean |
| Expressions.ExpressionIsLoaded | quant_master/data/data.py:869-905 | the provider's answer is the evaluation on what the declared window loads, cut to the range |
| Expressions.WindowedIsWhole | quant_master/data/data.py:869-905 | for a local expression loading only the extended window and cutting equals evaluating on all stored data and cutting |
| Expressions.DeltaAt | quant_master/data/ops.py:1186-1194 | a difference of a pointwise expression on a part of the data is that on the whole unless the part leaves out its other period and there is a difference |
| Expressions.DeltaWindowedExactly | quant_master/data/ops.py:1186-1194 | the provider answers such a difference as on all stored data if and only if, for an earlier period, the first value asked for has no stored one or no difference, and, for a later one, there is no difference wherever that period is stored but after the range |
| ExpressionCache.RegenerateIsWhole | quant_master/data/cache.py:653-671 | for every expression a file generated on a calendar that contains all data holds the evaluation on all data |
| ExpressionCache.ReadBinIsLoc | quant_master/utils/__init__.py:61-75 | reading a file range by offsets is dropping the values outside it, label by label |
| ExpressionCache.HitIsWhole | quant_master/data/cache.py:591-651 | a cache hit is that evaluation cut to the range |
| ExpressionCache.HitIsProvider | quant_master/data/cache.py:591-651 | for a local expression a cache hit returns what the provider computes for the range |
| ExpressionCache.DeltaHitExactly | quant_master/data/cache.py:591-651 | for a difference of a pointwise expression to any other period it does under the same exact condition |
| ExpressionCache.KeptValuesStable | quant_master/data/cache.py:704-731 | values of a local expression at least the right window before the old end do not change when data is added |
| ExpressionCache.LiveUpdate | quant_master/data/cache.py:673-731 | for every expression, when the cached series reaches the old calendar end, the update is regeneration if and only if no kept value changes and the recomputed tail has the values of all stored data |
| ExpressionCache.UpdateOfLiveSeries | quant_master/data/cache.py:673-731 | for a local expression truncating and appending a series that reaches the old calendar end equals regeneration |
| ExpressionCache.UpdateNeedsLiveSeries | quant_master/data/cache.py:673-731 | for every expression on a series that ends earlier it does if and only if nothing is to be recomputed and no data is new |
| ExpressionCache.UpdateExact | quant_master/data/cache.py:673-731 | so for local expressions it does if and only if one of the two holds |
| ExpressionCache.DeltaUpdateExactly | quant_master/data/cache.py:673-731 | for a difference of a pointwise expression on a live series it does if and only if, for an earlier period, there is no new data or the first new value has no stored one or no difference, and, for a later one, there is no difference wherever that period is new |
| ExpressionCache.LoadedUpdatesExactly | quant_master/data/cache.py:673-731 | an aggregate of everything loaded of a raw feature is updated right for all live data if and only if it only looks at its window |
| ExpressionCache.WeightedMeanUpdateFails | quant_master/data/cache.py:673-731 | so no exponentially weighted mean of a raw feature is |
| ExpressionCache.UpdatesKeepRegenerated | quant_master/data/cache.py:673-731 | over any sequence of updates of a live instrument the file of a local expression is the regenerated one |
| ExpressionCache.DiskExpressionCache.Query | quant_master/data/cache.py:591-651 | a query reads the file or generates it first, and answers the located range; a raw feature is not cached and raises for an inverted range |
| ExpressionCache.DiskExpressionCache.Update | quant_master/data/cache.py:673-731 | an update truncates and appends as specified; each return code exactly when it occurs |
| DatasetCache.BuiltIsWellIndexed | quant_master/data/cache.py:961-974 | the built index has contiguous half-open non-empty blocks covering the sorted rows, each date once |
| DatasetCache.WellIndexedIsBuilt | quant_master/data/cache.py:961-974 | an index that fits the rows is the one that would be built |
| DatasetCache.BoundsExact | quant_master/data/cache.py:923-930 | the row slice between the index bounds is exactly the rows with start <= date <= end |
| DatasetCache.SameIndexIsSameCounts | quant_master/data/cache.py:961-974 | two sorted files have the same index if and only if every date has the same number of rows |
| DatasetCache.BuildConcat | quant_master/data/cache.py:953-974 | the index of a file cut at a date is the index of the parts, the second one shifted |
| DatasetCache.UpdateIndexExact | quant_master/data/cache.py:1127-1181 | after an update the index fits the file if and only if every recomputed date kept its number of rows |
| DatasetCache.UpdatedFiles | quant_master/data/cache.py:1127-1187 | with rows to write, the updated file is the old rows before the first recomputed date followed by exactly the recomputed rows, and the index is the old one followed by the index of the new dates |
| DatasetCache.UpdateDataExact | quant_master/data/cache.py:1127-1175 | the updated file equals the regenerated one if and only if no row before the recomputed dates has changed and, when no rows are recomputed, none were stored there |
| DatasetCache.UpdateEqualsRegeneration | quant_master/data/cache.py:1127-1175 | with a bounded right window and at least as many indexed dates it does if and only if there are recomputed rows or none were stored there |
| DatasetCache.UpdateRightExactly | quant_master/data/cache.py:1127-1150 | the update is right for every dataset of a right window and number of indexed dates if and only if the window is no longer than that number, or all positions are indexed |
| DatasetCache.DiskDatasetCache.GenDatasetCache | quant_master/data/cache.py:976-1072 | both files are written in agreement; nothing for an empty dataset |
| DatasetCache.DiskDatasetCache.PatchFiles | quant_master/data/cache.py:1166-1187 | the old lines are cut off, the recomputed rows appended, and the index of the new dates appended to the old one |
| DatasetCache.DiskDatasetCache.ReadDataFromCache | quant_master/data/cache.py:752-776 | a range read through the index returns exactly the rows of the range |
| DatasetCache.DiskDatasetCache.Update | quant_master/data/cache.py:1074-1187 | each return code exactly when it occurs; otherwise the rows before the first recomputed date are kept and those from it on are the recomputed ones, the file is the regenerated one exactly under the condition of UpdateDataExact, and the index agrees with it if and only if row counts are kept |
| DecisionLog.FormatDecisions | quant_master/backtest/__init__.py:312-346 | the loop recurses on strictly shorter slices and builds the specified tree |
| DecisionLog.FlattenFormat | quant_master/backtest/__init__.py:312-346 | flattening the tree of any log gives the log back |
| DecisionLog.FormatProper | quant_master/backtest/__init__.py:312-346 | every level of the tree uses one frequency that no ancestor uses |
| DecisionLog.FormatFlattenExactly | quant_master/backtest/__init__.py:312-346 | rebuilding a tree from its flattening gives it back if and only if it has that property |
| Position.StockValueAt | quant_master/backtest/position.py:427-432 | the value of the stocks does not depend on the order they are summed in |
| Position.BuyRecords | quant_master/backtest/position.py:328-350 | a new stock records the trade price and a later buy keeps the recorded one; the amount is the value over the price, the cash falls by value and cost, no other stock changes |
| Position.SellRecords | quant_master/backtest/position.py:352-399 | a sell is refused exactly when its value exceeds that of the holding with its tolerance; a booked one takes the lesser of its amount and the holding, is paid that amount's value less the cost, and changes no other stock |
| Position.BuyChangesValue | quant_master/backtest/position.py:342-350 | a buy changes the total value by the cost and by the gain of the amount at the carried price |
| Position.SellChangesValue | quant_master/backtest/position.py:352-399 | a sell changes it by the profit against the carried price, the cost, and exactly what the tolerances cut or drop |
| Position.MarkChangesValue | quant_master/backtest/position.py:418-419 | a new close changes it by amount times price move |
| Position.SellNeverNegative | quant_master/backtest/position.py:352-391 | no sell leaves a negative holding or reaches the later error for one |
| Position.NearSellAccepted | quant_master/backtest/position.py:357-375 | an order close to the holding is accepted up to 499999.999 shares |
| Position.NearSellBoundExact | quant_master/backtest/position.py:357-375 | every close order is within the tolerance if and only if the holding is at most 499999.999 |
| Position.NearSellClearsExactly | quant_master/backtest/position.py:357-391 | such an order deletes the holding if and only if it is not below it by more than the test relative to the order allows |
| Position.NearSellLeavesResidue | quant_master/backtest/exchange.py:924-933 | 99999.000005 of 100000 shares skip rounding but leave a residue holding |
| Position.Position.BuyStock | quant_master/backtest/position.py:342-350 | the new state of book and cash after a buy |
| Position.Position.SellStock | quant_master/backtest/position.py:352-399 | the new state or the error of a sell, for all settlement types |
| Position.Position.UpdateStockPrice | quant_master/backtest/position.py:418-419 | the new price, or the error for a stock not held |
| Position.Position.StartSettle | quant_master/backtest/position.py:504-508 | settlement opens, or the error when one is open |
| Position.Position.CommitSettle | quant_master/backtest/position.py:510-517 | delayed cash is paid in and settlement closes |
| Position.Position.CalculateStockValue | quant_master/backtest/position.py:427-432 | the loop in arbitrary order computes the sum of amount times price |
| Position.Position.CalculateValue | quant_master/backtest/position.py:434-437 | stocks, cash and delayed cash together |
| Account.MarkAllGains | quant_master/backtest/account.py:225-246 | closing a bar changes the stock value by the sum of amount times (new close - old price) |
| Account.StepConserves | quant_master/backtest/account.py:183-223 | each operation keeps the balance of value, return and cost up to price moves and tolerances |
| Account.RunConserves | quant_master/backtest/account.py:183-246 | over any run of trades, closes and settlements the value changes by return - cost + price moves + tolerance losses |
| Account.DriftFreeExactly | quant_master/backtest/position.py:357-379 | a sell keeps the plain balance if and only if no tolerance touches it, or what is touched is worth nothing |
| Account.ExactRunConserves | quant_master/backtest/account.py:183-246 | without such sells the plain conservation law holds for every run |
| Account.RejectedSellIsBooked | quant_master/backtest/account.py:203-216 | a sell of more than the holding and its tolerance leaves the position as it is but is added to cost and turnover; the ledger is unchanged if and only if nothing is booked at all |
| Account.RunNeverShort | quant_master/backtest/position.py:352-391 | no run makes a holding negative |
| Account.SettlementOnlyDelays | quant_master/backtest/position.py:504-517 | any trades inside a cash settlement leave, once it is committed, the same account as without one |
| Account.ReturnsTelescope | quant_master/backtest/account.py:250-291 | the recorded rates, weighted by the account values they refer to, telescope: returns to final account - initial cash + total cost, turnover rates to the total turnover, cost rates to the total cost |
| Account.RowsShowTheirBars | quant_master/backtest/account.py:250-291 | whatever follows, the row of a bar shows account value, stock value, cash and totals as they stood at its end, stock value and cash with delayed cash making up the account value |
| Account.ReturnsAreEarnings | quant_master/backtest/account.py:250-291 | that sum is the booked trading return plus the price moves of the whole run |
| Account.Account.UpdateStateFromOrder | quant_master/backtest/account.py:183-201 | the totals after booking, also when the price lookup fails |
| Account.Account.UpdateOrder | quant_master/backtest/account.py:203-223 | position and totals after a trade: sells are booked first, buys after |
| Account.Account.UpdateCurrentPosition | quant_master/backtest/account.py:225-246 | every holding with a close takes it, suspended ones keep theirs, in any order |
| Account.Account.UpdatePortfolioMetrics | quant_master/backtest/account.py:250-291 | the recorded row, relative to the row recorded last |
| Exchange.RoundUp | quant_master/backtest/exchange.py:785-808 | rounding goes up by at most 0.1/factor and never below zero |
| Exchange.RoundDown | quant_master/backtest/exchange.py:785-808 | rounding goes down by less than (unit - 0.1)/factor |
| Exchange.RoundIsGreatest | quant_master/backtest/exchange.py:785-808 | the result is the greatest whole number of units not above the unadjusted amount plus 0.1 |
| Exchange.RoundZeroExactly | quant_master/backtest/exchange.py:785-808 | zero rounds to zero if and only if the unit is more than 0.1 of a share |
| Exchange.RoundTwice | quant_master/backtest/exchange.py:785-808 | rounding is idempotent if and only if the unit is more than 0.1 of a share |
| Exchange.ClipIsMost | quant_master/backtest/exchange.py:810-856 | the clipped amount is the most of the order that every volume limit has room for |
| Exchange.GetVolLimit | quant_master/backtest/exchange.py:298-340 | the limits of buying and of selling are the rules whose key covers the direction, in order, and none without a threshold |
| Exchange.UncoveredDirectionRaises | quant_master/backtest/exchange.py:810-856 | clipping any order raises for want of a limit if and only if the threshold has no key for all and none for its direction |
| Exchange.AffordableExactly | quant_master/backtest/exchange.py:858-881 | an amount can be paid for with its fee if and only if it is at most the cash limit |
| Exchange.NothingAffordable | quant_master/backtest/exchange.py:858-881 | below the least fee nothing can be paid for and the limit is zero |
| Exchange.BuyWithinCash | quant_master/backtest/exchange.py:946-966 | a clipped buy spends at most the cash plus the rounding slack with its fee, and nothing when the cash cannot pay the fee |
| Exchange.SellWithinCash | quant_master/backtest/exchange.py:918-943 | a clipped sell covers its fee, and exceeds the holding by at most the rounding slack |
| Exchange.RoundedSellRejected | quant_master/backtest/exchange.py:924-933 | rounding up can make the position reject a sell within the holding |
| Exchange.RoundedSellRejectedExactly | quant_master/backtest/exchange.py:918-943 | a clipped sell is more than the position accepts if and only if it is close to the holding, beyond the tolerance and pays its fee, or is not close and its greatest lot does both |
| Exchange.RoundedSellRejectedByOrder | quant_master/backtest/exchange.py:918-943 | with cash for the least fee and rates of at most one it is if and only if some whole number of units lies above the tolerated holding but not above the order and the 0.1 |
| Exchange.SellRejectedExactly | quant_master/backtest/exchange.py:424-466 | dealing a sell raises for an oversell if and only if the order is tradable, the stock held, the dealt value not negligible, and it is more than the position accepts |
| Exchange.SmallSlackNeverRejected | quant_master/backtest/exchange.py:924-933 | a rounding slack within the tolerance rules out the rejection of a sell within the holding |
| Exchange.BuyIsMost | quant_master/backtest/exchange.py:946-966 | without rounding an amount is dealt in full by a buy if and only if it is within the clipped order and the cash pays for it with its fee; nothing is dealt if the cash does not cover the order's own fee |
| Exchange.BuyIsRounded | quant_master/backtest/exchange.py:946-966 | with rounding a buy deals the greatest lot of what it would deal without |
| Exchange.SellIsMost | quant_master/backtest/exchange.py:918-943 | without rounding a sell deals the order or all that is held, an order close to the holding as it is, and nothing if cash and value do not cover its fee |
| Exchange.SellIsGreatestLot | quant_master/backtest/exchange.py:918-943 | with rounding, and not close to the holding, the dealt amount is the greatest number of units in the lesser of order and holding plus 0.1, if it pays its fee |
| Exchange.PlainSell | quant_master/backtest/exchange.py:883-943 | without rounding and limits and with cash for the least fee, dealing a sell deals all of the order that the position holds |
| Exchange.BookedFee | quant_master/backtest/exchange.py:883-916 | a dealt value above 1e-5 is charged the rate of its direction plus impact cost times the square of clipped amount over volume, or plus impact cost without a volume, but no less than the least fee; nothing is charged or booked otherwise |
| Exchange.PlainFee | quant_master/backtest/exchange.py:919-976 | without impact cost a booked buy is charged the greater of value times opening rate and the least fee, a sell the same with the closing rate |
| Exchange.OtherSideIgnored | quant_master/backtest/exchange.py:836-976 | changing the closing rate and the sell limits changes no buy, the opening rate and the buy limits no sell |
| Exchange.BookedBuy | quant_master/backtest/exchange.py:424-466 | a booked buy takes value and fee from the cash, adds the amount to the holding, and changes no other stock; cost and turnover grow by fee and value |
| Exchange.BookedSell | quant_master/backtest/exchange.py:424-466 | a booked sell takes its amount, at most all, off the holding and pays the value of what it took less the fee, and changes no other stock |
| Exchange.Exchange.ClipAmountByVolume | quant_master/backtest/exchange.py:810-856 | the loop over the limits leaves the specified amount on the order, or each error |
| Exchange.Exchange.ClipSell | quant_master/backtest/exchange.py:918-943 | the sell branch on the order object |
| Exchange.Exchange.ClipBuy | quant_master/backtest/exchange.py:946-966 | the buy branch on the order object |
| Exchange.Exchange.CalcTradeInfoByOrder | quant_master/backtest/exchange.py:883-976 | deal amount, factor, value and fee of an order, or each error; a value above 1e-5 is charged the rate of its direction and its impact, at least the least fee |
| Exchange.Exchange.Deal | quant_master/backtest/exchange.py:424-466 | the ledger after dealing an order; nothing is booked for an untradable order or a negligible value |
| Simulator.SimulationIsRun | quant_master/backtest/executor.py:590-611 | a simulated run that raises nothing is a run of the account's operations |
| Simulator.SimulationConserves | quant_master/backtest/executor.py:590-611 | so the value it changes is return less cost, plus price moves and what sell tolerances cut or drop |
| Simulator.BuyKeepsCash | quant_master/backtest/exchange.py:946-976 | a buy leaves the cash unchanged, or was made with non-negative cash and leaves at least minus its allowance |
| Simulator.SellKeepsCash | quant_master/backtest/exchange.py:918-943 | a sell within the holding leaves at least minus what its rounding slack is worth |
| Simulator.CloseSellAccepted | quant_master/backtest/exchange.py:924-933 | a sell close to the holding skips rounding and is then always accepted, for holdings up to 499999.999 |
| Simulator.CashSafety | quant_master/backtest/executor.py:590-611 | over any run cash stays above the lesser of its start and minus one order's allowance: overshoots do not add up |
| Simulator.CashNeverNegative | quant_master/backtest/executor.py:590-611 | without unit rounding the cash never becomes negative |
| Simulator.DealtWithinClip | quant_master/backtest/exchange.py:883-966 | an order deals at most its clipped amount plus the slack, and nothing of nothing |
| Simulator.StepUnderCap | quant_master/backtest/exchange.py:836-853 | one order raises the counter at most to the cap plus the slack |
| Simulator.CounterExact | quant_master/backtest/executor.py:594-611 | the counter changes only by what is dealt, and starts over only on a later day |
| Simulator.DailyCap | quant_master/backtest/executor.py:594-611 | over any run the amount dealt of a stock in a day exceeds its cumulative limit by at most one rounding step |
| Simulator.DailyCapExact | quant_master/backtest/executor.py:594-611 | without rounding it never exceeds the limit |
| Simulator.SmallUnitEvadesCap | quant_master/backtest/exchange.py:785-808 | on an exhausted limit a buy deals something if and only if the unit is at most 0.1 of a share |
| Simulator.ParallelBuysFirst | quant_master/backtest/executor.py:562-588 | parallel trading deals the same orders with no sell before a buy |
| Simulator.IterationKeepsOrder | quant_master/backtest/executor.py:562-588 | serial trading takes the orders as they are, parallel trading keeps the order within each direction, any other type is refused |
| Simulator.FillsAreBooked | quant_master/backtest/executor.py:590-628 | a run that raises nothing reports one fill per order, in sequence, with the value of the amount at its price, and cost and turnover grow by exactly the fees and values reported |
| Simulator.SimulatorExecutor.DealNext | quant_master/backtest/executor.py:594-611 | counter, day and ledger after one order, or its error |
| Simulator.SimulatorExecutor.CollectData | quant_master/backtest/executor.py:590-628 | state and results after the orders of a step, stopping at the first error |
| NestedBacktest.StepIsFlat | quant_master/backtest/executor.py:227-303 | a step of any level on the shared position, with settlements, orders, inner steps and closes, is its events simulated one after the other |
| NestedBacktest.InnerIsFlat | quant_master/backtest/executor.py:406-483 | the same for the inner steps |
| NestedBacktest.RunIsFlat | quant_master/backtest/backtest.py:52-92 | a backtest of any depth is one flat simulated run |
| NestedBacktest.StepMatches | quant_master/backtest/executor.py:406-483 | the orders among those events are those of the atomic steps come to, in order, and they end in an error exactly when the step raises it |
| NestedBacktest.RunMatches | quant_master/backtest/backtest.py:52-92 | the same for a backtest |
| NestedBacktest.StepEnds | quant_master/backtest/executor.py:252-303 | a step that raises nothing lets the holdings take their closes once at the end of each step it finishes, of any level, and ends every settlement it opens |
| NestedBacktest.RunEnds | quant_master/backtest/backtest.py:52-92 | the same for a backtest |
| NestedBacktest.RunErrorMatches | quant_master/backtest/executor.py:265-268 | the events of a backtest end in exactly the error its calendars and ranges raise |
| NestedBacktest.EventDays | quant_master/backtest/executor.py:594-600 | an aligned backtest trades on days that do not go back |
| NestedBacktest.DaysExactly | quant_master/backtest/executor.py:594-600 | two atomic steps trade on one day if and only if their instants lie in the same 86400 seconds from a multiple of that length |
| NestedBacktest.NestedCashSafety | quant_master/backtest/executor.py:590-611 | over a backtest of any depth cash stays above the lesser of its start and minus one order's allowance |
| NestedBacktest.NestedConserves | quant_master/backtest/account.py:183-246 | over a backtest of any depth that raises nothing the shared position's value changes by return - cost + price moves + tolerance losses |
| NestedBacktest.NestedDailyCap | quant_master/backtest/executor.py:594-611 | over an aligned backtest of any depth the amount dealt of a stock in a day exceeds its cumulative limit by at most one rounding step |
| TargetOrders.GenerateAmounts | quant_master/backtest/exchange.py:537-592 | amounts for the funded stocks, and each error exactly when weights demand it |
| TargetOrders.AmountIsGreatest | quant_master/backtest/exchange.py:578-592 | an amount is whole and the greatest whole number of shares that its share of the cash buys |
| TargetOrders.AmountsWithinCash | quant_master/backtest/exchange.py:564-592 | the amounts are whole, cost at most the cash in all, and leave less than one share of each stock unspent |
| TargetOrders.GenerateOrders | quant_master/backtest/exchange.py:616-687 | the loop builds the sell and buy lists in shuffled order, sells first; it raises if and only if some stock needs a missing factor |
| TargetOrders.OrdersDealEachOnce | quant_master/backtest/exchange.py:642-687 | dealing the orders changes each stock by its own signed deal and no other |
| TargetOrders.TargetsReached | quant_master/backtest/exchange.py:594-687 | tradable holdings end within the rounding bounds of their targets, exactly on a zero target or without rounding; others are unchanged |
| TargetOrders.OrdersWellFormed | quant_master/backtest/exchange.py:642-687 | every order is positive, one per stock, and no sell follows a buy |
| Indicators.StepIsFlat | quant_master/backtest/report.py:308-335 | a step with one order per stock adds up its fills, for every metric |
| Indicators.SecondOrderReplacesFirst | quant_master/backtest/report.py:317-325 | with several orders of a stock in a step any metric is the sum over the fills if and only if those before the last sum to zero |
| Indicators.SumsAreFlat | quant_master/backtest/report.py:350-365 | amounts, values and costs of any tree of steps are the sums over all its fills |
| Indicators.SumsAreNet | quant_master/backtest/report.py:308-365 | in the fills' own terms: amounts and values are those bought less those sold, costs all fees, the traded value that bought less that sold but for what inner steps lose |
| Indicators.StocksAreFilled | quant_master/backtest/high_performance_ds.py:648-669 | every level has entries for exactly the stocks that its fills are of |
| Indicators.AggregateTraded | quant_master/backtest/report.py:350-372 | an aggregated price carries the traded value on unless the net amount is zero |
| Indicators.TradedIsFlatLessLoss | quant_master/backtest/report.py:350-372 | the traded value of a tree is that of its fills less the loss read off the fills |
| Indicators.PriceIsFlatExactly | quant_master/backtest/report.py:350-372 | the aggregated price is that of all fills if and only if there is no net amount or the inner steps lose nothing, as read off the fills |
| Indicators.OneWayLosesNothing | quant_master/backtest/report.py:350-372 | a stock whose fills share a direction loses nothing at any nesting |
| Indicators.TreeIsFlat | quant_master/backtest/report.py:350-372 | for such a stock tree and flat aggregation agree in amount and price |
| Indicators.RoundTripLosesPrice | quant_master/backtest/report.py:366-371 | a round trip in one inner step makes the outer price 3 where the fills give 1 |
| Indicators.DirectionIsBuyExactly | quant_master/backtest/report.py:373-377 | at every level the direction is buy if and only if some fill was |
| Indicators.QuotedForBuyExactly | quant_master/backtest/report.py:491-529 | base prices are quoted for buying if and only if some fill of the stock was a buy, else for selling |
| Indicators.OwnExactly | quant_master/backtest/report.py:491-529 | a step has a base price of its own if and only if some fill is of the stock and the quotes its inner steps rest on have some volume |
| Indicators.BaseIsFlat | quant_master/backtest/report.py:491-529 | such a base price is the volume-weighted mean of the quotes it rests on, at any nesting |
| Indicators.CoveredRestsOnLowest | quant_master/backtest/report.py:501-520 | when every inner step has fills of the stock and volume in its quotes, those quotes are the lowest level's alone |
| Indicators.SumByIndex | quant_master/utils/index_data.py:57-84 | the per-stock loop sums each metric, missing entries and values counting as zero |
| Indicators.OrderIndicator.UpdateOrderTradeInfo | quant_master/backtest/report.py:308-335 | the metrics of a lowest-level step |
| Indicators.OrderIndicator.AggOrderTradeInfo | quant_master/backtest/report.py:350-377 | the aggregate of the inner steps; the inner prices are overwritten by traded values in place |
| Indicators.OrderIndicator.AggBasePrice | quant_master/backtest/report.py:491-529 | base prices and volumes from inner entries or exchange quotes in the recorded direction; unchanged when nothing was traded |
| BinDump.FullDumpExact | scripts/dump_bin.py:228-270 | the header is the calendar index of the first row and the k-th value is the row at start + k, or missing |
| BinDump.CellIsFirstRows | scripts/dump_bin.py:228-240 | a date reads as the field of the first row of that date, missing if that row lacks it or no row has the date |
| BinDump.NewDatesExact | scripts/dump_bin.py:499-511 | an update takes the symbol's own dates after its end, sorted, as often as they occur |
| BinDump.MergedOwn | scripts/dump_bin.py:228-240 | on its own dates the merge drops nothing: one value per new row |
| BinDump.FullDumpGrows | scripts/dump_bin.py:246-270 | a full dump of more rows is the old file followed by the new rows on the calendar after the end |
| BinDump.UpdateAgainstRun | scripts/dump_bin.py:499-514 | whatever the new dates are, the append equals a full dump if and only if their values are those of the run of the calendar after the old end |
| BinDump.UpdateExact | scripts/dump_bin.py:499-514 | for distinct new dates on the calendar it does if and only if they are a gapless run after the old end |
| BinDump.DuplicateDateShifts | scripts/dump_bin.py:499-514 | for new dates without a gap it does if and only if no date repeats |
| BinDump.NewFieldMisplaced | scripts/dump_bin.py:256-270 | a new field of an existing symbol gets header 0 and is never the file of a full dump |
| BinDump.EndRecorded | scripts/dump_bin.py:510-512 | the recorded end is the last date of the stored rows |
| BinDump.UpdatesAreFullDump | scripts/dump_bin.py:499-523 | after any number of gapless updates the file is one full dump of all rows |
| BinDump.WriteFieldsAt | scripts/dump_bin.py:256-270 | writing the fields of a symbol touches each of its files once and no other |
| BinDump.DumpWritesFull | scripts/dump_bin.py:246-270 | a dump in full, or of a new symbol in an update, writes each field's file afresh |
| BinDump.UpdateWritesFiles | scripts/dump_bin.py:499-514 | an update of a known symbol changes each field's file as specified |
| BinDump.DumpData.WriteBin | scripts/dump_bin.py:246-270 | the files after the field loop, appended or written afresh |
| BinDump.DumpData.UpdateSymbol | scripts/dump_bin.py:499-523 | files and recorded span of a symbol after an update, known or new |

## Left out

- Floating-point rounding, float32 casts and the 2^24 limit of a float32 header.
- Byte encodings, struct formats, file permissions and renames, pickled metadata, HDF and pandas mechanics,
  process pools, progress bars and logging.
- Lock acquisition timeouts, the reset of all locks, and the process-local branch with its thread-owned lock.
- The in-process instance cache of index managers and the visit counters of caches.
- The interval of quarterly files named by their suffix.
- Fractional sizes of rolling operators and references, resampling operators, operators that change the instrument,
  pairwise rolling operators over a window of zero, and the operators that read point-in-time features.
- Exact conditions for differences, and for aggregates of everything loaded, of operands other than those named.
- Instruments whose fields hold different calendar ranges: one range stands for all the fields of an instrument.
- Expressions.Expression: a range whose first index is above its last one gives no values; the code raises for it,
  unless the extended window puts the two in order. DiskExpressionCache.Query has the error.
- Strategies: a plan gives the decision made for each step and each revision of it. User-defined trade ranges other
  than a pair of indices or a range of times, range limits on the data calendar, RL data collection and the strategy
  hooks around a step.
- The position with infinite cash, holding counts and weights, filling in missing prices, position history copies.
- The benchmark column and the trade indicators computed from order indicators (fulfil rate, price advantage).
- Dealing an order against a bare position or against none (only the account form of the call is modelled), the
  fallback of a missing deal price to the close, and how tradability is derived from quotes.
- The random generator behind the order of generated orders: any order is allowed.
- Removal of stale instruments after a binary update, backups, and the calendar and instrument text files.
- ExpressionCache.DiskExpressionCache.Update: requires the cached series to end within the calendar up to the
  recorded last update, which every file written by the cache does.
- DatasetCache.DiskDatasetCache.Update: the provider's dataset is a function of the range that returns sorted rows
  from the range's start on; how features are computed is Expressions.
- PitDump.PitField.DumpRow: a period before the first year is reported as an error. For the slot just before the first
  one the code instead reads the first year as a link into the data file, and what it reads there is not modelled.
- DatasetCache.UpdateRightExactly: speaks of datasets with some rows to recompute; without any, UpdateDataExact applies.
- Indicators.OrderIndicator.AggBasePrice: what the exchange quotes for an interval, clipped to the trade range of the
  inner decision, is given.
- NestedExecution.RunTiles: is for plans without range limits and empty decisions.
- Indicators.OrderIndicator.AggOrderTradeInfo: requires the inner indicator objects to be distinct, as each inner step
  creates its own.
- Account.SettlementOnlyDelays: is about given trades; what the exchange deals depends on the cash without the delayed
  part.
- Account.UpdatePortfolioMetrics: a rate relative to a zero account value is reported as a division by zero.
- Account.ReturnsTelescope: bars are recorded at increasing times, as the calendar gives them.
- Simulator.CashSafety: covers runs without cash settlement whose sells do not exceed the holding.
- NestedBacktest.RunStep: is a function of the shared position and totals; the metrics and indicators that each level
  records of its own are not part of it.
- Simulator.DailyCap: needs a trade unit above 0.1 of a share; below it the cap fails (SmallUnitEvadesCap).
- BinDump.FullDumpExact: field names are taken as already lower-case, and calendars as sorted.
