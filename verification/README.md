# Verification of event_store

A Dafny model of the parts of `event_store` whose correctness spans several functions, stores or
steps, with proofs of what they promise. `dafny verify dfyconfig.toml` checks it all.

- **Movers that store exactly once.** Log processing moves Log batches from Pebble to ClickHouse
  while ingest writes, inserts fail having stored or not, the process crashes and the power fails
  (`BatchIds`, `LogBatches`, `PebbleLog`, `LogMover`). Pebble is a list of writes that a power loss
  cuts to any prefix holding the last synced one; a ClickHouse table is a map from dedup token to
  rows in which the first write wins. `LogProcessor` runs the code of one pass against those stores,
  with others' steps between its statements, and shows each pass to be a run of the machine's steps; `Bisection` finds the Logs a store refuses;
  `Monitors` scan what was stored. `EventBatches` and `EventMover` do the same for Events with
  SQLite's counts behind the seen guard, and `IngestCounts` for the counts by second.
- **The bin cache.** `BinGenerations` are the generations by hour, `BinCacheLru` the entries,
  `BinCacheRuns` the interleavings of scans with inserts and drops, and `BinScan` one scan that takes
  bins from the cache and queries the gaps. `BinScanRuns` puts them together, entries kept beside
  the interleavings and a scan whose lookups and query come at different moments, and `BinScanTables` runs it on a Query's table.
- **The Query compiler.** `QueryExpr` gives conditions their two-valued meaning and `QuerySql` writes
  them as SQL with three truth values; `QueryMeaning` shows the two agree. `QueryHead`, `QueryRange`,
  `QueryScope`, `DashboardFilter` and `QueryCompile` are the head: its PREWHERE split, its time range,
  the Services and files it keeps, Dashboard filters, and the compile loop. `QueryBins` finds the
  tables made bin by bin, and `BinTables` shows what that buys.
- **Paging.** `NewestFirst` merges two sources; `Paging` reads doubling spans and follows pages.
- **Small algorithms.** `SpaceSaving` and `KeyCounts` keep the top keys of a day; `KeyCountRuns`, with
  `KeyTotals`, follows them over inserts, retries, lost answers and restarts. `HeavyReads` are the slots
  of heavy reads, `SelfTime` Spans' self times.

How the model stands to the code:

- Log processing is modelled for one Project; other Projects' batches only raise the id floor. The
  Log transform may answer differently on each try, so what a range stored is what one try kept. The
  three tables an insert writes are represented by the logs table and by ClickHouse's answer to the
  whole insert; the key counts are modelled on their own.
- New batch ids assume what the code does: that the floor's 62 random bits are not all ones when the
  clock has not passed it (`BatchIds.CanChoose`). `BatchIds.NextComesAfter` shows the condition exact.
- The bin cache keeps keys as they are, not hashed. A bin's rows are worked out from its Logs alone,
  which is what `BinTables.TableIsItsBins` and `QueryBins.Bins` are for. A change that a crash left under way stays
  under way in `BinCacheRuns` until its hours are bumped.
- Where a scan's limit is 0 its query has no row, so the bins it puts hold none, complete or not
  (`BinScan.ScanBinnedTable`).
- A refuted expectation: the code's comments say a negated test is written true or false for every row
  (`event_store/logquery/sql.go:154-157`). The negation of `!=` is written with `=`, which is NULL where
  a side is missing; `QueryMeaning.NegatedTestNull` shows that this is exactly where it fails. A WHERE
  reads that as false, which, with a side there, is what the negation means.
- An Event's outcome (a row, or none it can have) and its Issue are a function of the Event, as the
  fingerprint map is stable. Only process crashes are modelled for Events.
- Times are whole microseconds, numbers are real numbers, strings are sequences of characters in order
  of those, and scalar functions, arithmetic and text matching are any functions that have no value
  where an argument has none.
- Self time counts moments from year 1 on, where Go's zero time is; the sweep starts there.
- A refuted expectation: counts kept in memory are not always the table's. `KeyCountRuns.StaleRun` gives
  a run, `KeyCountRuns.RightExactly` says exactly when they are, and `KeyCountRuns.RetryMends` when a
  retry makes them so. `KeyCountRuns.TableKeepsBounds` and `TableIsTrueOfFew` say what the table tells
  all the same.
- A refuted expectation: a power loss can make a Monitor return a row again, exactly when it leaves the
  cursor before the row's batch (`Monitors.RereadsExactly`).

## Model

| member | source | states |
|---|---|---|
| BatchIds.BytesOrderIsNumeric | event_store/storage/pebble_logs.go:104-112 | Comparing batch ids byte by byte is comparing the 128-bit numbers they spell, both ways |
| BatchIds.NextLogBatchID | event_store/storage/pebble_logs.go:104-112 | The in-place carry adds one to the 62 random bits, wraps all ones to zero, and keeps the time, version and variant bits |
| BatchIds.NextComesAfter | event_store/storage/pebble_logs.go:104-112 | The next id spells the number after the id, and comes after it in key order, if and only if the random bits are not all ones |
| BatchIds.ExhaustedWraps | event_store/storage/pebble_logs.go:104-112 | An id whose random bits are all ones has a next id that comes before it |
| BatchIds.ExhaustedByValue | event_store/storage/pebble_logs.go:104-112 | The number a floor spells tells whether its random bits are all ones, which is the condition LogMover lets an ingest choose its id under |
| BatchIds.NewLogBatchID | event_store/storage/pebble_logs.go:89-100 | An id made from a time holds that time first, then version 7 and the variant |
| BatchIds.NewIdsInTimeOrder | event_store/storage/pebble_logs.go:89-100 | Ids made from times order by those times, whatever their random bytes |
| BatchIds.BatchIdWriter.ChooseId | event_store/storage/pebble_logs.go:62-86 | A new batch id comes after the floor exactly when the clock's candidate does or the floor's random bits are not exhausted, and becomes the floor |
| BatchIds.BatchIdWriter.KeepAbove | event_store/storage/pebble_logs.go:116-122 | The floor rises to an id that comes after it and is never lowered |
| BatchIds.BatchIdWriter.SeedBatchFloor | event_store/storage/pebble_logs.go:140-159 | Reading one key per Project, backwards, puts the floor at or above every batch id in Pebble |
| LogBatches.ReadWhole | event_store/storage/pebble_logs.go:165-193 | A read returns the batches after the cursor in id order, whole, up to the first with which they hold max Logs |
| LogBatches.WholeIsEnough | event_store/storage/pebble_logs.go:165-193 | What is read stops just where it holds max Logs or at the end: any fewer of the batches hold fewer than max |
| LogBatches.KeepUpTo | event_store/logprocessing/processor.go:416-423 | Cutting a read at the recorded id keeps exactly the batches up to it |
| LogBatches.ReadAgain | event_store/logprocessing/processor.go:332-340 | A range read whole once is read again, cut at its last batch, as the same batches, however many came since |
| LogBatches.RowsDistinct | event_store/storage/logs_clickhouse.go:154-156 | Rows stored of a range repeat no Log id where the arrived batches share none |
| PebbleLog.TruncationKeepsRanges | event_store/storage/pebble_logs.go:307-309 | A power loss, which may cut Pebble's log to any prefix holding the last synced write, loses no recorded range and changes none |
| PebbleLog.SyncedIs | event_store/storage/pebble_logs.go:307-309 | A power loss may leave exactly the prefixes of the log that hold its last recorded id, which alone is written synced |
| PebbleLog.RangeKept | event_store/storage/pebble_logs.go:307-316 | No later write changes which batches a recorded range covers |
| PebbleLog.LivePastCursor | event_store/storage/pebble_logs.go:198-200 | Past the cursor a reader sees every batch ever written: deletes take only those at or below it |
| PebbleLog.ReplayIsSameRange | event_store/logprocessing/processor.go:330-340 | While the recorded id is past the cursor, the batches selected are non-empty and exactly those first recorded |
| PebbleLog.FreshRangeReads | event_store/logprocessing/processor.go:341-362 | With nothing recorded past the cursor, what is read next is a range that may be recorded |
| LogMover.StepKeeps | event_store/logprocessing/processor.go:314-382 | Every step (ingest write, read, record, insert that fails having stored or not, cursor move, delete, crash, power loss, restart) keeps the stores' invariant |
| LogMover.IngestWrites | event_store/storage/pebble_logs.go:62-86 | An ingest writes exactly the Logs it is handed, as one batch more, past every batch before it, that a reader sees |
| LogMover.AcceptedIsStored | event_store/storage/pebble_logs.go:62-86 | In every run, what an ingest was handed, its write not lost to a crash, is the Logs of one written batch past every earlier one; once the cursor reaches it, in a run whose tries are each sent all their range, each of those Logs has exactly one row |
| LogMover.StoredAtMostOnce | event_store/storage/logs_clickhouse.go:182-214 | In every run each Log id is in the logs table at most once |
| LogMover.StoredIsTried | event_store/storage/logs_clickhouse.go:182-214 | In every run what the table holds under a token is exactly what the first try that stored Logs under it was sent |
| LogMover.BelowCursorStoredOnce | event_store/logprocessing/processor.go:314-382 | In every run each batch at or below the cursor is in exactly one recorded range; ClickHouse acknowledged it and holds under its token exactly what its first try that stored Logs was sent, or nothing, the acknowledged try having kept no Log |
| LogMover.EachLogHasOneRow | event_store/logprocessing/processor.go:314-382 | In every run whose tries are each sent all their range, each Log of each batch at or below the cursor has exactly one row, the Log as it is in its batch, which AcceptedIsStored shows is as it arrived |
| LogMover.GoneOnlyBelowCursor | event_store/storage/pebble_logs.go:195-200 | In every run a batch gone from Pebble is at or below the cursor, so its range was stored first |
| LogMover.DeleteLeavesThoseToStore | event_store/storage/pebble_logs.go:195-200 | A delete leaves exactly the batches past the cursor |
| LogMover.ReplayInEveryRun | event_store/logprocessing/processor.go:314-340 | In every run a replay chooses the recorded range's batches under the same token |
| LogMover.RecordedForGood | event_store/storage/logs_clickhouse.go:150-156 | Whatever runs after, power losses too, a recorded token covers the same batches and keeps what it stored |
| LogMover.FloorAfterRestart | event_store/logprocessing/processor.go:145-170 | After a restart in any state the writer's floor is at or above every id ever written, deleted batches included |
| LogMover.PassMovesCursor | event_store/logprocessing/processor.go:314-382 | From any reachable state a pass in which nothing fails stores a range and moves the cursor to its end |
| LogProcessor.Stores.StoreLogs | event_store/logprocessing/processor.go:314-382 | The pass itself, statement by statement over Pebble and ClickHouse, whatever the stores answer and whatever ingest writes, other Projects' steps or crashes come between its statements, is a run of the state machine's steps, each insert sent what the transform kept of the batches chosen or that without the rejected Logs; a pass that is done has moved the cursor past them, and it says whether more may wait |
| LogProcessor.Stores.ProcessProject | event_store/logprocessing/processor.go:273-304 | A pass that fails counts one content error more exactly where its last error was one, a pass that is done or a new process starts at none, and the stores are as the machine keeps them however it ended |
| LogProcessor.Stores.InsertRange | event_store/logprocessing/processor.go:429-490 | The first insert sends under the range's unchanged token exactly what the transform kept; a second follows exactly where content failed once too often and the search has an answer, of that without exactly the rejected Logs; and the result, its error's kind with it, is the last one's, unless the process ends between them |
| Bisection.RejectedAreTheBad | event_store/logprocessing/processor.go:495-519 | Where a group fails on content exactly when one of its Logs does alone, the search returns exactly those Logs, in order, and ends |
| Bisection.RejectedFailAlone | event_store/logprocessing/processor.go:495-519 | Whatever the store answers of groups, each Log the search rejects is one of those tried that fails on its content alone |
| Bisection.FailsWithoutAnswer | event_store/logprocessing/processor.go:495-519 | The search fails only where some try gave no answer |
| Bisection.BatchesOf | event_store/logprocessing/processor.go:522-532 | Logs grouped back into batches flatten to the same Logs, with no empty batch and no two neighbours of one id |
| Bisection.StoreApart | event_store/logprocessing/processor.go:452-490 | Whatever the store answers, what is inserted in a rejected range's place is its batches, under their ids, without exactly the Logs the search rejected, and nothing where the search has no answer |
| Bisection.SkipsOnlyTheBad | event_store/logprocessing/processor.go:452-490 | Leaving Logs out by id leaves out exactly those that fail alone |
| Bisection.ApartIsKept | event_store/logprocessing/processor.go:452-490 | What is left is one a range's insert may store: the same batches with some of their own Logs |
| Monitors.ReadsEachLogOnce | event_store/storage/logs_clickhouse_read.go:393-429 | A Monitor that starts each scan at the last returned cursor has read, once each and no other, the rows of every batch stored since it was armed, up to that cursor, if no power loss takes the cursor behind it |
| Monitors.ReturnsStoredRowsOnce | event_store/storage/logs_clickhouse_read.go:393-429 | What the scans returned is each row in the logs table of a batch after the arming cursor and up to the last returned one, nothing else, no Log twice, in the order of the batches |
| Monitors.CursorRises | event_store/logprocessing/processor.go:359-382 | Without a power loss no step takes a Project's cursor back |
| Monitors.StepKeepsWindow | event_store/storage/logs_clickhouse_read.go:393-429 | No step of Log processing changes the rows of the batches up to a cursor already reached |
| Monitors.ReadsFromFallen | event_store/storage/logs_clickhouse_read.go:393-429 | After a power loss and a scan, in every run from there, all a Monitor returns is what it had returned and then the rows from the cursor the loss left, or from its own, whichever is less |
| Monitors.RereadsExactly | event_store/storage/logs_clickhouse_read.go:393-429 | Some run after a power loss makes a Monitor return a row again if and only if the loss left the cursor before the row's batch |
| EventBatches.CountedMeaning | event_store/storage/sqlite.go:200-265 | Counting rows gives each Issue how many of the rows are its own, and their earliest and latest times |
| EventBatches.OfIssueOnce | event_store/storage/sqlite.go:200-265 | A row is among its Issue's rows as often as it is among all, and among no other's |
| EventBatches.TalliesCount | event_store/storage/sqlite.go:200-265 | Tallying a batch by Issue and joining the tallies counts what counting row by row does |
| EventBatches.SeenStore.RecordSeenEvents | event_store/storage/sqlite.go:200-265 | One transaction counts exactly the rows past the seen guard and moves the guard to the batch's end |
| EventBatches.ReadAgain | event_store/storage/pebble.go:210-236 | An Event range read once is read again as the same Events, once cut at its end |
| EventMover.TimesSeenIsExact | event_store/processing/processor.go:204-303 | In every run with process crashes and replays, an Issue's times_seen is exactly the number of its stored Events at or below the seen guard, and first and last seen are the earliest and the latest of their times |
| EventMover.EventStoredOnce | event_store/processing/processor.go:374-387 | In every run no Event row is stored twice, and every Event at or below the cursor whose row can be stored is |
| EventMover.WrittenIsStored | event_store/processing/processor.go:204-303 | In every run an Event once written is among the Events to the end, and its row, if the table can hold one, is stored once the cursor is at or past it |
| EventMover.CountsReachCursor | event_store/processing/processor.go:204-303 | In every run, with no range recorded past the cursor, the Issues' rows count every stored Event at or below the cursor and no other |
| EventMover.PassMovesCursor | event_store/processing/processor.go:204-303 | From any reachable state with an Event past the cursor, a pass in which nothing fails moves the cursor: to the recorded range's end, or else past a full batch or to the last Event |
| EventMover.ReplayInEveryRun | event_store/processing/processor.go:204-240 | In every run a recorded range past the cursor is chosen again as exactly the Events it first covered |
| IngestCounts.IngestCounter.Count | event_store/ingest/counts.go:50-63 | A request's counts are added to its Project's second, and the conservation of every field of every second is kept |
| IngestCounts.FieldsTellCounts | event_store/ingest/counts.go:50-63 | Counts alike in all eight fields are the same, so adding and conserving by field leaves none out |
| IngestCounts.IngestCounter.Flush | event_store/ingest/counts.go:68-102 | Over writes that fail having stored or not: rows stored once per token, other than the pending token's, plus pending rows and unwritten seconds, sum field by field to what was counted; a token is only ever sent with one set of rows; and it succeeds exactly when the pending write, if any, and the write of the ended seconds, if any, do |
| IngestCounts.RowsHoldSecondsOnce | event_store/ingest/counts.go:78-92 | Rows in their order hold each second once |
| BinGenerations.Generations.Bump | event_store/storage/logs_clickhouse_table.go:199-214 | An insert raises by one the generation of each hour some Log of its is in, and of no other |
| BinGenerations.Generations.BumpDay | event_store/storage/logs_clickhouse_table.go:218-227 | A day's deletion raises by one the generation of the hour of each moment of the UTC day, and of no other |
| BinGenerations.HoursOfDayAre | event_store/storage/logs_clickhouse_table.go:218-227 | The hours bumped for a day are exactly those of its moments, midnight to midnight UTC |
| BinGenerations.Generations.WriteKey | event_store/storage/logs_clickhouse_table.go:230-237 | A key holds the generations of the hours the bin touches, hour by hour |
| BinGenerations.CoveredHours | event_store/storage/logs_clickhouse_table.go:230-237 | The hours a key holds are exactly those some moment of the bin lies in |
| BinCacheRuns.CachedIsCurrent | event_store/storage/logs_clickhouse.go:198-205 | In every interleaving of scans (read key, query, put), evictions, inserts, day drops (change, then bump) and restarts, an entry under a bin's current key holds the bin's current Logs unless a change to one of its hours is not yet bumped |
| BinCacheRuns.StaleForGood | event_store/storage/logs_clickhouse_table.go:183-214 | Until a restart, a key that is no longer current never becomes current again |
| BinCacheRuns.DroppedDayIsStale | event_store/storage/logs_clickhouse_cleanup.go:195-219 | Dropping a day's Logs changes Logs of the hours it bumps alone; after the bump, until a restart, no key read before of a bin with a moment on the day is current, and a bin with none keeps its key and its Logs |
| BinCacheRuns.InsertedIsStale | event_store/storage/logs_clickhouse.go:198-205 | After an insert's bump, until a restart, no key read before of a bin that an inserted Log is in is current |
| BinCacheRuns.BumpKeepsGood | event_store/storage/logs_clickhouse_cleanup.go:195-219 | Bumping a change's hours leaves no stale entry under a current key |
| BinCacheLru.BinCache.Get | event_store/storage/logs_clickhouse_table.go:370-379 | A get returns what the key holds and makes it the most recently used; no entry comes or goes |
| BinCacheLru.GetMovesToFront | event_store/storage/logs_clickhouse_table.go:370-379 | A get puts the entry found in front of the others, which keep their order; a miss changes nothing |
| BinCacheLru.BinCache.Put | event_store/storage/logs_clickhouse_table.go:382-402 | A put of more than maxBytes changes nothing; else the new entry goes first, in place of its key's, and the last are dropped until the rest fits |
| BinCacheLru.PutDropsLast | event_store/storage/logs_clickhouse_table.go:382-402 | Of the new entry and the others in their order a put keeps the longest part from the front that takes at most maxBytes; one too big changes nothing |
| BinCacheLru.FittingIsLongest | event_store/storage/logs_clickhouse_table.go:382-402 | Dropping the last entries one by one leaves the longest prefix that takes at most maxBytes |
| BinCacheLru.PutStays | event_store/storage/logs_clickhouse_table.go:382-402 | An entry small enough is still there after its own put, as the most recently used |
| BinCacheLru.HoldsLastKept | event_store/storage/logs_clickhouse_table.go:370-402 | Over every sequence of gets and puts the entries take at most maxBytes, no key has two, and each is the one last put under its key |
| BinCacheLru.InOrderOfUse | event_store/storage/logs_clickhouse_table.go:370-402 | Over every sequence of gets and puts the entries are in the order of their last uses, the latest first, so the least recently used go first |
| BinScan.BinStart | event_store/storage/logs_clickhouse_table.go:452-459 | The bin of a time starts at a multiple of the size, at or before it and less than a size before, for times before 1970 too |
| BinScan.SpansBetween | event_store/storage/logs_clickhouse_table.go:281-297 | The spans hold exactly the range's times that no cached bin has |
| BinScan.MergedIsWhole | event_store/storage/logs_clickhouse_table.go:244-345 | Cutting the query's rows at the limit, merging the cached bins' rows in and cutting again gives the first limit rows of the query over the whole range |
| BinScan.PutIsComplete | event_store/storage/logs_clickhouse_table.go:306-330 | Every bin put is complete, where the query stopped at its limit too, if the limit is not 0 |
| BinScan.FindBins | event_store/storage/logs_clickhouse_table.go:257-272 | The bins found are the whole bins of the range one after another from the first, up to one that does not fit or whose hour has not ended, each a hit exactly when the cache has its key, with its rows |
| BinScan.EndedMeans | event_store/storage/logs_clickhouse_table.go:257-262 | A bin has ended exactly when the hour of each of its moments has |
| BinScan.Merge | event_store/storage/logs_clickhouse_table.go:332-345 | The loop that puts cached bins between the query's rows computes the merge, cut at the limit |
| BinScan.ScanBinnedTable | event_store/storage/logs_clickhouse_table.go:244-345 | For any cache of right entries, any range, size and limit, the scan returns exactly the first limit rows of the query over the whole range; it asks the table for exactly the times no cached bin has; every other bin it may cache that the answer has whole is put; the cache stays right if the limit is not 0; and what it adds is of ended hours |
| BinScanRuns.InterleavedScan | event_store/storage/logs_clickhouse_table.go:244-345 | Whatever inserts and drops do between a scan's lookups and its query, it gives what the plain query would over a table with, in each cached bin, the Logs the bin was worked out from, and elsewhere those of the moment its query ran |
| BinScanRuns.SeenAsOfLookup | event_store/storage/logs_clickhouse_table.go:183-272 | Of a cached bin those are the Logs there were when it was looked up, unless a change to one of its hours was not yet bumped |
| BinScanRuns.SettledScan | event_store/storage/logs_clickhouse_table.go:244-345 | Where no cached bin had an unbumped change when it was looked up, or other Logs when the query ran, an interleaved scan gives exactly the plain query's rows |
| BinScanRuns.ScanPuts | event_store/storage/logs_clickhouse_table.go:306-330 | Each bin a scan puts, whatever came between its lookups and its query, has the rows of the Logs of that bin its query found, if the limit is not 0 |
| BinScanRuns.RunKeeps | event_store/storage/logs_clickhouse_table.go:183-402 | In every interleaving of lookups, queries, puts, evictions, inserts, drops and restarts, each entry's rows are those of the Logs put under its key, no key has two, and they take at most maxBytes |
| BinScanRuns.FreshInRuns | event_store/storage/logs_clickhouse.go:198-205 | In every such interleaving the cache is right, as ScanBinnedTable asks, for a scan of which no bin has an unbumped change |
| BinScanRuns.LookedUpIsSeen | event_store/storage/logs_clickhouse_table.go:257-272 | In every such interleaving a bin looked up comes, if the cache has it, with the rows of the Logs put under its current key, as InterleavedScan asks |
| BinScanTables.AnswerIsTable | event_store/logquery/bins.go:19-26 | The table of a Query by bin(time, size) and other columns is one a scan may make bin by bin, and its plain query is the first limit rows of that table over the range's Logs |
| BinScanTables.ColumnsTell | event_store/logquery/bins.go:19-26 | A scan's row tells its bin, its other value and the Logs of its group |
| QueryMeaning.ConditionWritten | event_store/logquery/sql.go:158-196 | The SQL of every condition, written with negate or without, is true under three-valued logic exactly where the condition's two-valued meaning differs from negate, given that each == and != has a side with a value |
| QueryMeaning.ValueWritten | event_store/logquery/sql.go:269-310 | The SQL of a value is NULL where the value is missing and the value elsewhere; a condition's is never NULL |
| QueryMeaning.CompareWritten | event_store/logquery/sql.go:200-224 | A comparison's SQL is exact if and only if it isn't the IS DISTINCT FROM form with neither side there |
| QueryMeaning.NegatedTestNull | event_store/logquery/sql.go:154-196 | Of negated tests, exactly a != of sides of one type, not on the string column, with a side missing is NULL; every other one is true or false on every row |
| QueryMeaning.NegatedNEIsNull | event_store/logquery/sql.go:154-157 | The negation of level != "x" is NULL for a Log without a level |
| QueryMeaning.BothMissingIsFalse | event_store/logquery/sql.go:212-217 | For level != environment on a Log with neither, both the SQL and its negation's are not true, though the condition holds |
| QueryMeaning.LiteralIsPresent | event_store/logquery/sql.go:200-224 | A literal on a side of each == and != is enough for the SQL to be exact on every row |
| QueryMeaning.StringColumnIsExact | event_store/logquery/sql.go:230-246 | The string column equals a non-empty string exactly where the Attribute does |
| QueryMeaning.IsEmptyWritten | event_store/logquery/sql.go:250-265 | The emptiness test, of strings and dynamic values too, is true or false on every row and never NULL |
| QueryExpr.ValueIsOfType | event_store/logquery/expr.go:251-271 | A compiled expression's value is of its type |
| QueryHead.WriteWhere | event_store/logquery/sql.go:48-62 | Where keeps exactly the Logs that meet every stage of the head |
| QueryHead.WriteFilter | event_store/logquery/sql.go:68-91 | A Log meets both parts of Filter exactly when it meets the head, Rest answers the same whatever the Log's message is, and there is no message part exactly when no conjunct reads message and nothing is searched |
| QueryHead.ConjunctsHold | event_store/logquery/sql.go:94-99 | A condition holds exactly where all its conjuncts do |
| QueryHead.MessageUnread | event_store/logquery/sql.go:114-150 | An expression that reads no message has the same value and truth whatever the message is |
| QueryHead.ReadsMessageIs | event_store/logquery/sql.go:114-150 | An expression reads message exactly when the message or a column of it is among the names in it |
| QueryHead.SearchWritten | event_store/logquery/sql.go:649-657 | A search's SQL is true exactly where the message or a string Attribute holds one of its terms |
| QueryRange.Narrow | event_store/logquery/stages.go:294-306 | The narrowed range has exactly the times of the request's at which no comparison of time with a literal in the head's conjuncts is false; so it loses no Log that meets the head; it never ends before it starts; and a request without bounds is left alone |
| QueryRange.NarrowedByKeeps | event_store/logquery/stages.go:308-341 | A Log a condition holds of is in the narrowed range exactly when it was in the range |
| QueryRange.ComparisonNarrowsFully | event_store/logquery/stages.go:308-344 | A comparison of time, with its sides either way round, narrows the range to just the times it holds at |
| QueryScope.Scope | event_store/logquery/reads.go:35-51 | The scope keeps a Service and file exactly when every conjunct that picks Services or files keeps them |
| QueryScope.PassingIsPicked | event_store/logquery/reads.go:35-51 | Every Log that meets the head has a Service and a file the scope keeps |
| QueryScope.PickedPasses | event_store/logquery/reads.go:35-51 | A head that does nothing but pick Services and files is met by exactly the Logs the scope keeps |
| QueryScope.EqualsAnyMeans | event_store/logquery/reads.go:56-78 | Comparisons read as a list of strings hold only of Logs whose Field is one of them, and, where their sides are of one type, of all of those |
| QueryScope.EqualsAnyIs | event_store/logquery/reads.go:56-78 | A condition is read as a list of strings exactly when each one it ors is the Field == a string, either way round, and the list is exactly those strings |
| QueryScope.Intersect | event_store/logquery/reads.go:81-95 | The values in both, where no list stands for any value |
| QueryCompile.Compile | event_store/logquery/compile.go:82-126 | Run over any rows that fit, the compiled head and tail give what the parsed stages do one after the other, each where keeping the rows its condition is true of; a Log meets the head exactly when it meets each leading where and search; the tail alone gives what the stages from the first that leads no more do; search after another stage is refused; no always is left; and the range is the head's, narrowed |
| QueryCompile.QueryMeans | event_store/logquery/compile.go:82-126 | Splitting the stages and dropping what is always true keeps the Query's meaning, for any functions the other stages are |
| QueryCompile.HeadIsKept | event_store/logquery/compile.go:82-126 | A Log of the request's range meets the head exactly when it is in the narrowed range and meets both Filter parts, and then the scope keeps its Service and file |
| DashboardFilter.CompileFilter | event_store/logquery/expr.go:699-755 | The loop over a filter's values compiles the comparison FilterMeans is about, always for no values |
| DashboardFilter.FilterMeans | event_store/logquery/expr.go:699-802 | A positive comparison holds where the Field matches some value of the filter: as text, or as the number or bool it reads as, and given a fixed type only as that where it is of the type; a negated one where it matches none |
| DashboardFilter.NegatedIsComplement | event_store/logquery/expr.go:699-755 | On every Log the negated comparison is the complement of the positive one if and only if the filter is not set to All, where both hold |
| DashboardFilter.FoldingKeepsMeaning | event_store/logquery/expr.go:631-663 | Folding always away keeps a condition's meaning with each comparison with All read as true |
| DashboardFilter.AlwaysOrNone | event_store/logquery/expr.go:631-663 | A compiled predicate is either exactly always or a writable condition with no always in it; and where each == and != of its conditions and fixed sides has a literal for a side, so has each of its own |
| QueryBins.FindDefinition | event_store/logquery/bins.go:102-130 | The backward search finds the value the latest stage gave a column, and none past a stage that drops it |
| QueryBins.DefinitionIs | event_store/logquery/bins.go:102-130 | A column has a definition exactly where some stage before makes it and no stage between makes it anew or drops it, as any but an extend without it does that makes columns |
| QueryBins.ThroughDefinition | event_store/logquery/bins.go:63-95 | A column is the Log's own time, or bins it, exactly as its definition does where it was made |
| QueryBins.ColumnIsDefinition | event_store/logquery/bins.go:102-130 | A column's value as a stage reads it is its definition's, through every rename and shadowing by extend and project |
| QueryBins.BinsOwnTime | event_store/logquery/bins.go:63-95 | Where a bin size is found, the expression is the start of the bin of that size of the Log's own time |
| QueryBins.Bins | event_store/logquery/bins.go:27-58 | Bins succeeds with a size exactly when the last stage is a summarize by the table's first column, shown as binned by that size, which bins the Log's time by it, and each stage before keeps or drops Logs one by one; then the first by column is floor(time/size)*size of every Log's time |
| BinTables.TableApart | event_store/logquery/bins.go:19-26 | At the start of any bin, a table is the table of the Logs before it followed by that of the others |
| BinTables.TableIsItsBins | event_store/logquery/bins.go:19-26 | The table over any set of bins is those bins' tables, one after another in order |
| BinTables.RowsAreOfTheirBins | event_store/logquery/bins.go:19-26 | A table has a row for a bin and by values exactly where some Log has them, from just those Logs |
| BinTables.RowsInOrder | event_store/logquery/bins.go:19-26 | A table's rows are in order of their bins first, no two of one bin and one value |
| BinTables.GroupInOrder | event_store/logquery/bins.go:19-26 | A row's group has its Logs in the order they came in |
| NewestFirst.MergeNewestFirst | event_store/storage/logs_old_files.go:1258-1268 | The merge loop gives the first limit of the two lists merged |
| NewestFirst.MergedIsBoth | event_store/storage/logs_old_files.go:1258-1268 | A merge holds the Logs of both lists, each as often |
| NewestFirst.MergeSorted | event_store/storage/logs_old_files.go:1258-1274 | Two lists newest first with no Log in common merge into one newest first |
| NewestFirst.MergeOfFirst | event_store/storage/logs_clickhouse_read.go:240-250 | Merging only the limit newest of each source gives the limit newest of both |
| Paging.ScanSpans | event_store/storage/logs_clickhouse_read.go:228-264 | Reading spans of an hour, two, four and so on up to a day returns the newest Logs asked for, and where it stops at its limit or budget, the position after which exactly the others come |
| Paging.ScanLogs | event_store/storage/logs_clickhouse_read.go:188-264 | For any clipping to storable times, position and the sources' own times, a page and what its position leaves are together exactly the Logs asked for, and the position moves on |
| Paging.Query | event_store/handler/logs.go:160-229 | A page and what its cursor leaves are together the Logs wanted, with a take the first left of them |
| Paging.FollowPages | event_store/handler/logs.go:160-229 | For every choice of page limits and budget stops, following next ends, and gives the Logs of the range newest first, all of them or exactly the first take |
| Paging.AskedIsEveryLog | event_store/storage/logs_clickhouse_read.go:188-264 | The Logs asked for are each Log of either source in the range, once |
| SpaceSaving.MergeKeyCounts | event_store/storage/logs_keys.go:121-149 | One merge adds the batch, new keys from the least count kept if full, keeps the top in rank, and tells the keys changed and evicted |
| SpaceSaving.RunKeepsBounds | event_store/storage/logs_keys.go:116-149 | After any sequence of merges at most keep keys are kept, each count is between the true count and the true count plus the least kept, every key whose true count exceeds that least is kept, and counts are exact until keep keys have come |
| KeyCounts.ChangeRows | event_store/storage/logs_clickhouse.go:340-357 | The rows written sum, key by key, to the counts kept less those before |
| KeyCounts.KeyCountStore.DayCounts | event_store/storage/logs_clickhouse.go:380-405 | A day's counts are those in memory, or else the keys whose rows in the table do not sum to 0, with those sums |
| KeyCounts.KeyCountStore.InsertKeyCounts | event_store/storage/logs_clickhouse.go:310-376 | From any memory and table, right or not: where ClickHouse takes the rows, each day's sums change by what merging its batch changes the counts held, once for a token, and once it answers, memory has the merged counts, or none of the days for a range inserted again; the other days stay unless too many are kept |
| KeyTotals.MergeRaisesTotal | event_store/storage/logs_keys.go:116-149 | A merge of any Logs into no more counts than are kept makes them come to more in all, whatever it evicts |
| KeyCountRuns.DriftAfter | event_store/storage/logs_clickhouse.go:310-376 | A day in memory after a step is as far behind the table, key by key, as before it, except that a lost answer to its rows adds their change |
| KeyCountRuns.RightExactly | event_store/storage/logs_clickhouse.go:305-376 | After any inserts, retries, lost answers and restarts, a day's counts in memory are the table's if and only if no answer to rows of the day was lost since the day was last out of memory |
| KeyCountRuns.RetryMends | event_store/storage/logs_clickhouse.go:361-375 | After a stored first try whose answer was lost and an answered retry, memory is the table's again if and only if the retry has each day of the first try that memory had, or more than 64 days besides its own are kept |
| KeyCountRuns.StaleRun | event_store/storage/logs_clickhouse.go:361-375 | A run in which the retry has another day, and memory stays behind the table |
| KeyCountRuns.TableKeepsBounds | event_store/storage/logs_clickhouse.go:305-376 | After any inserts, retries, lost answers and restarts in which each answer lost on a day is made good before rows of the day are next stored, the table's rows of the day sum to at most 1000 positive counts within the Space-Saving bounds of the batches stored, each once, and exact until 1000 keys have come |
| KeyCountRuns.TableIsTrueOfFew | event_store/storage/logs_clickhouse.go:305-376 | After any inserts, retries, lost answers, made good or not, and restarts, while at most 1000 keys have come on a day, the table's rows of it sum to exactly the Logs stored that day with each key, each batch once |
| HeavyReads.HeavyReadSlots.Take | event_store/handler/logs_heavy_reads.go:81-119 | A read gets a slot exactly when there is room once those it replaces are gone; those are stopped, each once; a refused read changes and stops nothing |
| HeavyReads.RoomIsFit | event_store/handler/logs_heavy_reads.go:81-119 | A read gets a slot exactly when the slots held after it, those it replaces given back, are no more than there are |
| HeavyReads.RoomWithoutReplacing | event_store/handler/logs_heavy_reads.go:81-119 | A read of a Query and range already read gets in when all slots are taken; one of another that replaces none exactly when a slot is free |
| HeavyReads.HeavyReadSlots.Drop | event_store/handler/logs_heavy_reads.go:122-128 | A release gives back the read's share, and the slot when no one is left in it |
| HeavyReads.RunKeeps | event_store/handler/logs_heavy_reads.go:81-128 | Over every sequence of takes, replacements and repeated releases, held slots never exceed the cap, none is empty, an owner's reads share one, and a stopped read was stopped once and holds none |
| HeavyReads.ReleaseDropsOnlyIts | event_store/handler/logs_heavy_reads.go:114-128 | A release drops no other read, and does nothing once the read holds no slot |
| HeavyReads.TakeStopsOnlyItsOwner | event_store/handler/logs_heavy_reads.go:81-119 | A read that gets a slot stops exactly its owner's reads of other Queries or ranges |
| SelfTime.Sweep | event_store/spanprocessing/spans.go:230-244 | The sweep over sorted intervals totals the number of microseconds in at least one |
| SelfTime.Covered | event_store/spanprocessing/spans.go:215-244 | Covered is the number of microseconds of the Span that lie in at least one child, whatever their overlap, nesting and order |
| SelfTime.SetSelfTimes | event_store/spanprocessing/spans.go:192-211 | Each Span's self time is set to its duration less the number of its microseconds that its children have, and nothing else changes; a Span but the segment is the child of the last Span of its parent's id, or of the first Span where there is none or it is itself |
| SelfTime.OneParent | event_store/spanprocessing/spans.go:192-208 | Each Span but the segment is the child of exactly one Span, and the segment of none |
| SelfTime.AllCoveredMoments | event_store/spanprocessing/spans.go:215-244 | The self time of a Span that starts in year 1 or later is its duration less all its moments that some child has |
| SelfTime.SelfTimeWithin | event_store/spanprocessing/spans.go:192-244 | Every self time is between 0 and the duration |

## Left out

- Monitors.ReadsEachLogOnce: rows are read in the order their ranges were stored, not newest first and not cut at the limit, since only which rows a scan returns is at stake.
- EventMover.TimesSeenIsExact: does not cover a power loss, as SQLite runs with synchronous=NORMAL and promises none.
- IngestCounts.IngestCounter.Flush: does not model a service without a writer of counts, which only drops them.
- BinScan.ScanBinnedTable: does not model a query that fails, which returns before anything is put, or the counts of hits and misses.
- BinCacheLru.BinCache.Put: takes an entry's bytes as given, since how they are guessed matters to no promise.
- QueryMeaning.ConditionWritten: does not cover parse_json, paths into JSON and aggregates, and takes tostring of a missing bool as missing, where ClickHouse's if() gives 'false'.
- QueryMeaning.CompareWritten: is exact for one comparison; for a whole condition ConditionWritten goes one way, as two comparisons that are off may cancel out.
- QueryRange.Narrow: times in a Query with digits past the microsecond are not modelled.
- QueryCompile.Compile: takes the parsed stages as given, with compile errors other than a misplaced search, the Attributes a tail reads and the columns in scope left out.
- QueryBins.Bins: leaves out the Key it hashes the Query into, and sizes that are not whole microseconds, which timespans here cannot be.
- Paging.ScanLogs: takes each source's Logs as those that meet the condition; a source's query that fails ends the scan and is left out.
- KeyCounts.KeyCountStore.InsertKeyCounts: is one Project's, so days kept of other Projects, which count towards the 64, are left out.
- SelfTime.SetSelfTimes: how Spans are read from an Event is left out.
- The messages step of Event processing, Issue creation by fingerprint, Retention, the disk limit and recent arrivals: easier than what is proved here.
- Timers, backoff (takeDue, retryLater's waits), logging and metrics: no promise of the stores rests on them.
- SQL text, identifier quoting, and what ClickHouse's functions compute: an AST and any NULL-strict functions stand in.
- The Query parser and the VRL runtime: not part of this model; the syntax tree and the transform are given.
- ClickHouse's finite dedup window and hash collisions in cache keys: tokens are remembered and keys kept whole.
- Old Log file loading, buckets, storage policies, HTTP handlers, auth and configuration: plumbing over input and output.
- Overview, Performance and Volumes answers, budget search and refusal messages: formatting, or floating point with easy claims.
