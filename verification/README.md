# Models and proofs for monitor_app

This project models the parts of monitor_app that make guarantees no test can settle, and
proves those guarantees for every input, every split of the input, every interleaving and
every run:

| part | files |
|---|---|
| shared view cache: single flight, takeover, generations, change token, LRU and byte budget | ViewCacheSpec, ViewCache, ViewCacheProtocol |
| tailing a growing CSV file: the `csv` reader as an automaton, whole records, blocks, polls, saved position, restarts | CsvReader, CsvRecords, CsvTail, CsvText, TailImport, TailHeader, TailRuns |
| the fair, re-entrant fetch gate | Gate, GateRuns, GateLine |
| bulk insertion: chunks, runs, merging, two UPSERT strategies, the PostgreSQL key sequence | BulkSpec, BulkPlan, BulkRaws, BulkWriter |
| compare-and-set import from external sources by several processes | SourceStore, SqliteSource, JsonlSource |
| settings as JSON Merge Patches (RFC 7386, section 2) and the patch between two settings | Settings |
| foreign-key-safe replacement of table contents, and repeated keys in a file | DependencyOrder, ForeignKeys, KeyTracker |
| the warehouse demo: stock indexes, shipping order, capacity, closing the books | Ledger, Warehouse |
| alert rules: edges, memoised evaluation | Alerts, AlertRuns |

Each part has the same shape.  Code that changes state step by step is a class or a method
with loops, and its contract ties the new state to a function of the old one (`Store`,
`Records`, `Handed`, `Applied`, `Merged`, `Evaluation`, ...).  What the program is for is then
proved about those functions: as lemmas over all inputs, or, where callers, processes or
crashes interleave, over all runs of a state machine whose steps are the sections under the
lock (or the transactions) and the steps between them.  The laws at the centre do not speak
of these functions but of what went in and what came out: the calls and clears of a run, the
flags and the order in which threads asked, the places of rows in a list, the bytes of a
file, the paths in a value.

Assumptions, all explicit in the statements: the change token never repeats a value after a
commit; a transaction happens completely or not at all; a CSV file being tailed only grows
(for the run theorem; what is noticed otherwise is exact in `ResetExactly`); an external
SQLite table gets rows with growing watermarks; equal digests mean equal rows; thresholds of alert
rules are written without a colon and different ones differently; random
choices, clocks and conversions of cells are arbitrary inputs.

## Where the code does not keep its promise

* `view_cache.py` 189, 215, 318: an entry of another data version is served when it was stored
  after the caller had read the clock, because the age is then negative and below the limit 0.
  `StaleHitHappens` is a run, `OtherVersionServedIffStoredLater` the exact condition, and
  `NothingOlderThanToken` shows that this is the only way to get older data, apart from
  entries made while the token could not be read, which carry no version.
* `bulk.py` 82-87: a key sequence that has never been used and starts above the largest key is
  taken back (`BulkWriter.UnusedSequenceGoesBack`, one row with the key 5 and `START 1000`),
  although the documentation says it never is.  `AdvancesForward` is the exact condition for
  one call, and the contract of `InsertRows` the one for a whole insertion.
* `connectors.py` 431: a JSONL poll that found no record saves its offset without the cursor
  check.  `RecordTwice` is a run that imports a record twice; `EachRecordOnce` says that each
  record is imported once exactly in the runs in which no such write moves the cursor over
  something that can be imported.
* `overrides.py` 90: Python's `==` takes `True`, `1` and `1.0` for the same, so such a change
  is not saved (`TrueIsOne`); `RoundTripExactly` is the exact condition.
* `simulation.py` 382: an adjustment by +2 pieces with one free case needs two pieces to a case
  (`AdjustmentFits`, an equivalence); `AdjustmentOverfills` is a step that overfills a shelf.
* `importer.py` 1008-1013: a restart looks for the header in the first MiB only.
  `HeaderFoundIff` is the exact condition.  A longer header with a quote is not found, and all
  later rows are silently skipped (`LostHeaderLosesRows`); of one without a quote, the part
  within the first MiB is taken for the header, and later rows are imported under it
  (`CutHeaderIsUsed`).
* `alert_service.py` 244: rules of two views can share a key when a view name has a colon; one
  view's recovery then ends the other's alert for good (`SharedKeyLosesAlert`).  Recorded
  digests stand for the alerts in all runs if and only if no rules of two views share a key
  (`RecordsHoldIff`), which can be told from two rules (`SameKeyIff`).

## Model

| member | source | states |
|---|---|---|
| ViewCache.Cache.Enter | monitor_app/services/view_cache.py:214-237 | the first locked section: prune if due, then hit, join, refuse to wait or lead, as the specified step, with the byte count and registered flights kept right |
| ViewCache.Cache.Finish | monitor_app/services/view_cache.py:263-268 | a finished flight is unregistered only if it is still the registered one, in one step with its completion |
| ViewCache.Cache.FollowTimeout | monitor_app/services/view_cache.py:278-300 | a follower whose wait timed out: done, newer stored result, another flight to follow, or a takeover with the copied token |
| ViewCache.Cache.StoreLocked | monitor_app/services/view_cache.py:310-329 | a late, outdated or oversized result is refused as specified; the byte count stays the sum of the entry sizes |
| ViewCache.Cache.PruneLocked | monitor_app/services/view_cache.py:336-356 | expired entries and then the least recently used go, in the loops of the source |
| ViewCache.Cache.Clear | monitor_app/services/view_cache.py:366-371 | everything is dropped and the generation advances |
| ViewCacheSpec.EvictedIsLongestSuffix | monitor_app/services/view_cache.py:350-356 | eviction keeps the longest suffix in order of use that fits both limits |
| ViewCacheSpec.PruneIsBounded | monitor_app/services/view_cache.py:336-356 | after pruning, entries are unique, within both limits, unexpired, and all were there before |
| ViewCacheSpec.EnterKeepsBounded | monitor_app/services/view_cache.py:216-237 | entry count and bytes stay within their limits |
| ViewCacheSpec.StoreKeepsBounded | monitor_app/services/view_cache.py:310-329 | the same for storing a result |
| ViewCacheSpec.StoredSurvivesPruning | monitor_app/services/view_cache.py:319-329 | a result that is accepted is still there after the pruning its own storing does |
| ViewCacheSpec.TooLargeIsNotKept | monitor_app/services/view_cache.py:320-323 | a result that is too large is not stored, and exactly the older entry of its key is dropped |
| ViewCacheSpec.PrunedOnceASecond | monitor_app/services/view_cache.py:217-218 | within a second of the last pruning nothing is pruned; later, nothing that has expired is left |
| ViewCacheSpec.StoreNeverGoesBack | monitor_app/services/view_cache.py:315-317 | a stored entry is never replaced by one whose computation was registered earlier |
| ViewCacheSpec.ExpiredIffUnusable | monitor_app/services/view_cache.py:174-189 | pruning by age drops an entry if and only if no caller with a later clock reading could hit it under any data version |
| ViewCacheSpec.OtherVersionServedIffStoredLater | monitor_app/services/view_cache.py:174-189 | an entry of another version is served if and only if it was stored after the caller read the clock |
| ViewCacheSpec.ServedIffYoung | monitor_app/services/view_cache.py:174-189 | which stored entries a call is served: by age, generation, version, and `ttl` for those whose token could not be read |
| ViewCacheSpec.ServedIsUsedLast | monitor_app/services/view_cache.py:218-223 | a served entry becomes the last in order of use, and the others keep their order |
| ViewCacheSpec.DiscardDropsOne | monitor_app/services/view_cache.py:361-364 | discarding a key drops what is stored for it and nothing else |
| ViewCacheProtocol.RunKeeps | monitor_app/services/view_cache.py:194-308 | the invariant over registration order, tokens and clocks holds after every run of all interleavings |
| ViewCacheProtocol.NothingFromBeforeClear | monitor_app/services/view_cache.py:216-240 | with the clears of a run counted as they happen: on no return path does a call get a value whose computation began before a clear that preceded the call's lock |
| ViewCacheProtocol.NothingOlderThanToken | monitor_app/services/view_cache.py:212-240 | a call that could read the token gets a value that shows the data at least as of the commit at which it read it, except by a hit on an entry without a version or of another version stored after it read the clock |
| ViewCacheProtocol.OnlyTheClockIsLeft | monitor_app/services/view_cache.py:212-240 | in runs in which every token can be read, only the second exception remains |
| ViewCacheProtocol.StaleHitHappens | monitor_app/services/view_cache.py:184-189 | a run in which that exception occurs |
| ViewCacheProtocol.FollowersMoveForward | monitor_app/services/view_cache.py:278-300 | a follower only moves to computations registered later; a takeover copies the token |
| ViewCacheProtocol.TakesOverIff | monitor_app/services/view_cache.py:278-300 | a follower whose wait timed out computes itself if and only if its computation is not finished, no later result is stored and no other computation is registered |
| ViewCacheProtocol.WaitingIsAsAsked | monitor_app/services/view_cache.py:225-233 | a call that waits is never told to ask later, and one that does not never follows |
| ViewCacheProtocol.OneTakeoverAtATime | monitor_app/services/view_cache.py:289-298 | no second takeover of a flight starts while one is registered |
| ViewCacheProtocol.NobodyIsStuck | monitor_app/services/view_cache.py:278-308 | every unfinished call can take a step, or waits for a leader that can |
| ViewCacheProtocol.SingleFlight | monitor_app/services/view_cache.py:225-237 | while nothing changes and nobody times out, one call per key computes |
| CsvReader.LineLeavesBetween | monitor_app/services/csv_tail.py:135-142 | after any line a record has ended or a quoted field is open: the reader's "new-line in unquoted field" error cannot occur |
| CsvText.WhatIsWrittenIsRead | monitor_app/services/csv_tail.py:125-143 | text that spells any rows, with any line ends, empty lines and quotes as in section 2 of RFC 4180, is whole records and is read as exactly these rows |
| CsvRecords.ReadingInParts | monitor_app/services/importer.py:1109-1142 | however a text arrives in two parts (also inside a CRLF or a quoted field), continuing at the end of the whole records gives the same non-empty records and the same end as reading at once |
| CsvRecords.DataInParts | monitor_app/services/importer.py:1123-1142 | the same for the data rows once the header has been read |
| CsvRecords.NothingLeft | monitor_app/services/csv_tail.py:94-112 | behind the last whole record there is no whole record |
| CsvRecords.PrefixIsWhole | monitor_app/services/csv_tail.py:94-112 | the prefix up to there holds the same records and ends at a record boundary |
| CsvTail.LongestPrefixReadOnce | monitor_app/services/csv_tail.py:115-143 | the records are the rows the csv reader yields for that prefix read once, and no longer prefix consists of whole records |
| CsvTail.FastPathAgrees | monitor_app/services/csv_tail.py:120-121 | without a quote, the plain reader gives the same records, all text is consumed and each line is a record |
| CsvTail.CountingBytes | monitor_app/services/csv_tail.py:86-91 | LF plus CR minus CRLF occurrences is the number of lines |
| CsvTail.ScanComplete | monitor_app/services/csv_tail.py:125-143 | the scan with the sentinel line returns exactly the whole records and where they end, also for a text that ends within a line |
| CsvTail.ParseComplete | monitor_app/services/csv_tail.py:115-122 | so do fast path and scan together; only without a quote, text behind the last line end makes a row of its own |
| CsvTail.CompletePrefix | monitor_app/services/csv_tail.py:94-112 | length and number of the whole records of any bytes |
| CsvTail.FirstRecordEnd | monitor_app/services/csv_tail.py:189-207 | where the first record ends if it is whole, also with line ends inside quotes |
| TailImport.ResetExactly | monitor_app/services/importer.py:1997-2015 | a re-read from the start is triggered if and only if the file is shorter than the position or a byte among the first or last 4096 before it changed; growth alone never does it |
| TailImport.DiffersIff | monitor_app/services/importer.py:1997-2015 | for a position taken from a file: that file was cut off, or one of those bytes changed, if and only if a kept byte is not there |
| TailImport.AdvanceKeepsWindows | monitor_app/services/importer.py:1997-2001 | advancing keeps the windows the first and last consumed bytes |
| TailImport.Importer.ReadBlocks | monitor_app/services/importer.py:1102-1142 | for any sizes of the blocks, the loop lands at the end of the whole records and adds exactly the rows of reading the rest of the file at once |
| TailImport.Importer.TailAppend | monitor_app/services/importer.py:1083-1146 | one poll, with rows and position in one transaction: if the file is shorter than the position or a kept byte is not there, the whole new file is read under its own header, else what follows the position; each row that can be converted is added once, in order; a failed poll adds nothing, and only a re-read stays decided |
| TailRuns.InitOffset | monitor_app/services/importer.py:899-911 | the start position is the end of the last whole record, for any sizes of the blocks |
| TailRuns.InitTail | monitor_app/services/importer.py:884-922 | the whole position to begin with: behind the last whole record, with the bytes around it |
| TailRuns.ResumeTail | monitor_app/services/importer.py:972-1019 | the position a restart goes on from |
| TailRuns.ResumeIff | monitor_app/services/importer.py:997-1013 | a restart goes on at the saved place if and only if the file is not shorter and holds the saved bytes; otherwise it begins again |
| TailRuns.BeginsAtTheEnd | monitor_app/services/importer.py:959-966 | the first start begins behind the last whole record and adds nothing |
| TailHeader.HeaderFoundIff | monitor_app/services/importer.py:1008-1013 | a restart takes the right header if and only if it ends within the first block, or the block has no quote and only a line end, or an empty quoted field behind a comma, lies beyond it |
| TailHeader.HeaderWithinBlock | monitor_app/services/importer.py:1008-1013 | a header within the first block is found |
| TailHeader.CutHeader | monitor_app/services/importer.py:1008-1013 | what is found in a block without a whole record: nothing if it has a quote, else the fields of the part of the line in it |
| TailHeader.LongQuotedHeaderIsLost | monitor_app/services/importer.py:1008-1013 | a longer header with a quote is not found |
| TailRuns.LostHeaderLosesRows | monitor_app/services/importer.py:1006-1146 | after a restart, a poll then saves a position behind the last whole record and has imported nothing |
| TailRuns.CutHeaderIsUsed | monitor_app/services/importer.py:1006-1146 | after a restart with a longer header without a quote, a poll imports the new rows under the cut header |
| TailRuns.NoHeaderNoRows | monitor_app/services/importer.py:1127-1141 | without a header a poll advances over rows without importing them |
| TailRuns.EveryRun | monitor_app/services/importer.py:953-1024 | over every run of growth, polls, failed transactions, crashes and restarts that find the header, the table holds exactly the conversions of the data rows from where tailing began to the saved offset, in their order and one for each place, and the saved windows are right |
| TailRuns.PollKeeps | monitor_app/services/importer.py:1083-1146 | a committed poll ends at the last whole record of the file and never starts over |
| Gate.FetchGate.Acquire | monitor_app/db/gate.py:75-86 | nested entry, entry of an open gate, or a place at the end of the own queue |
| Gate.FetchGate.CancelWait | monitor_app/db/gate.py:89-102 | a cancelled wait gives up its place, or passes on the gate it was handed |
| Gate.FetchGate.Release | monitor_app/db/gate.py:105-110 | only the owner can leave |
| Gate.FetchGate.ReleaseLocked | monitor_app/db/gate.py:112-129 | the last exit hands the gate to the queue the policy picks |
| Gate.FetchAll | monitor_app/db/gate.py:145-166 | all rows in order, in rows / chunk + 1 passes, only the first with priority, and the cursor is closed |
| GateRuns.EveryStateIsSafe | monitor_app/db/gate.py:63-129 | in every reachable state an open gate has no waiters, the streak is at most 3, and a waiting thread is queued exactly once or owns the gate |
| GateRuns.NobodyIsStuck | monitor_app/db/gate.py:75-129 | mutual exclusion, and the gate is never lost: the owner is inside or about to wake, also after cancellations |
| GateRuns.RestIsServed | monitor_app/db/gate.py:115-125 | a waiter of the second queue with p before it sees at most 4p + 3 - streak hand-overs go to others |
| GateRuns.FirstIsServed | monitor_app/db/gate.py:115-125 | a waiter of the first queue with q before it sees at most q + (q + streak) / 3 |
| GateRuns.NextBudget | monitor_app/db/gate.py:63-129 | no step raises these numbers and each hand-over to another lowers them |
| GateRuns.QueuesAreFifo | monitor_app/db/gate.py:86-126 | who waits behind another in a queue stays behind it and is not served before it |
| GateRuns.LeavesServedOrCancelled | monitor_app/db/gate.py:89-126 | a waiter leaves its queue only by getting the gate or by its own cancellation |
| GateLine.ServedInTurn | monitor_app/db/gate.py:75-129 | in every run, each hand-over goes to the earliest of those who asked with priority, or to the earliest of the others if none asked with it or three hand-overs in a row have overtaken them; the gate opens only if nobody waits |
| GateLine.ServedSoon | monitor_app/db/gate.py:75-129 | a bound on the hand-overs a waiter sees, from the flag it asked with and the number of those who asked the same way before it |
| GateLine.LineIsWaiting | monitor_app/db/gate.py:75-102 | the line of askers is exactly the waiting threads |
| BulkPlan.FreshMeansIgnore | monitor_app/db/bulk.py:296-315 | sending only rows that are new means the same as insert-if-absent row by row |
| BulkPlan.MergedMeansUpdate | monitor_app/db/bulk.py:317-332 | merging the rows of a chunk at their first place means the same as upserting them one by one |
| BulkPlan.UpdatesThenInserts | monitor_app/db/bulk.py:342-364 | updates first and inserts after them mean the same as the run in its order |
| BulkPlan.BatchMeans | monitor_app/db/bulk.py:164-181 | a statement built from the first row of a batch with equal columns does what the rows do one by one |
| BulkPlan.CountAndGrowth | monitor_app/db/bulk.py:299-315 | the reported count exceeds the growth of the table by exactly the keys that the database gave out and a row of the chunk also brings |
| BulkSpec.ResendingChangesNothing | monitor_app/db/bulk.py:5-9 | sending a batch with keys again changes nothing, in both modes |
| BulkSpec.LastOneWins | monitor_app/db/bulk.py:319-332 | for each key and column the last row that sets it wins |
| BulkRaws.AppliedInserts | monitor_app/db/bulk.py:206-222 | the rows one by one, with null keys left to the database, give that table, for every prefix of the rows |
| BulkSpec.AdvancedIsAhead | monitor_app/db/bulk.py:60-90 | after advancing, the next value is larger than every key, and advancing again changes nothing |
| BulkSpec.AdvancesForward | monitor_app/db/bulk.py:68-70 | a sequence is not taken back if and only if it has been used or starts at most one above the largest key |
| BulkSpec.MovedBackIff | monitor_app/db/bulk.py:60-90 | over any sequence of batches and advances: taken back exactly if it was unused, something was sent, and it was to start beyond what follows the largest key |
| BulkWriter.UnusedSequenceGoesBack | monitor_app/db/bulk.py:82-87 | inserting a row with the key 5 takes a sequence with START 1000 back to 6 |
| BulkWriter.Runs | monitor_app/db/bulk.py:164-181 | the runs are the rows in order, each with equal columns, and no two neighbours could be joined |
| BulkWriter.Writer.ExistingKeys | monitor_app/db/bulk.py:49-57 | exactly the asked-for keys that are in the table, looked up 500 at a time |
| BulkWriter.Writer.Execute | monitor_app/db/bulk.py:224-236 | the batch is done row by row; the sequence is ahead whenever the database has to find a key |
| BulkWriter.Writer.InsertIgnore | monitor_app/db/bulk.py:296-315 | one chunk in ignore mode, with its exact count |
| BulkWriter.Writer.Merge | monitor_app/db/bulk.py:322-332 | the dictionary loop yields the merged rows |
| BulkWriter.Writer.InsertUpdate | monitor_app/db/bulk.py:317-364 | one chunk in update mode, natively and by UPDATE plus INSERT, with its exact count; the second fails only on a clash of a given-out key |
| BulkWriter.Writer.InsertRows | monitor_app/db/bulk.py:367-409 | for every chunk size, said about the rows as handed in: as many keys are given out as rows have none or a null, all of them new; the table holds the old keys, the rows' and these; the last row that sets a cell wins (update) or the first row and what was there stays (ignore); with the sequence ahead on entry nothing collides and it is ahead on return; a used sequence never moves back, and exactly when an unused one does; the count is the growth unless a key clashed; an error names the first row whose key is taken |
| SqliteSource.Poll | monitor_app/services/connectors.py:247-334 | one undisturbed poll adds the converted rows behind the cursor and moves it to their largest watermark |
| SqliteSource.EachRowOnce | monitor_app/services/connectors.py:201-221 | for any number of processes, interleavings and crashes, the table holds one conversion for each row with a watermark up to the cursor that can be converted, in their order, and nothing else; the cursor never goes back |
| SqliteSource.NothingMissed | monitor_app/services/connectors.py:276-282 | when nothing is left to select, the table is the whole source |
| SourceStore.Target.Write | monitor_app/services/connectors.py:200-232 | cursor check, rows and cursor in one transaction |
| SourceStore.ConvertedOnce | monitor_app/services/connectors.py:116-137 | each record that can be converted yields one row, in order, and the others add nothing |
| JsonlSource.Poll | monitor_app/services/connectors.py:375-440 | one undisturbed poll imports the records on the complete lines behind the offset; a file that is shorter than the offset is read as a whole |
| JsonlSource.RecordsOfLines | monitor_app/services/connectors.py:394-427 | whatever lines a text is made of, each that holds a record yields it once, in order, and exactly the complete lines are read |
| JsonlSource.OnceMeans | monitor_app/services/connectors.py:401-440 | what single import means: the rows are those that the lines up to the cursor yield, in order, one for each |
| JsonlSource.EachRecordOnce | monitor_app/services/connectors.py:401-440 | in every run, each record up to the cursor is imported exactly once all along if and only if no unchecked write moves the cursor over something that can be imported |
| JsonlSource.UncheckedWrite | monitor_app/services/connectors.py:429-432 | for one such write, wherever the cursor is: it does no harm if and only if there is nothing to convert between the two offsets, whichever comes first |
| JsonlSource.RecordTwice | monitor_app/services/connectors.py:429-432 | a run with two processes that imports a record twice |
| Settings.MergePatch | monitor_app/settings/overrides.py:56-66 | the loop computes the merge of RFC 7386 |
| Settings.DiffPatch | monitor_app/settings/overrides.py:76-92 | the loop computes the difference |
| Settings.RoundTrip | monitor_app/settings/overrides.py:76-92 | merging the difference gives the desired value up to null members and Python's equality, for all JSON values |
| Settings.RoundTripExactly | monitor_app/settings/overrides.py:87-91 | it gives exactly that value up to null members if and only if equality distinguished everything it compared |
| Settings.RoundTripOfSameKinds | monitor_app/settings/overrides.py:76-92 | it does whenever no value changes between truth value, integer and float |
| Settings.TrueIsOne | monitor_app/settings/overrides.py:90-91 | a change from true to 1 yields an empty patch |
| Settings.ApplyingTwice | monitor_app/settings/overrides.py:56-66 | applying a patch twice is applying it once |
| Settings.MentionedHappens | monitor_app/settings/overrides.py:56-66 | what a patch says about a path happens, on every base: null removes it, other values are put there |
| Settings.OnlyNullsGo | monitor_app/settings/overrides.py:69-73 | removing nulls keeps the value at every path but those that end at a null |
| Settings.UnmentionedStays | monitor_app/settings/overrides.py:60-66 | a patch keeps the value at every path it does not mention, on every base |
| Settings.OnlyWhatChanged | monitor_app/settings/overrides.py:85-91 | the difference mentions no path along which both are dictionaries until they are equal or lack the same key, where a null in the new value counts as lacking |
| Settings.EqualValuesAgree | monitor_app/settings/overrides.py:85-91 | that includes every path on which both have equal values |
| Settings.UnchangedFollowsTheBase | monitor_app/settings/overrides.py:95-104 | saved settings keep, on a later base, whatever the user had not changed |
| DependencyOrder.Order | monitor_app/services/importer.py:629-653 | the loop ends with every table once, and parents come first if and only if there is no cycle |
| DependencyOrder.StuckMeansCycle | monitor_app/services/importer.py:646-648 | the fallback is taken only if the remaining tables refer to each other in a circle |
| ForeignKeys.Replacer.Insert | monitor_app/services/importer.py:1426-1459 | inserting without self-references and setting them later is never refused if the rows fit, and whenever it is not refused it ends as a direct insert, every key was new, and rows without a key of their own refer only to earlier ones |
| ForeignKeys.Replacer.Run | monitor_app/services/importer.py:1172-1223 | without a circle among the foreign keys, sorting the sources and replacing is never refused; in every case, success means that the sources' tables hold exactly the new rows and the others are unchanged, a row outside that refers to a replaced one means failure, and failure undoes everything |
| ForeignKeys.Replacer.Replace | monitor_app/services/importer.py:1203-1223 | the same for a given order; no foreign key is violated in between, with row-by-row and per-statement checks |
| ForeignKeys.Database.DeleteAll | monitor_app/services/importer.py:1284-1311 | emptying a table succeeds when nobody refers to it, and is refused when a row of another table refers to one of its rows |
| ForeignKeys.SortedIsParentsFirst | monitor_app/services/importer.py:1176-1177 | sources sorted by the dependency order have parents first |
| KeyTracker.Tracker.FirstLine | monitor_app/services/importer.py:387-398 | sorted array plus dictionary answer as a plain map from keys to first lines |
| Ledger.Books.CloseBooks | monitor_app/demo/simulation.py:604-643 | every balance stays, the rows from the cutoff on are kept in their order, each position gets at most one carry row with what went missing there, only lots without rows go, and 0 is returned if and only if there is nothing to close |
| Ledger.CarriedOnce | monitor_app/demo/simulation.py:621-634 | a position gets at most one carry row |
| Ledger.CloseTwice | monitor_app/demo/simulation.py:607-609 | closing again at the same cutoff finds nothing |
| Warehouse.Stock.Apply | monitor_app/demo/simulation.py:211-233 | stock is the balance of the applied rows, and each index stays what is computed from the stock |
| Warehouse.Stock.Commit | monitor_app/demo/simulation.py:255-259 | the same with new lots, or known ones of the same item |
| Warehouse.Stock.DisposeExpired | monitor_app/demo/simulation.py:261-284 | all of the smallest position whose lot expired before today, if there is any |
| Warehouse.Stock.Pick | monitor_app/demo/simulation.py:403-424 | positions in order of expiry, then of the lot number, what never expires last, for the smaller of what is wanted and what is on hand |
| Warehouse.PicksInOrder | monitor_app/demo/simulation.py:417-424 | a position is touched only when all that expire before it are emptied |
| Warehouse.PicksEnough | monitor_app/demo/simulation.py:417-424 | the total picked is what is wanted or all there is |
| Warehouse.OnHandIsPickable | monitor_app/demo/simulation.py:224-229 | without negative positions, the on-hand index is the sum over the pickable positions |
| Warehouse.MoveIsSafe | monitor_app/demo/simulation.py:360-377 | a transfer adds up to nothing and keeps shelves within capacity and positions non-negative |
| Warehouse.PutsAreSafe | monitor_app/demo/simulation.py:330-349 | a delivery never fills a shelf over its capacity |
| Warehouse.PutsEnough | monitor_app/demo/simulation.py:330-349 | the pieces delivered are those of the cases wanted, or of all cases for which the shelves have room |
| Warehouse.PutsInOrder | monitor_app/demo/simulation.py:330-349 | the shelves are filled in their order |
| Warehouse.FreeIsMost | monitor_app/demo/simulation.py:238-239 | the free cases are the most that fit |
| Warehouse.AdjustmentFits | monitor_app/demo/simulation.py:381-382 | an upward adjustment on a shelf with a piece and a free case always fits if and only if it is at most a case |
| Warehouse.AdjustmentOverfills | monitor_app/demo/simulation.py:381-382 | a step by +2 that fills a shelf over its capacity |
| Warehouse.Stock.Step | monitor_app/demo/simulation.py:245-259 | disposal, else delivery, else move or adjustment, else shipment; the indexes stay right, no position becomes negative, and no shelf is overfilled unless an adjustment adds more than a case |
| Alerts.AlertEngine.EvaluateView | monitor_app/services/alert_service.py:261-274 | direct evaluation forgets the recorded digest and sends the edges |
| Alerts.AlertEngine.EvaluateViewIfChanged | monitor_app/services/alert_service.py:276-308 | evaluates unless the digest is the recorded one or the data is older |
| Alerts.AlertEngine.Reconfigure | monitor_app/services/alert_service.py:94-111 | drops exactly the alerts whose rule is gone, in silence, and all records |
| Alerts.AlertEngine.EvaluateRule | monitor_app/services/alert_service.py:246-259 | counts exactly the rows whose number is on the wrong side of the threshold, equality included as the operator says |
| Alerts.ReconfiguredContinues | monitor_app/services/alert_service.py:94-111 | alerts whose rule is still there stay as they are |
| AlertRuns.NotesAlternate | monitor_app/services/alert_service.py:310-335 | for each key and run, firing and recovery alternate between silent resets, starting with firing |
| AlertRuns.EvaluatedMeans | monitor_app/services/alert_service.py:310-335 | after an evaluation the alert of each rule of the view is active if and only if some row violates it, and says how many do |
| AlertRuns.RecordedMeansSettled | monitor_app/services/alert_service.py:292-305 | whenever a digest is recorded, active are exactly the violated rules of its rows |
| AlertRuns.SkippingIsNotNoticed | monitor_app/services/alert_service.py:286-297 | the engine that evaluates data with the recorded digest again becomes and says the same |
| AlertRuns.VersionsGrow | monitor_app/services/alert_service.py:298-305 | over any part of a run without a reset of the view, and with versions given, the recorded version never decreases |
| AlertRuns.RecordsHoldIff | monitor_app/services/alert_service.py:286-305 | recorded digests stand for the alerts in all runs if and only if no configuration has rules of different views with the same key |
| AlertRuns.SameKeyIff | monitor_app/services/alert_service.py:242-244 | two rules have the same key if and only if view and column run together are the same, and operator and threshold text |
| AlertRuns.SharedKeyLosesAlert | monitor_app/services/alert_service.py:242-335 | whenever rules of two views share a key, a violated rule can be off and stay unnoticed |
| AlertRuns.KeysTellViewsApart | monitor_app/services/alert_service.py:242-244 | rules of views without a colon in their names never share a key across views |
| AlertRuns.KeysCanCollide | monitor_app/services/alert_service.py:242-244 | with a colon they can: two rules for which it does not hold |

## Left out

- HTTP, authentication, templates, command line, configuration loading and notification delivery: input and output only.
- SQL text, drivers and operating-system threads: a transaction and a section under a lock are one step each.
- Character encodings, over-long cells, undecodable rows and NUL bytes in CSV files: text is one character per byte without NUL; the `_BadRow` path of `_parse_complete_safe` is not part of this model.
- Checksums of the saved windows: the bytes themselves are compared.
- TailImport.Importer.TailAppend: tables with a primary key, the branch that reads the whole file for other encodings, row counters, warnings and the numeric hint are not modelled; the file does not change while one poll reads it.
- TailRuns.EveryRun: rows have no primary key.
- ViewCacheProtocol.NothingOlderThanToken: `compute` reads the data at one instant between its start and its end.
- ViewCacheProtocol.SingleFlight: only for runs without commits, clears and timeouts; with them several computations of a key are intended.
- GateRuns.RestIsServed: counts hand-overs, not time; a thread that never leaves the gate holds everybody up.
- BulkWriter.Writer.InsertRows: tables with one integer key; the database's own choice of a key is the table's maximum plus one, or the sequence on PostgreSQL; other connections do not write meanwhile.
- SqliteSource.Poll: custom queries and tables without a watermark column are not part of this model.
- SourceStore.Target.Write: append mode with the cursor check only; replace mode and skipping of existing keys are not part of this model.
- SqliteSource.EachRowOnce: append mode of a table with integer watermarks; custom queries and replace mode are not part of this model.
- JsonlSource.EachRecordOnce: the file only grows.
- ForeignKeys.Replacer.Replace: every row has its final key (brought along or assigned by the database), the retry without sources that have no valid rows and SQLite's staging tables are not part of this model.
- Warehouse.Stock.Apply: the time of the last delivery of an item (`last_received`) is not kept.
- Warehouse.Stock.Step: which item is due for delivery, the size of a delivery and of an order and the order of the shelves are arbitrary; partner, reference and operator texts are left out, as are `opening_stock` and `history`, which only repeat `Puts` and `Apply`.
- Settings.RoundTrip: numbers are integers or rationals; NaN and infinities are not part of this model.
- Backup, rotation, gzip and the JSON snapshot source: mostly file-system effects.
