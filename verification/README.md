# Verified core of the MonetDB ADBC driver

This project models the parts of the driver that carry unbounded promises and proves those promises
in Dafny.  `dafny verify dfyconfig.toml` checks all of it.

* **Transactions** (`AtomicView`, `Savepoints`, `TransactionCalls`, `Transactions`, `TransactionRuns`).
  A connection is a class whose methods send statements to a server that may refuse any of them.  The
  server side (autocommit, committed data, open work, savepoint stack) and the driver side (poison,
  modified flag) are fields.  Everything that can fail is numbered in the order it is tried, and a world
  says which numbers fail, recoveries apart from the rest.  A ghost ledger of whole operations runs
  beside them, and the driver is proved to refine it over every run of ingests, batches, prepared
  statements, texts, scripts, commits, rollbacks and autocommit switches.
* **Ingest scheduling** (`IngestScheduler`).  Reading, coalescing, splitting, compacting and handing out
  rows under byte and row budgets.
* **Column store** (`Shuffle`, `ColumnStore`, `IngestWindow`).  The byte-plane shuffle, the bump arena,
  chunked columns and the upload of a window.  LZ4 is a pair of functions with an inverse law.
* **Strings on the wire** (`StringEncoder`, `RowDecoder`, `StringDecoder`, `StringRoundTrip`).
  Back-references with base-128 distances, the general and the fast decoder, and the round trip.
* **Dates and timestamps** (`CivilDates`, `Timestamps`).  The calendar is defined by stepping one day at
  a time; the era arithmetic and the wire layout are proved against it.
* **SQL text** (`SqlLexer`, `SqlScanner`, `QueryTemplate`, `TemplateRendering`, `SqlLookahead`,
  `RowBinding`, `RawQuoting`, `UnsafeSlots`, `RoutineBodies`).  The lexer, the statement scanner with its
  routine bodies, templates, the binding of a row by position or by name, and rendering.
* **Prepared statements** (`PreparedKeys`, `RecencyList`, `PreparedCache`).  A recency list says what the
  cache does; the cache with its map and stamps refines it; the threshold's law is proved of the list.
* **LIKE** (`LikeMatcher`), **read windows** (`ReadWindows`), **frames** (`FrameHeader`, `ExportFrame`,
  `ExportFrameBuilder`) and **memory reservations** (`MemoryReservation`, a step machine over atomic
  operations).
* `Wrappers`, `Bytes`, `Sequences` and `Arithmetic` hold what the others share.

Points where the code is surprising:

* `insert` and `insert_literal` normalize their key and then look it up through a function that
  normalizes again.  Normalization is not idempotent: `a; ;` has the key `a;`, and looking that up asks
  for `a`.  `PreparedKeys.NormalizeTwice` gives the exact condition.
* An automatic read request ends aligned unless it is clipped by the end of the result, with one more
  exception: no 64-bit word above the rows observed is a multiple of the alignment, and several rows
  remain.  `ReadWindows.Span` states exactly this, and `ReadWindows.UnalignedRequest` is such an input.
* The byte after the hour in a wire time is written as 0 and never read, and years below -4712 are read
  but not written.  `Timestamps.TimestampReencodes` gives the exact condition for writing back what was
  read.
* A single quote directly behind a parameter slot does no harm: the raw string takes in the quoted text
  (`RawQuoting.RawGoesOn`).  A word or a lone colon directly before it does: `UnsafeSlots.ClearExactly`
  is the exact condition.
* A BEGIN inside a routine body is not counted, so the routine is cut behind the inner END
  (`RoutineBodies.NestedBeginCuts`).

## Model

| member | source | states |
|---|---|---|
| `TransactionRuns.Run` | crates/adbc-monetdb/src/driver.rs:690-797 | Every run of calls in every world of refusals: the outcomes report what the calls returned; unless a recovery rollback was refused, the committed statements are exactly those of the whole operations the outcomes report; a poisoned transaction means autocommit is off, an open write means the modified flag is set, no COMMIT was ever sent while poisoned and no recovery savepoint after an earlier write; when the world refuses nothing, calls that nothing else can make fail all succeed and the database holds exactly what they say |
| `TransactionRuns.PerformNext` | crates/adbc-monetdb/src/driver.rs:2825-2871 | One more call has a legal outcome; in a world that refuses nothing a call that nothing else can make fail succeeds and means what it says |
| `TransactionRuns.CallMeans` | crates/adbc-monetdb/src/driver.rs:2825-2871 | A successful call of any kind changes durable and open statements as a plain reading of the call says |
| `TransactionRuns.RanMeans` | crates/adbc-monetdb/src/driver.rs:7861-7901 | A text or script that ran to its end did what its statements say, one after the other |
| `TransactionRuns.DurableComesFromWholeOperations` | crates/adbc-monetdb/src/driver.rs:3481-3649 | With ingest_partial=block, each piece of durable data is one whole operation that some call asked for; a failed operation never leaves a committed part |
| `TransactionRuns.LegalOnlyWhole` | crates/adbc-monetdb/src/driver.rs:3965-3984 | What a single call applies is its whole operation |
| `TransactionRuns.RanOnlyWrites` | crates/adbc-monetdb/src/driver.rs:7861-7901 | A text or script applies only writes that stand in it |
| `TransactionRuns.LedgerOpsWereApplied` | crates/adbc-monetdb/src/driver.rs:8169-8223 | Nothing is in the atomic view that no call applied |
| `TransactionRuns.RunGrows` | crates/adbc-monetdb/src/driver.rs:2825-2871 | A legal run stays legal when one more legal call follows |
| `TransactionCalls.RanOn` | crates/adbc-monetdb/src/driver.rs:7861-7901 | Scripts compose: statements that all ran, then a further run |
| `TransactionCalls.RanStep` | crates/adbc-monetdb/src/driver.rs:7836-7859 | One more statement, accepted or refused, extends a run of a script by exactly that statement's effect |
| `TransactionCalls.RanRollback` | crates/adbc-monetdb/src/driver.rs:7687-7715 | A script with a full ROLLBACK that succeeded did discard the open transaction |
| `Savepoints.NestedCut` | crates/adbc-monetdb/src/driver.rs:6614-6629 | Going back to a savepoint leaves a well-nested savepoint stack |
| `Savepoints.FitsCut` | crates/adbc-monetdb/src/driver.rs:6614-6629 | A savepoint sits between two whole operations, so ROLLBACK TO SAVEPOINT goes back to whole operations |
| `Savepoints.FitsGrow` | crates/adbc-monetdb/src/driver.rs:6572-6596 | Later writes do not disturb where earlier savepoints sit |
| `Savepoints.FitsPush` | crates/adbc-monetdb/src/driver.rs:6572-6596 | A savepoint taken between operations sits between operations |
| `Savepoints.CutKeepsFit` | crates/adbc-monetdb/src/driver.rs:6614-6629 | After ROLLBACK TO SAVEPOINT the open writes are the statements of the operations that are left |
| `Savepoints.FitsAtStart` | crates/adbc-monetdb/src/driver.rs:8169-8223 | Releasing, or going back to, a savepoint taken in a clean transaction keeps every outer savepoint between whole operations |
| `Transactions.Connection.constructor` | crates/adbc-monetdb/src/driver.rs:707-715 | A new connection has autocommit on, no poison, no writes and nothing durable |
| `Transactions.Connection.SendCommit` | crates/adbc-monetdb/src/driver.rs:8178-8180 | A refused COMMIT either leaves the transaction or rolls it back; it never makes half of it durable |
| `Transactions.Connection.SendRollbackTo` | crates/adbc-monetdb/src/driver.rs:6614-6629 | The innermost savepoint of that name, its mark, and the work cut back to it |
| `Transactions.Connection.PoisonTransaction` | crates/adbc-monetdb/src/driver.rs:717-725 | The first reason is kept |
| `Transactions.Connection.PoisonScope` | crates/adbc-monetdb/src/driver.rs:727-731 | Poisoning keeps the scope and gives up the claim that the open transaction is whole operations |
| `Transactions.Connection.BeginAtomic` | crates/adbc-monetdb/src/driver.rs:7928-7968 | Autocommit is switched off, or the caller's transaction is used directly, or a recovery savepoint is taken, the last only when there was no earlier write |
| `Transactions.Connection.BeginSavepoint` | crates/adbc-monetdb/src/driver.rs:7950-7968 | A recovery savepoint is taken in a transaction without writes, and its mark is 0 |
| `Transactions.Connection.FinishAutocommit` | crates/adbc-monetdb/src/driver.rs:8169-8223 | Commit or roll back, then restore autocommit: the work is durable as a whole or gone as a whole; work that was applied with autocommit restored is reported as success, and only a refused ROLLBACK counts as a failed recovery |
| `Transactions.Connection.FinishAutocommitScope` | crates/adbc-monetdb/src/driver.rs:8169-8223 | The same for the atomic view; a failed operation took effect only if restoring autocommit failed |
| `Transactions.Connection.TryRecovery` | crates/adbc-monetdb/src/driver.rs:8195-8210 | A recovery fails exactly when the world refuses that recovery rollback |
| `Transactions.Connection.LeaveSavepoint` | crates/adbc-monetdb/src/driver.rs:8187-8213 | Release on success, otherwise go back first: the work is kept whole or dropped whole; only a refused ROLLBACK TO SAVEPOINT counts as a failed recovery |
| `Transactions.Connection.FinishSavepoint` | crates/adbc-monetdb/src/driver.rs:8169-8223 | A savepoint scope ends with all of its operation or none of it |
| `Transactions.Connection.FinishAtomic` | crates/adbc-monetdb/src/driver.rs:8169-8223 | Whatever the scope, the atomic view changes by the whole operation, by nothing, or by what partial ingest may keep; a failed operation took effect only if restoring autocommit failed, and where nothing is refused success stays success |
| `Transactions.Connection.FinishPoisoned` | crates/adbc-monetdb/src/driver.rs:3965-3984 | An operation that broke in the caller's own transaction poisons it and adds nothing to the atomic view |
| `Transactions.ConcludeAutocommit` | crates/adbc-monetdb/src/driver.rs:8214-8222 | Leaving an autocommit scope changes the atomic view by the operation at most |
| `Transactions.Connection.SendAll` | crates/adbc-monetdb/src/driver.rs:8365-8397 | Statements are sent in order and stop at the first refusal; what was sent is a prefix |
| `Transactions.Connection.SendWindows` | crates/adbc-monetdb/src/driver.rs:3710-3916 | COPY windows are sent in order; an attempt counts as started before its first byte, and only finished windows count as copied |
| `Transactions.Connection.SendIngest` | crates/adbc-monetdb/src/driver.rs:3524-3625 | Target table first, then rows, stage or windows: what reached the server is a prefix of the whole ingest |
| `Transactions.Connection.Ingest` | crates/adbc-monetdb/src/driver.rs:3323-3480 | Bulk ingest, for every mode, path and scope: all or nothing, except a direct append under ingest_partial=allow |
| `Transactions.Connection.IngestWithin` | crates/adbc-monetdb/src/driver.rs:3965-3984 | A failure after a write in the caller's own transaction poisons it, unless the part may be kept |
| `Transactions.Connection.SendSingle` | crates/adbc-monetdb/src/driver.rs:8239-8258 | A one-row update is one statement and needs no scope |
| `Transactions.Connection.RecordWrite` | crates/adbc-monetdb/src/driver.rs:8239-8258 | A statement that took effect by itself is one whole operation of the atomic view |
| `Transactions.Connection.SendBatch` | crates/adbc-monetdb/src/driver.rs:8260-8360 | The rows of a batch in order; only a failure of the first row can be retried |
| `Transactions.Connection.BatchWithin` | crates/adbc-monetdb/src/driver.rs:8260-8360 | A multi-row batch is all or nothing, or poisons the caller's transaction |
| `Transactions.Connection.BatchFromFirst` | crates/adbc-monetdb/src/driver.rs:8260-8360 | A batch that is retried after its first row failed is still applied at most once |
| `Transactions.Connection.Batch` | crates/adbc-monetdb/src/driver.rs:8225-8237 | Empty, single-row and multi-row batches are each all or nothing |
| `Transactions.Connection.SendRawCommit` | crates/adbc-monetdb/src/driver.rs:7717-7727 | A COMMIT in raw SQL is sent only without poison and settles or discards the open operations |
| `Transactions.Connection.SendRawRollbackTo` | crates/adbc-monetdb/src/driver.rs:7687-7715 | ROLLBACK TO SAVEPOINT never clears poison |
| `Transactions.Connection.SendText` | crates/adbc-monetdb/src/driver.rs:7836-7859 | A text runs statement by statement up to the first refusal, and the invariant holds at every point |
| `Transactions.Connection.ApplyTransactionEffects` | crates/adbc-monetdb/src/driver.rs:7729-7738 | Ending the transaction resets the modified flag; only a full rollback clears poison |
| `Transactions.Connection.ExecuteText` | crates/adbc-monetdb/src/driver.rs:7836-7859 | A text with COMMIT is refused outright while poisoned; otherwise the driver's flags follow what the server did |
| `Transactions.Connection.ExecuteScript` | crates/adbc-monetdb/src/driver.rs:7861-7901 | Each statement of a script is guarded and applied on its own |
| `Transactions.Connection.ExecuteUnverified` | crates/adbc-monetdb/src/driver.rs:6672-6756 | A prepared plan is tried inside a savepoint only in a clean transaction, and falls back to literals without applying the write twice |
| `Transactions.Connection.ProbePlan` | crates/adbc-monetdb/src/driver.rs:6572-6629 | The probe's savepoint leaves the transaction as it was or fails |
| `Transactions.Connection.TryPlanThenLiteral` | crates/adbc-monetdb/src/driver.rs:6684-6756 | A plan that may be tried writes nothing; falling back to the literal goes through the savepoint, and the savepoint stack ends as it was, with or without the driver's own savepoint |
| `Transactions.Connection.SwitchAutocommit` | crates/adbc-monetdb/src/driver.rs:1944-1970 | Switching autocommit on commits first and is refused while poisoned |
| `Transactions.Connection.ChangeMode` | crates/adbc-monetdb/src/driver.rs:1949-1963 | After a refused switch the flag still matches the server |
| `Transactions.Connection.Perform` | crates/adbc-monetdb/src/driver.rs:2825-2871 | Every call keeps the invariant, has a legal outcome, and clears poison only by discarding the open transaction |
| `Transactions.Connection.GuardedIngest` | crates/adbc-monetdb/src/driver.rs:765-797 | The guard marks the transaction before the ingest and again when it is dropped |
| `Transactions.Connection.GuardedBatch` | crates/adbc-monetdb/src/driver.rs:765-797 | The guard's view of earlier writes is what the batch's scope is chosen by |
| `IngestScheduler.RowsWithinBudget` | crates/adbc-monetdb/src/driver.rs:5575-5588 | Binary search over an additive estimate returns the longest prefix that fits |
| `IngestScheduler.SplitPending` | crates/adbc-monetdb/src/driver.rs:5590-5614 | Both halves of a split are non-empty, add up to the batch and carry exact estimates |
| `IngestScheduler.SizeConcat` | crates/adbc-monetdb/src/driver.rs:5636-5648 | Estimates are additive over concatenation |
| `IngestScheduler.SizeMonotone` | crates/adbc-monetdb/src/driver.rs:5575-5588 | A longer prefix never has a smaller estimate, which is what the search relies on |
| `IngestScheduler.TotalIsSize` | crates/adbc-monetdb/src/driver.rs:5529-5573 | The pending byte counter of compacted batches is the estimate of their rows |
| `IngestScheduler.IngestWindowScheduler.constructor` | crates/adbc-monetdb/src/driver.rs:5360-5385 | A new scheduler has everything still to come |
| `IngestScheduler.IngestWindowScheduler.PopFront` | crates/adbc-monetdb/src/driver.rs:5616-5621 | Pending counters follow the queue exactly |
| `IngestScheduler.IngestWindowScheduler.PushFront` | crates/adbc-monetdb/src/driver.rs:5623-5627 | A batch that was taken can be put back without changing what remains |
| `IngestScheduler.IngestWindowScheduler.PushBack` | crates/adbc-monetdb/src/driver.rs:5629-5634 | A batch that was read goes behind what is pending |
| `IngestScheduler.IngestWindowScheduler.CompactPendingBatches` | crates/adbc-monetdb/src/driver.rs:5529-5573 | Compaction concatenates neighbours: the same rows in the same order, the same totals |
| `IngestScheduler.IngestWindowScheduler.ReadBatch` | crates/adbc-monetdb/src/driver.rs:5502-5527 | Reading moves rows from the reader to the queue; exhausted means the reader has ended |
| `IngestScheduler.IngestWindowScheduler.FillStaging` | crates/adbc-monetdb/src/driver.rs:5448-5456 | Nothing pending after a fill means the input is exhausted |
| `IngestScheduler.IngestWindowScheduler.TakeStaging` | crates/adbc-monetdb/src/driver.rs:5458-5500 | Staged and pending rows together are the pending rows before; the stage is within both budgets or is one oversized row |
| `IngestScheduler.IngestWindowScheduler.TakeOne` | crates/adbc-monetdb/src/driver.rs:5468-5496 | The next piece is the longest prefix of the front batch within both limits, or one oversized row when that is allowed |
| `IngestScheduler.IngestWindowScheduler.FittingRows` | crates/adbc-monetdb/src/driver.rs:5472-5477 | How much of a batch fits: the longest prefix within the row and the byte limit |
| `IngestScheduler.IngestWindowScheduler.GrowWindow` | crates/adbc-monetdb/src/driver.rs:5387-5446 | A window only grows by the next rows, within its budget |
| `IngestScheduler.IngestWindowScheduler.TakeInto` | crates/adbc-monetdb/src/driver.rs:5402-5444 | What goes into the window leaves the queue, and nothing else does |
| `IngestScheduler.IngestWindowScheduler.NextWindow` | crates/adbc-monetdb/src/driver.rs:5387-5446 | A window is the next non-empty run of rows and within its budget; none means that no row is left, and a failing reader is always reported |
| `IngestScheduler.IngestWindowScheduler.BudgetKept` | crates/adbc-monetdb/src/driver.rs:5344-5357 | Staging limits keep a growing window within its byte or row budget |
| `IngestScheduler.Drain` | crates/adbc-monetdb/src/driver.rs:5387-5634 | For every reader the windows concatenate to its rows in order, each window is within budget, the run ends, and it succeeds exactly when the reader never fails |
| `Shuffle.UnshuffleInvertsShuffle` | crates/adbc-monetdb/src/driver.rs:4976-4999 | Unshuffling inverts shuffling for every length and every positive width, aligned or not |
| `Shuffle.ShuffleAt` | crates/adbc-monetdb/src/driver.rs:4976-4999 | Byte plane p of row r goes to position p * rows + r and back |
| `Shuffle.SourcesCancel` | crates/adbc-monetdb/src/driver.rs:4976-4999 | The two index maps are inverse on every position, tail included |
| `Shuffle.ShuffleBytesInto` | crates/adbc-monetdb/src/driver.rs:4976-4986 | The appending loop computes the shuffle |
| `Shuffle.UnshuffleBytes` | crates/adbc-monetdb/src/driver.rs:4988-4999 | The in-place loops compute the unshuffle |
| `Shuffle.ScatterPlane` | crates/adbc-monetdb/src/driver.rs:4990-4996 | One plane is put at its rows and nothing else changes |
| `Shuffle.CopyTail` | crates/adbc-monetdb/src/driver.rs:4997-4999 | The unaligned tail is copied as it is |
| `ColumnStore.DecodeStable` | crates/adbc-monetdb/src/driver.rs:4627-4656 | Chunks decode to the same bytes after any later stores in the arena |
| `ColumnStore.DecodePush` | crates/adbc-monetdb/src/driver.rs:4766-4849 | A new chunk adds exactly its own bytes to what the column decodes to |
| `ColumnStore.CompressedDecodes` | crates/adbc-monetdb/src/driver.rs:4766-4849 | A compressed chunk decodes to its input, shuffled or not, given a lossless codec |
| `ColumnStore.RestoreApply` | crates/adbc-monetdb/src/driver.rs:4878-4901 | Every transform the store may choose is undone by the upload |
| `ColumnStore.BumpExtends` | crates/adbc-monetdb/src/driver.rs:4628-4652 | A bump store leaves every earlier byte of every slab as it was |
| `ColumnStore.SelectTransform` | crates/adbc-monetdb/src/driver.rs:4878-4901 | The smallest probe wins, and no transform is chosen exactly when it does not save an eighth |
| `ColumnStore.CompressedArena.Store` | crates/adbc-monetdb/src/driver.rs:4628-4652 | The slice returned holds the bytes stored, and earlier slices are untouched |
| `ColumnStore.CompressedArena.AddSlab` | crates/adbc-monetdb/src/driver.rs:4628-4652 | A new slab is empty and leaves the others alone |
| `ColumnStore.CompressedArena.Bump` | crates/adbc-monetdb/src/driver.rs:4640-4652 | Bytes go right behind what the slab already holds |
| `ColumnStore.CompressedArena.SliceOf` | crates/adbc-monetdb/src/driver.rs:4654-4656 | A slice reads what was stored |
| `ColumnStore.EncodedColumn.StoreRaw` | crates/adbc-monetdb/src/driver.rs:4851-4860 | A raw chunk adds its own bytes |
| `ColumnStore.EncodedColumn.StoreCompressed` | crates/adbc-monetdb/src/driver.rs:4766-4849 | A compressed chunk adds the bytes it was made of |
| `ColumnStore.EncodedColumn.ChosenTransform` | crates/adbc-monetdb/src/driver.rs:4766-4800 | Wire columns always compress plainly; a disabled column never compresses again |
| `ColumnStore.EncodedColumn.StoreChunk` | crates/adbc-monetdb/src/driver.rs:4766-4849 | However it is stored, a chunk adds its bytes; Disabled is never left |
| `ColumnStore.EncodedColumn.FinishPending` | crates/adbc-monetdb/src/driver.rs:4766-4849 | Finishing stores exactly the buffered bytes |
| `ColumnStore.EncodedColumn.Push` | crates/adbc-monetdb/src/driver.rs:4725-4757 | After any sequence of pushes the stored and buffered bytes are the bytes pushed |
| `ColumnStore.EncodedColumn.PushAll` | crates/adbc-monetdb/src/driver.rs:4725-4764 | Pushes and a finish: the stored chunks decode to the concatenation of the pieces |
| `ColumnStore.EncodedColumn.SoundStable` | crates/adbc-monetdb/src/driver.rs:4627-4656 | Other columns' stores in the shared arena do not disturb a column |
| `IngestWindow.EncodedIngestWindow.constructor` | crates/adbc-monetdb/src/driver.rs:5105-5135 | A new window holds nothing |
| `IngestWindow.EncodedIngestWindow.AppendEncoded` | crates/adbc-monetdb/src/driver.rs:5137-5221 | A batch is appended field by field, each column getting its own bytes; a column whose compression is disabled stays so |
| `IngestWindow.EncodedIngestWindow.Append` | crates/adbc-monetdb/src/driver.rs:5137-5221 | Stored chunks and retained batches together are what was appended, field by field and in order; a column whose compression is disabled stays so |
| `IngestWindow.EncodedIngestWindow.ReconsiderRetaining` | crates/adbc-monetdb/src/driver.rs:5200-5202 | Only incompressible windows without nulls retain later batches, and wire windows never do |
| `IngestWindow.EncodedIngestWindow.StoredBytes` | crates/adbc-monetdb/src/driver.rs:5233-5240 | The sum over all columns |
| `IngestWindow.EncodedIngestWindow.UsesWireLz4` | crates/adbc-monetdb/src/driver.rs:5309-5330 | A window sent as wire LZ4 holds only plain LZ4 frames and no retained batch; in automatic mode it is sent so exactly then |
| `IngestWindow.EncodedIngestWindow.UploadColumn` | crates/adbc-monetdb/src/driver.rs:3740-3834 | The upload never fails: a wire upload's frames inflate to the appended bytes and any other upload is the appended bytes |
| `IngestWindow.EncodedIngestWindow.SendChunk` | crates/adbc-monetdb/src/driver.rs:3753-3763 | The client-only-transform error is unreachable, and so is the failed decompression |
| `IngestWindow.StoreAndUpload` | crates/adbc-monetdb/src/driver.rs:3740-3834 | Building a window and uploading it gives every field's bytes back, compressed or not; whether frames go over the wire follows the wire mode exactly |
| `IngestWindow.UploadAll` | crates/adbc-monetdb/src/driver.rs:3740-3834 | Every column's upload carries that column's bytes |
| `StringEncoder.AppendBackref` | crates/monetdb-arrow/src/encode.rs:956-970 | Short tag, or base-128 digits least significant first |
| `StringEncoder.EncodeRow` | crates/monetdb-arrow/src/encode.rs:903-930 | A repeated string refers to its latest occurrence, a null to the latest null within 63 rows |
| `StringEncoder.EncodeStrings` | crates/monetdb-arrow/src/encode.rs:891-937 | One pass with a map of last rows gives the declarative encoding, and fails exactly at the first string with a NUL byte |
| `StringEncoder.TracksString` | crates/monetdb-arrow/src/encode.rs:913-919 | The map holds the last row of every string seen |
| `StringEncoder.RowsPerChunk` | crates/monetdb-arrow/src/encode.rs:134-145 | At least one row, at most all, and by the average estimate as many as the target holds |
| `StringEncoder.EncodeColumnChunks` | crates/monetdb-arrow/src/encode.rs:127-174 | The chunks are the rows in order; it fails exactly when some string has a NUL byte |
| `StringEncoder.EncodeArray` | crates/monetdb-arrow/src/encode.rs:134-171 | One array is cut into chunks of whole rows |
| `StringEncoder.LiteralHead` | crates/monetdb-arrow/src/decode.rs:1376-1395 | No UTF-8 text begins with a byte in 0x80..0xBF, so literals and references never collide |
| `StringDecoder.LongBackref` | crates/monetdb-arrow/src/decode.rs:1431-1455 | The loop over shifted digits in 64 bits computes the base-128 value, and fails exactly on overflow, on an eleventh digit or at the end |
| `StringDecoder.AddDigit` | crates/monetdb-arrow/src/decode.rs:1438-1446 | The two overflow checks together say exactly whether the sum fits |
| `StringDecoder.ReadersAgree` | crates/monetdb-arrow/src/decode.rs:1293-1348 | Where the fast reader reads a value the general one reads the same, and a literal is shorter than its wire form |
| `StringDecoder.DecodeStrings` | crates/monetdb-arrow/src/decode.rs:1276-1291 | Trying the fast decoder first changes no result and no error |
| `RowDecoder.DecodeRows` | crates/monetdb-arrow/src/decode.rs:1350-1429 | The loop with history, position and size computes the recursive decoding |
| `RowDecoder.FastRows` | crates/monetdb-arrow/src/decode.rs:1293-1348 | The loop of the fast decoder, which answers or gives up at the first reference |
| `RowDecoder.FastRefinesGeneral` | crates/monetdb-arrow/src/decode.rs:1276-1429 | Within the 32-bit limit, whenever the fast decoder returns an array or an error the general decoder returns the same |
| `RowDecoder.DecodesPieces` | crates/monetdb-arrow/src/decode.rs:1350-1429 | Wire pieces that each stand for a row decode to those rows, until the expansion passes the bound if it does |
| `StringRoundTrip.RowReads` | crates/monetdb-arrow/src/decode.rs:1363-1395 | Every encoded row reads back: literal, short and long reference, null reference |
| `StringRoundTrip.ReadsVarint` | crates/monetdb-arrow/src/decode.rs:1431-1455 | Reading the digits of a distance gives the distance back |
| `StringRoundTrip.RowDenotes` | crates/monetdb-arrow/src/encode.rs:903-930 | Whatever follows, and whatever came before its chunk, a row's bytes stand for the row |
| `StringRoundTrip.GeneralRoundTrip` | crates/monetdb-arrow/src/decode.rs:1350-1429 | Independently encoded chunks decode to their rows exactly when the expansion is within the bound; beyond it the decoder reports the expansion |
| `StringRoundTrip.RoundTrip` | crates/monetdb-arrow/src/decode.rs:1276-1291 | Decoding returns the encoded column if and only if the wire fits 32 bits and the expansion is within the bound |
| `CivilDates.Successor` | crates/monetdb-arrow/src/decode.rs:1615-1629 | The day number grows by exactly 1 from each valid date to the next, negative years included |
| `CivilDates.EpochIsZero` | crates/monetdb-arrow/src/decode.rs:1615-1629 | 1970-01-01 is day 0 |
| `CivilDates.EraIsFloor` | crates/monetdb-arrow/src/decode.rs:1620-1622 | The adjusted truncating division is floor division |
| `CivilDates.DaysByYear` | crates/monetdb-arrow/src/decode.rs:1615-1629 | The era computation is the plain count of March years and days |
| `CivilDates.LeapMeans` | crates/monetdb-arrow/src/decode.rs:1605-1605 | Truncating remainders give the Gregorian leap rule for negative years too |
| `CivilDates.CalendarCounts` | crates/monetdb-arrow/src/wire.rs:38-40 | Stepping the calendar n days from the epoch, forward or back, gives a date whose day number is n |
| `CivilDates.CalendarInverts` | crates/monetdb-arrow/src/decode.rs:1600-1629 | Day numbers determine valid dates |
| `CivilDates.YearRange` | crates/monetdb-arrow/src/encode.rs:1089-1106 | A day lies in a range of whole years exactly when its number lies between their first and last day |
| `Timestamps.DateRoundTrip` | crates/monetdb-arrow/src/encode.rs:1089-1106 | A day has a wire form exactly when its year is in -4712..32767; that form is never NULL and reads back |
| `Timestamps.TimeRoundTrip` | crates/monetdb-arrow/src/encode.rs:1170-1186 | Every time of day survives the wire layout |
| `Timestamps.TimestampRoundTrip` | crates/monetdb-arrow/src/encode.rs:1253-1256 | A timestamp has a wire form exactly within its years; it is never NULL and reads back |
| `Timestamps.TimestampReencodes` | crates/monetdb-arrow/src/decode.rs:1681-1710 | A timestamp read from the wire is written the same way, up to the padding byte, exactly when its year can be written; earlier years are read but refused |
| `Timestamps.ValueRoundTrip` | crates/monetdb-arrow/src/encode.rs:1225-1251 | The unit factor and its overflow check: sendable exactly when the product fits and its year is in range |
| `Timestamps.EncodeRows` | crates/monetdb-arrow/src/encode.rs:1225-1251 | Rows in order, 12 bytes each, up to the first one without a wire form |
| `Timestamps.DecodeTimestamps` | crates/monetdb-arrow/src/decode.rs:1681-1710 | Length check, then every row's reading or the first invalid row |
| `Timestamps.SendTimestamps` | crates/monetdb-arrow/src/decode.rs:1681-1710 | A nullable column comes back unchanged exactly when every value can be sent |
| `LikeMatcher.LikePatternMatches` | crates/adbc-monetdb/src/driver/metadata.rs:553-605 | The greedy matcher agrees with the recursive meaning of %, _ and escapes for every valid pattern and every value, and fails exactly on an invalid pattern |
| `LikeMatcher.MatchTokens` | crates/adbc-monetdb/src/driver/metadata.rs:574-604 | Retrying only the last % decides the match, and the loop ends |
| `LikeMatcher.NewStar` | crates/adbc-monetdb/src/driver/metadata.rs:586-590 | Forgetting an earlier % when a new one is met loses no match |
| `LikeMatcher.Mismatch` | crates/adbc-monetdb/src/driver/metadata.rs:591-596 | After a mismatch only later starts of the last % can match |
| `LikeMatcher.ValidateLikePattern` | crates/adbc-monetdb/src/driver/metadata.rs:528-551 | A pattern is valid exactly when every backslash escapes %, _ or a backslash |
| `LikeMatcher.Tokenize` | crates/adbc-monetdb/src/driver/metadata.rs:555-572 | The token loop reads the pattern |
| `SqlLexer.TokensTile` | crates/adbc-monetdb/src/driver/parameters.rs:416-653 | The tokens are the whole text, and none is empty |
| `SqlScanner.ProceduralScan.Observe` | crates/adbc-monetdb/src/driver/parameters.rs:319-370 | One word of a routine: its prefix, its open blocks and what END closed |
| `SqlScanner.ProceduralScan.Semicolon` | crates/adbc-monetdb/src/driver/parameters.rs:372-380 | A semicolon inside a routine body ends no statement |
| `SqlScanner.ScanState.Accept` | crates/adbc-monetdb/src/driver/parameters.rs:416-653 | One token changes the scanner's variables as the fold over tokens says; only a semicolon outside routine bodies closes a statement |
| `SqlScanner.ScanQuery` | crates/adbc-monetdb/src/driver/parameters.rs:416-653 | The single pass gives the slots, statement ranges, first keyword and data-change flag of the token list, and fails exactly when the lexer does; statement ranges are in order and apart |
| `SqlScanner.CodeIsInAStatement` | crates/adbc-monetdb/src/driver/parameters.rs:416-653 | No code is lost: every token outside blanks and comments lies in one of the statement ranges |
| `SqlScanner.FlagsMean` | crates/adbc-monetdb/src/driver/parameters.rs:555-560 | The first keyword is the first word of the text, and the data-change flag says that some word is a data-changing keyword |
| `SqlScanner.StatementMayModify` | crates/adbc-monetdb/src/driver/parameters.rs:656-676 | May modify: some word is a data-changing keyword, or the first word is not one of those that only read |
| `RoutineBodies.BodyBalances` | crates/adbc-monetdb/src/driver/parameters.rs:343-380 | A body whose CASE, IF and WHILE blocks are closed leaves the open blocks as they were, and all its semicolons are internal |
| `RoutineBodies.HeaderRuns` | crates/adbc-monetdb/src/driver/parameters.rs:319-341 | CREATE or CREATE OR REPLACE, a routine keyword or a modifier with FUNCTION, and any words up to BEGIN make a routine |
| `RoutineBodies.RoutineIsOneStatement` | crates/adbc-monetdb/src/driver/parameters.rs:416-653 | A routine from CREATE to END with a balanced body is one statement whatever semicolons it has, and the next semicolon ends it |
| `RoutineBodies.NestedBeginCuts` | crates/adbc-monetdb/src/driver/parameters.rs:343-380 | A BEGIN inside the body is not counted: the statement is cut at the first semicolon behind the inner END |
| `RoutineBodies.NestedBeginExample` | crates/adbc-monetdb/src/driver/parameters.rs:343-380 | A token list that is cut this way |
| `QueryTemplate.SlotsOrdered` | crates/adbc-monetdb/src/driver/parameters.rs:416-653 | Slots are non-empty, in order, apart and inside the text |
| `QueryTemplate.CompileQuery` | crates/adbc-monetdb/src/driver/parameters.rs:701-763 | Fails on several statements or on mixed slots; otherwise segments are the text between the slots, positional slots are numbered in order and names are listed by first use and equal names share a number |
| `QueryTemplate.NumberName` | crates/adbc-monetdb/src/driver/parameters.rs:738-742 | A name gets its number when first met and keeps it |
| `TemplateRendering.Render` | crates/adbc-monetdb/src/driver/parameters.rs:169-182 | The loop over segments and slots gives the query with each slot replaced, or fails when a slot does not resolve |
| `TemplateRendering.StitchIdentity` | crates/adbc-monetdb/src/driver/parameters.rs:169-182 | Replacing every slot by its own text changes nothing |
| `TemplateRendering.SlotsTileQuery` | crates/adbc-monetdb/src/driver/parameters.rs:701-763 | Segments and slots tile the query: rendering each slot as its own text gives the query back |
| `TemplateRendering.StitchIsRendered` | crates/adbc-monetdb/src/driver/parameters.rs:169-182 | Rendering by segments is rendering by tokens |
| `SqlLookahead.TokenStable` | crates/adbc-monetdb/src/driver/parameters.rs:429-638 | A token does not change when the slot behind it becomes a raw string, unless it is a word or a lone colon |
| `SqlLookahead.WordGlued` | crates/adbc-monetdb/src/driver/parameters.rs:546-567 | A word takes in the prefix of a raw string directly behind it |
| `SqlLookahead.SqlGrammar` | crates/adbc-monetdb/src/driver/parameters.rs:429-638 | The driver's lexer has every property that rendering relies on |
| `RawQuoting.RawLexes` | crates/adbc-monetdb/src/driver.rs:690-692 | A raw-quoted value is one string whatever it contains |
| `RawQuoting.RawGoesOn` | crates/adbc-monetdb/src/driver/parameters.rs:604-613 | A quote directly behind a raw string continues it as a doubled quote |
| `RawQuoting.QuotedIsRaw` | crates/adbc-monetdb/src/driver/parameters.rs:576-613 | Quoted text that can be read is read alike inside a raw string |
| `RawQuoting.RenderedTokens` | crates/adbc-monetdb/src/driver/parameters.rs:169-182 | The rendered text has the tokens of the query, with a raw string for each slot that takes in quoted text right behind it |
| `RawQuoting.FoldExpanded` | crates/adbc-monetdb/src/driver/parameters.rs:416-676 | Raw strings in place of slots change nothing the scanner keeps |
| `RawQuoting.RawRendering` | crates/adbc-monetdb/src/driver/parameters.rs:169-182 | Rendered with raw strings, a query scans with no slots, the same statements and the same may-modify answer, when no slot directly follows a word or a lone colon |
| `RawQuoting.ClearMeans` | crates/adbc-monetdb/src/driver/parameters.rs:474-567 | The condition slot by slot: the token before is no word, and no colon that itself follows no colon |
| `RowBinding.RenderRow` | crates/adbc-monetdb/src/driver/parameters.rs:85-167 | A row is refused for the first reason there is (bound the wrong way, wrong count, duplicate, missing or extra name); otherwise each slot gets the argument of its name, or the one at its position |
| `RowBinding.AcceptedByName` | crates/adbc-monetdb/src/driver/parameters.rs:116-150 | A row is accepted by name exactly when its names are distinct and are the query's parameters, no fewer and no more |
| `RowBinding.CollectByName` | crates/adbc-monetdb/src/driver/parameters.rs:124-132 | The map by name exists exactly when no name is bound twice |
| `RowBinding.NamedSlotText` | crates/adbc-monetdb/src/driver/parameters.rs:153-164 | Looking a slot up by its number and the name of that number gives the argument that has the slot's name |
| `RawQuoting.RenderedScansAlike` | crates/adbc-monetdb/src/driver/parameters.rs:169-182 | An accepted row of strings renders to text that scans like the query, without slots |
| `RawQuoting.AnyNul` | crates/adbc-monetdb/src/driver/parameters.rs:981-989 | A row is refused exactly when some string contains a NUL |
| `RawQuoting.BindRaw` | crates/adbc-monetdb/src/driver/parameters.rs:85-167 | Compile, check, bind and render: the first failure of the three stages, or the query with each slot replaced by its raw-quoted value, which scans like the query but without slots when the slots are clear |
| `UnsafeSlots.ClearExactly` | crates/adbc-monetdb/src/driver/parameters.rs:416-653 | A query scans alike for all values exactly when no slot directly follows a word or a lone colon |
| `UnsafeSlots.RowsExactly` | crates/adbc-monetdb/src/driver/parameters.rs:85-167 | For a query that compiles, every accepted row of strings scans alike exactly under that condition |
| `UnsafeSlots.SqlRowsExactly` | crates/adbc-monetdb/src/driver/parameters.rs:416-653 | The same for the driver's own lexer |
| `UnsafeSlots.LoneColonFails` | crates/adbc-monetdb/src/driver/parameters.rs:474-502 | Where the first slot that is not clear is behind a lone colon, no value at all scans alike |
| `UnsafeSlots.SpoiledText` | crates/adbc-monetdb/src/driver/parameters.rs:429-638 | Where the first slot that is not clear is behind a lone colon, or gets a backslash and a quote, the text has a slot left or does not scan |
| `UnsafeSlots.SlotAfterColon` | crates/adbc-monetdb/src/driver/parameters.rs:474-502 | The query :? does not scan alike with any value |
| `UnsafeSlots.SlotAfterWord` | crates/adbc-monetdb/src/driver/parameters.rs:546-567 | The query SELECT? does not scan alike with any value |
| `RawQuoting.BindSql` | crates/adbc-monetdb/src/driver.rs:690-692 | The same for the driver's own lexer |
| `PreparedKeys.NormalizeTwice` | crates/adbc-monetdb/src/driver.rs:7287-7289 | A key normalized twice is the same key exactly when the key does not end in a semicolon |
| `PreparedKeys.NormalizeTwiceFails` | crates/adbc-monetdb/src/driver.rs:1764-1768 | A query whose key changes when insert looks it up again |
| `RecencyList.ToldToPrepare` | crates/adbc-monetdb/src/driver.rs:1702-1762 | Over every sequence of operations: a query that is not resident is told to prepare by Force or threshold 1, a prepared or literal one never, a deferred one by Force or on exactly its t-th execution since it became resident |
| `RecencyList.ToldOnTthExecution` | crates/adbc-monetdb/src/driver.rs:1725-1747 | A query deferred since operation i is told to prepare by Force or on exactly its t-th execution from i on, whatever declarations and other operations come between |
| `RecencyList.BecameResident` | crates/adbc-monetdb/src/driver.rs:1748-1762 | Every deferred query became resident at some request and has been deferred since |
| `RecencyList.OnlyForcePrepares` | crates/adbc-monetdb/src/driver.rs:1735-1742 | With threshold 0 only Force prepares |
| `RecencyList.StepDefers` | crates/adbc-monetdb/src/driver.rs:1687-1858 | No operation changes the count of a deferred query, except its own execution |
| `RecencyList.StaysWithin` | crates/adbc-monetdb/src/driver.rs:1843-1853 | The size stays within the capacity |
| `RecencyList.NewestKeepsUsed` | crates/adbc-monetdb/src/driver.rs:1843-1853 | The entry just stored is never evicted |
| `PreparedCache.FirstIsOldest` | crates/adbc-monetdb/src/driver.rs:1845-1850 | The entry with the smallest stamp is the least recently used one |
| `PreparedCache.StampsDistinct` | crates/adbc-monetdb/src/driver.rs:1855-1858 | Last-use stamps are distinct |
| `PreparedCache.OldestKey` | crates/adbc-monetdb/src/driver.rs:1845-1850 | The key with the smallest stamp |
| `PreparedCache.Trim` | crates/adbc-monetdb/src/driver.rs:1843-1853 | Evicting smallest stamps leaves exactly the most recently used entries, as many as the capacity |
| `PreparedCache.Cache.constructor` | crates/adbc-monetdb/src/driver.rs:1678-1685 | A new cache is empty |
| `PreparedCache.Cache.NextUse` | crates/adbc-monetdb/src/driver.rs:1855-1858 | Stamps grow and saturate |
| `PreparedCache.Cache.Store` | crates/adbc-monetdb/src/driver.rs:1769-1778 | The stored key becomes the most recently used one and the least recently used ones leave |
| `PreparedCache.Cache.GetOutcome` | crates/adbc-monetdb/src/driver.rs:1687-1693 | A hit becomes the most recently used entry; outcomes stay as they were |
| `PreparedCache.Cache.Get` | crates/adbc-monetdb/src/driver.rs:1695-1700 | A hit is a prepared entry; outcomes stay as they were |
| `PreparedCache.Cache.AskResident` | crates/adbc-monetdb/src/driver.rs:1711-1747 | A request for a resident query does what the recency list does |
| `PreparedCache.Cache.AskNew` | crates/adbc-monetdb/src/driver.rs:1748-1762 | A request for a new query does what the recency list does |
| `PreparedCache.Cache.PrepareDecision` | crates/adbc-monetdb/src/driver.rs:1702-1762 | Every request does what the recency list does, decision and state |
| `PreparedCache.Cache.Insert` | crates/adbc-monetdb/src/driver.rs:1764-1779 | An existing prepared entry wins; otherwise the candidate is stored and the least recently used entry leaves |
| `PreparedCache.Cache.InsertLiteral` | crates/adbc-monetdb/src/driver.rs:1781-1798 | An existing decision wins; otherwise the literal is stored and the least recently used entry leaves |
| `PreparedCache.Cache.ReplacePreparedWithLiteral` | crates/adbc-monetdb/src/driver.rs:1800-1822 | Only the named entry is given up, never a newer one; the rest follows the recency list |
| `PreparedCache.Cache.RemoveIfId` | crates/adbc-monetdb/src/driver.rs:1824-1831 | Removes the entry only if it is the named one |
| `PreparedCache.Cache.SetCapacity` | crates/adbc-monetdb/src/driver.rs:1837-1841 | Shrinking keeps the most recently used entries |
| `PreparedCache.Cache.Perform` | crates/adbc-monetdb/src/driver.rs:1687-1858 | Every operation answers and ends as in the recency list |
| `PreparedCache.Run` | crates/adbc-monetdb/src/driver.rs:1677-1859 | Every sequence of operations is answered reply by reply, and ends, as in the recency list |
| `ReadWindows.AlignmentIsLargest` | crates/adbc-monetdb/src/driver.rs:8602-8605 | No larger power of two fits the target and the granule |
| `ReadWindows.ExportAlignmentRows` | crates/adbc-monetdb/src/driver.rs:8602-8605 | The alignment is the largest power of two within target and granule |
| `ReadWindows.MultipleMeans` | crates/adbc-monetdb/src/driver.rs:8572-8574 | Aligned ends are exactly the multiples of the alignment |
| `ReadWindows.RoundDownMeans` | crates/adbc-monetdb/src/driver.rs:8573-8574 | Subtracting the remainder rounds down to a multiple |
| `ReadWindows.Span` | crates/adbc-monetdb/src/driver.rs:8572-8578 | At least one row, at most the target; the request ends aligned or clipped exactly unless several rows remain and no 64-bit word above the rows observed is aligned |
| `ReadWindows.UnalignedRequest` | crates/adbc-monetdb/src/driver.rs:8572-8578 | Four rows before the end of a word, with three to come and alignment 4, a request ends neither aligned nor clipped |
| `ReadWindows.PastLastMeans` | crates/adbc-monetdb/src/driver.rs:8572-8578 | With the driver's power-of-two alignments the exception means that the rows observed are within one alignment of the end of a word |
| `ReadWindows.FairFitsBytes` | crates/adbc-monetdb/src/driver.rs:8556-8563 | A request fits the byte estimate unless it is one row or a fitting full granule |
| `ReadWindows.ReadWindowScheduler.constructor` | crates/adbc-monetdb/src/driver.rs:8520-8549 | The first request of a variable-width result is limited |
| `ReadWindows.ReadWindowScheduler.NextRows` | crates/adbc-monetdb/src/driver.rs:8551-8582 | Between one row and what remains; automatic requests grow at most fourfold, fit the estimate, and end aligned or clipped exactly when some word above the rows observed is aligned or one row remains |
| `ReadWindows.ReadWindowScheduler.AlignedRows` | crates/adbc-monetdb/src/driver.rs:8555-8579 | The automatic request |
| `ReadWindows.ReadWindowScheduler.Observe` | crates/adbc-monetdb/src/driver.rs:8584-8590 | Rows are counted, nothing else is learned with a fixed batch size, and the estimate becomes the least size per row that accounts for the bytes of the frame |
| `ReadWindows.RoundedUp` | crates/adbc-monetdb/src/driver.rs:8584-8590 | Rounding the division up gives that least size |
| `ReadWindows.TilesInOrder` | crates/adbc-monetdb/src/driver.rs:8832-8942 | Windows come in row order and do not overlap |
| `ReadWindows.TilesCover` | crates/adbc-monetdb/src/driver.rs:8832-8942 | Every row up to the end is in one of the windows |
| `ReadWindows.FetchWindow` | crates/adbc-monetdb/src/driver.rs:8833-8937 | The request is fair for exactly what the scheduler knew; the fault is what the reply to that request deserves; a usable reply extends the tiling by its rows and the scheduler learns from it |
| `ReadWindows.RequestsAreFair` | crates/adbc-monetdb/src/driver.rs:8551-8590 | In the loop, without a fixed batch size: a request is at most four times the one before, fits the bytes by the least size per row of the frame before, and ends aligned or clipped with the one exception |
| `ReadWindows.SettingsStay` | crates/adbc-monetdb/src/driver.rs:8509-8549 | Batch size, budget, granule flag and first limit of every request are those the scheduler began with |
| `ReadWindows.ObligedToComplete` | crates/adbc-monetdb/src/driver.rs:8832-8942 | A server whose replies hold between 1 and the requested rows is asked until all rows have come |
| `ReadWindows.FetchBinaryFrames` | crates/adbc-monetdb/src/driver.rs:8819-8943 | The windows handed on are what the server sent and tile the rows from 0 in order; each was requested fairly with what the scheduler knew after the window before; every stop is explained by the end, an empty window or the reply to the next fair request; when every reply holds between 1 and the requested rows the windows tile all rows |
| `FrameHeader.HeaderRoundTrip` | crates/monetdb-arrow/src/exportbin.rs:145-175 | The header line that the server writes parses back to its four numbers, whatever follows |
| `FrameHeader.I64Inverts` | crates/monetdb-arrow/src/exportbin.rs:179-183 | Signed decimals parse back |
| `FrameHeader.LineFound` | crates/monetdb-arrow/src/exportbin.rs:149-157 | The header ends at its first newline within 128 bytes |
| `ExportFrame.I64RoundTrip` | crates/monetdb-arrow/src/exportbin.rs:85-85 | Little-endian 64-bit two's complement |
| `ExportFrame.SortByStart` | crates/monetdb-arrow/src/exportbin.rs:114-118 | Sorted by start, a permutation, and the same pairs overlap |
| `ExportFrame.NeighboursSuffice` | crates/monetdb-arrow/src/exportbin.rs:118-121 | In start order, neighbours that do not overlap make all ranges disjoint |
| `ExportFrame.AnyNeighboursOverlap` | crates/monetdb-arrow/src/exportbin.rs:119-121 | The neighbour check finds an overlap exactly when there is one |
| `ExportFrame.Overlapping` | crates/monetdb-arrow/src/exportbin.rs:114-121 | Empty ranges aside, the check decides pairwise disjointness |
| `ExportFrame.ReadRanges` | crates/monetdb-arrow/src/exportbin.rs:105-113 | All ranges lie between header and table of contents, or the frame is refused |
| `ExportFrame.ErrorMessageFound` | crates/monetdb-arrow/src/exportbin.rs:220-228 | The message of an error is the text between its mark and its NUL |
| `ExportFrame.InFrameError` | crates/monetdb-arrow/src/exportbin.rs:207-218 | A negative table position is a server error exactly when it points at an error mark |
| `ExportFrame.ParseBody` | crates/monetdb-arrow/src/exportbin.rs:91-122 | Accepted exactly when the table is in place and all ranges are in bounds and disjoint |
| `ExportFrame.ParseFrame` | crates/monetdb-arrow/src/exportbin.rs:75-130 | A frame is accepted exactly when its ranges are in bounds and pairwise disjoint, and the columns are the bytes of their ranges; a server error is reported exactly when the frame begins with an error mark or its negative table position points at one |
| `ExportFrame.AcceptedColumns` | crates/monetdb-arrow/src/exportbin.rs:105-121 | On every accepted frame non-empty columns share no byte, although only neighbours were compared |
| `ExportFrameBuilder.BuildFrame` | crates/monetdb-arrow/src/exportbin.rs:237-259 | The builder's loops lay out header, padded columns, table of contents and table position |
| `ExportFrameBuilder.AppendColumns` | crates/monetdb-arrow/src/exportbin.rs:242-250 | Each column starts at a multiple of 32 behind the one before |
| `ExportFrameBuilder.StartsAligned` | crates/monetdb-arrow/src/exportbin.rs:242-250 | All starts, and the table of contents, are at multiples of 32 |
| `ExportFrameBuilder.BodyHasColumns` | crates/monetdb-arrow/src/exportbin.rs:242-250 | Every column is in place at its noted start |
| `ExportFrameBuilder.FrameRoundTrip` | crates/monetdb-arrow/src/exportbin.rs:75-130 | Every built frame is acceptable, and its contents are the columns it was built from |
| `ExportFrameBuilder.BuildAndParse` | crates/monetdb-arrow/src/exportbin.rs:237-259 | The parser inverts the builder for every list of columns |
| `MemoryReservation.StepKeepsBalance` | crates/adbc-monetdb/src/driver.rs:4330-4361 | Every atomic step keeps the counter equal to the sum of the live reservations |
| `MemoryReservation.StepKeepsBound` | crates/adbc-monetdb/src/driver.rs:4330-4372 | With a constant limit every step keeps the counter within 90% of it |
| `MemoryReservation.NeverUnderflows` | crates/adbc-monetdb/src/driver.rs:4315-4321 | What a reservation gives back is in the counter, so the subtraction never wraps |
| `MemoryReservation.GrantFits` | crates/adbc-monetdb/src/driver.rs:4363-4372 | A granted reservation, the memory in use and all live reservations together fit the allowance |
| `MemoryReservation.RunsStayBalanced` | crates/adbc-monetdb/src/driver.rs:4311-4361 | In every interleaving the counter is the sum of the live reservations |
| `MemoryReservation.RunsStayBounded` | crates/adbc-monetdb/src/driver.rs:4330-4372 | In every interleaving under a constant limit the reservations stay within 90% of it |
| `MemoryReservation.Reservations` | crates/adbc-monetdb/src/driver.rs:4311-4373 | The same from the start, for any number of ingests and any schedule |

## Left out

- MAPI transport, TLS, authentication, cursor internals, timeouts and cancellation: the server is abstract and may refuse any statement.
- A reply that is lost after the server acted: every statement is answered.
- Raw SQL that changes the session's autocommit mode or starts a transaction by itself, and statements that end a transaction together with others in one text outside the listed kinds.
- A recovery ROLLBACK or ROLLBACK TO SAVEPOINT that the server refuses: from then on the run keeps its safety properties, but nothing more is claimed about the committed data.
- The savepoint of the prepare-time probe, which is issued whatever was written before.
- Concurrent statements on one connection: each call runs to completion before the next.
- How the write guard classifies text: a caller's texts and batches come with an answer that marks every writer as modifying, and ingest counts as modifying.
- Failing allocations and overflow checks on sums of lengths that cannot exceed memory.
- LZ4 itself, memory-mapped slabs, Arrow buffers and zero-copy adoption: bytes, and a codec with an inverse law.
- The prefetch thread of the ingest scheduler and of the reader, buffer recycling and statistics.
- The reader without prefetch, which observes requested instead of received rows.
- How Arrow values become per-row size estimates: a row carries its estimate, which is at least 1.
- Encoders and decoders of the other column types, and the claim that the string size estimate bounds the encoding, which a distant reference to a short string breaks.
- Numeric, interval, UUID and float literals; values in a template are texts.
- Option parsing, URIs, SQLSTATE mapping, catalog queries and `get_objects`.
- Which non-ASCII characters are alphanumeric: a parameter of the lexer.  Text positions count characters, not bytes.
- Trimming the statement texts that the scanner's ranges cut out of a script.
- Frames beyond 64-bit sizes, and the replacement of invalid UTF-8 in server error messages.
- The calendar library's own range is taken from its documentation; its date arithmetic is the calendar defined here.
- Use counters of the prepared cache at saturation, after 2^64 - 1 uses.
- A memory limit that changes between reservations: the sum law holds, the 90% bound is claimed for a constant limit.
