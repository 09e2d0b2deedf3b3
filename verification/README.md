# grpc-calamine: verified model

This Dafny project models the parts of grpc-calamine where correctness is
hardest to see, and proves what they promise. It stands beside the repository
and needs nothing from it: `dafny verify dfyconfig.toml` checks everything.

What is modelled, in the system's own terms:

- **The one-pass row streamer** (`src/service.rs`). `emit_incremental` turns a
  sparse cell stream, possibly out of order, into dense rows and row gaps. The
  walk, the batcher's queue, merging, flushing, run splitting, the per-stream
  string table, both carriers and every way a stream can end are modelled, and
  proved against a last-value-wins sheet. The channel is an append-only list of
  events to a client with some patience; the linger clock and the order an
  unstable sort gives to rows of one index are arbitrary.
- **The buffered and formula paths** (`src/service.rs`). `emit_range` and
  `emit_sparse_formulas` against the range `Range::from_sparse` would build,
  and both against the incremental path.
- **The bounded workbook store** (`src/store.rs`). A protocol of atomic steps
  over any number of concurrent requests: sweeping, reserving, registering,
  failing, closing, looking up, checking readers out and returning them, with
  bytes in flight between a removal and the `give` that follows it.
- **The pre-open scanner** (`src/archive.rs`). The resumable record counter of
  BIFF12 streams (section 2.1.4 of MS-XLSB), the table scan with its `sst`
  attribute (section 18.4.9 of ECMA-376 Part 1), and the picture bounds.
- **The packed columnar codec and the row-by-row walk** of the benchmark
  (`bench/src/bin/packed.rs`, `bench/src/main.rs`).

How it is laid out:

| files | contents |
|---|---|
| `Sequences`, `Arithmetic`, `DenseBudget` | what every part shares |
| `Contract` | cells, rows, events, and the client that reads them back |
| `StringTables`, `Batching`, `Walking` | the streamer as functions on values |
| `BatchingFacts`, `BatcherInvariant`, `WalkInvariant` | what each step keeps |
| `StreamTheorems`, `Revisiting`, `RowIndices`, `WholeRuns`, `Conservation`, `Endings`, `Lingering`, `ArrivedSheets`, `Findings` | whole runs |
| `DictionaryMode`, `DictionaryRefines`, `Carriers`, `RepairWindow`, `RepairLimits`, `RepairBytes`, `BatchBounds`, `FrameLimits` | relations between runs, and bounds |
| `Channels`, `RowBatchers`, `Emitting` | the streamer as the server runs it, tied to the functions |
| `Ranges`, `RangeTheorems`, `EmittingRange`, `TwoPaths` | the buffered path, and both paths together |
| `Formulas`, `FormulaStreams`, `FormulaCollecting` | the formula path |
| `Budgets`, `ReaderPools`, `StoreProtocol`, `StoreSafety`, `StoreTiming`, `StoreHandles`, `WorkbookStores`, `StoreRooms` | the store |
| `Records`, `RecordStreams`, `Attributes`, `TableScans`, `Inspecting` | the scanner |
| `Opening` | the scanner and the store together |
| `Packing`, `PackedCodec`, `PackedDicts`, `DenseWalks`, `GridBatches`, `GridWalks`, `PackedGrids`, `GapRefinement` | the benchmark |

What was found where the code and its documentation part ways (the model
follows the code):

- Rows are documented as strictly ascending, and `push` as never duplicating a
  queued index. `push` looks only at the last queued row before it appends, so
  rows 5, 6, 3, 5 queue row 5 twice and send it twice
  (`Findings.RowsCanRepeat`). Ascent holds exactly when the kept cells never
  revisit a row, which is told from the order of their rows alone, whatever the
  cap, the clock, the sort or the header row (`WholeRuns.AscendsExactly`).
  Going back to a row met before is a revisit when it is past the row that was
  left or gone back to last (`Revisiting.Revisits`). Row-grouped input, in which
  the cells of a row are consecutive while rows come in any order, never does
  that (`Revisiting.GroupedNeverRevisits`). Without any such condition a
  completed stream of cells at distinct positions still sends each of them once
  (`Conservation.EachCellOnce`), and no gap of a completed stream covers a
  populated row (`WholeRuns.GapsAreEmpty`).
- The byte cap of a string-table chunk is documented as ruling out an event that
  cannot be encoded. A chunk of several non-empty entries does always fit the
  frame; a single entry is taken whole whatever its length. A completed stream that
  kept some cell has string table messages that all fit exactly when each shared
  string that arrived, at most ten million of them empty, is no longer than the
  frame less ten bytes and those of its id (`FrameLimits.DictionaryFitsExactly`,
  with an input past it in `FrameLimits.LongBorrowPasses`).
- The abort message advises a larger `max_rows_per_message`, for a wider repair
  window. While the linger never runs out and no batch is filled by its bytes, a
  cap completes every input that another one does exactly when it is a multiple
  of it (`RepairLimits.WiderRepairsExactly`). When rows may be heavy enough to
  fill a batch by its bytes, and still no linger runs out, only the same cap does,
  for a multiple may flush later rows sooner; a cap of one row would be the one
  exception, and no request sets it (`RepairBytes.OnlyTheSameCapRepairs`).
- `walk_dense` is described as mirroring `emit_incremental` exactly. A blank
  that arrives after a value at the same position overwrites it there and is
  dropped by the streamer (`Findings.BlankCanWin`); on row-sorted cells the two
  agree exactly when that never has the last word
  (`GapRefinement.GapFormRefinesRows`).
- The incremental path is documented as covering the cells of calamine's own
  range. It sends a cell that has a formula and no value, which is in no range
  (`TwoPaths.FormulaAloneDiffers`). On cells that revisit no row, its completed
  streams and those of the range agree exactly when no such cell has the last
  word over a value and no row holds only such cells (`TwoPaths.TwoPathsAgree`).
- A table that declares more strings than its bytes could hold is documented as
  always refused. The declaration is looked for up to the first `>` after `<sst`,
  be it in a quoted value, so one that is the first usable in the first such
  element is checked exactly when no `>` stands before it and one stands after it
  in the head (`TableScans.CountIsChecked`, `Attributes.PrintedCountIsRead`, with
  a table that is let through in `TableScans.HiddenCountPasses`).
- `Budget::take` is exact for every limit but 2^64 - 1, where the saturated sum
  passes the check and the counter wraps (`Budgets.TakeIsExact`); the store's
  theorems are for smaller limits.

## Model

| member | source | states |
|---|---|---|
| Contract.RowsAreDetermined | proto/calamine/v1/calamine_service.proto:271-282 | A client can rebuild exactly one sheet: strictly ascending rows that each end at their last populated cell are determined by the cells they show. |
| Contract.ItemizeGaps | proto/calamine/v1/calamine_service.proto:297-319 | In the contract's rendering no gap is empty, each starts right after the row before it or at the sheet's start, and each ends exactly at a row that follows. |
| Contract.GapsCoverNothingSent | proto/calamine/v1/calamine_service.proto:305-308 | Where no row comes before an earlier one, no gap covers the index of any row sent anywhere in the stream, even one sent twice. |
| StringTables.ChunkFits | src/service.rs:876-896 | A chunk stays within the byte cap unless it is one entry, and stops only where one more entry would pass the cap. |
| StringTables.StringTable.TakeChunk | src/service.rs:876-896 | Takes the longest prefix of pending entries the cap allows (at least one), numbered from the first id not sent yet. |
| Channels.Channel.Send | src/service.rs:615-634 | One event appended, or the client is gone and nothing more reaches it; the answer says which. |
| Batching.Configure | src/service.rs:956-981 | What is asked for is the row cap, up to the ceiling; 0 means the default, and 1 means one row a message with the queue of the default. |
| BatchingFacts.MergeShows | src/service.rs:1152-1168 | A merge never blanks a populated cell, and a later cell wins exactly where it carries something. |
| BatchingFacts.EnqueueShows | src/service.rs:1045-1062 | Queueing a row updates what the queue shows at that row's carried cells and at nothing else, unless the row was appended without a look at the queue. |
| BatchingFacts.EnqueueDistinct | src/service.rs:1045-1062 | The queue stays free of repeated indices exactly when the row was not appended over an index already queued. |
| BatchingFacts.SortSorts | src/service.rs:1104-1105 | Whatever an unstable sort does with ties, the flushed rows are the queued rows in non-descending order. |
| BatchingFacts.SortShows | src/service.rs:1104-1105 | Sorting a queue with distinct indices changes nothing a client is shown. |
| BatchingFacts.FlushSays | src/service.rs:1107-1149 | Run splitting and gap announcement together emit exactly the contract's rendering of the sorted rows from the expected index on. |
| BatcherInvariant.FlushWire | src/service.rs:1091-1149 | A flush keeps the wire invariant: rows on the wire ordered, tidy, at or after the start, rendered exactly, with highest_sent and next_expected at the last one, and every queued row past it. |
| BatcherInvariant.PushWire | src/service.rs:1034-1082 | A push of an accepted tidy row keeps the same invariant, flushing or not. |
| BatcherInvariant.PushView | src/service.rs:1034-1082 | What the client will be shown once the queue has gone out is updated by exactly the pushed row's carried cells, across merging, flushing and sorting. |
| BatcherInvariant.PushClean | src/service.rs:1045-1062 | Sent and queued rows together stay free of repeated indices exactly when no push was a blind append. |
| RowBatchers.MergeRowValues | src/service.rs:1157-1168 | The in-place loop computes the specified merge. |
| RowBatchers.RowBatcher.constructor | src/service.rs:956-981 | A new batcher is the specified empty state under the clamped configuration. |
| RowBatchers.RowBatcher.OpenAt | src/service.rs:1015-1017 | Declares the sheet's start and changes nothing else. |
| RowBatchers.RowBatcher.SendNewStrings | src/service.rs:986-1004 | Sends every pending entry in chunks, up to where the client goes away, and empties the pending list. |
| RowBatchers.RowBatcher.SendRun | src/service.rs:1120-1149 | Sends the gap before a run if there is one and then the run, and moves next_expected and highest_sent to its last row. |
| RowBatchers.RowBatcher.SendSingly | src/service.rs:1140-1147 | In single mode the run goes out one message a row, in order. |
| RowBatchers.RowBatcher.SendRuns | src/service.rs:1107-1118 | The loop over the sorted queue sends maximal contiguous runs, exactly the events the specification lists. |
| RowBatchers.RowBatcher.QueueRow | src/service.rs:1045-1062 | Append, merge or queue out of order as specified, with pending_bytes equal to the sum of the row estimates afterwards. |
| RowBatchers.RowBatcher.Flush | src/service.rs:1091-1118 | The flush as fields and sends equals the specified flush, for any patience of the client. |
| RowBatchers.RowBatcher.Push | src/service.rs:1034-1082 | The push as fields and sends equals the specified push; the byte counter always equals the sum of the estimates. |
| WalkInvariant.TakeInv | src/service.rs:1357-1412 | Each kept cell keeps the walk's invariant: the row under construction holds a value, is past every queued row and still deliverable; the walk aborts at a cell exactly when the batcher does not accept its row. |
| WalkInvariant.TakeView | src/service.rs:1357-1412 | Each kept cell changes what will be shown at its own position, and nowhere else. |
| StreamTheorems.AbortsExactly | src/service.rs:1364-1374 | A run is aborted if and only if some kept cell arrives at or before a row already sent. |
| StreamTheorems.CompletesExactly | src/service.rs:1385-1426 | A stream completes if and only if reading succeeds and no cell comes too late: the two other abort sites are unreachable. |
| StreamTheorems.GapsAreExact | src/service.rs:1131-1138 | In every stream, however it ends, the row events are the contract's rendering of the rows sent, so each gap is exact and never last. |
| RowIndices.RunTracked | src/service.rs:1045-1062 | After any cells at all the rows met are those sent, queued or being built; and a row has been queued a second time exactly when the cells so far revisit one, which depends on the order of their rows and on no setting. |
| RowIndices.RowsSent | src/service.rs:1248-1427 | A completed stream sends a row for each row of the kept cells and for no other. |
| Revisiting.GroupedNeverRevisits | src/service.rs:1045-1062 | Cells that arrive row by row, the rows in any order, revisit no row. |
| WholeRuns.AscendsExactly | proto/calamine/v1/calamine_service.proto:271-275 | The rows of a completed stream are strictly ascending, as documented, if and only if the kept cells revisit no row; otherwise the documentation is wrong (see Findings). |
| WholeRuns.WholeRun | src/service.rs:1248-1427 | A completed run over cells that revisit no row shows the client exactly the last kept cell at every position, in strictly ascending rows that end at their last populated cell. |
| WholeRuns.GroupedRun | src/service.rs:1248-1427 | The same for every row-grouped input: rows in any order, any cap, header row, linger outcome and tie order. |
| WholeRuns.CutShort | src/service.rs:1338-1374 | At an abort or a read error, over cells that revisit no row, what was sent is the sheet so far, restricted to rows up to highest_sent, whole, and nothing past it. |
| WholeRuns.GapsAreEmpty | proto/calamine/v1/calamine_service.proto:305-308 | No gap of a completed stream covers a row that holds a kept cell anywhere in the input, earlier or later, whatever the order of the cells. |
| WholeRuns.RowsEndAtTheirLastCell | src/service.rs:1305-1309 | Over cells that revisit no row, every row sent ends at its own last populated cell, and each value stands at its own column. |
| Conservation.EachCellOnce | src/service.rs:1045-1062 | With no hypothesis on order, only distinct positions: a completed run sends each kept cell exactly once and nothing else, and row indices never decrease. |
| Findings.RowsCanRepeat | src/service.rs:1045-1051 | Rows 5, 6, 3, 5: the stream completes and sends rows 3, 5, 5, 6, the two halves of row 5 in whichever order the sort puts them. |
| Findings.BlankCanWin | bench/src/main.rs:337-410 | A value and then a blank in one cell: the row-by-row walk ends with the blank, the stream keeps the value, and the two sheets differ. |
| Emitting.TakeCell | src/service.rs:1355-1412 | One iteration after the filters equals one specified step; it stops at an abort, whose last event is the report of the cell that came too late, or when the client is gone. |
| Emitting.EmitIncremental | src/service.rs:1270-1427 | The whole loop: whatever the client's patience it receives the first events of the specified stream, in order; and one that stays receives a stream that begins and ends as Endings.EndsExactly says. |
| Endings.EndsExactly | src/service.rs:1357-1427 | Every stream begins with its header, which comes once, then has only chunks, gaps and rows under the carrier asked for, each batch some consecutive rows; it ends with the report of the first cell that comes too late, with the read failure when none does, or with neither when it completes; and how it ends is exactly which of these holds. |
| Endings.LateIsSent | src/service.rs:1364-1374 | A cell is too late exactly when it is kept and a row with its index or a later one is already on the wire. |
| Endings.RunsAreWhole | src/service.rs:1107-1118 | A flush splits its rows only where their indices jump or repeat: no batch could have held the rows of the next message too. |
| Lingering.PushEmptiesExactly | src/service.rs:1064-1082 | A push sends the queue exactly when it is as long as the cap, is estimated at 8 MiB, or the linger has passed while it is shorter than 32 rows or a multiple of 32 long; otherwise nothing is sent. |
| Lingering.NothingLingers | src/service.rs:1070-1080 | With a linger that has always passed nothing but the row under construction is ever held back. |
| ArrivedSheets.ClientHoldsTheSheet | src/service.rs:1335-1412 | Whenever a stream of cells that revisit no row completes, the client holds at each position, its ids resolved, the last thing the reader yielded there that is not above the header row and has a formula or a value, with its formula and style, and nothing where there was none. |
| DictionaryMode.IdsDefinedFirst | src/service.rs:986-1004 | In every dictionary stream, however it ends, ids are dense from zero, each chunk starts where the entries sent so far end, and every id in a row was defined by an earlier event. |
| DictionaryMode.InterningIs | src/service.rs:847-874 | The table holds each borrow that arrived and no other, no two share an id, there are as many ids as entries in order of first use, and the entry of a borrow's id is its text. |
| DictionaryMode.ConvertedResolves | src/service.rs:1432-1445 | Resolving a converted cell against the final table gives the plain conversion of the same cell. |
| DictionaryRefines.CompletedStreamsAgree | src/service.rs:1034-1082 | Over cells that revisit no row, completed streams under any two caps, carriers, lingers and tie orders send the same rows and gaps. |
| DictionaryRefines.DictionaryRefinesPlain | src/service.rs:840-846 | Over cells that revisit no row, resolving a completed dictionary stream with the table its own chunks define gives the rows and gaps of a completed plain stream. |
| BatchBounds.BatchesAreSmall | src/service.rs:1064-1069 | Every rows event has at most cap rows and an estimate below the byte cap plus the widest row's. |
| BatchBounds.MessageCovered | src/service.rs:150-177 | The protobuf encoding of any batch of tidy rows is no longer than that of a field of twice its estimate in bytes. |
| BatchBounds.EstimateIsClose | src/service.rs:150-177 | A row is estimated at no more than its encoded values and 18 bytes a cell, so a batch is not sent early by more. |
| BatchBounds.MessagesFitTheFrame | src/service.rs:119-131 | If every pushed row is estimated at most 8 MiB - 3, no message that carries rows passes the 32 MiB frame limit. |
| FrameLimits.SingleFits | src/service.rs:133-136 | The message of a one-entry chunk fits the frame if and only if the entry is no longer than the frame less ten bytes and those of its id. |
| FrameLimits.ChunksFitExactly | src/service.rs:876-896 | A string table message that goes on where the table stands fits the frame if and only if it has several entries or one no longer than that: if and only if each entry alone would fit under its own id. |
| FrameLimits.DictionaryFitsExactly | src/service.rs:133-136 | No string table message of a stream, however it ends, passes the frame when each shared string that arrives, numbered by first arrival, at most ten million of them empty, is no longer than that for its id; and those of a completed stream that kept some cell fit only then. |
| FrameLimits.LongBorrowPasses | src/service.rs:876-896 | One cell that borrows a longer string: the stream's first chunk does not fit the frame, although its row is estimated at 14 bytes. |
| Carriers.CarrierChangesNothing | src/service.rs:1140-1148 | One row a message or many: a stream is cut short at the same cell or not at all, with the same row and gap items and the same dictionary. |
| Carriers.ZeroAndOneAgree | src/service.rs:956-971 | max_rows_per_message 0 and 1 accept, abort and decode identically. |
| RepairWindow.PushAhead | src/service.rs:1034-1082 | One push under a cap and a multiple of it: the wider queue is some whole batches the narrower cap has sent, and then the narrower queue. |
| RepairWindow.MultiplesComplete | src/service.rs:1067-1069 | With no linger and no byte flush a multiple of a cap completes whatever the cap completes. |
| RepairWindow.MultiplesAgree | src/service.rs:1067-1069 | And over cells that revisit no row it sends the very same rows and gaps. |
| RepairLimits.WiderRepairsExactly | src/service.rs:692-714 | Of two caps that differ in nothing else, while no linger runs out and no batch is filled by its bytes, one completes every stream another does if and only if it is a multiple of it, with or without a table or a header row. |
| RepairBytes.OnlyTheSameCapRepairs | src/service.rs:692-714 | While no linger runs out, with rows of any size, one cap completes every stream another does if and only if it is the same cap or the other sends every row at once; the advice to retry with a larger cap is therefore not sound in general. |
| RepairLimits.LateIsRefused | src/service.rs:1364-1374 | For every cap b, while no linger runs out: b + 1 rows in order and then a row just before the b-th are aborted under b. |
| RepairLimits.LateIsRepaired | src/service.rs:1364-1374 | The same input completes under any cap that does not divide b, while no linger runs out. |
| RangeTheorems.SparseIs | src/service.rs:1347-1350 | What from_sparse makes of the kept cells: the smallest box around them, or the one from the selected header row and column A, with the value that arrived last at each position, a shared string as its text. |
| RangeTheorems.RangeStreamSays | src/service.rs:1197-1246 | The buffered path sends exactly the populated rows of a range, at absolute rows and anchored at column A, with exactly the gaps between them. |
| RangeTheorems.SparseShows | src/service.rs:1197-1246 | The populated rows of a from_sparse range show exactly the last kept cell at each position. |
| TwoPaths.TwoPathsAgree | src/service.rs:1251-1256 | Whenever the incremental run completes over cells that revisit no row, in either mode, its rows with ids resolved and its gaps are those of the buffered path over the from_sparse range of the same cells, up to formulas, styles and trailing empties, if and only if no formula alone has the last word over a value and no row holds formulas alone. |
| TwoPaths.FormulaAloneDiffers | src/service.rs:1347-1353 | A sheet whose one cell has a formula and no value: the incremental stream completes with a row, the range is empty, and the two differ. |
| EmittingRange.EmitRange | src/service.rs:1197-1246 | The loop over a range delivers the specified range stream, up to the client's patience; and a client that stays receives what EmittingRange.RangeAnswers says. |
| EmittingRange.RangeAnswers | src/service.rs:1206-1216 | For a budget below 2^64 - 1 a range is answered with a refusal alone exactly when its rows times its columns from A are more; one that holds nothing with its header alone; and any other with its header and then rows, gaps and chunks. |
| DenseBudget.WithinIs | src/service.rs:196-209 | The saturating check admits exactly the products within the budget, unless the budget is the largest 64-bit number. |
| DenseBudget.SmallerIsWithin | src/service.rs:196-209 | The dense-cell check is monotone: an extent within the budget stays within it when it shrinks. |
| Formulas.BoxOf | src/service.rs:1770-1779 | The extent is the smallest box around the formula cells: every cell inside, every side touched. |
| Formulas.TotalIsExact | src/service.rs:1788 | The announced cell count is exact under any budget below 2^64 - 1; it wraps only for a sheet whose formulas span every row and column. |
| FormulaStreams.SortedTexts | src/service.rs:1763-1765 | The stable sort keeps, for every position, the formula that arrived last. |
| FormulaStreams.ColumnsOf | src/service.rs:1777-1779 | The two column passes find the first and last columns of the box. |
| FormulaStreams.BuildRow | src/service.rs:1804-1807 | One dense row is filled from the cells of that row alone, every write in bounds, and the cells left are those of later rows. |
| FormulaStreams.EmitSparseFormulas | src/service.rs:1755-1816 | For any list of formula cells, unsorted and with repeats, the client receives the stream of the from_sparse range padded to column A, or the refusal that range would get; one that stays receives what FormulaStreams.FormulaStreamIs says. |
| FormulaStreams.FormulaStreamIs | src/service.rs:1755-1816 | That stream is a header without an extent when there are no formulas, a refusal alone when the extent from column A is past the budget, and otherwise the extent, its cell count, and each row of it from column A with the formula that came last at each position. |
| FormulaCollecting.FormulaCollector.Push | src/service.rs:1688-1720 | A cell is accepted if and only if the cells of the extent from column A, and the formulas' bytes with 32 more for each, are within their budgets for everything collected with it; the running extent is always the box of what is collected. |
| FormulaCollecting.BudgetsAre | src/service.rs:1699-1717 | The two saturating checks are those two comparisons in exact numbers, for any budgets but the largest 64-bit number. |
| FormulaCollecting.Collect | src/service.rs:1722-1752 | A sheet is refused at some cell if and only if all its formulas together pass a budget. |
| FormulaCollecting.StreamFormulas | src/service.rs:1844-1857 | A sheet past a budget is refused, one within them that cannot be read fails, and any other is streamed whole as its from_sparse range, with no second refusal; the client receives just that, up to its patience. |
| Budgets.TakeIsExact | src/store.rs:125-133 | The saturating check admits exactly what fits, for all sizes, if and only if the limit is not 2^64 - 1. |
| Budgets.GiveUndoesTake | src/store.rs:125-138 | Giving back what was taken restores the counter. |
| Budgets.Budget.Take | src/store.rs:125-133 | Takes bytes if they fit, otherwise reports what is held and changes nothing. |
| Budgets.Budget.Give | src/store.rs:135-138 | Gives bytes back, exactly when that much is held. |
| ReaderPools.ParkConserves | src/store.rs:95-110 | Parking loses no reader but the one it drops, and drops the uncharged first reader only from a pool already full of uncharged ones. |
| ReaderPools.ReaderPool.Take | src/store.rs:90-93 | Pops the reader parked last, or answers that there is none. |
| ReaderPools.ReaderPool.ParkReader | src/store.rs:101-110 | The search for a charged reader to replace computes the specified parking. |
| StoreSafety.EveryReachableStateIsSafe | src/store.rs:573-633 | Every interleaving: held equals registered workbooks plus pending reservations plus live charges plus what the lock holder is giving back; held and the workbook count stay within their limits; the pending count is exact; each workbook's readers are as the pool promises. |
| StoreSafety.StepSafe | src/store.rs:768-828 | Each atomic step keeps that invariant. |
| StoreSafety.EveryChangeIsExact | src/store.rs:120-139 | No counter wraps and no give saturates in any reachable state; a check or a take succeeds exactly when the bytes and the workbook fit. |
| StoreSafety.FirstReaderStays | src/store.rs:95-110 | Each live workbook has exactly one uncharged reader, parked or out; while none is out no charge is live, and the next read finds it parked. |
| StoreSafety.NothingLeaks | src/store.rs:596-633 | Once every workbook is closed and every reader is back the budget holds nothing. |
| StoreSafety.FitsIsNotEnough | src/store.rs:817-821 | An upload that passed the check is refused after all exactly when the readers charged over any steps in between, less the charges given back, have left it no room, which is why the bytes are taken and not only checked. |
| StoreSafety.OneChargeIsEnough | src/store.rs:817-821 | One reader that takes all the room left between the check and the taking has the upload refused. |
| StoreRooms.StepKeepsRoom | src/store.rs:940-958 | No step of the store changes the bytes a slot was made for or what a further reader of it is charged. |
| StoreRooms.RegisteredIs | src/store.rs:942-963 | A workbook just registered is charged what was reserved for it, has its first reader parked and uncharged and no other, has one handle out, and was used just now. |
| StoreRooms.ReadersCostWhatWasReserved | src/store.rs:474-504 | Once an upload has been admitted, whatever happens later: its workbook is charged for the upload and what a reader keeps, and a read that finds no parked reader is refused exactly when the latter does not fit on top of what is held, and otherwise raises it by just that. |
| StoreRooms.WorkbooksAreCharged | src/store.rs:866-869 | However requests interleave, each workbook there is was made for some reservation, and is charged its bytes and, for each further reader, what that reservation said a reader keeps. |
| StoreHandles.HandlesAreCounted | src/store.rs:985-989 | Only a lookup takes a handle on a workbook and only letting go gives one up: the handles are the one of its opening and those fetched, less those released. |
| StoreHandles.BusyExactly | src/store.rs:1020-1035 | From the empty store on, a workbook is busy exactly while not all of them are released. |
| Opening.Open | src/store.rs:862-963 | An open is refused for the first fault of its package; or for want of room, after a sweep, when the upload, its pictures and its tables' charges are more than fit; or fails to parse and leaves what that sweep left; and otherwise registers a workbook charged just those bytes, a further reader for all but the upload. |
| StoreTiming.BusyWorkbooksStay | src/store.rs:1020-1035 | A workbook with an outstanding handle is closed by nothing but its own close. |
| StoreTiming.IdleWorkbooksCloseInTheirWindow | src/store.rs:1018-1044 | A workbook idle since t is closed by a sweep no sooner than t + TTL - period - lag, and is gone by t + TTL + period. |
| StoreTiming.ReaperKeepsTheTtl | src/store.rs:1061-1065 | With the reaper's own period and any lag below the TTL, a TTL of 200 ms or more is honoured to within a quarter of itself and the lag, and never off by more than 30 s and the lag. |
| StoreTiming.ZeroTtlKeepsEverything | src/store.rs:1025-1028 | A zero TTL closes nothing. |
| WorkbookStores.ReserveAlone | src/store.rs:812-828 | Left alone, a reservation sweeps and then takes room exactly when the upload fits beside what is left. |
| WorkbookStores.SweepMakesRoom | src/store.rs:803-810 | A sweep only makes room: what fits before it fits after it. |
| WorkbookStores.ReadAlone | src/store.rs:474-504 | Left alone, a read borrows the parked reader, opens a charged one if it fits, and changes nothing when it gets none. |
| WorkbookStores.ReturnAlone | src/store.rs:178-184 | A returned reader is parked, or dropped with its charge, or takes the place of a charged one whose charge goes. |
| WorkbookStores.WorkbookStore.Sweep | src/store.rs:1024-1044 | The retain loop closes exactly the expired idle workbooks, restamps the busy ones and gives back exactly their bytes. |
| WorkbookStores.WorkbookStore.Admits | src/store.rs:803-810 | Says yes exactly when a reservation now would be admitted, and sweeps only on a refusal; a refusal names what is in the way. |
| WorkbookStores.FitsNames | src/store.rs:765-787 | A refusal is for the count exactly when the workbooks registered and opening are as many as may be, and otherwise for the bytes, with what is needed, what is held and the limit, exactly when those are more than may be held. |
| WorkbookStores.WorkbookStore.Reserve | src/store.rs:812-828 | Reservation as a method equals its protocol steps; the refusal is the one the counts give after the sweep, and the room is for the upload and what a reader keeps. |
| WorkbookStores.WorkbookStore.Register | src/store.rs:606-616 | Registration turns a pending open into a workbook charged what was reserved, with its first reader parked, one handle out and used just now, and lowers the pending count by one. |
| WorkbookStores.WorkbookStore.Abandon | src/store.rs:618-633 | A failed open gives its room back exactly. |
| WorkbookStores.WorkbookStore.Close | src/store.rs:999-1006 | Closing removes the workbook and gives back exactly its bytes; closing an absent one changes nothing. |
| WorkbookStores.WorkbookStore.Get | src/store.rs:985-989 | A lookup records the use and hands out one handle, or changes nothing. |
| WorkbookStores.WorkbookStore.Read | src/store.rs:474-504 | Checking out a reader: parked, charged, refused with what is held, or unreadable with the charge returned. |
| WorkbookStores.WorkbookStore.ReturnReader | src/store.rs:178-184 | Returning a reader equals its protocol steps. |
| Records.FedInPieces | src/archive.rs:401-447 | Feeding two pieces is feeding their concatenation. |
| Records.OrAdds | src/archive.rs:429-430 | The bitwise or that assembles a length adds, because its operands share no bit. |
| Records.RecordCounter.Feed | src/archive.rs:402-447 | Feeding a piece, with payloads skipped in one step, leaves the counter where reading it byte by byte would. |
| Records.TwoBytesARecord | src/archive.rs:380-399 | Twice the records counted, plus the header bytes of the record begun, never passes the bytes fed. |
| RecordStreams.CounterAgrees | src/archive.rs:376-399 | The counter agrees with a record-by-record parser of the whole stream, and is between records exactly when the stream is whole. |
| RecordStreams.CutAnywhere | src/archive.rs:401-447 | Feeding any pieces one after another leaves the counter where feeding them whole would, records cut anywhere. |
| RecordStreams.AnySplitAgrees | src/archive.rs:376-399 | Fed piece by piece, however the stream is cut, the counter has the records a whole-stream parser finds, and is between records exactly when the stream is whole. |
| RecordStreams.EncodedRecordsAreCounted | src/archive.rs:376-399 | The encodings of n records with lengths below 2^28 give count n and leave the counter between records. |
| RecordStreams.RecordRoundTrip | src/archive.rs:376-379 | Reading the header of an encoded record gives its size and its payload length. |
| Attributes.Find | src/archive.rs:508-514 | The first index of a needle: it occurs there and nowhere before, and an empty needle is nowhere. |
| Attributes.SaturatesOnce | src/archive.rs:495-497 | Saturating at every digit equals saturating the whole value. |
| Attributes.AttrU64 | src/archive.rs:464-506 | The loop equals the specified search: the first whole-name occurrence followed by a quoted value with a digit. |
| Attributes.AttrIsFirstUsable | src/archive.rs:462-506 | A name of letters and digits is read at the first position where it is a whole name with a number after it, and not at all exactly when there is none. |
| Attributes.PrintedNumberIsRead | src/archive.rs:462-506 | A printed decimal n is read back as the smaller of n and 2^64 - 1, when its name is not the tail of a longer one and no usable occurrence comes sooner. |
| Attributes.NumberIs | src/archive.rs:473-503 | A number follows a name exactly when an equals sign does, with only spaces around it, and then a quoted value with a digit, closed or at the end of the tag; it is the value of its digits, cut to 64 bits. |
| Attributes.OthersArePassedOver | src/archive.rs:491-500 | What is no digit is passed over wherever it stands in a number. |
| Attributes.TailsAreNotUsable | src/archive.rs:469-472 | The tail of a longer name is never taken for the name. |
| Attributes.NamesSpell | src/archive.rs:449-460 | The element searched for is `<sst` and the attribute `uniqueCount`. |
| Attributes.PrintedCountIsRead | src/archive.rs:449-460 | The count that the first sst of a head prints, no usable one before it, is read back the same way if and only if a space or a slash follows the name, no greater-than sign stands between it and the count, and one stands after it; otherwise no count is read. |
| TableScans.CountIsChecked | src/archive.rs:303-309 | Such a table within its limit is refused as malformed if and only if that holds and the count is more than an eighth of its bytes; the documentation says always. |
| TableScans.HiddenCountPasses | src/archive.rs:303-309 | A table of one start tag with a greater-than sign in a quoted value prints 999999999999 strings and is let through. |
| TableScans.DeliveredIs | src/archive.rs:325-352 | A part gives what its reads gave, interrupted ones apart, up to the first that failed. |
| TableScans.ScannedIs | src/archive.rs:335-373 | A table is over its limit exactly when its bytes are more; one within it is malformed exactly when its first MiB declares more than an eighth of its bytes; and any other is charged its bytes with 16 for each less-than sign, or 48 for each record, or 24 for each string declared if that is more. |
| TableScans.EstimateIsBounded | src/archive.rs:335-373 | An accepted table is charged at least what calamine reserves for its declared count and at most 17 (xml) or 25 (xlsb) times its bytes. |
| TableScans.ScanSharedStrings | src/archive.rs:316-374 | The scan depends only on the bytes delivered, not on how reads split or interrupt them. |
| Inspecting.InflatedSize | src/archive.rs:279-301 | The size of a part up to its end or first failure, or nothing once past the limit, reading at most one sink beyond it. |
| Inspecting.PicturesAreWithin | src/archive.rs:239-264 | A workbook let through has every picture within its limit and all of them within the total, which is what is reported. |
| Inspecting.PicturesDecide | src/archive.rs:239-264 | A workbook without tables is let through if and only if its pictures are within both limits. |
| Inspecting.Inspect | src/archive.rs:230-277 | The loop over the entries gives the specified verdict, which is what Inspecting.InspectedIs says, and reads at most the picture total limit plus 64 KiB of pictures. |
| Inspecting.InspectedIs | src/archive.rs:230-277 | A package is let through exactly when every picture and every table passes; it then reports the pictures' bytes and the tables' charges, summed in 64 bits; and otherwise it is refused for the first entry at fault, a picture for its own limit or for the room left, whichever was less. |
| Packing.LeRoundTrip | bench/src/bin/packed.rs:182-204 | A number that fits its little-endian field is read back. |
| Packing.LeBytes | bench/src/bin/packed.rs:182-204 | Byte k of a number is its k-th lowest. |
| Packing.NotesTellCellsApart | bench/src/bin/packed.rs:146-159 | What a digest is fed distinguishes any two cells, up to which dictionary entry a shared string came from. |
| PackedCodec.EncodePacked | bench/src/bin/packed.rs:283-330 | One pass over the cells writes the four sections in the documented layout. |
| Packing.Tag | bench/src/bin/packed.rs:45-54 | Each kind of cell has its own tag, 0 to 9, and no other kind has it. |
| PackedCodec.HeaderIsAt | bench/src/bin/packed.rs:315-320 | A buffer opens with the first row, the width and the row count, four bytes each, and then the tags after their count. |
| PackedCodec.SectionsAreAt | bench/src/bin/packed.rs:321-330 | After the tags come the fixed numbers, the text lengths and the text, each after its four-byte count, and nothing else. |
| PackedCodec.DecodeCell | bench/src/bin/packed.rs:351-383 | Each tag moves exactly its own cursors and yields the cell that was packed there. |
| PackedCodec.DecodeRows | bench/src/bin/packed.rs:364-383 | All rows in order, and the fixed, length and text cursors end exactly at the ends of their sections. |
| PackedCodec.DecodePacked | bench/src/bin/packed.rs:332-383 | Decoding an encoded rectangular batch within u32 sizes gives the same row indices and cells in order, plain or with a dictionary. |
| PackedDicts.Dict.Intern | bench/src/bin/packed.rs:402-413 | Ids are dense from zero, one for each borrow, each entry is its borrow's text, and no entry ever changes. |
| PackedDicts.Dict.WireBytes | bench/src/bin/packed.rs:417-421 | The reported table cost is the length of its encoding. |
| PackedDicts.DictionarySaves | bench/src/bin/packed.rs:283-330 | The dictionary saves every shared string's text and pays four bytes for each occurrence. |
| GridBatches.Widen | bench/src/bin/packed.rs:461-471 | Re-padding earlier rows changes nothing but the blanks they end in. |
| GridBatches.Grid.PushRow | bench/src/bin/packed.rs:448-480 | Every batch stays rectangular with row j at first_row + j, and the rows batched and pending are the rows pushed, up to trailing blanks. |
| GridWalks.FromRef | bench/src/bin/packed.rs:112-130 | Conversion keeps the value, and a shared string gets the id under which the dictionary has its text. |
| GridWalks.CatchUp | bench/src/bin/packed.rs:505-552 | Completing the rows before a cell's own, blank ones held back, keeps the grid at the rows of the walk. |
| GridWalks.BuildGrid | bench/src/bin/packed.rs:488-596 | The batches concatenate to exactly the rows of the dense grid, up to trailing blanks; each is rectangular, all but the last are full, and the dictionary has every shared string of theirs. |
| PackedGrids.BatchNotes | bench/src/bin/packed.rs:241-276 | What a reader is told of a packed batch is what it is told of the contract rows the batch stands for. |
| PackedGrids.Lossless | bench/src/bin/packed.rs:683-758 | The grid's batches, packed and decoded with a dictionary or without, tell exactly the grid's rows and cells in order. |
| DenseWalks.Release | bench/src/main.rs:379-386 | Blank rows held back are emitted exactly when a later row proves them interior. |
| DenseWalks.WalkDense | bench/src/main.rs:355-410 | On row-sorted cells the row-by-row walk emits every row from the first to the last that held a value, each cell the last that arrived there, padded to a width that never shrinks. |
| GapRefinement.SortedCompletes | src/service.rs:1248-1427 | On row-sorted cells the incremental stream always completes, with any header row and with or without a table. |
| GapRefinement.ExpandedRows | proto/calamine/v1/calamine_service.proto:305-308 | Expanding gaps into blank rows gives one row for each index from the first row to the last, showing the same cells. |
| GapRefinement.GapFormRefinesRows | bench/src/main.rs:337-410 | Expanding the incremental events gives exactly the rows of the row-by-row walk, modulo trailing empties, if and only if no blank arrives last where a value had been. |

## Left out

- TwoPaths.TwoPathsAgree: compares rows without their formulas, styles and trailing blanks, and resolved to plain strings, because that is all a range holds.
- GapRefinement.GapFormRefinesRows: is for row-sorted cells, as the row-by-row walk is, and for streams without a dictionary, a header row, formulas or styles, as the benchmark reads its sheets.
- WholeRuns.WholeRun: a row index is below 2^32 - 1, because the source computes the index after a row in 32 bits.
- DictionaryRefines.DictionaryRefinesPlain: asks that one borrow (pointer and length) always has one text, which the reader's lifetime gives the source.
- StoreSafety.EveryReachableStateIsSafe: is for limits below 2^64 - 1; `Budgets.TakeIsExact` says what that one limit does.
- PackedCodec.DecodePacked: takes a buffer that encodes a rectangular batch within 32-bit counts, since the source panics on any other.
- Opening.Open: whether a workbook parses is a parameter, and formats are not told apart.
- Inspecting.Inspect: takes no part to deliver 2^64 bytes.
- GridWalks.BuildGrid: is for row-sorted cells, as the row-by-row walk is, and a dictionary with an id left for every borrow.
- PackedGrids.Lossless: takes batches whose width, cells and text fit the buffer's 32-bit counts; past them the source cuts the counts short.
- FrameLimits.DictionaryFitsExactly: is for sheets with at most ten million empty strings among their borrows, which the chunk's byte cap does not count.
- RepairLimits.WiderRepairsExactly: is for a linger that never runs out; a clock may end any window at any row.
- RepairBytes.OnlyTheSameCapRepairs: is for a linger that never runs out, for the same reason.
- Records.RecordCounter.Feed: a length is assembled by an `Or` on numbers, proved to be addition, rather than on machine words, and the counter is unbounded.
- PackedDicts.Dict.Intern: the dictionary stays below 2^32 entries.
- Ids, entry counts and row counts of one stream are unbounded numbers, not 32-bit words.
- The linger's clock, a client's stall and the order an unstable sort gives to rows of one index are arbitrary parameters.
- The contents of the range header (sheet name, dimensions, merged regions, number formats, tables) are one event without fields on the value stream.
- An unset value oneof: conversion always sets one.
- Floats and date-times are 64-bit patterns; text is bytes.
- calamine, zip inflation and the zip directory, uuids, and real clocks: cells, reads of bytes, fresh slots, and a time parameter stand for them. `Range::from_sparse` is not part of the repository; it is the bounding box with the later cell winning.
- Poisoned locks, and panics inside the store other than in an open.
- What a closed workbook still keeps in memory for requests that hold it: the source gives its bytes back at close, and so does the model.
- The interleaved store is on values (`StoreProtocol`); the class in `WorkbookStores` runs one operation at a time.
- `FormatSet`, format detection, error texts, `classify`, `quoted` and `normalize`: finite or single-branch.
- gRPC handlers, upload framing, permits and timeouts: I/O plumbing.
- Pictures, VBA, metadata, tables and number formats: copied through unchanged.
- Digests are replaced by what they are fed; timing, sockets and the demos are not modelled.
