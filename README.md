# Greedy task allocator of the cloud allocation service

This project models the allocation service in `Service.cs`. The service takes a parsed
configuration: P processors, T tasks, a row-major P×T runtime vector, the RAM each task
needs, the RAM each processor has, and a maximum program duration. It answers with one
allocation document in the line-oriented TAFF format.

The model covers four parts:

- **Blocked-cell map** (`Blocking`). A cell is blocked when the task needs more RAM than
  the processor has. `Randomise` then blocks one more open cell in every task column; the
  row is drawn at random until it names an open cell. The random stream is a parameter:
  `draws`, the rows `Random.Next(0, rows)` returns.
- **Greedy pass** (`Greedy`). The task columns are visited from last to first. In each
  column, every processor gets a candidate value. It is the runtime when the cell is open
  and the runtime fits on top of the processor's running total; otherwise it is 0. The
  strictly largest candidate wins, so the lowest row wins a tie. The task is placed only if
  that value is positive.
  - Specification: `Winner`, `Step` and `Run` give the pass on values.
  - Implementation: the methods mirror the source's nested loops over `array2` tables.
    `GreedyAlgorithm` is proved to compute `GreedyOutcome`.
  - Timing: the stopwatch is a parameter, `clock[c]`, the reading taken before column c.
- **Serialisation** (`Taff`).
  - `TaffFileFormat` appends the header and then every cell.
  - It is proved to produce `AllocationDocument` of the array's contents.
  - `ParseDocument` is a reference reader. It reads back both documents.
- **Result choice** (`Service`). The allocator's text is returned when the allocation
  reader accepts it; otherwise the "no allocation" document is returned. The reader
  (`Allocations.TryParse`) is the parameter `accepts`.

`Configuration` holds the configuration record and the outcome type. An outcome is one of:

- `Done`;
- `TimedOut`, the `TimeoutException` at line 91;
- `IndexOutOfRange`, when `Random.Next(0, 0)` yields row 0 of an empty table;
- `Unfinished`, when the draws ran out while `Randomise` was still looking.

`Text` holds the decimal forms of numbers that C# string concatenation writes, and the
line and field splitting the reader uses.

Two behaviours of the code shape the model:

- **A fully blocked column.** The `while (count < 1)` loop of `Randomise`
  (Service.cs:183-192) never ends on a column with no open cell. So a task that needs
  more RAM than every processor has hangs the request. `FullColumnNeverFinishes` and
  `RandomiseTerminationIff` state this.
- **No tasks.** With T = 0 the inner loop of `TaffFileFormat` (Service.cs:154-160) writes
  nothing. The document is then the three header lines and no row lines.
  `AllocationDocument` and `AllocationDocumentRoundTrip` state this.

When nothing stands in the pass's way, it places every task (`RunPlacesEveryTask`). That
means no runtime is negative, every processor could carry all the tasks within the
duration limit, and every task keeps an open cell with a positive runtime. Diversification
can take that last condition away: with one processor, it blocks the only cell of every
column, and the pass then places nothing.

## Model

| member | source | states |
|---|---|---|
| Configuration.RowMajorInRange | Service.cs:56 | cell (p, t) of the row-major runtime vector, index p·T + t, lies inside the vector |
| Grids.Grid | Service.cs:44-46 | the table of an `int[,]` array has the array's dimensions and holds each cell's value |
| Blocking.MemoryMap | Service.cs:61-68 | a cell is 1 exactly when the task needs more RAM than the processor has, else 0 |
| Blocking.BlockMemory | Service.cs:61-68 | afterwards each cell is 1 when the task needs more RAM than the processor has; every other cell keeps its value |
| Blocking.Randomise | Service.cs:175-194 | the loop's outcome and final map are those of `RandomiseFrom` on the map it started from |
| Blocking.RandomiseFromBlocksOnePerColumn | Service.cs:179-193 | when the loop finishes, each column has exactly one more blocked cell, one that was open; every other cell is unchanged |
| Blocking.RandomiseFromFrame | Service.cs:179-193 | a finished loop keeps the table's shape and leaves columns before its start alone; it had rows if it had columns |
| Blocking.RandomiseKeepsBlockedCells | Service.cs:187-190 | a cell blocked before diversification is still blocked after it |
| Blocking.FullColumnNeverFinishes | Service.cs:183-192 | a column with no open cell is never served, whatever the draws: the loop does not finish |
| Blocking.OpenChoicesFinish | Service.cs:183-192 | draws that name an open cell in each column finish the loop and block exactly those cells |
| Blocking.RandomiseTerminationIff | Service.cs:179-193 | some draws finish the loop if and only if every column has an open cell |
| Blocking.RandomiseIndexOutOfRangeIff | Service.cs:185-187 | the loop fails with an index error exactly when there are no rows but a column is left |
| Blocking.RandomiseFrom | Service.cs:179-193 | the loop on values: for each column, draws are taken until one names an open cell, which becomes 1; with no rows the first draw indexes row 0 and fails; when the draws run out the loop is still running |
| Blocking.OpenRow | Service.cs:187 | a column with an open cell names a row whose cell is open |
| Greedy.Candidate | Service.cs:96-101 | a processor's candidate for a task is the runtime when the cell is open and the runtime plus the processor's load is within the limit, and 0 otherwise |
| Greedy.Winner | Service.cs:105-115 | the strict-maximum search: a positive result is the runtime of an open cell that fits on its processor's load; a zero result points at row 0 |
| Greedy.WinnerIsFirstLargest | Service.cs:108-115 | the search finds the largest candidate, and the lowest row among equal largest ones |
| Greedy.StepPlacesOnFirstLargestCandidate | Service.cs:94-125 | a column changes nothing exactly when no candidate is positive; otherwise its task goes to the first largest candidate, on an open cell whose runtime is positive and fits, and only that load and that task change |
| Greedy.Step | Service.cs:94-125 | one column keeps the number of processors and tasks |
| Greedy.Run | Service.cs:85-133 | the placement after the first n visited columns has P loads and T owners |
| Greedy.RunLeavesLaterColumnsOpen | Service.cs:85 | columns the pass has not reached hold no task |
| Greedy.RunPlacesOnOpenCells | Service.cs:96-122 | every placed task is on an existing processor, on an open cell, with a positive runtime |
| Greedy.RunKeepsLoadsWithinLimit | Service.cs:96-124 | every processor's load is 0, or positive and at most the maximum program duration |
| Greedy.RunLoadsAreSums | Service.cs:123 | each processor's load equals the sum of the runtimes of the tasks placed on it |
| Greedy.AssignedLoadAfterPlacing | Service.cs:123 | placing an unplaced task adds its runtime to its processor's sum and to no other |
| Greedy.ZeroLoadWithoutPlacements | Service.cs:74 | with nothing placed every processor's sum is 0 |
| Greedy.RunCountsPlacedTasks | Service.cs:124 | the counter of allocated tasks is the number of tasks that have a processor |
| Greedy.StepCountsPlacedTasks | Service.cs:118-125 | one column keeps the counter equal to the number of placed tasks |
| Greedy.PlacedCountAfterPlacing | Service.cs:124 | placing one unplaced task adds one to the number of placed tasks |
| Greedy.PlacedCountOfNone | Service.cs:49 | with nothing placed the number of placed tasks is 0 |
| Greedy.FullCountPlacesEveryTask | Service.cs:137 | a count equal to the number of tasks means every task has a processor |
| Greedy.PlacedCountAtMost | Service.cs:137 | the number of placed tasks never exceeds the number of tasks |
| Greedy.AllocationMatrix | Service.cs:119-122 | the 0/1 allocation table has P rows of T cells |
| Greedy.AllocationColumnOnes | Service.cs:119-122 | a column of the allocation table holds one 1 when its task is placed and none otherwise |
| Greedy.AllocationOnesArePlacedTasks | Service.cs:122-124 | the number of 1s in the allocation table equals the number of placed tasks |
| Greedy.TableLoadIsAssignedLoad | Service.cs:122-123 | a processor's row of the table adds up to the runtimes of its placed tasks |
| Greedy.PassTable | Service.cs:96-133 | after the pass each column has at most one 1, only on open cells with a positive runtime; the 1s count the allocated tasks; each row adds up to its processor's load, which is 0 or within the limit |
| Greedy.GreedyText | Service.cs:136-140 | the text is the allocation document of the pass's table when the counter equals the number of tasks, and the empty string otherwise |
| Greedy.GreedyTextIsCompleteOrEmpty | Service.cs:136-140 | the text is non-empty exactly when every task was placed, and then the table is complete and feasible |
| Greedy.GreedyOutcome | Service.cs:42-140 | the allocator's outcome: diversification's failure, a timeout when a reading before some column exceeds 300000, and otherwise the pass's text for the diversified map |
| Greedy.AssignedLoadWithinRow | Service.cs:96-123 | with no negative runtime, the runtimes placed on a processor plus one unplaced task's runtime add up to at most the processor's whole row |
| Greedy.StepPlacesPlaceableTask | Service.cs:94-125 | when loads are the sums of the placed runtimes and nothing stands in the way, a column whose task has an open cell with a positive runtime places that task |
| Greedy.RunPlacesNextTask | Service.cs:85-125 | when nothing stands in the way, each column the pass visits adds one to the counter |
| Greedy.RunPlacesVisitedTasks | Service.cs:85-125 | when nothing stands in the way, the counter after n visited columns is n |
| Greedy.RunPlacesEveryTask | Service.cs:85-140 | when no runtime is negative, every processor could run all tasks within the limit and every task has an open cell with a positive runtime, the pass places every task; its text is non-empty and its table complete and feasible |
| Greedy.GreedyOutcomePlacesEveryTask | Service.cs:42-140 | with no late stopwatch reading and nothing standing in the way on the diversified map, the allocator answers with a non-empty allocation document |
| Greedy.GreedyOutcomeIsFeasible | Service.cs:42-140 | after diversification, a non-empty text is the document of a complete, feasible table for the diversified map, in which no task sits on a processor with less RAM than it needs |
| Greedy.RuntimeTable | Service.cs:52-58 | the unflattened runtime table has P rows of T cells |
| Greedy.GreedyProblem | Service.cs:42-82 | the configuration and the diversified map make a well-shaped problem |
| Greedy.LoadRuntimes | Service.cs:52-58 | `runtimes[p, t]` is entry p·T + t of the runtime vector |
| Greedy.Diversify | Service.cs:61-71 | memory blocking then diversification: the outcome is that of `RandomiseFrom` on the memory map, and a finished map is its result |
| Greedy.NewTables | Service.cs:46-77 | the fresh zero tables mirror the empty placement |
| Greedy.ComputeCandidates | Service.cs:94-102 | each candidate cell is the runtime when the cell is open and fits on the load, else 0; other columns are unchanged |
| Greedy.LargestCandidate | Service.cs:104-115 | the result is the first largest candidate and its row, or 0 and row 0 when none is positive |
| Greedy.ClearOtherRows | Service.cs:127-132 | every row but the chosen one is zeroed in the column; other columns are unchanged |
| Greedy.PlaceColumn | Service.cs:94-132 | the arrays go from mirroring a placement to mirroring its step on this column |
| Greedy.VisitColumn | Service.cs:85-133 | one pass of the column loop takes the arrays from `Run(n)` to `Run(n + 1)` |
| Greedy.MirroredTable | Service.cs:119-122 | arrays mirroring a placement hold its allocation table |
| Greedy.RunNextColumn | Service.cs:85 | the next visited column is still open, and visiting it is one step |
| Greedy.AllocateColumns | Service.cs:80-133 | the pass times out exactly when a stopwatch reading exceeds 300000; otherwise it ends with the allocation table and counter of `Run(T)` |
| Greedy.GreedyAlgorithm | Service.cs:42-141 | the method's outcome is `GreedyOutcome`: a diversification failure, a timeout, or the pass's text |
| Taff.ConfigLine | Service.cs:147 | the first line is `CONFIG-FILE="`, the configuration path and a closing quote |
| Taff.DataLine | Service.cs:148 | the second line is `ALLOCATIONS-DATA=`, then the flag, the task count and the processor count, separated by commas |
| Taff.RowLine | Service.cs:154-159 | a processor's row line is its cells in decimal, separated by commas |
| Taff.AllocationDocument | Service.cs:146-163 | the allocation document is the two header lines, the identifier line and one row line per processor, each ended by a line feed; with no tasks there are no row lines |
| Taff.EmitCells | Service.cs:154-160 | the text after the first k cells of a row are appended: every cell but the row's last is followed by a comma, the last by a line feed |
| Taff.EmitRows | Service.cs:151-161 | the text after the first n rows of the table are appended to the header, cell by cell |
| Taff.ZeroAllocations | Service.cs:166-173 | the "no allocation" document is the configuration line and the data line with flag 0, each ended by a line break |
| Taff.AppendRow | Service.cs:154-160 | one row's cells are appended, separated by commas and ended by a line break |
| Taff.TaffFileFormat | Service.cs:143-164 | the text is exactly `AllocationDocument` of the array's contents |
| Taff.HeaderText | Service.cs:146-149 | the three appended header pieces are the three header lines |
| Taff.EmitRow | Service.cs:154-160 | a complete row is its cells joined by commas and a line break; a row without cells writes nothing |
| Taff.EmitRowsAsLines | Service.cs:151-161 | the rows written are the row lines of the table, and nothing when there are no tasks |
| Taff.EmittedDocument | Service.cs:146-163 | header lines followed by the written rows make the allocation document |
| Taff.ParseDocument | Service.cs:146-173 | a reference reader with no counterpart in the service: it splits the text at line feeds and reads the configuration line, the data line and, with flag 1, the identifier line and the comma-separated rows |
| Taff.AllocationDocumentRoundTrip | Service.cs:146-163 | the reader recovers the path, flag 1, both counts and every row, and no rows when there are no tasks |
| Taff.ZeroAllocationsRoundTrip | Service.cs:166-173 | the reader recovers the path, flag 0 and both counts |
| Taff.ParseDataLineRoundTrip | Service.cs:148-170 | the data line reads back as flag, task count and processor count, tasks first |
| Taff.ParseConfigLineRoundTrip | Service.cs:147-169 | the configuration line reads back as the path |
| Taff.ParseRowsRoundTrip | Service.cs:151-161 | the row lines read back as the rows |
| Taff.RowLineRoundTrip | Service.cs:157-159 | one row line reads back as its cells |
| Taff.DataLineAsJoin | Service.cs:148 | the data line is its prefix and three comma-separated fields |
| Text.NatToStringRoundTrip | Service.cs:148 | a count's decimal text reads back as the count |
| Text.IntToStringRoundTrip | Service.cs:157-159 | a cell's decimal text reads back as the cell's value |
| Text.SplitJoin | Service.cs:157-159 | cutting at commas undoes joining with commas when no field has a comma |
| Text.SplitUnlines | Service.cs:147-159 | cutting at line breaks recovers the lines of a document |
| Text.UnlinesAppend | Service.cs:146-161 | the document of two runs of lines is the two documents in a row |
| Service.Respond | Service.cs:33-37 | the answer is the allocator's text when the reader accepts it, and the "no allocation" document otherwise |
| Service.ServiceOutcome | Service.cs:29-39 | a request ends with the allocator's failure, or with the answer chosen for its text |
| Service.GenerateAllocations | Service.cs:29-39 | the outcome is the allocator's failure, or the allocator's text when the reader accepts it and otherwise the "no allocation" document |
| Service.ResponseIsReadable | Service.cs:29-39 | a finished answer reads back with the configuration's path and counts; with flag 1 it carries the pass's complete, feasible table, placing no task on a processor with too little RAM; with flag 0 it is the "no allocation" document |

## Left out

- Configuration loading over `WebClient`, and `Configuration.TryParse` (lines 21-26). This
  is I/O and a library outside the model. The parsed configuration is the input.
- Malformed configurations. Every operation requires `cfg.Valid()`: the runtime, task RAM
  and processor RAM vectors have the lengths the counts announce. The code never looks at
  the parser's error list (Service.cs:25). A shorter vector makes the reads at lines 56 or
  65 throw `IndexOutOfRangeException`; a longer one is read only in part. The model covers
  neither path.
- `Allocations.TryParse` (line 31) is not part of this model. Its "no errors" verdict is the
  parameter `accepts`. `Service.ResponseIsReadable` requires that the reader rejects the empty
  text.
- `Stopwatch` (lines 80-92) is wall-clock time. It is replaced by the reading sequence
  `clock`: `clock[c]` is the reading taken just before column c. The model does not tie
  readings to elapsed work, so later readings need not be larger.
- `Random` seeded from the clock (line 177). It is replaced by the draws sequence.
  `Unfinished` stands for a loop that has used up the supplied draws. A loop that never
  ends is shown by `FullColumnNeverFinishes`: no draw sequence finishes it.
- `Environment.NewLine` is fixed to a line feed.
- `Double` is modelled as `real`. The code only adds and compares runtimes, so rounding
  is not modelled.
- `int` counters and indices are unbounded. The dimensions of a real configuration stay
  far below 2^31.
- The `AllocationsViewer.cs` client is not part of this model: the WinForms handlers, the
  18 concurrent WCF calls, the deadline wait, the completion counters and the lowest-energy
  choice. It is concurrent user-interface code.
