# lessanvil region compaction, modelled in Dafny

lessanvil shrinks a Minecraft world. It removes every chunk whose
`InhabitedTime` is at or below a threshold. The time is how long players have
spent in the chunk, counted in ticks at 20 per second. It then truncates each
region file. This project models the compaction engine of the library
(`src/lib.rs`) and of the command-line binary (`src/main.rs`), and proves
properties of that model.

- **Region processor** (`Compaction`, `Standalone.ProcessRegionFile`).
  - A region file is a 32×32 grid of chunk slots. The grid is scanned with `x`
    as the outer loop and `y` as the inner loop, so slot `32*x + y` is visited
    in that order.
  - A slot that cannot be read, or that is empty, is skipped.
  - A payload that does not decode stops the file with an NBT error.
  - A decodable chunk whose time is at most `threshold / 20` is removed. A
    failed removal stops the file with an Anvil error.
  - Removals done before an error stay done. A removal that fails is taken
    to leave its slot as it was.
  - After the scan the codec is released and the file is truncated, which can
    fail in turn.
  - On success the library reports the region's coordinates, the chunks
    examined and the chunks removed. The binary reports only the removed count.
- **Region coordinates** (`Paths`). The processor reads coordinates from the
  file stem leniently. It splits the stem on `.`, drops the first component,
  and takes `y` from the last remaining component and `x` from the one before
  it. A missing or unparsable component reads as 0. The model states Rust's
  `file_stem`/`extension` rules and the unsigned `parse` (optional `+`, no
  `-`, 64-bit overflow rejected).
- **Collecting region files** (`Enumeration`). The folders searched are
  `region`, `DIM-1/region` and `DIM1/region`, in that order. A missing folder
  is skipped, and a folder that cannot be listed fails the collection. Only
  entries with extension `mca` are kept. The binary's copy of this function has
  the same logic, and the model reuses `Enumeration.CollectRegionFiles` for
  it.
- **`execute`** (`Engine`).
  - Setup checks come first: world folder, thread pool, collection, first size
    measurement.
  - A worker then sends `Starting`, one event per file, and `Finished` with a
    report.
  - A consumer that drops the receiver stops the run at the first refused
    send.
  - The totals are sums over the successful results. `total_regions` counts
    every file.
  - The freed space is the size before minus the size after. When the second
    measurement fails, the size after counts as 0.
- **`main`** (`Standalone.RunStandalone`). It bails when the folder is
  missing, and builds the pool only when a thread count is given. It measures,
  collects and processes every file; a failing file adds nothing and does not
  stop the others. It sums the removed counts and measures again, and a failed
  second measurement is an error.

The parallel fan-out is modelled as a fold over the file list in order.
Workers add to shared counters in whatever order they finish.
`Aggregation.SumPermutation` shows that the totals are the same for every
order in which the results arrive.

Three behaviours of the code are easy to misread, and the model states them
as the code has them:
- The threshold is documented as seconds (src/main.rs:30-31), and
  `InhabitedTime` counts ticks. The engine multiplies the threshold by 20
  (src/lib.rs:100), and the processor divides it by 20 again
  (src/lib.rs:224). So there is no net conversion: a chunk is removed when
  its time in ticks is at most the configured number. With a threshold of 60,
  a chunk inhabited for 100 ticks (5 seconds) is kept
  (`Compaction.ThresholdComparedAsTicks`).
- Measuring the world's size. In the library only the second measurement
  degrades on failure, to `before - 0`, and a failed first measurement is a
  setup error (src/lib.rs:85, src/lib.rs:123). In the binary either failure
  is an error (src/main.rs:63, src/main.rs:96).
- `Finished` is documented as the last message sent (src/lib.rs:65), and
  dropping the receiver stops processing "as soon as possible"
  (src/lib.rs:71). In the code a refused send stops the run at that file
  (src/lib.rs:114-121), and `Finished` is sent only when no send was refused
  (src/lib.rs:122). The consumer therefore receives a prefix of `Starting`,
  the per-file events and `Finished` (`Engine.RunEvents`).

## Model

| member | source | states |
|---|---|---|
| Units.ScaleThreshold | src/lib.rs:100 | the configured threshold is multiplied by 20 with a wrapping 64-bit multiply; without overflow the product is exactly `threshold*20` and divides back to `threshold` |
| Units.Cutoff | src/lib.rs:224 | the cutoff is the value handed to the processor divided by 20, remainder discarded: the greatest c with `c*20` at most that value; `InhabitedTime` in ticks is compared against it |
| Units.ThresholdOverflow | src/lib.rs:100 | when `threshold*20` overflows, the wrapped cutoff is strictly below the configured threshold |
| Storage.SlotIndex | src/lib.rs:219-220 | chunk (x, y) is slot `32x+y`: the slot number recovers x as quotient and y as remainder, within the 1024 slots |
| Paths.LastDot | src/lib.rs:204 | locates the dot after which no dot follows, or reports that there is none |
| Paths.Split | src/lib.rs:204 | splitting on '.' yields at least one component, and no component contains a dot |
| Paths.JoinSplit | src/lib.rs:204 | gluing the components back with dots restores the original string |
| Paths.SplitJoin | src/lib.rs:204 | splitting a dot-joined list of dot-free components recovers that list |
| Paths.SplitAtDot | src/lib.rs:204 | the components of `s.t` are those of `s` followed by those of `t` |
| Paths.McaExtension | src/lib.rs:149-155 | Rust's extension is `mca` exactly when the name ends in `.mca` after a non-empty stem, and the file stem is then the name without `.mca` |
| Paths.ParseComponent | src/lib.rs:207 | an unparsable component reads as 0, and a nonzero reading always comes from a successful `usize` parse; with `Paths.DigitsParse` (a parsable text reads as its value) and the zero lemmas below, this fixes the reading of every text |
| Paths.ParseDecimal | src/lib.rs:207 | every `usize` written in decimal parses back to itself |
| Paths.NegativeIsZero | src/lib.rs:207 | a component starting with '-' fails the unsigned parse and reads as 0 |
| Paths.NonNumericIsZero | src/lib.rs:207 | a component with any character other than a digit, besides a leading '+', fails the parse and reads as 0 |
| Paths.EmptyIsZero | src/lib.rs:207 | an empty component, or a lone '+', reads as 0 |
| Paths.DigitsParse | src/lib.rs:207 | digits, with or without a leading '+' and including leading zeros, parse to their value when it fits in a `usize`, and the component reads as that value (`+5` as 5, `07` as 7) |
| Paths.OverflowIsZero | src/lib.rs:207 | digits whose value is 2^64 or more, with or without a leading '+', read as 0 |
| Paths.RegionCoordinates | src/lib.rs:201-211 | a stem that is not text reads as (0, 0); a nonzero y comes from a successful parse of the stem's last dot-separated component, and a nonzero x from the one before it, which exists only when the stem has at least three components |
| Paths.LastTwoComponents | src/lib.rs:201-211 | only the last two dot-separated components of the stem give x and y, whatever precedes them |
| Paths.OneComponent | src/lib.rs:206-209 | a stem with a single dot gives y from its second component, and x falls back to 0 |
| Paths.NoComponents | src/lib.rs:206-209 | a stem without a dot has no coordinate components and reads as (0, 0) |
| Paths.CoordinatesRoundTrip | src/lib.rs:201-211 | the stem `r.<x>.<y>` decodes to exactly (x, y) for all `usize` x and y |
| Paths.NegativeCoordinate | src/lib.rs:201-211 | a region with a negative x, `r.-a.y`, is reported at x = 0 with its y intact |
| Paths.ExampleStem | src/lib.rs:201-211 | the stem `r.3.7` decodes to x = 3 and y = 7 |
| Compaction.ScanSlots | src/lib.rs:219-229 | a scan keeps the number of slots and never removes more chunks than it examines, nor examines more than there are slots |
| Compaction.ProcessRegionFile | src/lib.rs:194-242 | a success counts at most 1024 chunks and no more removed than examined, and carries the coordinates decoded from the file stem; the file is left openable exactly when it opened; when it succeeds and what it changes are stated by `Compaction.ProcessedRegionCounts`, `Compaction.OpenFailure`, `Compaction.DecodeErrorKeepsEarlierRemovals` and `Compaction.ReleaseFaultKeepsRemovals` |
| Compaction.ScanFailsIffSomeSlotAborts | src/lib.rs:219-229 | the scan fails exactly when some slot has an undecodable payload, or is due for removal and its removal fails |
| Compaction.CleanScan | src/lib.rs:219-229 | a scan with no failing slot empties exactly the chunks at or under the cutoff, keeps every other slot, and counts the examined and the removed chunks |
| Compaction.AbortedScan | src/lib.rs:221-225 | a scan stopped by the first failing slot reports that slot's error; earlier slots stay compacted, and later slots stay untouched; the failing slot itself is as it was under the model's assumption that a failed removal changes nothing |
| Compaction.AbortState | src/lib.rs:221-225 | a grid compacted up to the first failing slot and untouched from there on is what the failed scan leaves behind, with that slot's error |
| Compaction.ScanOnlyEmptiesDoomed | src/lib.rs:221-227 | whatever the outcome, every slot is either unchanged or was due for removal and is now empty |
| Compaction.DoomedAreExamined | src/lib.rs:223-226 | the chunks due for removal are among the chunks examined, which are among the slots |
| Compaction.CompactedCounts | src/lib.rs:223-227 | after compaction the examined chunks are those that were kept, and none is due for removal any more |
| Compaction.ProcessedRegionCounts | src/lib.rs:213-241 | processing succeeds iff the file opens, no slot fails and the release succeeds; the counts are then the examinable and the due chunks, and each slot is emptied iff it was due |
| Compaction.OpenFailure | src/lib.rs:213-217 | a file that cannot be opened reports an I/O error, one with a bad header reports an Anvil error, and neither is changed |
| Compaction.DecodeErrorKeepsEarlierRemovals | src/lib.rs:221-225 | a file stopped at slot k reports that slot's error, and removals before k are not rolled back; slot k itself is as it was under the model's assumption that a failed removal changes nothing |
| Compaction.ReleaseFaultKeepsRemovals | src/lib.rs:232-234 | when the scan completes but releasing or truncating fails, the file reports that error, an I/O or container error and never a decoding error, and every due chunk has already been removed, every other slot kept |
| Compaction.SkippedSlotsUntouched | src/lib.rs:221 | unreadable and empty slots never fail the scan and are never changed |
| Compaction.InclusiveThreshold | src/lib.rs:224 | with a threshold whose product with 20 does not overflow, a chunk qualifies iff its `InhabitedTime` in ticks is at most the configured number: equal qualifies, one more does not |
| Compaction.RemovedIffAtMostThreshold | src/lib.rs:224-227 | in a successfully processed file, an examinable chunk is removed exactly when its `InhabitedTime`, in ticks, is at most the configured number (documented as seconds); no seconds-to-ticks conversion survives the multiply and divide |
| Compaction.ThresholdComparedAsTicks | src/lib.rs:224 | for a positive threshold, a chunk inhabited for exactly that many seconds (`threshold*20` ticks) is kept, while one inhabited for that many ticks is removed; with 60, a chunk of 100 ticks is kept |
| Compaction.Idempotent | src/lib.rs:219-229 | processing the result again with the same threshold succeeds, removes nothing, examines what was kept, and leaves the file unchanged |
| Aggregation.ResultsOf | src/lib.rs:96-100 | every file is processed on its own with the same threshold, one result per file in file order |
| Aggregation.SumOk | src/lib.rs:109-111 | no results sum to 0, and one result sums to its own share: a failure adds nothing and a success adds its field; with `SumAppend` this fixes every sum |
| Aggregation.ShareBounded | src/lib.rs:109-111 | no file's count exceeds the total it is added to |
| Aggregation.AllFailedSumZero | src/lib.rs:102-112 | when every file fails, the totals of examined and removed chunks are 0 |
| Aggregation.SumAppend | src/lib.rs:109-111 | the totals of two batches of results add up |
| Aggregation.SumPermutation | src/lib.rs:96-121 | the totals do not depend on the order in which results arrive: any rearrangement gives the same sums |
| Aggregation.FailuresAddNothing | src/lib.rs:102-112 | a failed file leaves the totals as they would be without it |
| Aggregation.SumWithinGrid | src/lib.rs:102-112 | results that each examine at most 1024 chunks, and remove no more than they examine, sum to at most 1024 per result, with the removed total at most the examined total |
| Aggregation.SumBounds | src/lib.rs:102-112 | over any files, total removed ≤ total examined ≤ 1024 per file |
| Enumeration.RegionEntries | src/lib.rs:146-156 | a listing yields exactly its entries with extension `mca`, tagged with the folder, and no more of them than there were entries; order and repetitions are fixed by the next two lemmas |
| Enumeration.RegionEntriesSingle | src/lib.rs:149-155 | a single entry is kept, once, exactly when its extension is `mca` |
| Enumeration.RegionEntriesAppend | src/lib.rs:146-156 | filtering a listing is filtering its parts in listing order and concatenating the results |
| Enumeration.CollectFrom | src/lib.rs:141-158 | walking the folders fails exactly when one of them exists but cannot be listed, and then names such a folder |
| Enumeration.CollectRegionFiles | src/lib.rs:139-160 | collection fails iff one of the three region folders cannot be listed; otherwise it returns the region files of `region`, then `DIM-1/region`, then `DIM1/region` |
| Enumeration.CollectedAreRegionFiles | src/lib.rs:146-157 | a path is collected iff it is an entry of a listed region folder whose name ends in `.mca` after a non-empty stem |
| Engine.Window | src/lib.rs:114-117 | a receiver accepts exactly an initial run of the sends offered to it, and no more of them than were offered |
| Engine.DispatchFiles | src/lib.rs:96-121 | the files are processed in order until a send is refused; every processed file except the one refused delivers its event, and without a refusal every file is processed |
| Engine.DispatchDelivery | src/lib.rs:96-121 | the events delivered are those of the first files, as many as the receiver accepts; a refusal stops the run one file later |
| Engine.DispatchResults | src/lib.rs:96-100 | the processed results are a prefix of the results of processing every file |
| Engine.RunFiles | src/lib.rs:91-134 | the worker processes at most the given files, and a report it assembles counts every file as a region; the full protocol of the run is stated by `Engine.RunFollowsProtocol` |
| Engine.RunEvents | src/lib.rs:91-133 | the consumer receives the prefix of `Starting`, the per-file events and `Finished` that its receiver accepts |
| Engine.RunReport | src/lib.rs:122-133 | a report is assembled iff every file's event was accepted; it then covers every file, and otherwise one file past the last delivered event was processed |
| Engine.RunFollowsProtocol | src/lib.rs:91-133 | the received events, the processed files and the report (freed space, regions, chunk sums) together follow the protocol |
| Engine.Execute | src/lib.rs:72-137 | a missing world folder is `WorldFolderNotFound`; a pool that cannot be built is `RayonError`; once both pass, a folder that cannot be listed or a failed first size measurement is `IOError`; execution succeeds iff the folder exists, the pool builds, the folders list and the world can be measured |
| Engine.ExecuteRunsCollectedFiles | src/lib.rs:83-100 | a successful run processes exactly the collected files, with the configured threshold multiplied by 20 |
| Engine.StartingFirst | src/lib.rs:92-94 | the first event received, if any, is `Starting` with the number of files, and at most one event per file follows |
| Engine.NoFinishedBeforeEnd | src/lib.rs:59-66 | no message before the last can be `Finished` |
| Engine.FinishedReport | src/lib.rs:122-133 | `Finished` arrives only last, after an event for every file, with totals equal to the sums of the successful results received |
| Engine.Cancellation | src/lib.rs:114-122 | a receiver dropped before the last file's event never sees `Finished`; when there are files, no report is assembled, and the files processed are those delivered plus the refused one |
| Standalone.VisitSlot | src/main.rs:145-150 | visiting one slot either extends the compacted prefix by that slot with the count updated, or fails exactly as the library's scan does |
| Standalone.ScanGrid | src/main.rs:143-152 | the nested `x`/`y` loop leaves the grid as the library's scan does, with the same error and, on success, the same removed count |
| Standalone.ProcessRegionFile | src/main.rs:136-160 | the binary's processor changes the file as the library's does and returns its removed count (at most 1024), or the same error |
| Standalone.ProcessAll | src/main.rs:77-94 | every file is processed, failures add nothing, and the total is the sum of the removed counts of the files that succeed |
| Standalone.RunStandalone | src/main.rs:44-108 | `main` fails iff the folder is missing, a requested pool fails, a measurement fails or the folders cannot be listed, and each step in program order has its own exit: `FolderMissing`, then `PoolFailed` when a requested pool cannot be built, then `MeasureFailed` for the first measurement, then `CollectFailed`, then `MeasureFailed` for the second; otherwise it reports the file count, the removed total and the size difference |

## Left out

- The Anvil container and NBT codecs: a region file is reduced to what each slot reads and decodes to, and to which removals and which release fail. The on-disk sector layout is not modelled.
- The truncation length is not modelled. A file is truncated at the codec's stream position, and only whether that fails is modelled.
- Concurrency: the thread pool, the atomics and the channel are replaced by an in-order fold. `Aggregation.SumPermutation` covers the order-independence of the sums. The interleaving of events from parallel workers is not modelled, so several files may in fact be in flight when a send is refused.
- Directory sizes and elapsed time are inputs (`Host`, `Machine`) and are not computed. The recursive `dir_size` and `time_taken` are not modelled.
- Engine.RunFiles: requires the size after to be at most the size before (`Units.SizesOrdered`). A world that grows during the run would underflow the `u64` subtraction, and that underflow is not modelled.
- Engine.Execute: requires `SizesOrdered`, for the same reason.
- Standalone.RunStandalone: requires `SizesOrdered`, for the same reason.
- A failed `remove_chunk` is assumed to leave its slot as it was. The Anvil codec's behaviour on a failed removal is not part of this model, and nothing in the program says what such a removal leaves on disk.
- The thread count of `Config` only sizes the pool. Whether the pool can be built is the input `Host.poolBuilds`, so `Engine.Config` keeps only the threshold. The world folder is the separate `World` input.
- The `entry.unwrap()` panic on a failing directory entry is not modelled: listings yield their entries or fail as a whole.
- Integer widths: the threshold multiply wraps modulo 2^64 as in a release build. A debug build panics instead, and that panic is not modelled. The `u16` per-file counters cannot overflow, since they are at most 1024 (proved). The `u64` totals are unbounded in the model, so their overflow on more than 2^54 files is not modelled.
- A 64-bit target is assumed: `usize` and `u64` both have 2^64 values.
- Non-UTF-8 file names are not modelled: names are strings, so the `to_str` failure branch that yields (0, 0) appears only as the `None` case of `RegionCoordinates`.
- `Standalone.ProcessRegionFile`: errors are the library's three kinds, not `anyhow` values. Logging and the progress bar are left out.
- The `gui` and `cli` front ends are not part of this model.
