# Gesture data collector: capture-session model

A Dafny model of the capture session of the gesture data collector page
(`src/pages/DataCollector.jsx`). It covers four parts:

- **Frame shaping.** `flatten` lays out 21 hand landmarks as 63 numbers. `normalizeFrame` moves the wrist to the origin and divides by the largest wrist distance, which is never below 1e-6. `captureSequence` polls the detector's latest snapshot 32 times and records a zero frame whenever no hand is seen.
- **The sample store.** An IndexedDB object store with an auto-incrementing key: `add`, `getAll` and `clear`. `countGestureInDB` is a filter-count over `getAll`.
- **The batch.** `startBatch` refuses a blank label. It then runs `batchCount` iterations; each announces itself on the status line and progress bar, captures, counts the label, names the sample `${gestureName}_${count + 1}.json` and stores it. At the end it reports the store's size. `clearAll` empties the store after confirmation. The timers that return the panel to idle are modelled as separate steps.
- **The export.** `exportZip` refuses an empty store. Otherwise it writes one file per stored record, `dataset/<filename>`, in `getAll` order.

## What the code does

Where the code behaves surprisingly, the model follows it as written:

- **Untrimmed labels reuse filenames.** Each iteration counts with the label as typed but stores the trimmed label. So a label with surrounding whitespace never counts its own samples. Every sample of such a batch gets the same ordinal, and their filenames, which use the untrimmed label, coincide.
  - `Collector.UntrimmedBatchRepeatsOrdinal` states this for any such label, and `Collector.UntrimmedOrdinalIsOne` shows the shared ordinal is 1 on any store the page can build.
  - `Collector.UntrimmedNameCollides` and `Exporter.UntrimmedBatchSharesPath` show it for `" fist"`.
  - For a label that needs no trimming, filenames are unique: `Collector.TrimmedBatchFilenamesDistinct` and `Collector.TidyFilenamesDistinct`.
- **A `batchCount` of zero or less is not rejected.** The loop runs zero times and the panel still ends at "Batch complete".
- **The progress bar is set to `i / batchCount` at the start of iteration `i`,** before that iteration's capture.
- **A failed store write is not handled.** The model has no error path for it.

## Modelling choices

- **Coordinates are reals.** The norm is a parameter `hypot: Point -> real`. The frame-shape facts hold for any such function. The unit-ball facts assume only that it is non-negative and scales with division (`Landmarks.IsNorm`), which `Math.hypot` does in exact arithmetic.
- **The detector feed is a function from poll number to an optional snapshot.** Every present snapshot holds 21 points. Iteration `i` of a batch polls numbers `32 (i - 1)` to `32 i - 1`. The clock (`Date.now`) is a function from iteration number to a timestamp. The confirm dialog's answer is a boolean parameter.
- **The store is its records in key order plus the key generator's next value.** The generator starts at 1 and is not reset by `clear`, as in IndexedDB.
- **A batch's effect has a closed form, `Collector.Batched`.** The loop is proved to reach it, and the naming lemmas are stated about it.

## Model

| member | source | states |
|---|---|---|
| Landmarks.Flatten | src/pages/DataCollector.jsx:155-157 | three numbers per point, and number `3i + c` is coordinate `c` of point `i` |
| Landmarks.RegroupFlatten | src/pages/DataCollector.jsx:159-162 | reading a flattened hand back three numbers at a time gives the original 21 points |
| Landmarks.Scale | src/pages/DataCollector.jsx:167-171 | the divisor `maxd` is never below 1e-6, so normalising never divides by zero |
| Landmarks.ScaleIsMax | src/pages/DataCollector.jsx:167-171 | the divisor bounds every wrist distance and is either 1e-6 or one of those distances |
| Landmarks.NormalizeFrame | src/pages/DataCollector.jsx:159-174 | a normalised frame has 63 numbers and its first three (the wrist) are zero |
| Landmarks.NormalizedPoint | src/pages/DataCollector.jsx:164-173 | point `k` of the normalised frame is point `k` minus the wrist, divided by the scale |
| Landmarks.TranslationInvariant | src/pages/DataCollector.jsx:164-173 | moving the whole hand by one vector leaves its normalised frame unchanged |
| Landmarks.CollapsedHandIsZero | src/pages/DataCollector.jsx:164-173 | a hand whose points all sit on the wrist normalises to 63 zeros |
| Landmarks.WithinUnitBall | src/pages/DataCollector.jsx:167-173 | with a true norm, no normalised point is farther than 1 from the wrist |
| Landmarks.FarthestOnUnitSphere | src/pages/DataCollector.jsx:167-173 | with a true norm and a hand larger than the floor, some normalised point is exactly at distance 1 |
| Landmarks.FrameOf | src/pages/DataCollector.jsx:179-182 | a poll yields 63 numbers: zeros when no hand is seen, a frame with the wrist at zero otherwise |
| Landmarks.CaptureSequence | src/pages/DataCollector.jsx:176-186 | exactly 32 frames of 63 numbers; frame `j` is zeros if poll `start + j` saw no hand, else that hand normalised |
| SampleStore.Add | src/pages/DataCollector.jsx:38-47 | appends exactly one record under the next key, leaving every earlier record in place |
| SampleStore.AddKeepsValid | src/pages/DataCollector.jsx:31 | the auto-increment key of a new record exceeds every stored key, so keys stay strictly increasing |
| SampleStore.GetAll | src/pages/DataCollector.jsx:49-58 | every record, in ascending key order |
| SampleStore.Count | src/pages/DataCollector.jsx:60-63 | the count never exceeds the number of stored samples; `SampleStore.CountIsOccurrences` characterises it exactly |
| SampleStore.Clear | src/pages/DataCollector.jsx:250-252 | no records remain, and the key generator and key order are untouched |
| SampleStore.ClearEmpties | src/pages/DataCollector.jsx:250-252 | after clearing, `getAll` is empty and every label counts zero |
| SampleStore.MatchingMembers | src/pages/DataCollector.jsx:62 | the filter keeps exactly the records whose label equals the name |
| SampleStore.CountIsOccurrences | src/pages/DataCollector.jsx:60-63 | the count equals the number of stored labels exactly equal to the name (case-sensitive, untrimmed) |
| SampleStore.CountZeroIff | src/pages/DataCollector.jsx:60-63 | a name counts zero exactly when no stored sample carries it |
| SampleStore.MatchingAppend | src/pages/DataCollector.jsx:62 | filtering distributes over concatenation of record sequences |
| SampleStore.CountAfterAdd | src/pages/DataCollector.jsx:42 | adding a sample raises its own label's count by one and leaves every other label's count unchanged |
| SampleStore.AppendOnly | src/pages/DataCollector.jsx:38-58 | any run of store requests keeps keys ordered; without a clear it keeps every record and grows by one per add |
| Naming.Trim | src/pages/DataCollector.jsx:190 | the trim has no whitespace at either end, and is empty exactly when the label is all whitespace |
| Naming.TrimMiddle | src/pages/DataCollector.jsx:204 | the trim is a middle slice of the label with only whitespace cut on both sides |
| Naming.TrimIdempotent | src/pages/DataCollector.jsx:204 | trimming a trimmed label changes nothing |
| Naming.NatToString | src/pages/DataCollector.jsx:207 | the ordinal is rendered as one or more decimal digits, with a leading `0` only for zero |
| Naming.ParseNatToString | src/pages/DataCollector.jsx:207 | reading the decimal rendering of the ordinal gives the ordinal back |
| Naming.SampleFilenameInjective | src/pages/DataCollector.jsx:207 | `<label>_<ordinal>.json` determines both label and ordinal |
| Naming.CapturingStatusInjective | src/pages/DataCollector.jsx:197 | the status line `Capturing i / batchCount` determines both `i` and `batchCount` |
| Collector.SampleAt | src/pages/DataCollector.jsx:203-208 | the stored label `gestureName.trim()` is already trimmed, and for a label that needs no trimming the filename is that stored label with ordinal `count + 1` |
| Collector.BatchedCount | src/pages/DataCollector.jsx:202-210 | a batch raises the typed label's count by the number of iterations if the label needs no trimming, and by zero otherwise |
| Collector.ProgressStep | src/pages/DataCollector.jsx:200-210 | one iteration (capture, count, name, add) extends the batch's closed form by exactly that iteration's record |
| Collector.BatchedShape | src/pages/DataCollector.jsx:196-213 | a batch keeps the old records in front and appends one record per iteration, in iteration order, under consecutive keys |
| Collector.BatchedValid | src/pages/DataCollector.jsx:196-210 | a batch keeps the store's keys strictly increasing, so `getAll` and the export stay in insertion order |
| Collector.BatchedTrimmedLabels | src/pages/DataCollector.jsx:190-204 | a batch for a non-blank label stores only non-empty, already-trimmed labels |
| Collector.BatchFramesCaptured | src/pages/DataCollector.jsx:200-206 | with the page's camera, iteration `j + 1` stores the 32 frames polled from `32 j` onward, stamped with its own clock reading |
| Collector.TidyBatched | src/pages/DataCollector.jsx:202-210 | a batch for a trimmed label keeps every record named after its label's count before it |
| Collector.ProgressTraceAt | src/pages/DataCollector.jsx:198 | iteration `i` sets the progress bar to `i / batchCount`, a value in (0, 1] |
| Collector.StatusTraceAt | src/pages/DataCollector.jsx:197 | iteration `i` shows `Capturing <i> / <batchCount>` |
| Collector.StatusTraceDistinct | src/pages/DataCollector.jsx:196-197 | no status line of a batch repeats, since each names its own iteration |
| Collector.LoopStep | src/pages/DataCollector.jsx:196-213 | one pass of the loop body takes the session after `i - 1` iterations to the session after `i` |
| Collector.BatchLoop | src/pages/DataCollector.jsx:196-213 | the loop ends with the store, panel, progress values and status lines of exactly `batchCount` iterations (none if `batchCount <= 0`) |
| Collector.StartBatch | src/pages/DataCollector.jsx:189-219 | a blank label alerts and changes nothing; a `batchCount` of 0 or less adds nothing; otherwise the batch's records are appended, iteration `i` set progress `i / batchCount` in (0, 1] and status `Capturing i / batchCount`, and the panel ends with the total equal to the store size and the status "Batch complete"; increasing keys, trimmed labels and (for a trimmed label) tidy filenames are kept |
| Collector.AfterBatchDelay | src/pages/DataCollector.jsx:220-223 | the later timer returns the status to "Idle" and the bar to 0, leaving the counter and running flag alone |
| Collector.TrimmedBatchNumbersOnward | src/pages/DataCollector.jsx:202-207 | for a trimmed label with `c` stored samples, a batch names its samples `<label>_<c+1>.json` onward and stores the label itself |
| Collector.TrimmedBatchFilenamesDistinct | src/pages/DataCollector.jsx:202-207 | for a trimmed label, no two samples of one batch share a filename |
| Collector.UntrimmedBatchRepeatsOrdinal | src/pages/DataCollector.jsx:202-207 | for a label needing trimming, every sample of a batch gets the same ordinal and is stored under the trimmed label |
| Collector.UntrimmedOrdinalIsOne | src/pages/DataCollector.jsx:202-207 | on any store of trimmed labels, every sample of a batch for a label with surrounding whitespace is named with ordinal 1 |
| Collector.UntrimmedNameCollides | src/pages/DataCollector.jsx:202-207 | two captures for `" fist"` on an empty store are both named `" fist_1.json"` and both labelled `"fist"` |
| Collector.TidyAfterAdd | src/pages/DataCollector.jsx:202-210 | adding a sample named by its own label's count keeps every record named after the records before it |
| Collector.TidyFilenamesDistinct | src/pages/DataCollector.jsx:207 | when every record is named by its label's count before it, no two records share a filename |
| Collector.EmptyStoreInvariants | src/pages/DataCollector.jsx:31 | the empty store has increasing keys, tidy filenames and trimmed labels |
| Collector.ClearAll | src/pages/DataCollector.jsx:247-256 | without confirmation nothing changes; with it the store is empty, the counter is 0 and the status is "Database cleared"; increasing keys and trimmed labels are kept |
| Collector.AfterClearDelay | src/pages/DataCollector.jsx:257 | the later timer returns the status to "Idle" and leaves the rest of the panel alone |
| Exporter.EntryFilenamePath | src/pages/DataCollector.jsx:232-235 | the filename can be read back from its path inside the `dataset` folder |
| Exporter.EntryPathInjective | src/pages/DataCollector.jsx:232-235 | different filenames are written to different paths |
| Exporter.Entries | src/pages/DataCollector.jsx:234-236 | there is one write per record |
| Exporter.EntriesAt | src/pages/DataCollector.jsx:232-236 | write `i` carries record `i` at `dataset/<its filename>` |
| Exporter.SerialisedEntries | src/pages/DataCollector.jsx:234-236 | the writes serialise exactly the records given, in order: none lost, none added |
| Exporter.ExportZip | src/pages/DataCollector.jsx:228-236 | an empty store is refused with "No samples stored."; otherwise one write per stored record, serialising the store's records in key order |
| Exporter.ExportEntries | src/pages/DataCollector.jsx:228-236 | write `i` puts record `i` at `dataset/<its filename>`, in ascending key order |
| Exporter.DistinctPathsIff | src/pages/DataCollector.jsx:234-236 | the writes go to pairwise different paths exactly when the records' filenames differ pairwise |
| Exporter.TidyExportsDistinctPaths | src/pages/DataCollector.jsx:234-236 | a store filled only by batches with trimmed labels exports every record to its own path |
| Exporter.UntrimmedBatchSharesPath | src/pages/DataCollector.jsx:202-236 | after a two-sample `" fist"` batch, both writes go to `dataset/ fist_1.json` |

## Left out

- MediaPipe Hands, the camera and the detector callback. These are device and third-party model I/O; the latest snapshot at each poll is an input.
- The canvas overlay and all JSX. These are presentation only.
- Opening IndexedDB, its transactions and callbacks, and their I/O failures. The code never handles these failures.
- The 33 ms and 150 ms waits and the timers' delays. The 600 ms and 800 ms callbacks are separate steps (`Collector.AfterBatchDelay`, `Collector.AfterClearDelay`), applied to whatever panel they meet.
- A delayed callback landing inside a later batch. `setCollecting(false)` re-enables Start before the 600 ms callback fires, so a batch started in that window can have its first `Capturing 1 / N` status and `1 / N` progress overwritten with "Idle" and 0 during its first capture. The store is unaffected; the model applies the callbacks only between batches.
- `Date.now()`, the `confirm` dialog and the alerts. The clock and the user's answer are parameters, and an alert is a returned value.
- `JSON.stringify` and the archive's contents. A write carries the record it serialises.
- Exporter.ExportZip: does not say what the zip holds when two writes share a path, because that is library behaviour, not shown here. The same holds for compression, `generateAsync` progress reporting, and the `file-saver` download.
- Floating-point rounding and the exact value of `Math.hypot`. The norm is an abstract real function, so nothing is claimed about float results.
- Collector.StartBatch: a `batchCount` that is fractional, NaN, or too large for a JavaScript number is not modelled. It is modelled as an integer printed in decimal. From 1e21 the page prints the count in the status line as `1e+21`, where `Naming.CapturingStatus` writes 22 digits. From 2^53, `i++` stops advancing, so the page's loop never ends, whereas `Collector.BatchLoop` stops after `batchCount` iterations.
- A clear or an export interleaved with a running batch. The Export ZIP and Clear All buttons stay enabled while a batch runs, so a confirmed `clearAll` can empty the store between two iterations; later iterations would then count from zero and the final `samplesSaved` would cover only records added after the clear. `Collector.StartBatch` and `Collector.Batched` assume the loop is the only writer to the store while it runs.
- Two batches at once. The Start button is disabled while collecting, so the model runs one batch at a time.
- The count shown on page load (`updateSampleCount`), which is `getAll().length`, the same as the end of a batch.
- `src/components/AutoCapture.jsx` is not part of this model. It is camera and network I/O only.
