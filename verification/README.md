# File transmission showcase: progress simulation model

The showcase (`transfer.py`) pretends to transmit a directory of demo files. It
prepares a catalog of `(name, size)` entries and their byte total. Then it runs a
progress loop that sends random-sized chunks of the files, in order. Each chunk
is clamped to the bytes left in the active file. The loop moves round-robin to
the next file once a file is exhausted. Each step gets a status label chosen by
the cumulative percentage. No data is sent anywhere; only the counter moves.

This project models that logic in Dafny:

- `catalog.dfy` (module `FileCatalog`). It holds the file entry, the directory
  state before preparation, and the size total. It also holds the six sample
  files that a missing directory gets: sizes `k * 1024` with `k` in [80, 200],
  named `sample_0.bin` to `sample_5.bin`. `PrepareFiles` is the listing-and-summing loop.
- `phases.dfy` (module `PhaseLabels`). It holds the six phases and the
  percent-to-phase threshold chain (10, 25, 50, 75, 95). It also holds the
  statuses the progress task describes and their texts: `Establishing`
  ("Establishing virtual channel..."), `Working(phase, file)` (the six phase
  texts), and `Completed` ("Transmission completed!"). The percentage
  `sent / total * 100` is never computed. Each test `percent < b` is the exact
  integer comparison `100 * sent < b * total`.
- `simulator.dfy` (module `ProgressSimulator`). It holds the loop state
  `(sent, fileIdx, offset)`, one step of the loop (`Step`), and the whole run
  (`Simulate`). The run returns the step events, the final state and the list
  of statuses the progress task describes, in order.

Randomness is an input. The size multipliers are a sequence `ks` of six values
in [80, 200]. The chunk draws are a sequence `chunks` of values in
[20000, 60000], and the i-th step uses `chunks[i]`. A run never needs more than
`total + |files|` draws; `Simulate` proves this bound. So asking for that many
draws stands in for the source's unbounded random stream.

The loop invariant (`Tracks`) uses a ghost "unwrapped" file position `pos`.
Every byte of the files before `pos` has been sent, plus `offset` bytes of file
`pos`. While bytes remain, `fileIdx == pos`. The run ends at the step that
finishes the last non-empty file. If that file is the last of the listing,
`fileIdx` wraps to 0 at that step (transfer.py:139-141), and that is the only
wrap that ever happens. If empty files follow it, `fileIdx` moves to the next
one and the loop stops there, at transfer.py:109.

`Simulate` also returns the trace of loop states, one before each step and one
after the last. Its contract says each event and the next state are exactly
what `Step` gives for the state before it and that step's draw. `RunUnique`
shows that this pins the run down: two runs over the same listing and draws
that both stop at the total are equal.

Some behaviour of the code is easy to overlook:

- A step on an empty (0-byte) file sends `min(chunk, 0) = 0` bytes
  (transfer.py:112-114) and then moves to the next file (transfer.py:139-141).
  So not every step advances the counter. The model proves that
  `advance == 0` happens exactly when the active file is empty.
- An existing but empty directory gives an empty catalog with total 0
  (transfer.py:60-67), and no error is raised. The loop condition at
  transfer.py:109 is then false from the start. The statuses are just the
  set-up and the completion.
- The last step brings `sent` to `total_size`, which is 100 %. So its phase is
  always "Finalizing transmission..." (transfer.py:134-135). After it,
  transfer.py:143 shows "Transmission completed!".

## Model

| member | source | states |
|---|---|---|
| `FileCatalog.Synthesize` | transfer.py:56-58 | a fresh directory gets exactly 6 files; file i is named `sample_i.bin` and has size `ks[i] * 1024`, which lies in [81920, 204800] |
| `FileCatalog.SampleNamesDistinct` | transfer.py:57 | two different sample indices give two different file names |
| `FileCatalog.SynthesizedCatalogBounds` | transfer.py:54-67 | the synthesised files have pairwise distinct names, and their total lies in [6 * 80 KiB, 6 * 200 KiB], so it is positive |
| `FileCatalog.SumSizesAppend` | transfer.py:60-66 | the byte total of two listings put together is the sum of their totals, which is what the running `total += size` relies on |
| `FileCatalog.EntryAtMostSum` | transfer.py:60-66 | no single file of a listing is larger than the listing's total |
| `FileCatalog.SumSizesBounds` | transfer.py:58-66 | if every size lies in [lo, hi], the total lies in [n * lo, n * hi] |
| `FileCatalog.PrepareFiles` | transfer.py:53-67 | the catalog has one entry per listed file, in listing order, and `total` is the sum of the entry sizes; an existing directory is reused as is, so a second preparation returns the same catalog; a missing one yields the synthesised files |
| `PhaseLabels.PhaseOfMatchesThresholds` | transfer.py:122-135 | the chosen phase's rank is the number of thresholds (10, 25, 50, 75, 95 percent) the exact percentage has reached |
| `PhaseLabels.PhaseOfInterval` | transfer.py:122-135 | the chosen phase is the one whose percent interval holds the percentage: at least the threshold below it, and below its own threshold |
| `PhaseLabels.ReachedMonotone` | transfer.py:122-135 | a larger sent count reaches at least as many thresholds |
| `PhaseLabels.PhaseMonotone` | transfer.py:119-135 | the phase never moves back to an earlier one as `sent` grows |
| `PhaseLabels.DescribeDeterminesPhase` | transfer.py:124-135 | two equal status texts come from the same phase, whatever the file names are |
| `PhaseLabels.TextDeterminesStatus` | transfer.py:101-143 | equal description texts come from the same status: the set-up and completion texts are no phase's text, and two phase texts match only for the same phase |
| `ProgressSimulator.Step` | transfer.py:110-141 | one step sends `min(chunk, fsize - offset)`: at most the chunk and at most the bytes left, and less than the chunk only when it ends the file; `sent` and `offset` grow by exactly that; the index moves to `(file_idx + 1) % len(files)` with offset 0 exactly when the file is exhausted, and stays otherwise; `offset <= fsize` still holds |
| `ProgressSimulator.TracksRunning` | transfer.py:109-110 | while `sent < total_size` the active file exists and no wrap has happened |
| `ProgressSimulator.TracksBounded` | transfer.py:109-120 | the tracked counter never exceeds the total |
| `ProgressSimulator.AdvanceKeepsTracking` | transfer.py:119-141 | an advance within the active file keeps the prefix-sum invariant: `sent` is the sizes of the files before the position plus `offset` |
| `ProgressSimulator.StepKeepsTracking` | transfer.py:109-141 | a step keeps the invariant, moving the position forward exactly when the file is exhausted; it sends 0 bytes exactly when the active file is empty |
| `ProgressSimulator.FinishedRest` | transfer.py:109 | once `sent` equals the total, the offset is 0 and every file not yet reached is empty |
| `ProgressSimulator.WellFormedAppend` | transfer.py:110-137 | appending a step's event to a run keeps every event well formed |
| `ProgressSimulator.CountersStep` | transfer.py:113-141 | after a step the counters still track the position, stay within the total, and match the events per file and in all |
| `ProgressSimulator.EventLogStep` | transfer.py:110-141 | after a step every event is still well formed, the log is still monotone, and no event comes from a file past the position |
| `ProgressSimulator.RunStep` | transfer.py:109-141 | one loop iteration keeps the whole loop invariant and makes progress: `sent` grows or the run moves to the next file |
| `ProgressSimulator.RunFinished` | transfer.py:109-143 | at loop exit every file was sent in full, each step advanced at most 60000 bytes, the phase never went back, and the last phase is Finalizing |
| `ProgressSimulator.StepStatusesShape` | transfer.py:124-137 | there is one step status per event, and the i-th is event i's phase with its file |
| `ProgressSimulator.StatusesShape` | transfer.py:101-143 | the statuses shown are the set-up first, then one per step with that step's phase and file, then completion last |
| `ProgressSimulator.RunLoop` | transfer.py:105-141 | the loop starts at `sent = file_idx = offset = 0`; each event and the state after it are `Step` applied to the state before and that iteration's draw; the loop stops with `sent == total_size`, with the whole loop invariant holding, and with the set-up status followed by one status per step |
| `ProgressSimulator.Simulate` | transfer.py:101-143 | the run is the loop itself: its trace starts at `(0, 0, 0)` and each event and next state are `Step` on the state before and the step's draw, so every step sends `min(chunk, fsize - offset)`; it ends after at most `total + len(files)` steps with `sent == total_size` exactly; the advances sum to the total and each file's advances sum to its size; `sent`, the file index and the phase never decrease, so the loop never wraps back to an earlier file; each step's phase is the one its percentage selects, and the last is Finalizing; the statuses are the set-up, then one per step, then completion |
| `ProgressSimulator.FollowsAppend` | transfer.py:109-141 | a run followed by one more iteration of the loop body is still a run of the loop |
| `ProgressSimulator.PrefixAgree` | transfer.py:105-141 | two runs over the same files and draws pass through the same states and report the same events, step for step |
| `ProgressSimulator.RunningBelowTotal` | transfer.py:109 | every state the loop steps from has `sent < total_size` |
| `ProgressSimulator.RunUnique` | transfer.py:105-141 | the loop is deterministic given the files and the draws: two runs that both stop with `sent == total_size` are equal |
| `ProgressSimulator.TwoFileRun` | transfer.py:105-141 | with files of 100000 and 50000 bytes and every draw 40000, the run sends 40000, 40000, a clamped 20000 from the first file, then 40000 and a clamped 10000 from the second, with phases Streaming, Transmitting, Transmitting, Flushing, Finalizing, and ends at `(150000, 0, 0)` |

## Left out

- Rendering with `rich`: the console, panels, the progress bar, spinner and columns (transfer.py:14-26, 77-99, 145-154). This is presentation through a library outside the model. The model keeps only the sequence of task descriptions.
- `startup` (transfer.py:32-47): it clears the terminal and prints the banner. This is terminal I/O only.
- File-system effects of `prepare_files`: creating the directory, writing random bytes, `os.listdir` and `os.path.getsize` (transfer.py:54-63). The directory is given as `Missing` or `Present(listing)`, and sizes are taken as given. After synthesis, the listing is taken in creation order, because `os.listdir` promises no order. Errors such as an unreadable path, or a path that is a plain file, are not modelled.
- `time.sleep` pacing and `datetime` timestamps (transfer.py:47, 75, 88, 116, 150). They have no effect on the counter.
- The MB figure `total_mb` (transfer.py:74), a floating-point display value.
- Floating-point `percent` (transfer.py:122). Phases use exact rational comparison. A float that rounds across a threshold exactly at a boundary (e.g. `sent / total * 100` landing a hair above or below 10.0) is not modelled.
- Ambient `random` state (transfer.py:58, 112). It is replaced by the input sequences `ks` and `chunks`, which must meet the bounds the random calls guarantee.
- Simulate: asks for at least `total + len(files)` chunk draws, because the source draws from an unbounded stream. The model proves that no run uses more.
- Simulate: requires `total_size` to equal the sum of the sizes, because the program's only caller passes that sum (transfer.py:67, 162-163). Other totals behave differently, and the model does not cover them. With a total below the sum, the loop stops at the first step that reaches it, possibly past it. With a total above a positive sum, file 0 is sent again after the wrap (transfer.py:139-141) until the total is reached or passed. With a positive total and all sizes 0, the loop never ends. With a positive total and no files, `files[file_idx]` fails (transfer.py:110).
