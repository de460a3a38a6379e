# Subprocess Render: frame partitioning

A Dafny model of how the Blender add-on *Subprocess Render* splits a scene's
animation among several background Blender processes. When the "Start Render"
operator runs (`SubprocessRenderStart.execute`), it takes the scene's
`frame_start`, `frame_end` and the configured `thread_count`, computes a
per-worker share of frames, builds one frame range and one command line
`blender -b "<project>" -s <start> -e <end> -a` per worker, and then pins the
first range's start to `frame_start` and the last range's end to `frame_end`.

The model:

- `wrappers.dfy` — `Option` and `Result`.
- `decimal.dfy` (`Decimal`) — the `%d` text of an integer and its parser, with the round trip.
- `frame_ranges.dfy` (`FrameRanges`) — inclusive frame ranges; what "contiguous", "ascending" and
  "exact cover of `lo..hi`" mean, and that contiguous non-empty ranges are an exact cover.
- `command_line.dfy` (`CommandLine`) — the render command text for a range, and a parser that
  reads the two frame numbers back out of it.
- `partition.dfy` (`FramePartition`) — the arithmetic as specification functions: `TruncDiv`
  (Python's `int(a / b)`), `FramesPerThread`, `WorkerRange` and `Unpinned` (the ranges the loop
  builds), `Pin` and `Partition` (the final `frame_ranges`), with their properties.
- `subprocess_render.dfy` (`SubprocessRender`) — `BuildRenderPlan`, the loop that grows the two
  lists and the two in-place endpoint updates, proved against `Partition` and `Commands`;
  lemmas on what the commands carry.
- `corrected_partition.dfy` (`CorrectedPartition`) — the partition with the two defects under
  "Findings" fixed, proved to render every frame of the scene exactly once.

Error paths are modelled rather than excluded: `thread_count == 0` fails the division
(`DivisionByZero`); a negative `thread_count` builds no range, so indexing the first range to pin
it fails (`NoRangeToPin`).

The share is `int(frame_count / thread_count)` (SubprocessRender.py:53): the code truncates toward
zero and has no guard for a share of 0. For `1..100` with 4 workers the frame count
`frame_end - frame_start` is 99, which gives `[1,24],[25,48],[49,72],[73,100]`
(`FramePartition.Examples`, `FramePartition.DegenerateShare`).

## Model

| member | source | states |
|---|---|---|
| `SubprocessRender.BuildRenderPlan` | SubprocessRender.py:49-62 | thread count 0 fails at the division, a negative one fails when the first range is pinned; otherwise the ranges are the pinned `Partition` and the commands are formatted from the unpinned ranges, one per worker in worker order |
| `FramePartition.TruncDiv` | SubprocessRender.py:53 | `int(a / b)`: the quotient's magnitude is the floor of the magnitudes' quotient, and a non-zero quotient is negative exactly when the operands' signs differ |
| `FramePartition.FramesPerThread` | SubprocessRender.py:51-53 | `frames_per_thread`: `frame_end - frame_start` divided by `thread_count`, truncated; never negative for a forward scene and a positive thread count |
| `FramePartition.WorkerRange` | SubprocessRender.py:57 | the range appended for worker `i`, `[i*p+1, (i+1)*p]`, spans exactly `p` frames |
| `FramePartition.Unpinned` | SubprocessRender.py:56-57 | the `frame_ranges` list the loop leaves: one range per worker, the first starting at frame 1 |
| `FramePartition.Pin` | SubprocessRender.py:61-62 | the two in-place updates keep the number of ranges, set the first start to `frame_start` and the last end to `frame_end` |
| `FramePartition.Partition` | SubprocessRender.py:51-62 | the final `frame_ranges`: `thread_count` ranges, starting at `frame_start` and ending at `frame_end` |
| `SubprocessRender.CommandRanges` | SubprocessRender.py:57-58 | the ranges the commands are formatted from: one per worker, the first starting at frame 1 |
| `SubprocessRender.Commands` | SubprocessRender.py:57-58 | the final `commands`: one per worker, each starting with the Blender invocation on the project file |
| `CommandLine.CommandText` | SubprocessRender.py:52-58 | the command for a range starts with `blender -b "<project>" -s ` and ends with ` -a` |
| `Decimal.FormatInt` | SubprocessRender.py:58 | the `%d` text of an integer is non-empty and has no space |
| `FramePartition.TruncDivMeaning` | SubprocessRender.py:53 | the share is the quotient truncated toward zero: its magnitude is the floor of the magnitudes' quotient and its sign is the sign of the quotient |
| `FramePartition.FramesPerThreadIsFloor` | SubprocessRender.py:51-53 | for a non-negative frame count and a positive thread count the share is floor division of `frame_end - frame_start` |
| `FramePartition.UnpinnedContiguous` | SubprocessRender.py:56-57 | the loop builds exactly `thread_count` ranges, each starting on the frame after its predecessor's end |
| `FramePartition.PartitionPinning` | SubprocessRender.py:56-62 | after pinning there are `thread_count` ranges, range 0 starts at `frame_start`, the last ends at `frame_end`, and every other endpoint is still `i*p+1` / `(i+1)*p` |
| `FramePartition.PinEffect` | SubprocessRender.py:61-62 | pinning replaces the first range's start and the last range's end and keeps every other endpoint; with one range both updates hit it |
| `FramePartition.UnpinnedDiffersAtPinned` | SubprocessRender.py:56-62 | range `i` before pinning equals the final range `i` except that range 0 started at 1 and the last range ended at `thread_count*p` |
| `FramePartition.PartitionContiguous` | SubprocessRender.py:57-62 | pinning keeps adjacency: each final range starts right after its predecessor ends |
| `FramePartition.SingleWorker` | SubprocessRender.py:56-62 | one worker gets the single range `[frame_start, frame_end]` |
| `FramePartition.PartitionFromFrameOneCovers` | SubprocessRender.py:51-62 | with `frame_start = 1` and at least one frame per worker, the final ranges are non-empty, ascending, disjoint and cover exactly `1..frame_end` |
| `FramePartition.DegenerateShare` | SubprocessRender.py:53-62 | with fewer frames than workers the share is 0, every range not touched by pinning is `[1,0]`, the first is `[frame_start,0]` and the last `[1,frame_end]` |
| `FramePartition.Examples` | SubprocessRender.py:51-62 | `1..100` with 4 workers gives `[1,24],[25,48],[49,72],[73,100]`; `1..101` gives `[1,25],[26,50],[51,75],[76,101]` |
| `SubprocessRender.CommandsCarryUnpinnedRanges` | SubprocessRender.py:52-58 | command `i` renders `[i*p+1,(i+1)*p]`: command 0 starts at 1 and the last ends at `thread_count*p` |
| `SubprocessRender.CommandsAgreeExceptPinned` | SubprocessRender.py:56-62 | each command renders its final range except at the two pinned endpoints, where it has 1 and `thread_count*p` instead |
| `SubprocessRender.CommandsRenderFromFrameOne` | SubprocessRender.py:51-58 | with at least one frame per worker the commands together render exactly `1..thread_count*p`, whatever `frame_start` and `frame_end` are |
| `SubprocessRender.LastFrameNotRendered` | SubprocessRender.py:56-62 | for `1..101` with 4 workers the last final range ends at 101 but no command renders frame 101 |
| `SubprocessRender.LastFrameNeverRendered` | SubprocessRender.py:56-62 | for any scene starting at frame 1 or later with at least one frame per worker, no command renders `frame_end` although the last final range ends there |
| `SubprocessRender.RangesLeaveScene` | SubprocessRender.py:51-62 | for `50..100` with 4 workers the final ranges are `[50,12],[13,24],[25,36],[37,100]`, giving frame 13 (outside the scene) to a worker |
| `CommandLine.ParseCommandText` | SubprocessRender.py:52-58 | the command text of a range parses back to exactly that range |
| `CommandLine.CommandTextInjective` | SubprocessRender.py:52-58 | commands for different ranges are different texts |
| `Decimal.ParseFormatInt` | SubprocessRender.py:58 | the `%d` text of an integer parses back to that integer |
| `Decimal.FormatIntInjective` | SubprocessRender.py:58 | different integers have different `%d` texts |
| `CorrectedPartition.CorrectedMatchesSourceFromFrameOne` | SubprocessRender.py:56-62 | counting ranges from `frame_start` changes nothing when the scene starts at frame 1 |
| `CorrectedPartition.CorrectedRangesCover` | SubprocessRender.py:51-62 | with at least one frame per worker the corrected ranges are non-empty, ascending, disjoint and cover exactly `frame_start..frame_end` |
| `CorrectedPartition.CorrectedCommandsRenderScene` | SubprocessRender.py:56-62 | the corrected commands render exactly the corrected ranges, so every frame of the scene is rendered by exactly one command |
| `CorrectedPartition.CorrectedExample` | SubprocessRender.py:51-62 | for `1..101` with 4 workers the corrected ranges are the source's `[1,25],[26,50],[51,75],[76,101]` |
| `CorrectedPartition.CorrectedExampleFromFrameFifty` | SubprocessRender.py:51-62 | for `50..100` with 4 workers the corrected ranges are `[50,61],[62,73],[74,85],[86,100]` |
| `CorrectedPartition.BuildCorrectedRenderPlan` | SubprocessRender.py:49-62 | same error paths as the source; otherwise the ranges are the corrected pinned ranges and the commands are formatted from them after pinning |
| `CorrectedPartition.FormatCommands` | SubprocessRender.py:58 | one command per range, in order, each the command text of its range (which parses back to that range, `CommandLine.ParseCommandText`) |

## Left out

- Add-on metadata, the property group, the panel and `register`/`unregister` (SubprocessRender.py:1-39, 75-92): host UI and registration.
- Starting the commands with `Popen(..., shell=True)` and waiting for each (SubprocessRender.py:65-66): operating-system processes. One process is started per command, in command order.
- The audio mixdown and its path (SubprocessRender.py:69-70): calls into Blender and `os.path` that the model cannot see.
- The project path `bpy.path.abspath(bpy.data.filepath)` (SubprocessRender.py:52) is a parameter. The path is placed in the format string before `%` is applied, so a path containing `%` would itself be read as a conversion; `CommandLine.CommandText` models paths without `%` only.
- FramePartition.TruncDiv: models `int(frame_count / thread_count)` as exact integer truncation; the floating-point quotient could round differently only for frame counts beyond 2^53.
- Thread-count policies, removal of rendered frame files, filename placeholder parsing and assembly of the frames with an encoder are not in this source file, so they are not part of this model.

## Findings

| source | as written | input that shows it | evidently intended | confidence | as-written member | corrected member |
|---|---|---|---|---|---|---|
| SubprocessRender.py:58 | each command is formatted from its range before the pinning at lines 61-62, so the commands end at `thread_count*frames_per_thread` instead of `frame_end`; the pinned `frame_ranges` are never used | `frame_start=1, frame_end=101, thread_count=4`: the commands render 1..100 and no command renders frame 101 | the commands formatted from the pinned ranges | high; not executed | `SubprocessRender.LastFrameNotRendered` | `CorrectedPartition.CorrectedCommandsRenderScene` |
| SubprocessRender.py:57 | ranges are counted from frame 1 whatever `frame_start` is | `frame_start=50, frame_end=100, thread_count=4`: ranges `[50,12],[13,24],[25,36],[37,100]` (and commands for 1..48) | ranges counted from `frame_start`: `[frame_start+i*p, frame_start+(i+1)*p-1]` | high; not executed | `SubprocessRender.RangesLeaveScene` | `CorrectedPartition.CorrectedRangesCover` |
