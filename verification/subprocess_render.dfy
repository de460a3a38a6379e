/**
 * The start of SubprocessRenderStart.execute: build one frame range and one
 * render command per worker, then pin the first and last range to the
 * scene's frame range. The commands are formatted inside the loop, before
 * the pinning, so they carry the endpoints the loop computed.
 */
module SubprocessRender {
  import opened Wrappers
  import opened FrameRanges
  import opened CommandLine
  import opened FramePartition

  /** The worker ranges (`frame_ranges`) and their commands (`commands`). */
  datatype RenderPlan = RenderPlan(ranges: seq<FrameRange>, commands: seq<string>)

  datatype PlanError =
    | DivisionByZero  // thread count 0: the share cannot be computed
    | NoRangeToPin    // negative thread count: no range is built, so there is no first range to pin

  /** The frame range each command carries: the one the loop built, before pinning. */
  function CommandRanges(frameStart: int, frameEnd: int, threadCount: int): (rs: seq<FrameRange>)
    requires 1 <= threadCount
    ensures |rs| == threadCount
    ensures rs[0].start == 1
  {
    Unpinned(threadCount, FramesPerThread(frameStart, frameEnd, threadCount))
  }

  /** The final `commands`, in worker order. */
  function Commands(projectPath: string, frameStart: int, frameEnd: int, threadCount: int): (cs: seq<string>)
    requires 1 <= threadCount
    ensures |cs| == threadCount
    ensures forall i :: 0 <= i < threadCount ==> Prefix(projectPath) <= cs[i]
  {
    CommandsFor(projectPath, CommandRanges(frameStart, frameEnd, threadCount))
  }

  /**
   * Builds the ranges and commands for rendering `frameStart..frameEnd` with
   * `threadCount` workers on the project at `projectPath`.
   */
  method BuildRenderPlan(frameStart: int, frameEnd: int, threadCount: int, projectPath: string)
    returns (r: Result<RenderPlan, PlanError>)
    ensures threadCount == 0 ==> r == Failure(DivisionByZero)
    ensures threadCount < 0 ==> r == Failure(NoRangeToPin)
    ensures 1 <= threadCount ==> r == Success(RenderPlan(
              Partition(frameStart, frameEnd, threadCount),
              Commands(projectPath, frameStart, frameEnd, threadCount)))
  {
    var frameCount := frameEnd - frameStart;
    if threadCount == 0 {
      return Failure(DivisionByZero);
    }
    var framesPerThread := TruncDiv(frameCount, threadCount);

    var ranges: seq<FrameRange> := [];
    var commands: seq<string> := [];
    var i := 0;
    while i < threadCount
      invariant 0 <= i && (0 <= threadCount ==> i <= threadCount)
      invariant threadCount < 0 ==> i == 0
      invariant ranges == Unpinned(i, framesPerThread)
      invariant commands == CommandsFor(projectPath, ranges)
    {
      UnpinnedGrows(i, framesPerThread);
      CommandsForGrows(projectPath, ranges, WorkerRange(i, framesPerThread));
      ranges := ranges + [WorkerRange(i, framesPerThread)];
      commands := commands + [CommandText(projectPath, ranges[|ranges| - 1])];
      i := i + 1;
    }

    if |ranges| == 0 {
      return Failure(NoRangeToPin);
    }
    ghost var unpinned := ranges;
    ranges := ranges[0 := ranges[0].(start := frameStart)];
    ranges := ranges[|ranges| - 1 := ranges[|ranges| - 1].(end := frameEnd)];
    PinEffect(unpinned, frameStart, frameEnd);
    assert ranges == Pin(unpinned, frameStart, frameEnd);
    return Success(RenderPlan(ranges, commands));
  }

  /**
   * Command `i` renders `[i*p+1, (i+1)*p]`, the range before pinning: command 0
   * starts at frame 1 and the last command ends at `threadCount*p`, whatever
   * `frameStart` and `frameEnd` are.
   */
  lemma CommandsCarryUnpinnedRanges(projectPath: string, frameStart: int, frameEnd: int, threadCount: int)
    requires 1 <= threadCount
    ensures var cs := Commands(projectPath, frameStart, frameEnd, threadCount);
            var p := FramesPerThread(frameStart, frameEnd, threadCount);
            && |cs| == threadCount
            && (forall i :: 0 <= i < threadCount ==>
                  ParseCommand(projectPath, cs[i]) == Some(FrameRange(i * p + 1, (i + 1) * p)))
            && ParseCommand(projectPath, cs[0]).value.start == 1
            && ParseCommand(projectPath, cs[threadCount - 1]).value.end == threadCount * p
  {
    var cs := Commands(projectPath, frameStart, frameEnd, threadCount);
    var rs := CommandRanges(frameStart, frameEnd, threadCount);
    forall i | 0 <= i < threadCount
      ensures ParseCommand(projectPath, cs[i]) == Some(rs[i])
    {
      ParseCommandText(projectPath, rs[i]);
    }
  }

  /**
   * The commands differ from the final ranges exactly at the two pinned
   * endpoints: command 0 starts at frame 1 and the last command ends at
   * `threadCount*p`; every other endpoint is the final range's.
   */
  lemma CommandsAgreeExceptPinned(projectPath: string, frameStart: int, frameEnd: int, threadCount: int)
    requires 1 <= threadCount
    ensures var cs := Commands(projectPath, frameStart, frameEnd, threadCount);
            var rs := Partition(frameStart, frameEnd, threadCount);
            var p := FramesPerThread(frameStart, frameEnd, threadCount);
            forall i :: 0 <= i < threadCount ==>
              ParseCommand(projectPath, cs[i]) == Some(FrameRange(
                if i == 0 then 1 else rs[i].start,
                if i == threadCount - 1 then threadCount * p else rs[i].end))
  {
    var cs := Commands(projectPath, frameStart, frameEnd, threadCount);
    var us := CommandRanges(frameStart, frameEnd, threadCount);
    UnpinnedDiffersAtPinned(frameStart, frameEnd, threadCount);
    forall i | 0 <= i < threadCount
      ensures ParseCommand(projectPath, cs[i]) == Some(us[i])
    {
      assert cs[i] == CommandText(projectPath, us[i]);
      ParseCommandText(projectPath, us[i]);
    }
  }

  /**
   * With at least one frame per worker, the commands together render exactly
   * frames `1..threadCount*p`, independent of `frameStart`, and leave out the
   * remainder `threadCount*p+1..frameEnd`.
   */
  lemma CommandsRenderFromFrameOne(frameStart: int, frameEnd: int, threadCount: int)
    requires 1 <= threadCount <= frameEnd - frameStart
    ensures var p := FramesPerThread(frameStart, frameEnd, threadCount);
            ExactCover(CommandRanges(frameStart, frameEnd, threadCount), 1, threadCount * p)
  {
    var n := threadCount;
    var p := FramesPerThread(frameStart, frameEnd, n);
    var rs := CommandRanges(frameStart, frameEnd, n);
    assert 1 <= p;
    UnpinnedContiguous(n, p);
    forall i | 0 <= i < n
      ensures rs[i].start <= rs[i].end
    {
      assert i * p + p == (i + 1) * p;
    }
    ContiguousExactCover(rs);
  }

  /**
   * Scene 1..101 with 4 workers: the final last range ends at 101, but no
   * command renders frame 101.
   */
  lemma LastFrameNotRendered()
    ensures Partition(1, 101, 4)[3].end == 101
    ensures !Covers(CommandRanges(1, 101, 4), 101)
  {
    CommandsRenderFromFrameOne(1, 101, 4);
    assert FramesPerThread(1, 101, 4) == 25;
  }

  /**
   * Whenever the scene starts at frame one or later and every worker gets at
   * least one frame, no command renders the scene's last frame: the commands
   * cover `1..threadCount*p`, and `threadCount*p <= frameEnd - frameStart < frameEnd`.
   */
  lemma LastFrameNeverRendered(frameStart: int, frameEnd: int, threadCount: int)
    requires 1 <= frameStart && 1 <= threadCount <= frameEnd - frameStart
    ensures !Covers(CommandRanges(frameStart, frameEnd, threadCount), frameEnd)
  {
    var p := FramesPerThread(frameStart, frameEnd, threadCount);
    CommandsRenderFromFrameOne(frameStart, frameEnd, threadCount);
    FramesPerThreadIsFloor(frameStart, frameEnd, threadCount);
    assert threadCount * p <= frameEnd - frameStart;
  }

  /**
   * Scene 50..100 with 4 workers: the first final range is `[50, 12]` (empty)
   * and the ranges give frame 13, which is not in the scene, to a worker.
   */
  lemma RangesLeaveScene()
    ensures Partition(50, 100, 4) == [FrameRange(50, 12), FrameRange(13, 24), FrameRange(25, 36), FrameRange(37, 100)]
    ensures Covers(Partition(50, 100, 4), 13) && !(50 <= 13 <= 100)
  {
    assert FramesPerThread(50, 100, 4) == 12;
    assert InRange(13, Partition(50, 100, 4)[1]);
  }
}
