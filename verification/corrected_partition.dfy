/**
 * The partition SubprocessRenderStart.execute evidently means to compute:
 * worker ranges counted from the scene's first frame rather than from frame
 * 1, and commands formatted from the ranges after pinning, so that the
 * commands together render every frame of the scene exactly once.
 */
module CorrectedPartition {
  import opened Wrappers
  import opened FrameRanges
  import opened CommandLine
  import opened FramePartition
  import opened SubprocessRender

  /** Worker `i` first gets `[frameStart + i*p, frameStart + (i+1)*p - 1]`. */
  function ShiftedWorkerRange(frameStart: int, i: int, p: int): FrameRange {
    FrameRange(frameStart + i * p, frameStart + (i + 1) * p - 1)
  }

  function ShiftedRanges(frameStart: int, n: nat, p: int): seq<FrameRange> {
    seq(n, i requires 0 <= i < n => ShiftedWorkerRange(frameStart, i, p))
  }

  function CorrectedRanges(frameStart: int, frameEnd: int, threadCount: int): seq<FrameRange>
    requires 1 <= threadCount
  {
    Pin(ShiftedRanges(frameStart, threadCount, FramesPerThread(frameStart, frameEnd, threadCount)), frameStart, frameEnd)
  }

  function CorrectedCommands(projectPath: string, frameStart: int, frameEnd: int, threadCount: int): seq<string>
    requires 1 <= threadCount
  {
    CommandsFor(projectPath, CorrectedRanges(frameStart, frameEnd, threadCount))
  }

  /** Counting from frame 1 is what the source does; for a scene starting at frame 1 nothing changes. */
  lemma CorrectedMatchesSourceFromFrameOne(frameEnd: int, threadCount: int)
    requires 1 <= threadCount
    ensures CorrectedRanges(1, frameEnd, threadCount) == Partition(1, frameEnd, threadCount)
  {
    var n := threadCount;
    var p := FramesPerThread(1, frameEnd, n);
    var shifted, unpinned := ShiftedRanges(1, n, p), Unpinned(n, p);
    forall i | 0 <= i < n
      ensures shifted[i] == unpinned[i]
    {
      assert ShiftedWorkerRange(1, i, p) == WorkerRange(i, p);
    }
    assert shifted == unpinned;
  }

  /**
   * With at least one frame per worker, the corrected ranges split the whole
   * scene `frameStart..frameEnd`: non-empty, ascending, disjoint, and covering.
   */
  lemma CorrectedRangesCover(frameStart: int, frameEnd: int, threadCount: int)
    requires 1 <= threadCount <= frameEnd - frameStart
    ensures ExactCover(CorrectedRanges(frameStart, frameEnd, threadCount), frameStart, frameEnd)
  {
    var n := threadCount;
    var p := FramesPerThread(frameStart, frameEnd, n);
    var rs := CorrectedRanges(frameStart, frameEnd, n);
    assert 1 <= p && n * p <= frameEnd - frameStart;
    forall i | 0 < i < n
      ensures rs[i].start == rs[i - 1].end + 1
    {
      assert rs[i - 1].end == frameStart + i * p - 1;
    }
    forall i | 0 <= i < n
      ensures rs[i].start <= rs[i].end
    {
      if i == n - 1 {
        assert (n - 1) * p + p == n * p;
      } else {
        assert i * p + p == (i + 1) * p;
      }
    }
    ContiguousExactCover(rs);
  }

  /** The corrected commands render exactly the corrected ranges, hence the whole scene once. */
  lemma CorrectedCommandsRenderScene(projectPath: string, frameStart: int, frameEnd: int, threadCount: int)
    requires 1 <= threadCount <= frameEnd - frameStart
    ensures var cs := CorrectedCommands(projectPath, frameStart, frameEnd, threadCount);
            var rs := CorrectedRanges(frameStart, frameEnd, threadCount);
            && |cs| == |rs| == threadCount
            && (forall i :: 0 <= i < threadCount ==> ParseCommand(projectPath, cs[i]) == Some(rs[i]))
            && ExactCover(rs, frameStart, frameEnd)
  {
    var cs := CorrectedCommands(projectPath, frameStart, frameEnd, threadCount);
    var rs := CorrectedRanges(frameStart, frameEnd, threadCount);
    forall i | 0 <= i < threadCount
      ensures ParseCommand(projectPath, cs[i]) == Some(rs[i])
    {
      ParseCommandText(projectPath, rs[i]);
    }
    CorrectedRangesCover(frameStart, frameEnd, threadCount);
  }

  /** The four shifted ranges, written out. */
  lemma ShiftedFour(frameStart: int, p: int)
    ensures ShiftedRanges(frameStart, 4, p) == [ShiftedWorkerRange(frameStart, 0, p), ShiftedWorkerRange(frameStart, 1, p),
                                                ShiftedWorkerRange(frameStart, 2, p), ShiftedWorkerRange(frameStart, 3, p)]
  {
  }

  /** Scene 1..101 with 4 workers: the corrected ranges are the source's, and the last one ends at 101. */
  lemma CorrectedExample()
    ensures CorrectedRanges(1, 101, 4) == [FrameRange(1, 25), FrameRange(26, 50), FrameRange(51, 75), FrameRange(76, 101)]
  {
    assert FramesPerThread(1, 101, 4) == 25;
    ShiftedFour(1, 25);
    PinFour(ShiftedWorkerRange(1, 0, 25), ShiftedWorkerRange(1, 1, 25), ShiftedWorkerRange(1, 2, 25), ShiftedWorkerRange(1, 3, 25), 1, 101);
  }

  /**
   * Scene 50..100 with 4 workers: the corrected ranges stay inside the scene,
   * where the source's are `[50,12],[13,24],[25,36],[37,100]`.
   */
  lemma CorrectedExampleFromFrameFifty()
    ensures CorrectedRanges(50, 100, 4) == [FrameRange(50, 61), FrameRange(62, 73), FrameRange(74, 85), FrameRange(86, 100)]
  {
    assert FramesPerThread(50, 100, 4) == 12;
    ShiftedFour(50, 12);
    PinFour(ShiftedWorkerRange(50, 0, 12), ShiftedWorkerRange(50, 1, 12), ShiftedWorkerRange(50, 2, 12), ShiftedWorkerRange(50, 3, 12), 50, 100);
  }

  /**
   * Builds the ranges as the source does but counted from `frameStart`, pins
   * them, and only then formats one command per range.
   */
  method BuildCorrectedRenderPlan(frameStart: int, frameEnd: int, threadCount: int, projectPath: string)
    returns (r: Result<RenderPlan, PlanError>)
    ensures threadCount == 0 ==> r == Failure(DivisionByZero)
    ensures threadCount < 0 ==> r == Failure(NoRangeToPin)
    ensures 1 <= threadCount ==> r == Success(RenderPlan(
              CorrectedRanges(frameStart, frameEnd, threadCount),
              CorrectedCommands(projectPath, frameStart, frameEnd, threadCount)))
  {
    var frameCount := frameEnd - frameStart;
    if threadCount == 0 {
      return Failure(DivisionByZero);
    }
    var framesPerThread := TruncDiv(frameCount, threadCount);

    var ranges: seq<FrameRange> := [];
    var i := 0;
    while i < threadCount
      invariant 0 <= i && (0 <= threadCount ==> i <= threadCount)
      invariant threadCount < 0 ==> i == 0
      invariant |ranges| == i
      invariant forall k :: 0 <= k < i ==> ranges[k] == ShiftedWorkerRange(frameStart, k, framesPerThread)
    {
      ranges := ranges + [ShiftedWorkerRange(frameStart, i, framesPerThread)];
      i := i + 1;
    }
    if |ranges| == 0 {
      return Failure(NoRangeToPin);
    }
    assert ranges == ShiftedRanges(frameStart, threadCount, framesPerThread);
    ranges := ranges[0 := ranges[0].(start := frameStart)];
    ranges := ranges[|ranges| - 1 := ranges[|ranges| - 1].(end := frameEnd)];
    assert ranges == CorrectedRanges(frameStart, frameEnd, threadCount);

    var commands := FormatCommands(projectPath, ranges);
    assert commands == CorrectedCommands(projectPath, frameStart, frameEnd, threadCount);
    return Success(RenderPlan(ranges, commands));
  }

  /** One command per range, in order. */
  method FormatCommands(projectPath: string, ranges: seq<FrameRange>) returns (commands: seq<string>)
    ensures commands == CommandsFor(projectPath, ranges)
  {
    commands := [];
    var i := 0;
    while i < |ranges|
      invariant 0 <= i <= |ranges|
      invariant commands == CommandsFor(projectPath, ranges[..i])
    {
      assert ranges[..i + 1] == ranges[..i] + [ranges[i]];
      CommandsForGrows(projectPath, ranges[..i], ranges[i]);
      commands := commands + [CommandText(projectPath, ranges[i])];
      i := i + 1;
    }
    assert ranges[..i] == ranges;
  }
}
