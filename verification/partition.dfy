/**
 * How SubprocessRenderStart.execute splits the scene's frames among the
 * render workers, as specification functions: the per-worker share, the
 * ranges as the loop first builds them, and the ranges after the first
 * start and the last end are pinned to the scene's own endpoints.
 */
module FramePartition {
  import opened FrameRanges

  function Abs(x: int): nat {
    if x < 0 then -x else x
  }

  /** `int(a / b)`: the quotient truncated toward zero. */
  function TruncDiv(a: int, b: int): (q: int)
    requires b != 0
    ensures Abs(q) == NatDiv(Abs(a), Abs(b))
    ensures q != 0 ==> ((q < 0) <==> ((a < 0) != (b < 0)))
  {
    var m: int := NatDiv(Abs(a), Abs(b));
    if (a < 0) == (b < 0) then m else -m
  }

  function NatDiv(x: nat, y: nat): nat
    requires 0 < y
  {
    x / y
  }

  /**
   * Truncation toward zero: the quotient's magnitude is the largest `m` with
   * `m*|b| <= |a|`, and a non-zero quotient is negative exactly when the
   * operands' signs differ.
   */
  lemma TruncDivMeaning(a: int, b: int)
    requires b != 0
    ensures var q := TruncDiv(a, b);
            && Abs(q) * Abs(b) <= Abs(a) < (Abs(q) + 1) * Abs(b)
            && (q != 0 ==> ((q < 0) <==> ((a < 0) != (b < 0))))
  {
    var q := TruncDiv(a, b);
    DivisionBounds(Abs(a), Abs(b), Abs(q));
  }

  lemma DivisionBounds(a: nat, b: nat, m: nat)
    requires 0 < b && m == a / b
    ensures m * b <= a < (m + 1) * b
  {
    var r := a % b;
    assert a == m * b + r && 0 <= r < b;
    assert (m + 1) * b == m * b + b;
  }

  /** `frames_per_thread`: `frame_count = frameEnd - frameStart` shared among the workers. */
  function FramesPerThread(frameStart: int, frameEnd: int, threadCount: int): (p: int)
    requires threadCount != 0
    ensures 0 < threadCount && frameStart <= frameEnd ==> 0 <= p
  {
    TruncDiv(frameEnd - frameStart, threadCount)
  }

  /** Worker `i` first gets `[i*p+1, (i+1)*p]`. */
  function WorkerRange(i: int, p: int): (r: FrameRange)
    ensures r.end - r.start == p - 1
  {
    FrameRange(i * p + 1, (i + 1) * p)
  }

  /** The ranges of workers `0..n-1` as the loop builds them. */
  function Unpinned(n: nat, p: int): (rs: seq<FrameRange>)
    ensures |rs| == n
    ensures 1 <= n ==> rs[0].start == 1
  {
    seq(n, i requires 0 <= i < n => WorkerRange(i, p))
  }

  lemma UnpinnedGrows(n: nat, p: int)
    ensures Unpinned(n + 1, p) == Unpinned(n, p) + [WorkerRange(n, p)]
  {
  }

  /** Overwrite the first range's start, then the last range's end. */
  function Pin(rs: seq<FrameRange>, frameStart: int, frameEnd: int): (pinned: seq<FrameRange>)
    requires 1 <= |rs|
    ensures |pinned| == |rs|
    ensures pinned[0].start == frameStart && pinned[|rs| - 1].end == frameEnd
  {
    var first := rs[0 := rs[0].(start := frameStart)];
    first[|first| - 1 := first[|first| - 1].(end := frameEnd)]
  }

  /** Pinning replaces the first start and the last end and keeps every other endpoint. */
  lemma PinEffect(rs: seq<FrameRange>, frameStart: int, frameEnd: int)
    requires 1 <= |rs|
    ensures var pinned := Pin(rs, frameStart, frameEnd);
            && |pinned| == |rs|
            && forall i :: 0 <= i < |rs| ==>
                 pinned[i] == FrameRange(if i == 0 then frameStart else rs[i].start,
                                         if i == |rs| - 1 then frameEnd else rs[i].end)
  {
  }

  /** Pinning four ranges, written out. */
  lemma PinFour(a: FrameRange, b: FrameRange, c: FrameRange, d: FrameRange, frameStart: int, frameEnd: int)
    ensures Pin([a, b, c, d], frameStart, frameEnd) == [a.(start := frameStart), b, c, d.(end := frameEnd)]
  {
  }

  /** The final `frame_ranges` for `threadCount` workers. */
  function Partition(frameStart: int, frameEnd: int, threadCount: int): (rs: seq<FrameRange>)
    requires 1 <= threadCount
    ensures |rs| == threadCount
    ensures rs[0].start == frameStart && rs[threadCount - 1].end == frameEnd
  {
    Pin(Unpinned(threadCount, FramesPerThread(frameStart, frameEnd, threadCount)), frameStart, frameEnd)
  }

  /** For a non-negative frame count the share is floor division. */
  lemma FramesPerThreadIsFloor(frameStart: int, frameEnd: int, threadCount: int)
    requires 1 <= threadCount && frameStart <= frameEnd
    ensures FramesPerThread(frameStart, frameEnd, threadCount) == (frameEnd - frameStart) / threadCount
  {
  }

  /** Before pinning, each range starts on the frame after its predecessor's end. */
  lemma UnpinnedContiguous(n: nat, p: int)
    ensures |Unpinned(n, p)| == n
    ensures Contiguous(Unpinned(n, p))
  {
    var rs := Unpinned(n, p);
    forall i | 0 < i < n
      ensures rs[i].start == rs[i - 1].end + 1
    {
      assert rs[i - 1].end == i * p;
    }
  }

  /**
   * Pinning sets the first start and the last end and nothing else: every
   * other endpoint is the one the loop built.
   */
  lemma PartitionPinning(frameStart: int, frameEnd: int, threadCount: int)
    requires 1 <= threadCount
    ensures var rs := Partition(frameStart, frameEnd, threadCount);
            var p := FramesPerThread(frameStart, frameEnd, threadCount);
            && |rs| == threadCount
            && rs[0].start == frameStart
            && rs[threadCount - 1].end == frameEnd
            && (forall i :: 0 < i < threadCount ==> rs[i].start == i * p + 1)
            && (forall i :: 0 <= i < threadCount - 1 ==> rs[i].end == (i + 1) * p)
  {
  }

  /** The ranges before and after pinning differ only at the first start and the last end. */
  lemma UnpinnedDiffersAtPinned(frameStart: int, frameEnd: int, threadCount: int)
    requires 1 <= threadCount
    ensures var rs := Partition(frameStart, frameEnd, threadCount);
            var p := FramesPerThread(frameStart, frameEnd, threadCount);
            var us := Unpinned(threadCount, p);
            forall i :: 0 <= i < threadCount ==>
              us[i] == FrameRange(
                if i == 0 then 1 else rs[i].start,
                if i == threadCount - 1 then threadCount * p else rs[i].end)
  {
  }

  /** Pinning keeps adjacency: after it too each range starts right after its predecessor ends. */
  lemma PartitionContiguous(frameStart: int, frameEnd: int, threadCount: int)
    requires 1 <= threadCount
    ensures Contiguous(Partition(frameStart, frameEnd, threadCount))
  {
    var p := FramesPerThread(frameStart, frameEnd, threadCount);
    UnpinnedContiguous(threadCount, p);
    var us := Unpinned(threadCount, p);
    var rs := Partition(frameStart, frameEnd, threadCount);
    forall i | 0 < i < threadCount
      ensures rs[i].start == rs[i - 1].end + 1
    {
      assert rs[i].start == us[i].start && rs[i - 1].end == us[i - 1].end;
    }
  }

  /** One worker renders the whole scene. */
  lemma SingleWorker(frameStart: int, frameEnd: int)
    ensures Partition(frameStart, frameEnd, 1) == [FrameRange(frameStart, frameEnd)]
  {
  }

  /**
   * Starting at frame 1 with at least one frame per worker, the final ranges
   * are non-empty, ascending, disjoint and cover exactly `1..frameEnd`; the
   * last one absorbs the remainder.
   */
  lemma PartitionFromFrameOneCovers(frameEnd: int, threadCount: int)
    requires 1 <= threadCount <= frameEnd - 1
    ensures ExactCover(Partition(1, frameEnd, threadCount), 1, frameEnd)
  {
    var n := threadCount;
    var p := FramesPerThread(1, frameEnd, n);
    var rs := Partition(1, frameEnd, n);
    assert 1 <= p && n * p <= frameEnd - 1;
    PartitionContiguous(1, frameEnd, n);
    forall i | 0 <= i < n
      ensures rs[i].start <= rs[i].end
    {
      if i == n - 1 {
        assert (n - 1) * p + p == n * p;
      } else {
        assert i * p + p == (i + 1) * p;
      }
    }
    ContiguousExactCover(rs);
  }

  /**
   * With fewer frames than workers the share is 0: every range the pinning
   * does not touch is `[1, 0]`, so it contains no frame.
   */
  lemma DegenerateShare(frameStart: int, frameEnd: int, threadCount: int)
    requires 2 <= threadCount && Abs(frameEnd - frameStart) < threadCount
    ensures FramesPerThread(frameStart, frameEnd, threadCount) == 0
    ensures var rs := Partition(frameStart, frameEnd, threadCount);
            && rs[0] == FrameRange(frameStart, 0)
            && rs[threadCount - 1] == FrameRange(1, frameEnd)
            && forall i :: 0 < i < threadCount - 1 ==> rs[i] == FrameRange(1, 0)
  {
  }

  /** 99 frames to share gives 24 each, so the last worker of 1..100 gets 28 frames; 1..101 gives 25 each and the last worker takes the 101st. */
  lemma Examples()
    ensures Partition(1, 100, 4) == [FrameRange(1, 24), FrameRange(25, 48), FrameRange(49, 72), FrameRange(73, 100)]
    ensures Partition(1, 101, 4) == [FrameRange(1, 25), FrameRange(26, 50), FrameRange(51, 75), FrameRange(76, 101)]
  {
    ExampleOneToHundred();
    ExampleOneToHundredOne();
  }

  /** The four ranges the loop builds, written out. */
  lemma UnpinnedFour(p: int)
    ensures Unpinned(4, p) == [WorkerRange(0, p), WorkerRange(1, p), WorkerRange(2, p), WorkerRange(3, p)]
  {
  }

  lemma ExampleOneToHundred()
    ensures Partition(1, 100, 4) == [FrameRange(1, 24), FrameRange(25, 48), FrameRange(49, 72), FrameRange(73, 100)]
  {
    assert FramesPerThread(1, 100, 4) == 24;
    UnpinnedFour(24);
    PinFour(WorkerRange(0, 24), WorkerRange(1, 24), WorkerRange(2, 24), WorkerRange(3, 24), 1, 100);
  }

  lemma ExampleOneToHundredOne()
    ensures Partition(1, 101, 4) == [FrameRange(1, 25), FrameRange(26, 50), FrameRange(51, 75), FrameRange(76, 101)]
  {
    assert FramesPerThread(1, 101, 4) == 25;
    UnpinnedFour(25);
    PinFour(WorkerRange(0, 25), WorkerRange(1, 25), WorkerRange(2, 25), WorkerRange(3, 25), 1, 101);
  }
}
