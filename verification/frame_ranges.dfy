/**
 * Inclusive frame ranges and what it means for a list of them to cover an
 * interval of frames contiguously, in order and without overlap.
 */
module FrameRanges {

  /** The frames `start..end`, both included; empty when `end < start`. */
  datatype FrameRange = FrameRange(start: int, end: int)

  predicate InRange(f: int, r: FrameRange) {
    r.start <= f <= r.end
  }

  /** Some range of `rs` contains frame `f`. */
  predicate Covers(rs: seq<FrameRange>, f: int) {
    exists i :: 0 <= i < |rs| && InRange(f, rs[i])
  }

  /** Each range begins on the frame after the one its predecessor ends on. */
  predicate Contiguous(rs: seq<FrameRange>) {
    forall i :: 0 < i < |rs| ==> rs[i].start == rs[i - 1].end + 1
  }

  /** No range is empty (start greater than end). */
  predicate NonEmpty(rs: seq<FrameRange>) {
    forall i :: 0 <= i < |rs| ==> rs[i].start <= rs[i].end
  }

  /** Every range ends before any later range begins: the ranges are ordered and pairwise disjoint. */
  predicate Ascending(rs: seq<FrameRange>) {
    forall i, j :: 0 <= i < j < |rs| ==> rs[i].end < rs[j].start
  }

  /** `rs` splits `lo..hi` into non-empty pieces, in order, each frame in exactly one piece. */
  ghost predicate ExactCover(rs: seq<FrameRange>, lo: int, hi: int) {
    && NonEmpty(rs)
    && Ascending(rs)
    && forall f :: Covers(rs, f) <==> lo <= f <= hi
  }

  /** Every frame from the first start to the last end lies in some range. */
  lemma {:induction false} ContiguousCoversAll(rs: seq<FrameRange>, f: int)
    requires 1 <= |rs| && Contiguous(rs) && NonEmpty(rs)
    requires rs[0].start <= f <= rs[|rs| - 1].end
    ensures Covers(rs, f)
    decreases |rs|
  {
    var last := |rs| - 1;
    if rs[last].start <= f {
      assert InRange(f, rs[last]);
    } else {
      var init := rs[..last];
      assert Contiguous(init) && NonEmpty(init);
      assert f <= init[last - 1].end;
      ContiguousCoversAll(init, f);
      var i :| 0 <= i < |init| && InRange(f, init[i]);
      assert InRange(f, rs[i]);
    }
  }

  lemma {:induction false} EndBeforeStart(rs: seq<FrameRange>, i: int, j: int)
    requires Contiguous(rs) && NonEmpty(rs)
    requires 0 <= i < j < |rs|
    ensures rs[i].end < rs[j].start
    decreases j - i
  {
    if i + 1 < j {
      EndBeforeStart(rs, i, j - 1);
    }
  }

  lemma ContiguousAscending(rs: seq<FrameRange>)
    requires Contiguous(rs) && NonEmpty(rs)
    ensures Ascending(rs)
  {
    forall i, j | 0 <= i < j < |rs|
      ensures rs[i].end < rs[j].start
    {
      EndBeforeStart(rs, i, j);
    }
  }

  /** Contiguous non-empty ranges are an exact cover of the frames from the first start to the last end. */
  lemma ContiguousExactCover(rs: seq<FrameRange>)
    requires 1 <= |rs| && Contiguous(rs) && NonEmpty(rs)
    ensures ExactCover(rs, rs[0].start, rs[|rs| - 1].end)
  {
    ContiguousAscending(rs);
    var lo, hi := rs[0].start, rs[|rs| - 1].end;
    forall f
      ensures Covers(rs, f) <==> lo <= f <= hi
    {
      if lo <= f <= hi {
        ContiguousCoversAll(rs, f);
      }
      if Covers(rs, f) {
        var i :| 0 <= i < |rs| && InRange(f, rs[i]);
        assert i == 0 || rs[0].end < rs[i].start;
        assert i == |rs| - 1 || rs[i].end < rs[|rs| - 1].start;
      }
    }
  }
}
