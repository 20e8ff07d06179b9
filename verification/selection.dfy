/** Which of the sorted frames a run visits: the container script's
    offset / end-index window and stride, and the older script's truncation. */
module Selection {
  import opened Wrappers
  import PySeq

  /** `num_frames or len(image_files)`: an absent or zero `num_frames` means
      the end of the list, any other value is used as a slice end index. */
  function EndIndex(numFrames: Option<int>, n: nat): int
  {
    if numFrames.None? || numFrames.value == 0 then n else numFrames.value
  }

  /** `image_files[offset:num_frames]` after the `or` above. */
  function Window<T>(s: seq<T>, offset: int, numFrames: Option<int>): seq<T>
  {
    PySeq.Slice(s, offset, EndIndex(numFrames, |s|))
  }

  /** The window strided by `islice(..., None, None, step)`, or the stride
      itself when `islice` refuses it. */
  function Select<T>(s: seq<T>, offset: int, numFrames: Option<int>, step: int): Result<seq<T>, int>
  {
    if step < 1 then Err(step)
    else Ok(PySeq.Islice(Window(s, offset, numFrames), step))
  }

  /** The selection is the frames at `lo, lo + step, lo + 2 * step, ...`
      strictly below `hi`, and every such position is visited, where `lo` is
      the offset and `hi` the end index `E` normalised as Python slice bounds
      (negative values count from the end); `E` is `num_frames` when that is
      set and non-zero and the list length otherwise. A stride below 1 is
      refused. */
  lemma SelectIndices<T>(s: seq<T>, offset: int, numFrames: Option<int>, step: int)
    ensures Select(s, offset, numFrames, step).Ok? <==> step >= 1
    ensures var r := Select(s, offset, numFrames, step);
      var lo := PySeq.Bound(offset, |s|);
      var hi := PySeq.Bound(EndIndex(numFrames, |s|), |s|);
      r.Ok? ==>
        && (forall i {:trigger r.value[i]} :: 0 <= i < |r.value| ==>
              lo + PySeq.Scaled(i, step) < hi && r.value[i] == s[lo + PySeq.Scaled(i, step)])
        && (lo < hi ==> hi <= lo + PySeq.Scaled(|r.value|, step))
        && (hi <= lo ==> r.value == [])
  {
    if step >= 1 {
      var lo := PySeq.Bound(offset, |s|);
      var hi := PySeq.Bound(EndIndex(numFrames, |s|), |s|);
      if lo < hi {
        assert Window(s, offset, numFrames) == s[lo..hi];
        StrideOfSuffix(s, lo, hi, step);
        var r := Select(s, offset, numFrames, step).value;
        assert r == PySeq.Islice(s[lo..hi], step);
        forall i | 0 <= i < |r|
          ensures lo + PySeq.Scaled(i, step) < hi && r[i] == s[lo + PySeq.Scaled(i, step)]
        {
          PySeq.IsliceAt(s[lo..hi], step, i);
        }
      } else {
        assert Window(s, offset, numFrames) == [];
      }
    }
  }

  /** `r` is the stride through `s[lo:hi]` in Python's own terms: its `i`-th
      entry is `s[lo + i * step]`, below `hi`, and the stride has passed
      `hi` once `r` ends, so no position `lo + k * step` below `hi` is
      skipped. */
  ghost predicate Strided<T>(s: seq<T>, r: seq<T>, lo: nat, hi: nat, step: nat)
  {
    && hi <= |s|
    && (forall i :: 0 <= i < |r| ==> lo + i * step < hi && r[i] == s[lo + i * step])
    && (lo < hi ==> hi <= lo + |r| * step)
    && (hi <= lo ==> r == [])
  }

  /** `SelectIndices` with the positions written as products. */
  lemma SelectPositions<T>(s: seq<T>, offset: int, numFrames: Option<int>, step: int)
    ensures var r := Select(s, offset, numFrames, step);
      r.Ok? ==>
        && step >= 1
        && Strided(s, r.value, PySeq.Bound(offset, |s|), PySeq.Bound(EndIndex(numFrames, |s|), |s|), step)
  {
    SelectIndices(s, offset, numFrames, step);
    var r := Select(s, offset, numFrames, step);
    if r.Ok? {
      var lo := PySeq.Bound(offset, |s|);
      var hi := PySeq.Bound(EndIndex(numFrames, |s|), |s|);
      forall i | 0 <= i < |r.value|
        ensures lo + i * step < hi && r.value[i] == s[lo + i * step]
      {
        assert lo + PySeq.Scaled(i, step) < hi by { assert r.value[i] in r.value; }
        PySeq.ScaledIsProduct(i, step);
      }
      PySeq.ScaledIsProduct(|r.value|, step);
    }
  }

  lemma StrideOfSuffix<T>(s: seq<T>, offset: int, hi: int, step: int)
    requires 0 <= offset < hi <= |s| && step >= 1
    ensures var r := PySeq.Islice(s[offset..hi], step);
      && (forall i {:trigger r[i]} :: 0 <= i < |r| ==>
            offset + PySeq.Scaled(i, step) < hi && r[i] == s[offset + PySeq.Scaled(i, step)])
      && hi <= offset + PySeq.Scaled(|r|, step)
  {
    var w := s[offset..hi];
    var r := PySeq.Islice(w, step);
    forall i | 0 <= i < |r|
      ensures offset + PySeq.Scaled(i, step) < hi && r[i] == s[offset + PySeq.Scaled(i, step)]
    {
      PySeq.IsliceAt(w, step, i);
    }
    PySeq.IsliceCovers(w, step);
  }

  /** Ten frames, offset 2, `num_frames` 6 and stride 2 select the frames at
      positions 2 and 4: `num_frames` ends the window rather than counting
      frames after the offset. */
  lemma SelectTenFrames(s: seq<int>)
    requires |s| == 10
    ensures Select(s, 2, Some(6), 2) == Ok([s[2], s[4]])
  {
    SelectIndices(s, 2, Some(6), 2);
    var r := Select(s, 2, Some(6), 2).value;
    assert PySeq.Bound(6, 10) == 6 && PySeq.Bound(2, 10) == 2;
    assert PySeq.Scaled(1, 2) == 2;
    PySeq.ScaledIsProduct(|r|, 2);
    PySeq.ScaledIsProduct(|r| - 1, 2);
    assert 2 + PySeq.Scaled(|r| - 1, 2) < 6 by { assert r[|r| - 1] in r; }
    assert |r| == 2;
    assert r[0] == s[2 + PySeq.Scaled(0, 2)];
    assert r[1] == s[2 + PySeq.Scaled(1, 2)];
    assert r == [s[2], s[4]];
  }

  /** The older script's `if num_frames: image_files[:num_frames]`. */
  function Truncate<T>(s: seq<T>, numFrames: Option<int>): seq<T>
  {
    if numFrames.Some? && numFrames.value != 0 then PySeq.Slice(s, 0, numFrames.value) else s
  }

  /** Truncation keeps a prefix: all of the list when `num_frames` is absent
      or zero, the first `num_frames` entries when it is positive, and all
      but the last `-num_frames` when it is negative. */
  lemma TruncateIsPrefix<T>(s: seq<T>, numFrames: Option<int>)
    ensures var r := Truncate(s, numFrames);
      && |r| <= |s| && r == s[..|r|]
      && (numFrames.None? || numFrames == Some(0) ==> r == s)
      && (numFrames.Some? && numFrames.value > 0 ==>
            |r| == if numFrames.value < |s| then numFrames.value else |s|)
      && (numFrames.Some? && numFrames.value < 0 ==>
            |r| == if |s| + numFrames.value > 0 then |s| + numFrames.value else 0)
  {
  }
}
