/** The per-frame decision of both scripts: crop or not, the dark-frame test
    with its statistics accumulator, and whether the frame reaches the
    writer. Pixel work is replaced by a per-frame `Probe`. */
module FrameFilter {
  import opened Wrappers
  import opened Errors

  /** `DARK_BAND_SUM_MAX`: the largest band-median sum of a dark frame. */
  const DarkBandSumMax: int := 50

  /** `is_dark_image`: a frame is dark when the sum of its band medians is at
      most `DarkBandSumMax`; every call appends that sum to the run's
      `band_median_sums`, returned here as the second component. */
  function IsDarkImage(bandMedianSum: int, sums: seq<int>): (r: (bool, seq<int>))
    ensures r.0 <==> bandMedianSum <= DarkBandSumMax
    ensures |r.1| == |sums| + 1 && r.1[..|sums|] == sums && r.1[|sums|] == bandMedianSum
  {
    (bandMedianSum <= DarkBandSumMax, sums + [bandMedianSum])
  }

  /** The threshold is inclusive: a sum of 50 is dark, 51 is not. */
  lemma DarkBoundary(sums: seq<int>)
    ensures IsDarkImage(50, sums).0 && !IsDarkImage(51, sums).0
  {
  }

  /** The four `--crop-points` in `Image.crop` order; an option left unset is
      `None`. */
  datatype CropPoints = CropPoints(left: Option<int>, upper: Option<int>, right: Option<int>, lower: Option<int>)
  {
    function Points(): seq<Option<int>>
    {
      [left, upper, right, lower]
    }
  }

  /** Python truthiness of an optional integer: `None` and `0` are false. */
  predicate Truthy(x: Option<int>)
  {
    x.Some? && x.value != 0
  }

  /** Python's `all(...)`. */
  predicate All(xs: seq<Option<int>>)
  {
    |xs| == 0 || (Truthy(xs[0]) && All(xs[1..]))
  }

  /** `all(crop_points)`: the frame is cropped only when every point is set. */
  predicate CropApplies(c: CropPoints)
  {
    All(c.Points())
  }

  /** Cropping is all-or-nothing: it happens exactly when no point is `None`
      and no point is `0`, so a single zero coordinate keeps the full frame. */
  lemma CropAppliesIff(c: CropPoints)
    ensures CropApplies(c) <==>
      && c.left.Some? && c.left.value != 0
      && c.upper.Some? && c.upper.value != 0
      && c.right.Some? && c.right.value != 0
      && c.lower.Some? && c.lower.value != 0
  {
    var p := c.Points();
    assert p[1..] == [c.upper, c.right, c.lower];
    assert p[1..][1..] == [c.right, c.lower];
    assert p[1..][1..][1..] == [c.lower];
    assert p[1..][1..][1..][1..] == [];
    assert All(p[1..][1..][1..]) <==> Truthy(c.lower);
    assert All(p[1..][1..]) <==> Truthy(c.right) && Truthy(c.lower);
    assert All(p[1..]) <==> Truthy(c.upper) && Truthy(c.right) && Truthy(c.lower);
  }

  /** What PIL does with a frame under a run's options: nothing raised, an
      `OSError`, or some other exception (`ValueError` from `resize` with a
      non-positive size, or from `crop` with a reversed box; a decompression
      bomb). PIL decodes lazily, so this is about the work the run asks of
      it: the open, and the crop, dark test or re-encoding when they
      happen. */
  datatype Pil = Decoded | OsError | Raises

  /** What reading, decoding and measuring one named frame yields:
      - `readable`: the file opens (`open(filename, 'rb')`) or the object is
        fetched; both happen outside any handler;
      - `pil`: what PIL does with it;
      - the band-median sum of the full frame and of the frame cropped to
        the run's crop points. */
  datatype Probe = Probe(readable: bool, pil: Pil, fullSum: int, croppedSum: int)
  {
    /** PIL raises nothing on the frame. */
    const opens: bool := pil == Decoded
  }

  /** The frame ends a run of the container command: it cannot be read, or
      PIL raises something the `except OSError` does not catch. */
  predicate Halts(p: Probe)
  {
    !p.readable || p.pil == Raises
  }

  /** The error a frame that ends a run ends it with: the read's when it
      cannot be read, PIL's otherwise. */
  function HaltError(p: Probe, name: string): Fatal
  {
    if !p.readable then ReadFailed(name) else DecodeFailed(name)
  }

  /** The names before the first frame that ends a run. */
  function HaltCount(probe: string -> Probe, names: seq<string>): (k: nat)
    ensures k <= |names|
    ensures forall i :: 0 <= i < k ==> !Halts(probe(names[i]))
    ensures k < |names| ==> Halts(probe(names[k]))
  {
    if |names| == 0 || Halts(probe(names[0])) then 0
    else 1 + HaltCount(probe, names[1..])
  }

  /** The statistic the dark test sees: that of the cropped frame when the
      crop applies, of the full frame otherwise. */
  function Statistic(crop: CropPoints, p: Probe): int
  {
    if CropApplies(crop) then p.croppedSum else p.fullSum
  }

  datatype Verdict = Unopened | Fails | Dark | Keep

  /** One frame through the `try` block: a frame PIL raises `OSError` on is
      set aside (`Unopened`) and one it raises anything else on ends the
      run (`Fails`), both before any statistic; with dark skipping on, the
      statistic is recorded and a dark frame is rejected; with it off,
      `is_dark_image` is never called (`skip_dark_frames and ...`
      short-circuits). */
  function Screen(skipDark: bool, crop: CropPoints, p: Probe, sums: seq<int>): (r: (Verdict, seq<int>))
    ensures r.0 == Unopened <==> p.pil == OsError
    ensures r.0 == Fails <==> p.pil == Raises
    ensures r.0 == Dark <==> p.opens && skipDark && Statistic(crop, p) <= DarkBandSumMax
    ensures r.1 == (if p.opens && skipDark then sums + [Statistic(crop, p)] else sums)
  {
    match p.pil
    case OsError => (Unopened, sums)
    case Raises => (Fails, sums)
    case Decoded =>
      if skipDark then
        var (dark, sums') := IsDarkImage(Statistic(crop, p), sums);
        (if dark then Dark else Keep, sums')
      else (Keep, sums)
  }

  /** Reference definition: the frame reaches the writer. */
  predicate Kept(skipDark: bool, crop: CropPoints, p: Probe)
  {
    p.opens && !(skipDark && Statistic(crop, p) <= DarkBandSumMax)
  }

  /** The names whose frames reach the writer, in order. */
  function KeptFrames(skipDark: bool, crop: CropPoints, probe: string -> Probe, names: seq<string>): seq<string>
  {
    if |names| == 0 then []
    else
      var head := if Kept(skipDark, crop, probe(names[0])) then [names[0]] else [];
      head + KeptFrames(skipDark, crop, probe, names[1..])
  }

  /** The names whose frames open, in order. */
  function OpenedFrames(probe: string -> Probe, names: seq<string>): seq<string>
  {
    if |names| == 0 then []
    else (if probe(names[0]).opens then [names[0]] else []) + OpenedFrames(probe, names[1..])
  }

  /** The statistic of every named frame, in order. */
  function Statistics(crop: CropPoints, probe: string -> Probe, names: seq<string>): (r: seq<int>)
    ensures |r| == |names|
  {
    if |names| == 0 then []
    else [Statistic(crop, probe(names[0]))] + Statistics(crop, probe, names[1..])
  }

  /** With dark frames kept, every frame that opens reaches the writer. */
  lemma {:induction false} KeepingDarkKeepsOpened(crop: CropPoints, probe: string -> Probe, names: seq<string>)
    ensures KeptFrames(false, crop, probe, names) == OpenedFrames(probe, names)
  {
    if |names| > 0 {
      KeepingDarkKeepsOpened(crop, probe, names[1..]);
    }
  }

  /** The frames kept are among those that open, in the same order. */
  lemma {:induction false} KeptAreOpened(skipDark: bool, crop: CropPoints, probe: string -> Probe, names: seq<string>)
    ensures |KeptFrames(skipDark, crop, probe, names)| <= |OpenedFrames(probe, names)|
    ensures forall n :: n in KeptFrames(skipDark, crop, probe, names) ==> n in names && Kept(skipDark, crop, probe(n))
  {
    if |names| > 0 {
      KeptAreOpened(skipDark, crop, probe, names[1..]);
    }
  }
}
