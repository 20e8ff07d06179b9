/** `generate` of the older script: list and sort the frames, keep the first
    `num_frames` when that is set, crop every frame to the fixed crop points,
    drop dark frames when asked, and hand the rest to the GIF writer. Any
    frame that cannot be read, or that fails to open or decode, ends the
    run. */
module Legacy {
  import opened Wrappers
  import opened Errors
  import FrameOrder
  import PyText
  import Selection
  import opened FrameFilter

  /** `CROP_POINTS`, applied to every frame. */
  const FixedCrop: CropPoints := CropPoints(Some(722), Some(1230), Some(1812), Some(2048))

  /** The command's options that reach the pipeline. */
  datatype Options = Options(s3: bool, skipDark: bool, numFrames: Option<int>, indir: string)

  /** `timestamp_sort`, with the directory it strips taken from the command's
      `indir`; the script uses it for local paths and object keys alike. */
  function StampOf(opts: Options): string -> Option<int>
  {
    (f: string) => FrameOrder.LocalStamp(opts.indir, f)
  }

  /** A path `indir/<timestamp><ext>` with a four-character extension has
      that timestamp as its sort key. */
  lemma StampOfShown(opts: Options, n: int, ext: string)
    requires |ext| == 4
    ensures StampOf(opts)(opts.indir + "/" + PyText.Show(n) + ext) == Some(n)
  {
    FrameOrder.LocalStampOfShown(opts.indir, n, ext);
  }

  /** The frames the loop visits: an empty bucket has no `Contents` and ends
      the run, then the sort and the optional truncation. */
  function Frames(opts: Options, listing: seq<string>): Result<seq<string>, Fatal>
  {
    if opts.s3 && |listing| == 0 then Err(EmptyListing)
    else match FrameOrder.ListFrames(listing, StampOf(opts))
      case Err(name) => Err(UnparsableName(name))
      case Ok(sorted) => Ok(Selection.Truncate(sorted, opts.numFrames))
  }

  /** The loop's state: names handed to the writer and `band_median_sums`. */
  datatype Progress = Progress(frames: seq<string>, sums: seq<int>)

  /** One pass of the loop body: nothing is caught, so a frame that cannot
      be read or that PIL fails on is fatal; a dark frame is skipped after
      its statistic is recorded; any other frame is appended. */
  function Visit(opts: Options, probe: string -> Probe, name: string, st: Progress): Result<Progress, Fatal>
  {
    if !probe(name).readable then Err(ReadFailed(name))
    else
      var (verdict, sums) := Screen(opts.skipDark, FixedCrop, probe(name), st.sums);
      match verdict
      case Unopened => Err(DecodeFailed(name))
      case Fails => Err(DecodeFailed(name))
      case Dark => Ok(st.(sums := sums))
      case Keep => Ok(Progress(st.frames + [name], sums))
  }

  /** The frame can be read and PIL opens, crops, measures and re-encodes it
      without raising. */
  predicate Loads(p: Probe)
  {
    p.readable && p.opens
  }

  /** The frame loop, stopping at the first fatal error. */
  function Drive(opts: Options, probe: string -> Probe, names: seq<string>, st: Progress): Result<Progress, Fatal>
    decreases |names|
  {
    if |names| == 0 then Ok(st)
    else match Visit(opts, probe, names[0], st)
      case Err(e) => Err(e)
      case Ok(next) => Drive(opts, probe, names[1..], next)
  }

  /** The whole command: the frames the GIF holds and the statistics. */
  function Generate(opts: Options, listing: seq<string>, probe: string -> Probe): Result<Progress, Fatal>
  {
    match Frames(opts, listing)
    case Err(e) => Err(e)
    case Ok(chosen) => Drive(opts, probe, chosen, Progress([], []))
  }

  /** The fixed crop points are all set and non-zero, so every frame's
      statistic is that of its cropped part. */
  lemma FixedCropApplies(p: Probe)
    ensures CropApplies(FixedCrop) && Statistic(FixedCrop, p) == p.croppedSum
  {
    CropAppliesIff(FixedCrop);
  }

  /** The run stops before the loop exactly when the bucket is empty or a
      name's timestamp does not parse. */
  lemma FramesFail(opts: Options, listing: seq<string>)
    ensures Frames(opts, listing).Ok? <==>
      && !(opts.s3 && |listing| == 0)
      && (forall i :: 0 <= i < |listing| ==> StampOf(opts)(listing[i]).Some?)
  {
    FrameOrder.ListFramesSorted(listing, StampOf(opts));
  }

  /** The frames visited are a prefix of the listing sorted by timestamp
      (see `FrameOrder.ListFramesSorted` for the order):
      all of it when `num_frames` is unset or zero, its first `num_frames`
      names when that is positive. */
  lemma FramesTruncated(opts: Options, listing: seq<string>)
    ensures Frames(opts, listing).Ok? ==> FrameOrder.ListFrames(listing, StampOf(opts)).Ok?
    ensures Frames(opts, listing).Ok? ==>
      var r := Frames(opts, listing).value;
      var sorted := FrameOrder.ListFrames(listing, StampOf(opts)).value;
      && |r| <= |sorted| && r == sorted[..|r|]
      && (opts.numFrames.None? || opts.numFrames == Some(0) ==> r == sorted)
      && (opts.numFrames.Some? && opts.numFrames.value > 0 ==>
            |r| == if opts.numFrames.value < |sorted| then opts.numFrames.value else |sorted|)
  {
    if Frames(opts, listing).Ok? {
      var sorted := FrameOrder.ListFrames(listing, StampOf(opts)).value;
      assert Frames(opts, listing).value == Selection.Truncate(sorted, opts.numFrames);
      Selection.TruncateIsPrefix(sorted, opts.numFrames);
    }
  }

  /** The names before the first frame that does not load. */
  function LoadedPrefix(probe: string -> Probe, names: seq<string>): seq<string>
  {
    if |names| == 0 then []
    else if !Loads(probe(names[0])) then []
    else [names[0]] + LoadedPrefix(probe, names[1..])
  }

  /** One pass: it fails exactly when the frame does not load; otherwise the
      frame reaches the writer exactly when it is kept, and its cropped
      statistic is recorded exactly when dark skipping is on. */
  lemma VisitFixedCrop(opts: Options, probe: string -> Probe, name: string, st: Progress)
    ensures var r := Visit(opts, probe, name, st);
      var p := probe(name);
      && (r.Ok? <==> Loads(p))
      && (r.Err? ==> r.error == HaltError(p, name))
      && (r.Ok? ==>
            && r.value.frames == st.frames + (if Kept(opts.skipDark, FixedCrop, p) then [name] else [])
            && r.value.sums == st.sums + (if opts.skipDark then [p.croppedSum] else []))
  {
    FixedCropApplies(probe(name));
  }

  /** The loop succeeds exactly when every frame loads. */
  lemma {:induction false} DriveOk(opts: Options, probe: string -> Probe, names: seq<string>, st: Progress)
    ensures Drive(opts, probe, names, st).Ok? <==> forall i :: 0 <= i < |names| ==> Loads(probe(names[i]))
    decreases |names|
  {
    if |names| > 0 {
      VisitFixedCrop(opts, probe, names[0], st);
      if Loads(probe(names[0])) {
        DriveOk(opts, probe, names[1..], Visit(opts, probe, names[0], st).value);
        assert forall i :: 1 <= i < |names| ==> names[i] == names[1..][i - 1];
      }
    }
  }

  /** When the loop completes (every frame loads, see `DriveOk`), it has
      handed the writer exactly the non-dark frames (all of them when dark
      frames are kept), in order. */
  lemma {:induction false} DriveKeepsNonDark(opts: Options, probe: string -> Probe,
                                             names: seq<string>, st: Progress)
    ensures var r := Drive(opts, probe, names, st);
      r.Ok? ==> r.value.frames == st.frames + KeptFrames(opts.skipDark, FixedCrop, probe, names)
    decreases |names|
  {
    if |names| > 0 {
      VisitFixedCrop(opts, probe, names[0], st);
      var v := Visit(opts, probe, names[0], st);
      if v.Ok? {
        assert Drive(opts, probe, names, st) == Drive(opts, probe, names[1..], v.value);
        DriveKeepsNonDark(opts, probe, names[1..], v.value);
      }
    }
  }

  /** When the loop completes, it has recorded the cropped statistic of
      every frame, in order, when dark skipping is on and none when it is
      off. */
  lemma {:induction false} DriveRecordsAll(opts: Options, probe: string -> Probe,
                                           names: seq<string>, st: Progress)
    ensures var r := Drive(opts, probe, names, st);
      r.Ok? ==> r.value.sums == st.sums + (if opts.skipDark then Statistics(FixedCrop, probe, names) else [])
    decreases |names|
  {
    if |names| > 0 {
      VisitFixedCrop(opts, probe, names[0], st);
      FixedCropApplies(probe(names[0]));
      var v := Visit(opts, probe, names[0], st);
      if v.Ok? {
        DriveRecordsAll(opts, probe, names[1..], v.value);
      }
    }
  }

  /** A failed loop names the first frame that does not load, with the
      reason it does not. */
  lemma {:induction false} DriveStopsAtFirstFailure(opts: Options, probe: string -> Probe,
                                                  names: seq<string>, st: Progress)
    ensures var r := Drive(opts, probe, names, st);
      r.Err? ==>
        var k := |LoadedPrefix(probe, names)|;
        k < |names| && !Loads(probe(names[k])) && r.error == HaltError(probe(names[k]), names[k])
    decreases |names|
  {
    if |names| > 0 {
      var name := names[0];
      VisitFixedCrop(opts, probe, name, st);
      if Loads(probe(name)) {
        var next := Visit(opts, probe, name, st).value;
        DriveStopsAtFirstFailure(opts, probe, names[1..], next);
      }
    }
  }

  /** The whole command fails exactly when the listing is rejected or one of
      the chosen frames does not load; on success the GIF holds the chosen
      frames minus the dark ones when dark skipping is on, every chosen
      frame otherwise, and the statistics are those of all chosen frames
      when skipping is on and empty when it is off. */
  lemma GenerateKeepsNonDark(opts: Options, listing: seq<string>, probe: string -> Probe)
    ensures var r := Generate(opts, listing, probe);
      && (r.Ok? <==> (Frames(opts, listing).Ok? &&
            forall i :: 0 <= i < |Frames(opts, listing).value| ==> Loads(probe(Frames(opts, listing).value[i]))))
      && (r.Ok? ==>
            var chosen := Frames(opts, listing).value;
            && r.value.frames == KeptFrames(opts.skipDark, FixedCrop, probe, chosen)
            && (opts.skipDark ==> r.value.sums == Statistics(FixedCrop, probe, chosen))
            && (!opts.skipDark ==> r.value.sums == [] && r.value.frames == chosen))
  {
    var chosen := Frames(opts, listing);
    if chosen.Ok? {
      DriveOk(opts, probe, chosen.value, Progress([], []));
      if Generate(opts, listing, probe).Ok? {
        DriveKeepsNonDark(opts, probe, chosen.value, Progress([], []));
        DriveRecordsAll(opts, probe, chosen.value, Progress([], []));
      }
      if !opts.skipDark && Generate(opts, listing, probe).Ok? {
        KeepingDarkKeepsOpened(FixedCrop, probe, chosen.value);
        AllOpened(probe, chosen.value);
      }
    }
  }

  lemma {:induction false} AllOpened(probe: string -> Probe, names: seq<string>)
    requires forall i :: 0 <= i < |names| ==> Loads(probe(names[i]))
    ensures OpenedFrames(probe, names) == names
  {
    if |names| > 0 {
      AllOpened(probe, names[1..]);
    }
  }
}
