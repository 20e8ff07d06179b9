/** `generate` of the container script: list and sort the source frames,
    take the offset / end-index window and the stride, screen every frame,
    hand the survivors to the video writer, and stream the writer's output
    to a multipart upload when the output is remote. */
module Container {
  import opened Wrappers
  import opened Errors
  import PySeq
  import PyText
  import FrameOrder
  import Selection
  import opened FrameFilter
  import opened UploadSink
  import OutputLocation

  /** The command's options that reach the pipeline. `scale` is only ever
      tested for truthiness here; its pixel effect belongs to PIL. */
  datatype Options = Options(
    s3In: bool,
    s3Out: bool,
    skipDark: bool,
    step: int,
    numFrames: Option<int>,
    offset: int,
    scale: Option<real>,
    crop: CropPoints,
    outfile: string,
    indir: string)

  /** `AsWritten` is the script as it stands; `Corrected` repairs the two
      defects recorded under Findings (the empty JPEG buffer without
      `--scale`, and the last part uploaded before the writer is closed). */
  datatype Build = AsWritten | Corrected

  /** `if scale:`: `None` and `0.0` are false. */
  predicate ScaleApplies(scale: Option<real>)
  {
    scale.Some? && scale.value != 0.0
  }

  /** The sort key: `int(f[:-4])` for object keys, `int(f[len(indir) + 1:-4])`
      for local paths. */
  function StampOf(opts: Options): string -> Option<int>
  {
    if opts.s3In then FrameOrder.S3Stamp
    else (f: string) => FrameOrder.LocalStamp(opts.indir, f)
  }

  /** A name spelt as a timestamp and a four-character extension (behind
      `indir/` for local input) has that timestamp as its sort key. */
  lemma StampOfShown(opts: Options, n: int, ext: string)
    requires |ext| == 4
    ensures opts.s3In ==> StampOf(opts)(PyText.Show(n) + ext) == Some(n)
    ensures !opts.s3In ==> StampOf(opts)(opts.indir + "/" + PyText.Show(n) + ext) == Some(n)
  {
    if opts.s3In {
      FrameOrder.S3StampOfShown(n, ext);
    } else {
      FrameOrder.LocalStampOfShown(opts.indir, n, ext);
    }
  }

  /** The frames the loop visits, from the listing (the bucket's object keys,
      or the paths `glob` finds): an empty bucket ends the run, then the
      sort, the window and the stride. */
  function Frames(opts: Options, listing: seq<string>): Result<seq<string>, Fatal>
  {
    if opts.s3In && |listing| == 0 then Err(EmptyListing)
    else match FrameOrder.ListFrames(listing, StampOf(opts))
      case Err(name) => Err(UnparsableName(name))
      case Ok(sorted) =>
        match Selection.Select(sorted, opts.offset, opts.numFrames, opts.step)
        case Err(step) => Err(InvalidStep(step))
        case Ok(chosen) => Ok(chosen)
  }

  /** The loop's state: names handed to the writer, `band_median_sums`, and
      the upload sink. */
  datatype Progress = Progress(frames: seq<string>, sums: seq<int>, sink: Sink)

  /** One pass of the loop body for the frame `name`. `probe` says what
      reading and PIL make of the frame; `growth(k)` is how many bytes the
      writer adds to the output when handed its k-th frame (counting from 0).
      The frame is read before the `try`, so a failed read ends the run;
      inside it only `OSError` is caught, so any other exception PIL raises
      ends the run too. As written, the JPEG buffer is only filled under `if scale:`, so without a
      scale `imageio.imread` gets an empty buffer outside the `try` and the
      run dies on the first frame that survives the screen. */
  function Visit(build: Build, opts: Options, probe: string -> Probe, growth: nat -> nat,
                 name: string, st: Progress): Result<Progress, Fatal>
  {
    if !probe(name).readable then Err(ReadFailed(name))
    else
      var (verdict, sums) := Screen(opts.skipDark, opts.crop, probe(name), st.sums);
      if verdict == Fails then Err(DecodeFailed(name))
      else if verdict != Keep then Ok(st.(sums := sums))
      else if build == AsWritten && !ScaleApplies(opts.scale) then Err(EmptyReencode(name))
      else
        var sink := if opts.s3Out then Write(st.sink, growth(|st.frames|)) else st.sink;
        Ok(Progress(st.frames + [name], sums, sink))
  }

  /** The frame loop: `Visit` on every name in order, stopping at the first
      fatal error. */
  function Drive(build: Build, opts: Options, probe: string -> Probe, growth: nat -> nat,
                 names: seq<string>, st: Progress): Result<Progress, Fatal>
    decreases |names|
  {
    if |names| == 0 then Ok(st)
    else match Visit(build, opts, probe, growth, names[0], st)
      case Err(e) => Err(e)
      case Ok(next) => Drive(build, opts, probe, growth, names[1..], next)
  }

  /** Bytes the writer emits for its first `n` frames. */
  function Written(growth: nat -> nat, n: nat): nat
  {
    if n == 0 then 0 else Written(growth, n - 1) + growth(n - 1)
  }

  /** What a finished run leaves behind: the frames in the output, the
      statistics, the storage calls, and the uploaded parts. */
  datatype Run = Run(frames: seq<string>, sums: seq<int>, events: seq<Event>, parts: seq<Part>)

  /** What the command leaves after the loop. `closeGrowth` is what the
      writer emits when it is closed. As written, the last part is uploaded
      inside the `with` block, before the writer closes; corrected, after. */
  function Conclude(build: Build, opts: Options, st: Progress, closeGrowth: nat): Run
  {
    if !opts.s3Out then Run(st.frames, st.sums, [], [])
    else
      var loc := OutputLocation.Locate(opts.outfile);
      var last := if build == AsWritten then st.sink
                  else st.sink.(buffered := st.sink.buffered + closeGrowth);
      var done := Finish(last);
      Run(st.frames, st.sums,
          [CreateUpload(loc.bucket, loc.key)] + done.calls + [GrantPublicRead(loc.bucket, loc.key)],
          done.parts)
  }

  /** The whole command: frames, loop, then the upload's end. */
  function Generate(build: Build, opts: Options, listing: seq<string>, probe: string -> Probe,
                    growth: nat -> nat, closeGrowth: nat): Result<Run, Fatal>
  {
    match Frames(opts, listing)
    case Err(e) => Err(e)
    case Ok(chosen) =>
      match Drive(build, opts, probe, growth, chosen, Progress([], [], Open()))
      case Err(e) => Err(e)
      case Ok(st) => Ok(Conclude(build, opts, st, closeGrowth))
  }

  /** The frames visited: the run stops before the loop exactly when the
      bucket is empty, a name's timestamp does not parse, or the stride is
      below 1. */
  lemma FramesFail(opts: Options, listing: seq<string>)
    ensures Frames(opts, listing).Ok? <==>
      && !(opts.s3In && |listing| == 0)
      && (forall i :: 0 <= i < |listing| ==> StampOf(opts)(listing[i]).Some?)
      && opts.step >= 1
  {
    var stampOf := StampOf(opts);
    FrameOrder.ListFramesSorted(listing, stampOf);
    var sorted := FrameOrder.ListFrames(listing, stampOf);
    if sorted.Ok? {
      Selection.SelectIndices(sorted.value, opts.offset, opts.numFrames, opts.step);
    }
  }

  /** The frames visited are the stride `Selection.Select` takes through the
      sorted listing (see `Selection.SelectIndices` for its positions). */
  lemma FramesAreSelected(opts: Options, listing: seq<string>)
    requires Frames(opts, listing).Ok?
    ensures FrameOrder.ListFrames(listing, StampOf(opts)).Ok?
    ensures var s := FrameOrder.ListFrames(listing, StampOf(opts)).value;
      Selection.Select(s, opts.offset, opts.numFrames, opts.step).Ok? && opts.step >= 1
      && Frames(opts, listing).value == Selection.Select(s, opts.offset, opts.numFrames, opts.step).value
  {
    var s := FrameOrder.ListFrames(listing, StampOf(opts)).value;
    Selection.SelectIndices(s, opts.offset, opts.numFrames, opts.step);
  }

  /** The frames visited, position by position: the `i`-th is the sorted
      listing's entry at `lo + i * step`, below `hi`, and every such position
      below `hi` is visited, where `lo` and `hi` are the offset and the end
      index normalised as Python slice bounds. */
  lemma FramesPositions(opts: Options, listing: seq<string>)
    requires Frames(opts, listing).Ok?
    ensures FrameOrder.ListFrames(listing, StampOf(opts)).Ok?
    ensures var s := FrameOrder.ListFrames(listing, StampOf(opts)).value;
      && opts.step >= 1
      && Selection.Strided(s, Frames(opts, listing).value, PySeq.Bound(opts.offset, |s|),
                           PySeq.Bound(Selection.EndIndex(opts.numFrames, |s|), |s|), opts.step)
  {
    FramesAreSelected(opts, listing);
    var s := FrameOrder.ListFrames(listing, StampOf(opts)).value;
    Selection.SelectPositions(s, opts.offset, opts.numFrames, opts.step);
  }

  /** The frames visited are names from the listing, each with a timestamp,
      in ascending timestamp order. */
  lemma FramesSelected(opts: Options, listing: seq<string>)
    requires Frames(opts, listing).Ok?
    ensures var r := Frames(opts, listing).value;
      && (forall n :: n in r ==> n in listing && StampOf(opts)(n).Some?)
      && (forall i, j :: 0 <= i < j < |r| ==> StampOf(opts)(r[i]).value <= StampOf(opts)(r[j]).value)
  {
    var stampOf := StampOf(opts);
    FrameOrder.ListFramesSorted(listing, stampOf);
    FramesAreSelected(opts, listing);
    var s := FrameOrder.ListFrames(listing, stampOf).value;
    SelectStaysSorted(s, opts.offset, opts.numFrames, opts.step, stampOf, listing);
  }

  lemma SelectStaysSorted(s: seq<string>, offset: int, numFrames: Option<int>, step: int,
                          stampOf: string -> Option<int>, listing: seq<string>)
    requires step >= 1
    requires multiset(s) == multiset(listing)
    requires forall i :: 0 <= i < |s| ==> stampOf(s[i]).Some?
    requires forall i, j :: 0 <= i < j < |s| ==> stampOf(s[i]).value <= stampOf(s[j]).value
    ensures var r := Selection.Select(s, offset, numFrames, step).value;
      && (forall n :: n in r ==> n in listing && stampOf(n).Some?)
      && (forall i, j :: 0 <= i < j < |r| ==> stampOf(r[i]).value <= stampOf(r[j]).value)
  {
    Selection.SelectIndices(s, offset, numFrames, step);
    var r := Selection.Select(s, offset, numFrames, step).value;
    var lo := PySeq.Bound(offset, |s|);
    var hi := PySeq.Bound(Selection.EndIndex(numFrames, |s|), |s|);
    forall i | 0 <= i < |r|
      ensures lo + PySeq.Scaled(i, step) < |s| && r[i] == s[lo + PySeq.Scaled(i, step)]
    {
      assert lo + PySeq.Scaled(i, step) < hi <= |s| by { assert r[i] in r; }
    }
    StrideFacts(s, r, lo, step, stampOf, listing);
  }

  /** A stride through a sorted permutation of the listing stays inside the
      listing and stays sorted. */
  lemma StrideFacts(s: seq<string>, r: seq<string>, lo: nat, step: nat,
                    stampOf: string -> Option<int>, listing: seq<string>)
    requires step >= 1
    requires forall i {:trigger r[i]} :: 0 <= i < |r| ==> lo + PySeq.Scaled(i, step) < |s| && r[i] == s[lo + PySeq.Scaled(i, step)]
    requires multiset(s) == multiset(listing)
    requires forall i :: 0 <= i < |s| ==> stampOf(s[i]).Some?
    requires forall i, j :: 0 <= i < j < |s| ==> stampOf(s[i]).value <= stampOf(s[j]).value
    ensures forall n :: n in r ==> n in listing && stampOf(n).Some?
    ensures forall i, j :: 0 <= i < j < |r| ==> stampOf(r[i]).value <= stampOf(r[j]).value
  {
    forall n | n in r
      ensures n in listing && stampOf(n).Some?
    {
      var i :| 0 <= i < |r| && r[i] == n;
      assert s[lo + PySeq.Scaled(i, step)] in multiset(listing);
    }
    forall i, j | 0 <= i < j < |r|
      ensures stampOf(r[i]).value <= stampOf(r[j]).value
    {
      ScaledMonotone(i, j, step);
      var a, b := r[i], r[j];
      assert a == s[lo + PySeq.Scaled(i, step)];
      assert b == s[lo + PySeq.Scaled(j, step)];
    }
  }

  lemma {:induction false} ScaledMonotone(i: nat, j: nat, step: nat)
    requires i < j && step >= 1
    ensures PySeq.Scaled(i, step) < PySeq.Scaled(j, step)
    decreases j
  {
    if i < j - 1 {
      ScaledMonotone(i, j - 1, step);
    }
  }

  /** One corrected pass: it fails exactly when the frame cannot be read or
      PIL raises something other than `OSError` on it, with the error saying
      which; otherwise the frame reaches the writer exactly when it is kept, and its
      statistic is recorded exactly when it opens and dark skipping is on. */
  lemma VisitCorrected(opts: Options, probe: string -> Probe, growth: nat -> nat, name: string, st: Progress)
    ensures var r := Visit(Corrected, opts, probe, growth, name, st);
      var p := probe(name);
      && (r.Ok? <==> !Halts(p))
      && (r.Err? ==> r.error == HaltError(p, name))
      && (r.Ok? ==>
            && r.value.frames == st.frames + (if Kept(opts.skipDark, opts.crop, p) then [name] else [])
            && r.value.sums == st.sums + (if opts.skipDark && p.opens then [Statistic(opts.crop, p)] else []))
  {
  }

  /** One corrected pass keeps the sink valid and loses no byte the writer
      emits; with local output it leaves the sink alone. */
  lemma VisitConservesBytes(opts: Options, probe: string -> Probe, growth: nat -> nat, name: string, st: Progress)
    ensures var r := Visit(Corrected, opts, probe, growth, name, st);
      r.Ok? ==>
        && (Valid(st.sink) ==> Valid(r.value.sink))
        && (opts.s3Out ==>
              Total(r.value.sink.parts) + r.value.sink.buffered + Written(growth, |st.frames|)
              == Total(st.sink.parts) + st.sink.buffered + Written(growth, |r.value.frames|))
        && (!opts.s3Out ==> r.value.sink == st.sink)
  {
    var r := Visit(Corrected, opts, probe, growth, name, st);
    if r.Ok? && |r.value.frames| > |st.frames| {
      assert Written(growth, |r.value.frames|) == Written(growth, |st.frames|) + growth(|st.frames|);
    }
  }

  /** Corrected loop: it fails exactly when some frame cannot be read or PIL
      raises something other than `OSError` on it, and then on the first
      such frame, with that frame's error. */
  lemma {:induction false} DriveHalts(opts: Options, probe: string -> Probe, growth: nat -> nat,
                                      names: seq<string>, st: Progress)
    ensures var r := Drive(Corrected, opts, probe, growth, names, st);
      var k := HaltCount(probe, names);
      && (r.Ok? <==> k == |names|)
      && (r.Err? ==> r.error == HaltError(probe(names[k]), names[k]))
    decreases |names|
  {
    if |names| > 0 {
      VisitCorrected(opts, probe, growth, names[0], st);
      var v := Visit(Corrected, opts, probe, growth, names[0], st);
      if v.Ok? {
        DriveHalts(opts, probe, growth, names[1..], v.value);
      }
    }
  }

  /** Corrected loop: when it completes, the writer has received exactly the
      frames that open and are not dark (or all that open when dark frames
      are kept), in order, each once. */
  lemma {:induction false} DriveKeepsExactlyKept(opts: Options, probe: string -> Probe, growth: nat -> nat,
                                                 names: seq<string>, st: Progress)
    ensures var r := Drive(Corrected, opts, probe, growth, names, st);
      r.Ok? ==> r.value.frames == st.frames + KeptFrames(opts.skipDark, opts.crop, probe, names)
    decreases |names|
  {
    if |names| > 0 {
      VisitCorrected(opts, probe, growth, names[0], st);
      var v := Visit(Corrected, opts, probe, growth, names[0], st);
      if v.Ok? {
        var d := Drive(Corrected, opts, probe, growth, names[1..], v.value);
        assert Drive(Corrected, opts, probe, growth, names, st) == d;
        DriveKeepsExactlyKept(opts, probe, growth, names[1..], v.value);
        if d.Ok? {
          var head := if Kept(opts.skipDark, opts.crop, probe(names[0])) then [names[0]] else [];
          var rest := KeptFrames(opts.skipDark, opts.crop, probe, names[1..]);
          assert KeptFrames(opts.skipDark, opts.crop, probe, names) == head + rest;
          assert d.value.frames == st.frames + head + rest;
        }
      }
    }
  }

  /** Corrected loop: when it completes, one statistic has been recorded for
      every frame that opens when dark skipping is on, in order, and none
      when it is off. */
  lemma {:induction false} DriveRecordsOpened(opts: Options, probe: string -> Probe, growth: nat -> nat,
                                              names: seq<string>, st: Progress)
    ensures var r := Drive(Corrected, opts, probe, growth, names, st);
      r.Ok? ==>
        r.value.sums == st.sums + (if opts.skipDark then Statistics(opts.crop, probe, OpenedFrames(probe, names)) else [])
    decreases |names|
  {
    if |names| > 0 {
      VisitCorrected(opts, probe, growth, names[0], st);
      var v := Visit(Corrected, opts, probe, growth, names[0], st);
      if v.Ok? {
        var d := Drive(Corrected, opts, probe, growth, names[1..], v.value);
        assert Drive(Corrected, opts, probe, growth, names, st) == d;
        DriveRecordsOpened(opts, probe, growth, names[1..], v.value);
        if d.Ok? && opts.skipDark {
          OpenedStatistics(opts.crop, probe, names);
          var p := probe(names[0]);
          var a := if p.opens then [Statistic(opts.crop, p)] else [];
          var b := Statistics(opts.crop, probe, OpenedFrames(probe, names[1..]));
          assert v.value.sums == st.sums + a;
          assert d.value.sums == v.value.sums + b;
          assert d.value.sums == st.sums + (a + b);
        }
      }
    }
  }

  /** The statistics of the frames that open: the first frame's, when it
      opens, then the rest's. */
  lemma OpenedStatistics(crop: CropPoints, probe: string -> Probe, names: seq<string>)
    requires |names| > 0
    ensures Statistics(crop, probe, OpenedFrames(probe, names))
         == (if probe(names[0]).opens then [Statistic(crop, probe(names[0]))] else [])
            + Statistics(crop, probe, OpenedFrames(probe, names[1..]))
  {
    var head := if probe(names[0]).opens then [names[0]] else [];
    assert OpenedFrames(probe, names) == head + OpenedFrames(probe, names[1..]);
    StatisticsAppend(crop, probe, head, OpenedFrames(probe, names[1..]));
  }

  lemma StatisticsAppend(crop: CropPoints, probe: string -> Probe, a: seq<string>, b: seq<string>)
    requires |a| <= 1
    ensures Statistics(crop, probe, a + b) == Statistics(crop, probe, a) + Statistics(crop, probe, b)
  {
    if |a| == 1 {
      assert (a + b)[1..] == b;
    } else {
      assert a + b == b;
    }
  }

  /** Corrected loop: when it completes, the sink is still valid and no
      byte the writer emitted is lost; with local output it is never
      touched. */
  lemma {:induction false} DriveConservesBytes(opts: Options, probe: string -> Probe, growth: nat -> nat,
                                               names: seq<string>, st: Progress)
    ensures var r := Drive(Corrected, opts, probe, growth, names, st);
      r.Ok? ==>
        && (Valid(st.sink) ==> Valid(r.value.sink))
        && (opts.s3Out ==>
              Total(r.value.sink.parts) + r.value.sink.buffered + Written(growth, |st.frames|)
              == Total(st.sink.parts) + st.sink.buffered + Written(growth, |r.value.frames|))
        && (!opts.s3Out ==> r.value.sink == st.sink)
    decreases |names|
  {
    if |names| > 0 {
      VisitConservesBytes(opts, probe, growth, names[0], st);
      var v := Visit(Corrected, opts, probe, growth, names[0], st);
      if v.Ok? {
        DriveConservesBytes(opts, probe, growth, names[1..], v.value);
      }
    }
  }

  /** With dark frames kept, the dark test never runs: nothing is recorded,
      and every frame that opens is written. */
  lemma KeepingDarkRecordsNothing(opts: Options, probe: string -> Probe, growth: nat -> nat, names: seq<string>)
    requires !opts.skipDark
    ensures var r := Drive(Corrected, opts, probe, growth, names, Progress([], [], Open()));
      r.Ok? ==> r.value.sums == [] && r.value.frames == OpenedFrames(probe, names)
  {
    DriveKeepsExactlyKept(opts, probe, growth, names, Progress([], [], Open()));
    DriveRecordsOpened(opts, probe, growth, names, Progress([], [], Open()));
    assert Statistics(opts.crop, probe, []) == [];
    KeepingDarkKeepsOpened(opts.crop, probe, names);
  }

  /** The end of the command, on a sink the loop kept valid: remote output
      creates the upload, uploads parts 1..K in order (every part but the
      last over 5 MiB, the last always, even empty), completes it once with
      all of them and grants public read. The parts carry the bytes the sink
      saw; corrected, also those the writer emits when it closes, which as
      written come after the upload is complete. Local output makes no
      storage call. */
  lemma ConcludeCompletes(build: Build, opts: Options, st: Progress, closeGrowth: nat)
    requires Valid(st.sink)
    ensures var r := Conclude(build, opts, st, closeGrowth);
      && r.frames == st.frames && r.sums == st.sums
      && (!opts.s3Out ==> r.events == [] && r.parts == [])
      && (opts.s3Out ==>
            var loc := OutputLocation.Locate(opts.outfile);
            var n := |r.events|;
            && n >= 2
            && r.events[0] == CreateUpload(loc.bucket, loc.key)
            && r.events[n - 1] == GrantPublicRead(loc.bucket, loc.key)
            && Completed(r.parts, r.events[1..n - 1])
            && Total(r.parts) == Total(st.sink.parts) + st.sink.buffered
                                 + (if build == Corrected then closeGrowth else 0))
  {
    if opts.s3Out {
      var r := Conclude(build, opts, st, closeGrowth);
      var last := if build == AsWritten then st.sink
                  else st.sink.(buffered := st.sink.buffered + closeGrowth);
      assert r.events[1..|r.events| - 1] == Finish(last).calls;
    }
  }

  /** Corrected command: it fails in `Frames` (see `FramesFail`), or in the
      loop on the first chosen frame that cannot be read or that PIL raises
      something other than `OSError` on, and only there. */
  lemma GenerateFails(opts: Options, listing: seq<string>, probe: string -> Probe,
                      growth: nat -> nat, closeGrowth: nat)
    ensures var r := Generate(Corrected, opts, listing, probe, growth, closeGrowth);
      var f := Frames(opts, listing);
      && (f.Err? ==> r == Err(f.error))
      && (f.Ok? ==>
            var k := HaltCount(probe, f.value);
            && (r.Ok? <==> k == |f.value|)
            && (r.Err? ==> r.error == HaltError(probe(f.value[k]), f.value[k])))
  {
    var f := Frames(opts, listing);
    if f.Ok? {
      var st0 := Progress([], [], Open());
      DriveHalts(opts, probe, growth, f.value, st0);
    }
  }

  /** Corrected command: a completed run holds exactly the kept frames of the
      selection, in order, with the statistics of the frames that open when
      dark skipping is on. With remote output the storage calls form one
      complete upload and the parts carry every byte the writer emitted,
      including those emitted when it closes. Local output makes no storage
      call. */
  lemma GenerateStreamsEveryByte(opts: Options, listing: seq<string>, probe: string -> Probe,
                                 growth: nat -> nat, closeGrowth: nat)
    ensures var r := Generate(Corrected, opts, listing, probe, growth, closeGrowth);
      r.Ok? ==>
        && Frames(opts, listing).Ok?
        && var chosen := Frames(opts, listing).value;
        && r.value.frames == KeptFrames(opts.skipDark, opts.crop, probe, chosen)
        && r.value.sums ==
             (if opts.skipDark then Statistics(opts.crop, probe, OpenedFrames(probe, chosen)) else [])
        && (!opts.s3Out ==> r.value.events == [])
        && (opts.s3Out ==>
              var loc := OutputLocation.Locate(opts.outfile);
              var n := |r.value.events|;
              && n >= 2
              && r.value.events[0] == CreateUpload(loc.bucket, loc.key)
              && r.value.events[n - 1] == GrantPublicRead(loc.bucket, loc.key)
              && Completed(r.value.parts, r.value.events[1..n - 1])
              && Total(r.value.parts) == Written(growth, |r.value.frames|) + closeGrowth)
  {
    var chosen := Frames(opts, listing);
    if chosen.Ok? {
      var st0 := Progress([], [], Open());
      var d := Drive(Corrected, opts, probe, growth, chosen.value, st0);
      if d.Ok? {
        DriveKeepsExactlyKept(opts, probe, growth, chosen.value, st0);
        DriveRecordsOpened(opts, probe, growth, chosen.value, st0);
        DriveConservesBytes(opts, probe, growth, chosen.value, st0);
        ConcludeCompletes(Corrected, opts, d.value, closeGrowth);
        assert Generate(Corrected, opts, listing, probe, growth, closeGrowth)
            == Ok(Conclude(Corrected, opts, d.value, closeGrowth));
      }
    }
  }
}
