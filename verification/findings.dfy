/** The two defects of the container script's `generate`, each shown on the
    script as written (`Container.AsWritten`) against the repaired script
    (`Container.Corrected`) that the rest of the model describes. */
module Findings {
  import opened Wrappers
  import opened Errors
  import opened FrameFilter
  import opened UploadSink
  import opened Container
  import OutputLocation

  /** Without `--scale` the JPEG buffer stays empty and `imageio.imread`
      fails on it outside the `try`: as written, the loop ends at the first
      frame that survives the screen, unless a frame that ends the corrected
      run too (see `FrameFilter.Halts`) comes before it, and it never reaches the writer with any frame. */
  lemma {:induction false} NoScaleAbortsAtFirstKept(opts: Options, probe: string -> Probe, growth: nat -> nat,
                                                    names: seq<string>, st: Progress)
    requires !ScaleApplies(opts.scale)
    ensures var k := HaltCount(probe, names);
      var kept := KeptFrames(opts.skipDark, opts.crop, probe, names[..k]);
      var r := Drive(AsWritten, opts, probe, growth, names, st);
      && (kept != [] ==> r == Err(EmptyReencode(kept[0])))
      && (kept == [] && k < |names| ==> r == Err(HaltError(probe(names[k]), names[k])))
      && (kept == [] && k == |names| ==> r.Ok? && r.value.frames == st.frames)
    decreases |names|
  {
    if |names| > 0 {
      var p := probe(names[0]);
      var v := Visit(AsWritten, opts, probe, growth, names[0], st);
      NoScaleVisit(opts, probe, growth, names[0], st);
      if !Halts(p) {
        var k := HaltCount(probe, names);
        var pre := names[..k];
        assert pre[0] == names[0] && pre[1..] == names[1..][..k - 1];
        var head := if Kept(opts.skipDark, opts.crop, p) then [names[0]] else [];
        assert KeptFrames(opts.skipDark, opts.crop, probe, pre)
            == head + KeptFrames(opts.skipDark, opts.crop, probe, names[1..][..k - 1]);
        if !Kept(opts.skipDark, opts.crop, p) {
          assert Drive(AsWritten, opts, probe, growth, names, st)
              == Drive(AsWritten, opts, probe, growth, names[1..], v.value);
          NoScaleAbortsAtFirstKept(opts, probe, growth, names[1..], v.value);
        }
      }
    }
  }

  /** One pass as written without `--scale`: a frame that ends the corrected
      run ends this one the same way, a kept frame ends it on the empty JPEG
      buffer, and any other frame is passed over. */
  lemma NoScaleVisit(opts: Options, probe: string -> Probe, growth: nat -> nat, name: string, st: Progress)
    requires !ScaleApplies(opts.scale)
    ensures var r := Visit(AsWritten, opts, probe, growth, name, st);
      var p := probe(name);
      && (Halts(p) ==> r == Err(HaltError(p, name)))
      && (!Halts(p) && Kept(opts.skipDark, opts.crop, p) ==> r == Err(EmptyReencode(name)))
      && (!Halts(p) && !Kept(opts.skipDark, opts.crop, p) ==> r.Ok? && r.value.frames == st.frames)
  {
  }

  /** With a scale set the JPEG buffer is filled, and the script as written
      runs the loop exactly as the corrected one does. */
  lemma {:induction false} ScaledLoopsAgree(opts: Options, probe: string -> Probe, growth: nat -> nat,
                                            names: seq<string>, st: Progress)
    requires ScaleApplies(opts.scale)
    ensures Drive(AsWritten, opts, probe, growth, names, st) == Drive(Corrected, opts, probe, growth, names, st)
    decreases |names|
  {
    if |names| > 0 {
      var next := Visit(Corrected, opts, probe, growth, names[0], st);
      assert Visit(AsWritten, opts, probe, growth, names[0], st) == next;
      if next.Ok? {
        ScaledLoopsAgree(opts, probe, growth, names[1..], next.value);
      }
    }
  }

  /** Local input and output, dark frames kept, no crop, no scale. */
  function NoScaleRun(): (opts: Options)
    ensures !ScaleApplies(opts.scale) && !opts.skipDark
  {
    Options(false, false, false, 1, None, 0, None, CropPoints(None, None, None, None), "out.mp4", "in")
  }

  /** The first defect on the smallest run: one frame that reads and opens, no
      `--scale`. The corrected loop writes it; the loop as written fails on
      it. */
  lemma NoScaleCounterexample(name: string)
    ensures var probe := (f: string) => Probe(true, Decoded, 100, 100);
      var growth := (k: nat) => 1;
      var st0 := Progress([], [], Open());
      && Drive(AsWritten, NoScaleRun(), probe, growth, [name], st0) == Err(EmptyReencode(name))
      && Drive(Corrected, NoScaleRun(), probe, growth, [name], st0).Ok?
      && Drive(Corrected, NoScaleRun(), probe, growth, [name], st0).value.frames == [name]
  {
    var probe := (f: string) => Probe(true, Decoded, 100, 100);
    var growth := (k: nat) => 1;
    var st0 := Progress([], [], Open());
    assert Drive(AsWritten, NoScaleRun(), probe, growth, [name], st0)
        == Visit(AsWritten, NoScaleRun(), probe, growth, name, st0);
    VisitCorrected(NoScaleRun(), probe, growth, name, st0);
    assert [name][1..] == [];
  }

  /** Over a whole run: without `--scale`, once a frame that survives the
      screen comes before any frame that ends the corrected run, the script
      as written fails on the first such frame, where the corrected script
      succeeds whenever no chosen frame ends it. */
  lemma NoScaleGenerateFails(opts: Options, listing: seq<string>, probe: string -> Probe,
                             growth: nat -> nat, closeGrowth: nat)
    requires !ScaleApplies(opts.scale)
    ensures var chosen := Frames(opts, listing);
      var k := if chosen.Ok? then HaltCount(probe, chosen.value) else 0;
      var kept := if chosen.Ok? then KeptFrames(opts.skipDark, opts.crop, probe, chosen.value[..k]) else [];
      chosen.Ok? && kept != [] ==>
        && Generate(AsWritten, opts, listing, probe, growth, closeGrowth) == Err(EmptyReencode(kept[0]))
        && (k == |chosen.value| ==> Generate(Corrected, opts, listing, probe, growth, closeGrowth).Ok?)
  {
    var chosen := Frames(opts, listing);
    if chosen.Ok? {
      var st0 := Progress([], [], Open());
      NoScaleAbortsAtFirstKept(opts, probe, growth, chosen.value, st0);
      GenerateFails(opts, listing, probe, growth, closeGrowth);
    }
  }

  /** With a scale set, the script as written still runs a complete
      multipart upload, but its parts carry only the bytes the writer
      emitted while frames were appended. */
  lemma AsWrittenUpload(opts: Options, listing: seq<string>, probe: string -> Probe,
                        growth: nat -> nat, closeGrowth: nat)
    requires opts.s3Out && ScaleApplies(opts.scale)
    ensures var w := Generate(AsWritten, opts, listing, probe, growth, closeGrowth);
      w.Ok? ==>
        var loc := OutputLocation.Locate(opts.outfile);
        var n := |w.value.events|;
        && n >= 2
        && w.value.events[0] == CreateUpload(loc.bucket, loc.key)
        && w.value.events[n - 1] == GrantPublicRead(loc.bucket, loc.key)
        && Completed(w.value.parts, w.value.events[1..n - 1])
        && Total(w.value.parts) == Written(growth, |w.value.frames|)
  {
    var w := Generate(AsWritten, opts, listing, probe, growth, closeGrowth);
    if w.Ok? {
      var chosen := Frames(opts, listing).value;
      var st0 := Progress([], [], Open());
      var st := Drive(AsWritten, opts, probe, growth, chosen, st0).value;
      assert w.value == Conclude(AsWritten, opts, st, closeGrowth);
      ScaledLoopsAgree(opts, probe, growth, chosen, st0);
      DriveConservesBytes(opts, probe, growth, chosen, st0);
      ConcludeCompletes(AsWritten, opts, st, closeGrowth);
    }
  }

  /** The second defect: as written, the last part is uploaded and the
      upload completed before the writer is closed. When the loops agree,
      both scripts run the same multipart protocol (see `AsWrittenUpload`),
      but the corrected upload carries exactly `closeGrowth` more bytes:
      every byte the writer emits when it closes is lost. */
  lemma CloseBytesLost(opts: Options, listing: seq<string>, probe: string -> Probe,
                       growth: nat -> nat, closeGrowth: nat)
    requires opts.s3Out && ScaleApplies(opts.scale)
    ensures var w := Generate(AsWritten, opts, listing, probe, growth, closeGrowth);
      var c := Generate(Corrected, opts, listing, probe, growth, closeGrowth);
      && (w.Ok? <==> c.Ok?)
      && (w.Ok? ==>
            && w.value.frames == c.value.frames
            && Total(w.value.parts) == Written(growth, |w.value.frames|)
            && Total(c.value.parts) == Total(w.value.parts) + closeGrowth)
  {
    var chosen := Frames(opts, listing);
    if chosen.Ok? {
      var st0 := Progress([], [], Open());
      ScaledLoopsAgree(opts, probe, growth, chosen.value, st0);
      AsWrittenUpload(opts, listing, probe, growth, closeGrowth);
      GenerateStreamsEveryByte(opts, listing, probe, growth, closeGrowth);
      var d := Drive(Corrected, opts, probe, growth, chosen.value, st0);
      if d.Ok? {
        assert Generate(AsWritten, opts, listing, probe, growth, closeGrowth)
            == Ok(Conclude(AsWritten, opts, d.value, closeGrowth));
      }
    }
  }
}
