# plantcam time-lapse pipeline, in Dafny

This project models the frame pipeline of the two `generate` commands of the
plantcam time-lapse tool:

- `timelapse_container/timelapse.py` (the container command). It lists camera
  frames from a directory or a bucket and sorts them by the timestamp in their
  names. It takes the `--offset`/`--num-frames` window and the `--step` stride,
  crops each frame and drops dark ones. It hands the rest to the video writer
  and, for remote output, streams the growing video to an Amazon S3 multipart
  upload in parts over 5 MiB.
- `timelapse.py` (the older GIF command). It sorts the frames, keeps the first
  `--num-frames`, crops every frame to fixed points, drops dark frames, and
  writes the rest. Any unreadable frame ends the run.

Everything outside the decision logic is replaced by inputs:

- the listing is a given sequence of names;
- what reading and PIL make of a frame is a per-name `Probe`. It says whether
  the file or object can be read at all (`readable`), and what PIL does with
  it under the run's options (`pil`): raise nothing (`Decoded`, also called
  `opens`), raise `OSError` (`OsError`), or raise anything else (`Raises`). It
  also gives the band-median sums of the full and of the cropped frame;
- how many bytes the video writer adds for its k-th frame is `growth(k)`;
- how many bytes it adds when it is closed is `closeGrowth`.

Storage calls are recorded as a sequence of `Event`s.

Modules:

- `Wrappers`, `Errors`: `Option`/`Result` and the fatal outcomes of a run.
- `PySeq`: Python slicing with negative and clamped bounds, and `islice` with a
  step.
- `PyText`: `int()` on a string, `str.split` and its inverse `join`.
- `FrameOrder`: the two timestamp keys and Python's stable `sorted`.
- `Selection`: the container's window and stride, and the older command's
  truncation.
- `FrameFilter`: `is_dark_image`, the all-or-nothing crop, the per-frame
  screen.
- `UploadSink`: the multipart-upload state machine.
- `OutputLocation`: bucket and key from `outfile`.
- `Container`, `Legacy`: the two `generate` commands end to end.
- `Findings`: the two defects listed below, shown on the command as written.

`Container` is parameterised by a `Build`:

- `AsWritten` is the code as it stands.
- `Corrected` repairs the two defects under Findings.

The lemmas about the whole command are stated for `Corrected`. `Findings`
relates the two builds.

Four behaviours of the code worth knowing:

- `--num-frames` is a slice END index, not a count taken after the offset:
  `image_files[offset:num_frames]`. Ten frames with offset 2, `num_frames` 6
  and step 2 give the frames at positions 2 and 4, not 2, 4 and 6 (see
  `Selection.SelectTenFrames`).
- The order is the non-decreasing order of a stable sort. Frames with equal
  timestamps keep their listing order.
- A mid-run part is uploaded only when the buffer holds strictly more than
  5 MiB, so every non-final part is over 5 MiB.
- A frame is read (`open` or the object fetch) before the `try`, so a frame
  that cannot be read ends the run. Inside the `try` only `OSError` is
  caught: a frame PIL raises `OSError` on is skipped, but any other exception
  ends the run. `--scale -1` makes `resize` raise `ValueError` on the first
  frame that reaches it, and so does a crop box whose right edge is left of
  its left edge.

## Model

| member | source | states |
|---|---|---|
| PySeq.Slice | timelapse_container/timelapse.py:121 | `s[start:stop]`: the length is the distance between the clamped bounds (empty when they cross), and the i-th element is the one at the clamped start plus i |
| PySeq.Islice | timelapse_container/timelapse.py:143 | `islice(s, None, None, step)`: every `step`-th item from the first. Its contract is `PySeq.IsliceAt`, `PySeq.IsliceCovers` and `PySeq.IsliceProduct` |
| PySeq.IsliceAt | timelapse_container/timelapse.py:143 | the i-th item `islice(s, None, None, step)` yields is `s[i*step]`, and that position is inside `s` |
| PySeq.IsliceCovers | timelapse_container/timelapse.py:143 | `islice` stops only after the stride has passed the end of `s`: no position `i*step` below `len(s)` is skipped |
| PySeq.IsliceProduct | timelapse_container/timelapse.py:143 | the same in Python's terms: the i-th item is `s[i * step]`, and `islice` yields `ceil(len(s) / step)` items: `(n - 1) * step < len(s) <= n * step` for `n > 0` items, and none exactly when `s` is empty |
| PyText.ParseInt | timelapse_container/timelapse.py:117-119 | `int(text)` on a string: surrounding whitespace, one optional sign, ASCII digits with single `_` between them; `None` where Python raises `ValueError`. Its contract is `PyText.ParseShow`, `PyText.ParseIgnoresSpace`, `PyText.ParseAlphabet`, `PyText.TabAndNewline` and `PyText.FileSeparator` |
| PyText.ParseShow | timelapse_container/timelapse.py:117-119 | `int(str(n)) == n` for every integer, negative ones included |
| PyText.ParseIgnoresSpace | timelapse_container/timelapse.py:117-119 | whitespace before and after a number does not change what `int()` makes of it |
| PyText.ParseAlphabet | timelapse_container/timelapse.py:117-119 | `int()` refuses every string holding a character other than whitespace, an ASCII digit, `_`, `+` or `-` |
| PyText.TabAndNewline | timelapse_container/timelapse.py:117-119 | `int('\t5\n')` is 5: tabs and newlines around the digits are stripped |
| PyText.FileSeparator | timelapse_container/timelapse.py:117-119 | `int('\x1c5')` raises: U+001C, whitespace to `str.isspace`, is not stripped by `int()` |
| PyText.Split | timelapse_container/timelapse.py:136-137 | `split('/')` gives at least one piece, no piece holds `/`, and there is exactly one piece when the string has no `/` |
| PyText.JoinSplit | timelapse_container/timelapse.py:136-137 | joining the pieces of `split(sep)` with `sep` gives the string back |
| FrameOrder.S3Stamp | timelapse_container/timelapse.py:117 | the object-key sort key `int(f[:-4])`; `None` where it raises. Its contract is `FrameOrder.S3StampOfShown` |
| FrameOrder.S3StampOfShown | timelapse_container/timelapse.py:117 | an object key spelt as a timestamp plus a four-character extension has that timestamp as its sort key `int(f[:-4])` |
| FrameOrder.LocalStamp | timelapse_container/timelapse.py:119 | the local sort key `int(f[len(indir) + 1:-4])`; `None` where it raises. Its contract is `FrameOrder.LocalStampOfShown` |
| FrameOrder.LocalStampOfShown | timelapse_container/timelapse.py:119 | a path `indir/<timestamp><ext>` has that timestamp as its sort key `int(f[len(indir) + 1:-4])` |
| FrameOrder.StampAll | timelapse_container/timelapse.py:61-62 | keys are computed for every name in order; it succeeds exactly when every name has a key, and otherwise fails with the first name whose key raises |
| FrameOrder.ParsedCount | timelapse_container/timelapse.py:62 | the names before the first name without a key all have one, and the name at that count has none |
| FrameOrder.SortByStamp | timelapse_container/timelapse.py:62 | `sorted(..., key=...)`: the result is ascending by key and a permutation of the input, and for each key the entries with that key keep their input order (stability) |
| FrameOrder.ListFrames | timelapse_container/timelapse.py:38-39 | `sorted(names, key=sort)` over the paths `glob` finds or the object keys (line 62): the key of every name, then the stable sort. Its contract is `FrameOrder.ListFramesSorted` |
| FrameOrder.ListFramesSorted | timelapse_container/timelapse.py:38-39 | sorting the listing fails exactly when some name has no key; otherwise the result is a permutation of the listing, ascending by key, and stable |
| Selection.Select | timelapse_container/timelapse.py:120-121 | `image_files[offset:(num_frames or len)]` followed by `islice(..., None, None, step)`, or the refused step. Its contract is `Selection.SelectIndices` and `Selection.SelectPositions` |
| Selection.SelectIndices | timelapse_container/timelapse.py:120-121 | the visited frames are those at `lo, lo+step, lo+2*step, ...` strictly below `hi`, and each such position is visited. `lo` is the offset and `hi` is `num_frames` or the length, both normalised as Python slice bounds; a step below 1 is refused |
| Selection.SelectPositions | timelapse_container/timelapse.py:120-121 | the same positions written with products (`Selection.Strided`): the i-th frame visited is `s[lo + i * step]`, below `hi`, and the stride has passed `hi` once the selection ends |
| Selection.SelectTenFrames | timelapse_container/timelapse.py:120-121 | ten frames, offset 2, `num_frames` 6, step 2 select exactly the frames at positions 2 and 4 |
| Selection.Truncate | timelapse.py:64-65 | `if num_frames: image_files[:num_frames]`. Its contract is `Selection.TruncateIsPrefix` |
| Selection.TruncateIsPrefix | timelapse.py:64-65 | `if num_frames: files[:num_frames]` keeps a prefix: all of the list for `None` or 0, the first `num_frames` for a positive value, all but the last `-num_frames` for a negative one |
| FrameFilter.IsDarkImage | timelapse_container/timelapse.py:21-24 | dark exactly when the band-median sum is at most 50; exactly that sum is appended to `band_median_sums` and the earlier entries are unchanged |
| FrameFilter.DarkBoundary | timelapse_container/timelapse.py:16 | the threshold is inclusive: 50 is dark, 51 is not |
| FrameFilter.CropApplies | timelapse_container/timelapse.py:152 | `all(crop_points)`. Its contract is `FrameFilter.CropAppliesIff` |
| FrameFilter.CropAppliesIff | timelapse_container/timelapse.py:152-155 | `all(crop_points)` holds exactly when all four points are set and non-zero; one `None` or 0 keeps the full frame |
| FrameFilter.Screen | timelapse_container/timelapse.py:150-166 | a frame PIL raises `OSError` on is set aside (`Unopened`) and one it raises anything else on ends the run (`Fails`), each exactly then and both before any statistic; a frame that opens is rejected exactly when dark skipping is on and it is dark; one statistic is recorded exactly when it opens and dark skipping is on |
| FrameFilter.HaltCount | timelapse_container/timelapse.py:146-166 | no frame before that count ends a run (each can be read, and PIL raises nothing on it or only `OSError`), and the frame at that count, if any, does |
| FrameFilter.KeepingDarkKeepsOpened | timelapse_container/timelapse.py:156 | with `--keep-dark-frames` the frames kept are exactly the frames that open |
| FrameFilter.KeptAreOpened | timelapse_container/timelapse.py:143-169 | the frames kept are frames of the selection that pass the screen, and there are no more of them than of frames that open |
| UploadSink.Open | timelapse_container/timelapse.py:142 | the sink starts valid, empty, and with part number 1 |
| UploadSink.Write | timelapse_container/timelapse.py:170-177 | a part is uploaded only when the buffer holds strictly more than 5 MiB. It carries the whole buffer, the buffer is emptied, and the part number goes up by exactly one; otherwise nothing changes but the buffer. Bytes are conserved and the sink stays valid |
| UploadSink.Finish | timelapse_container/timelapse.py:180-187 | the buffer is always uploaded as the last part with the next number, even when empty, and the upload is then completed with all parts; no byte is lost |
| UploadSink.CompletedOnce | timelapse_container/timelapse.py:88-91 | in a completed upload the completion call is made once, last, and lists exactly the parts uploaded before it in order |
| UploadSink.WriteAll | timelapse_container/timelapse.py:143-177 | any run of writes keeps the sink valid and conserves bytes |
| UploadSink.StreamCompletes | timelapse_container/timelapse.py:140-187 | writes followed by finishing give a completed upload: parts numbered 1..K without gaps, every part but the last over 5 MiB, carrying exactly the bytes written |
| OutputLocation.Locate | timelapse_container/timelapse.py:136-137 | bucket `outfile.split('/')[0]` and key `outfile.split('/')[-1]`. Its contract is `OutputLocation.LocateSplits` |
| OutputLocation.LocateSplits | timelapse_container/timelapse.py:136-137 | the bucket is the text before the first `/` and the key the text after the last `/`; neither holds a `/`, and both are the whole `outfile` when it has none |
| Container.Frames | timelapse_container/timelapse.py:113-121 | the frames the loop visits: the empty-bucket exit, the sort, the window and the stride. Its contract is `Container.FramesFail`, `Container.FramesPositions` and `Container.FramesSelected` |
| Container.FramesFail | timelapse_container/timelapse.py:113-121 | the run stops before the loop exactly when the bucket listing is empty, a name has no timestamp, or the step is below 1 |
| Container.FramesAreSelected | timelapse_container/timelapse.py:117-121 | the frames visited are the window and stride of the sorted listing |
| Container.FramesPositions | timelapse_container/timelapse.py:117-121 | the i-th frame visited is the sorted listing's entry at `lo + i * step`, below `hi`, and no stride position below `hi` is skipped; `lo` and `hi` are the offset and the end index as Python slice bounds |
| Container.FramesSelected | timelapse_container/timelapse.py:117-121 | the frames visited are names of the listing, each with a timestamp, in ascending timestamp order |
| Container.SelectStaysSorted | timelapse_container/timelapse.py:121 | any window and stride of a sorted permutation of the listing stays inside the listing and stays sorted |
| Container.Visit | timelapse_container/timelapse.py:144-179 | one pass of the loop body for either build: the read, the screen in the `try`, the re-encoding, the writer and the flush test. Its contract is `Container.VisitCorrected`, `Container.VisitConservesBytes` and, for the script as written, `Findings.ScaledLoopsAgree` and `Findings.NoScaleAbortsAtFirstKept` |
| Container.Drive | timelapse_container/timelapse.py:143-179 | the frame loop, stopping at the first fatal error. Its contract is `Container.DriveHalts` and the `Container.Drive...` lemmas below |
| Container.StampOf | timelapse_container/timelapse.py:116-119 | the sort key `int(f[:-4])` for object keys and `int(f[len(indir) + 1:-4])` for local paths. Its contract is `Container.StampOfShown` |
| Container.StampOfShown | timelapse_container/timelapse.py:116-119 | a name spelt as a timestamp and a four-character extension, behind `indir/` for local input, has that timestamp as its sort key |
| Container.VisitCorrected | timelapse_container/timelapse.py:146-169 | one pass fails exactly when the frame cannot be read (`ReadFailed`) or PIL raises something other than `OSError` on it (`DecodeFailed`), naming it; otherwise the frame reaches the writer exactly when it is kept, and its statistic is recorded exactly when it opens and dark skipping is on |
| Container.VisitConservesBytes | timelapse_container/timelapse.py:167-177 | a pass that completes keeps the sink valid and loses no byte; with local output the sink is untouched |
| Container.DriveHalts | timelapse_container/timelapse.py:143-166 | the corrected loop fails exactly when some frame cannot be read or PIL raises something other than `OSError` on it, and then on the first such frame, with that frame's error |
| Container.DriveKeepsExactlyKept | timelapse_container/timelapse.py:143-169 | when the loop completes (see `Container.DriveHalts`), the writer has received exactly the kept frames of the selection, in order, each once |
| Container.DriveRecordsOpened | timelapse_container/timelapse.py:150-157 | when the loop completes, one statistic has been recorded, in order, for every frame that opens when dark skipping is on, and none when it is off |
| Container.DriveConservesBytes | timelapse_container/timelapse.py:143-177 | when the loop completes, the sink stays valid, and uploaded plus buffered bytes equal the bytes the writer emitted |
| Container.KeepingDarkRecordsNothing | timelapse_container/timelapse.py:156 | with `--keep-dark-frames`, when the loop completes no statistic is recorded and every frame that opens is written |
| Container.ConcludeCompletes | timelapse_container/timelapse.py:180-188 | in either build, remote output creates the upload, uploads parts 1..K, completes once, then grants public read. The parts carry the bytes the sink saw, plus, corrected, those emitted at close. Local output makes no storage call |
| Container.Conclude | timelapse_container/timelapse.py:180-188 | what follows the loop in either build: the last part, the completion and the public-read grant. Its contract is `Container.ConcludeCompletes` |
| Container.Generate | timelapse_container/timelapse.py:111-188 | the whole command in either build. Its contract is `Container.GenerateFails` and `Container.GenerateStreamsEveryByte` for the corrected script, and the lemmas of `Findings` for the script as written |
| Container.GenerateFails | timelapse_container/timelapse.py:111-166 | the corrected command fails with the error of `Frames` when that fails, and otherwise exactly when a chosen frame cannot be read or PIL raises something other than `OSError` on it, on the first such frame and with its error |
| Container.GenerateStreamsEveryByte | timelapse_container/timelapse.py:111-188 | a run that completes holds exactly the kept frames of the selection, with the statistics of the frames that open when skipping dark ones. Remote output is one complete upload carrying every byte the writer emitted |
| Legacy.FixedCropApplies | timelapse.py:12 | the fixed `CROP_POINTS` are all non-zero, so every statistic is that of the cropped frame |
| Legacy.StampOf | timelapse.py:35 | `timestamp_sort`: `int(f[len(indir) + 1:-4])`. Its contract is `Legacy.StampOfShown` |
| Legacy.StampOfShown | timelapse.py:35 | a path `indir/<timestamp><ext>` with a four-character extension has that timestamp as its sort key |
| Legacy.Frames | timelapse.py:58-65 | the frames the loop visits: the empty-bucket failure, the sort and the optional truncation. Its contract is `Legacy.FramesFail` and `Legacy.FramesTruncated` |
| Legacy.FramesFail | timelapse.py:35-43 | the run stops before the loop exactly when the bucket has no objects or a name has no timestamp |
| Legacy.FramesTruncated | timelapse.py:64-65 | the frames visited are a prefix of the sorted listing: all of it for `None` or 0, the first `num_frames` names for a positive value |
| Legacy.Visit | timelapse.py:74-86 | one pass of the loop body, with nothing caught. Its contract is `Legacy.VisitFixedCrop` |
| Legacy.Drive | timelapse.py:73-86 | the frame loop, stopping at the first fatal error. Its contract is `Legacy.DriveOk`, `Legacy.DriveKeepsNonDark`, `Legacy.DriveRecordsAll` and `Legacy.DriveStopsAtFirstFailure` |
| Legacy.Generate | timelapse.py:56-86 | the whole command. Its contract is `Legacy.GenerateKeepsNonDark` |
| Legacy.VisitFixedCrop | timelapse.py:73-86 | one pass fails exactly when the frame cannot be read or does not open, with `ReadFailed` or `DecodeFailed` accordingly; otherwise the frame is written exactly when it is kept, and its cropped statistic is recorded exactly when skipping dark frames |
| Legacy.DriveOk | timelapse.py:73-86 | the loop succeeds exactly when every frame can be read and opens |
| Legacy.DriveKeepsNonDark | timelapse.py:78-86 | when the loop completes, the writer has received exactly the non-dark frames in order, or every frame when dark frames are kept |
| Legacy.DriveRecordsAll | timelapse.py:80 | when the loop completes, one cropped statistic is recorded per frame when skipping dark frames, and none otherwise |
| Legacy.DriveStopsAtFirstFailure | timelapse.py:74-78 | a failed loop fails on the first frame that cannot be read or does not open, with the matching error |
| Legacy.GenerateKeepsNonDark | timelapse.py:56-86 | the command fails exactly when the listing is rejected or a chosen frame cannot be read or does not open; otherwise it writes the chosen frames minus the dark ones (all of them when keeping dark frames), with one statistic per chosen frame when skipping dark frames and none otherwise |
| Findings.NoScaleAbortsAtFirstKept | timelapse_container/timelapse.py:158-168 | as written and without `--scale`, the loop fails at the first frame that survives the screen when no frame that ends the corrected run comes before it; otherwise it fails on that frame with its error, or succeeds without writing anything |
| Findings.NoScaleVisit | timelapse_container/timelapse.py:146-168 | one pass as written without `--scale`: a frame that ends the corrected run ends this one with the same error, a kept frame ends it with `EmptyReencode`, and any other frame is passed over |
| Findings.ScaledLoopsAgree | timelapse_container/timelapse.py:159-162 | with a scale set, the loop as written behaves exactly as the corrected one |
| Findings.NoScaleCounterexample | timelapse_container/timelapse.py:158-169 | one frame that reads and opens and no scale: as written the loop fails on it, while corrected it writes it |
| Findings.NoScaleGenerateFails | timelapse_container/timelapse.py:158-168 | as written and without a scale, any run whose selection has a frame that passes the screen before any frame that ends the corrected run fails on the first such frame, where the corrected command succeeds when no chosen frame ends it |
| Findings.AsWrittenUpload | timelapse_container/timelapse.py:139-188 | as written and with a scale set, remote output still creates the upload, uploads parts 1..K, completes once and grants public read last; the parts carry only the bytes emitted while frames were appended |
| Findings.CloseBytesLost | timelapse_container/timelapse.py:140-187 | with a scale set, both builds complete or fail together and write the same frames; as written, the upload carries only the bytes emitted while frames were appended, and the corrected upload carries exactly `closeGrowth` more |

## Left out

- Credentials and client construction (`get_s3_client`, `s3_client`): environment and boto3 plumbing.
- The paginated listing `s3_recursively_list_image_objects`: network I/O. As written, its last `return` is unreachable, so a listing that fits in one page yields `None`. The model takes the listing as a given sequence of keys. The empty-bucket exit is modelled as `EmptyListing`.
- PIL decoding, `ImageStat` medians, pixel cropping, `resize` with a float factor, and JPEG re-encoding: foreign codecs and floating point. A frame is a `Probe`, and its `pil` field says what PIL raises inside the `try` under this run's options: nothing, `OSError`, or another exception. PIL decodes lazily, so a frame whose header parses but whose pixels do not raises nothing when the run neither crops, nor tests darkness, nor re-encodes inside the `try`. Either exception is modelled as raised before the statistic is taken. Which call raises it (`open`, `crop`, `resize` or `save`) is not modelled.
- `Findings` compares both builds under one `Probe`. The corrected build always re-encodes inside the `try`, so for a frame with a corrupt body PIL could raise there and not in the script as written; the comparison assumes it does not.
- The ffmpeg and GIF writers: opaque encoders. Appending a frame adds a given, non-negative number of bytes to the buffer.
- The buffer size is read with `outfile.tell()` on a separate `a+b` handle, while ffmpeg writes the file through its own descriptor. That handle's offset need not move as the file grows, so in the code the mid-run flush may never fire. The model idealises `tell()` as the sink's byte count; whether the offset follows the file is not established here.
- Failures of `imageio.imread` and `writer.append_data` on a well-formed JPEG buffer, and of `upload_part`, `complete_multipart_upload` and `put_object_acl` (timelapse_container/timelapse.py:168-169, 172, 183, 187-188): assumed to succeed. In the code any of them raises outside the `try` and ends the run.
- The duplicated `create_multipart_upload` call at timelapse_container/timelapse.py:73-74: a single `CreateUpload` event is recorded.
- `put_object_acl`: recorded as one `GrantPublicRead` event, with no further meaning.
- Part entity tags: a part is its number and size.
- The Amazon S3 limit of 10,000 parts: not enforced.
- `click` options, `echo` output and the progress bar: presentation only.
- What a run leaves behind when it fails part-way: a failed run is only its error. Parts already uploaded and files already written are not modelled.
- PyText.ParseInt: accepts only the ASCII digits `0`-`9`. `int()` also accepts every other Unicode decimal digit, so a name spelt in them has a key in Python and none in the model.
- In the older command, `timestamp_sort` reads a global `indir` that is never defined. `generate` assigns to `s3_client` while calling the function of that name, and `open_from_s3` does not exist. The missing global and the missing function raise `NameError`. `s3_client` is `None` when it is called (timelapse.py:57-59), which raises `TypeError`. The model uses the command's `indir` for the key and treats a remote frame like a local one.
- The older command lists at most the first 1,000 objects of the hard-coded bucket `plantcam`: the listing is a given sequence.
- Legacy.FramesTruncated: a negative `num_frames` is described only through `Selection.TruncateIsPrefix`, not restated for the whole command.

## Findings

| source | as written | input that shows it | evidently intended | confidence | as-written member | corrected member |
|---|---|---|---|---|---|---|
| timelapse_container/timelapse.py:158-168 | `jpeg_bytes` is filled only under `if scale:`, and `imageio.imread(jpeg_bytes)` runs outside the `try` | any run without `--scale` in which a selected frame reads, opens and is not dark, with no frame before it that ends the run, e.g. a single readable frame | every kept frame is re-encoded to JPEG, scaled or not, and handed to the writer | not executed | Findings.NoScaleAbortsAtFirstKept | Container.DriveKeepsExactlyKept |
| timelapse_container/timelapse.py:140-187 | the last part is uploaded and the upload completed inside the `with writer` block, before the writer is closed | remote output, a scale set, and a writer that emits any bytes when it closes (`closeGrowth > 0`) | the writer is closed first, so the last part carries its final bytes | not executed | Findings.CloseBytesLost | Container.GenerateStreamsEveryByte |
