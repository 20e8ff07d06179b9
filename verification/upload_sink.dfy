/** The chunked multipart-upload sink of the container script: the encoder's
    output accumulates in a buffer, which is uploaded as the next numbered
    part whenever it grows past the minimum part size, and is uploaded one
    last time, followed by the completion call, when the run ends. Bytes are
    counted, not stored. */
module UploadSink {

  /** `MINIMUM_S3_MULTIPART_PART_SIZE_IN_BYTES`: 5 MiB, the smallest part
      Amazon S3 accepts for any part but the last. */
  const MinimumPartSize: nat := 1024 * 1024 * 5

  /** One uploaded part: its number and how many bytes it carried. */
  datatype Part = Part(number: int, size: nat)

  /** The storage calls a run makes, in order. */
  datatype Event =
    | CreateUpload(bucket: string, key: string)
    | UploadPart(part: Part)
    | CompleteUpload(parts: seq<Part>)
    | GrantPublicRead(bucket: string, key: string)

  /** `outfile`'s size since the last flush, `part_number`, `upload_parts`,
      and the part and completion calls made so far. */
  datatype Sink = Sink(buffered: nat, partNumber: int, parts: seq<Part>, calls: seq<Event>)

  /** The sink as the loop starts: empty buffer, `part_number = 1`. */
  function Open(): (s: Sink)
    ensures Valid(s) && s.buffered == 0 && s.partNumber == 1 && s.parts == [] && s.calls == []
  {
    Sink(0, 1, [], [])
  }

  /** One `UploadPart` call per part, in order. */
  function Uploads(parts: seq<Part>): (r: seq<Event>)
    ensures |r| == |parts| && forall i :: 0 <= i < |parts| ==> r[i] == UploadPart(parts[i])
  {
    seq(|parts|, i requires 0 <= i < |parts| => UploadPart(parts[i]))
  }

  /** Parts are numbered 1, 2, ... with no gap. */
  ghost predicate Numbered(parts: seq<Part>)
  {
    forall i :: 0 <= i < |parts| ==> parts[i].number == i + 1
  }

  /** The sink between frames: the next number follows the parts uploaded so
      far, every part uploaded mid-run is over the minimum size, and the
      storage has seen exactly those parts, in order, and nothing else. */
  ghost predicate Valid(s: Sink)
  {
    && Numbered(s.parts)
    && s.partNumber == |s.parts| + 1
    && (forall i :: 0 <= i < |s.parts| ==> s.parts[i].size > MinimumPartSize)
    && s.calls == Uploads(s.parts)
  }

  /** Bytes carried by a list of parts. */
  function Total(parts: seq<Part>): nat
  {
    if |parts| == 0 then 0 else Total(parts[..|parts| - 1]) + parts[|parts| - 1].size
  }

  /** One frame's bytes reach the buffer, then the threshold check: a part is
      uploaded only when the buffer holds strictly more than the minimum; it
      then carries the whole buffer, the buffer is emptied and the part
      number goes up by one. No byte is lost or counted twice. */
  function Write(s: Sink, bytes: nat): (r: Sink)
    ensures Valid(s) ==> Valid(r)
    ensures Total(r.parts) + r.buffered == Total(s.parts) + s.buffered + bytes
    ensures r.buffered <= MinimumPartSize
    ensures s.buffered + bytes > MinimumPartSize ==>
      && r.buffered == 0
      && r.partNumber == s.partNumber + 1
      && r.parts == s.parts + [Part(s.partNumber, s.buffered + bytes)]
      && r.calls == s.calls + [UploadPart(Part(s.partNumber, s.buffered + bytes))]
    ensures s.buffered + bytes <= MinimumPartSize ==>
      r.partNumber == s.partNumber && r.parts == s.parts && r.calls == s.calls
  {
    var size := s.buffered + bytes;
    if size > MinimumPartSize then
      var part := Part(s.partNumber, size);
      var parts := s.parts + [part];
      assert parts[..|parts| - 1] == s.parts;
      assert Valid(s) ==> Uploads(parts) == Uploads(s.parts) + [UploadPart(part)];
      Sink(0, s.partNumber + 1, parts, s.calls + [UploadPart(part)])
    else s.(buffered := size)
  }

  /** The end of a run: the buffer is uploaded as the last part whatever its
      size, even empty, and then the upload is completed once with every
      part. */
  function Finish(s: Sink): (r: Sink)
    ensures r.buffered == 0
    ensures Total(r.parts) == Total(s.parts) + s.buffered
    ensures r.parts == s.parts + [Part(s.partNumber, s.buffered)]
    ensures Valid(s) ==> Completed(r.parts, r.calls)
  {
    var part := Part(s.partNumber, s.buffered);
    var parts := s.parts + [part];
    assert parts[..|parts| - 1] == s.parts;
    assert Valid(s) ==> Uploads(parts) == Uploads(s.parts) + [UploadPart(part)];
    Sink(0, s.partNumber + 1, parts, s.calls + [UploadPart(part), CompleteUpload(parts)])
  }

  /** A completed multipart upload as Amazon S3 requires it: at least one
      part, numbered 1..K without gaps, every part but the last over the
      minimum size; each part uploaded once in number order, then exactly
      one completion call listing all of them, and nothing after it. */
  ghost predicate Completed(parts: seq<Part>, calls: seq<Event>)
  {
    && |parts| >= 1
    && Numbered(parts)
    && (forall i :: 0 <= i < |parts| - 1 ==> parts[i].size > MinimumPartSize)
    && calls == Uploads(parts) + [CompleteUpload(parts)]
  }

  /** In a completed upload the completion call is made exactly once, as the
      last call, and lists exactly the parts uploaded before it. */
  lemma CompletedOnce(parts: seq<Part>, calls: seq<Event>)
    requires Completed(parts, calls)
    ensures calls[|calls| - 1] == CompleteUpload(parts)
    ensures forall i :: 0 <= i < |calls| - 1 ==> calls[i].UploadPart? && calls[i].part == parts[i]
    ensures forall i :: 0 <= i < |calls| && calls[i].CompleteUpload? ==> i == |calls| - 1
  {
  }

  /** Folding a run of writes into an open sink and finishing it completes
      the upload and uploads every byte written. */
  function WriteAll(s: Sink, writes: seq<nat>): (r: Sink)
    ensures Valid(s) ==> Valid(r)
    ensures Total(r.parts) + r.buffered == Total(s.parts) + s.buffered + Sum(writes)
    decreases |writes|
  {
    if |writes| == 0 then s
    else
      assert Sum(writes) == writes[0] + Sum(writes[1..]);
      WriteAll(Write(s, writes[0]), writes[1..])
  }

  function Sum(xs: seq<nat>): nat
  {
    if |xs| == 0 then 0 else xs[0] + Sum(xs[1..])
  }

  /** Any sequence of frame writes followed by finalisation yields a
      completed upload whose parts carry exactly the bytes written. */
  lemma StreamCompletes(writes: seq<nat>)
    ensures var r := Finish(WriteAll(Open(), writes));
      Completed(r.parts, r.calls) && Total(r.parts) == Sum(writes)
  {
  }
}
