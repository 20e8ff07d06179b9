/** Where the container script uploads its output: `outfile.split('/')[0]`
    is the bucket and `outfile.split('/')[-1]` the object key. */
module OutputLocation {
  import PyText

  datatype Location = Location(bucket: string, key: string)

  function Locate(outfile: string): Location
  {
    var pieces := PyText.Split(outfile, '/');
    Location(pieces[0], pieces[|pieces| - 1])
  }

  /** The bucket is the longest prefix of `outfile` without a slash and the
      key the longest such suffix; any directories in between are dropped,
      and an `outfile` without a slash is both bucket and key. */
  lemma LocateSplits(outfile: string)
    ensures var loc := Locate(outfile);
      && '/' !in loc.bucket && '/' !in loc.key
      && |loc.bucket| <= |outfile| && outfile[..|loc.bucket|] == loc.bucket
      && (|loc.bucket| < |outfile| ==> outfile[|loc.bucket|] == '/')
      && |loc.key| <= |outfile| && outfile[|outfile| - |loc.key|..] == loc.key
      && (|loc.key| < |outfile| ==> outfile[|outfile| - |loc.key| - 1] == '/')
      && ('/' !in outfile ==> loc.bucket == outfile && loc.key == outfile)
  {
    var pieces := PyText.Split(outfile, '/');
    PyText.JoinSplit(outfile, '/');
    JoinEnds(pieces, '/');
  }

  /** A join starts with its first piece followed by the separator, and ends
      with the separator followed by its last piece. */
  lemma {:induction false} JoinEnds(pieces: seq<string>, sep: char)
    requires |pieces| >= 1
    ensures var j := PyText.Join(pieces, sep);
      && |pieces[0]| <= |j| && j[..|pieces[0]|] == pieces[0]
      && (|pieces| > 1 ==> |pieces[0]| < |j| && j[|pieces[0]|] == sep)
      && |pieces[|pieces| - 1]| <= |j| && j[|j| - |pieces[|pieces| - 1]|..] == pieces[|pieces| - 1]
      && (|pieces| > 1 ==> |pieces[|pieces| - 1]| < |j| && j[|j| - |pieces[|pieces| - 1]| - 1] == sep)
    decreases |pieces|
  {
    if |pieces| > 1 {
      JoinEnds(pieces[1..], sep);
      var rest := PyText.Join(pieces[1..], sep);
      var j := PyText.Join(pieces, sep);
      assert j == pieces[0] + [sep] + rest;
      assert pieces[1..][|pieces[1..]| - 1] == pieces[|pieces| - 1];
    }
  }
}
