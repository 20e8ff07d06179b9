/** The order in which both commands visit frames: every name gets an
    integer sort key parsed out of it, and the names are sorted by that key
    with Python's stable `sorted`. */
module FrameOrder {
  import opened Wrappers
  import PySeq
  import PyText

  /** Sort key of an object key in the bucket: `int(f[:-4])`. */
  function S3Stamp(key: string): Option<int>
  {
    PyText.ParseInt(PySeq.Slice(key, 0, -4))
  }

  /** Sort key of a path under `indir`: `int(f[len(indir) + 1:-4])`. */
  function LocalStamp(indir: string, path: string): Option<int>
  {
    PyText.ParseInt(PySeq.Slice(path, |indir| + 1, -4))
  }

  /** An object key spelt as a timestamp followed by a four-character
      extension sorts by that timestamp. */
  lemma S3StampOfShown(n: int, ext: string)
    requires |ext| == 4
    ensures S3Stamp(PyText.Show(n) + ext) == Some(n)
  {
    var f := PyText.Show(n) + ext;
    assert PySeq.Slice(f, 0, -4) == PyText.Show(n);
    PyText.ParseShow(n);
  }

  /** A path `indir/<timestamp><ext>` sorts by that timestamp. */
  lemma LocalStampOfShown(indir: string, n: int, ext: string)
    requires |ext| == 4
    ensures LocalStamp(indir, indir + "/" + PyText.Show(n) + ext) == Some(n)
  {
    var f := indir + "/" + PyText.Show(n) + ext;
    assert PySeq.Slice(f, |indir| + 1, -4) == PyText.Show(n);
    PyText.ParseShow(n);
  }

  /** A name paired with its parsed sort key. */
  datatype Stamped = Stamped(name: string, stamp: int)

  function Names(s: seq<Stamped>): (r: seq<string>)
    ensures |r| == |s| && forall i :: 0 <= i < |s| ==> r[i] == s[i].name
  {
    seq(|s|, i requires 0 <= i < |s| => s[i].name)
  }

  /** Every entry's key is the one `stampOf` gives its name. */
  ghost predicate Consistent(s: seq<Stamped>, stampOf: string -> Option<int>)
  {
    forall i :: 0 <= i < |s| ==> stampOf(s[i].name) == Some(s[i].stamp)
  }

  /** How many names, from the front, have a key. */
  function ParsedCount(names: seq<string>, stampOf: string -> Option<int>): (k: nat)
    ensures k <= |names|
    ensures forall i :: 0 <= i < k ==> stampOf(names[i]).Some?
    ensures k < |names| ==> stampOf(names[k]).None?
  {
    if |names| == 0 || stampOf(names[0]).None? then 0
    else 1 + ParsedCount(names[1..], stampOf)
  }

  /** `sorted` computes the key of every element, in list order, before it
      compares any; the first key that fails aborts the sort with that name. */
  function StampAll(names: seq<string>, stampOf: string -> Option<int>): (r: Result<seq<Stamped>, string>)
    ensures r.Ok? <==> ParsedCount(names, stampOf) == |names|
    ensures r.Ok? ==> Names(r.value) == names && Consistent(r.value, stampOf)
    ensures r.Err? ==> r.error == names[ParsedCount(names, stampOf)]
  {
    if |names| == 0 then Ok([])
    else match stampOf(names[0])
      case None => Err(names[0])
      case Some(k) =>
        match StampAll(names[1..], stampOf)
        case Err(e) => Err(e)
        case Ok(rest) =>
          StampCons(names, k, rest, stampOf);
          Ok([Stamped(names[0], k)] + rest)
  }

  lemma StampCons(names: seq<string>, k: int, rest: seq<Stamped>, stampOf: string -> Option<int>)
    requires |names| > 0 && stampOf(names[0]) == Some(k)
    requires Names(rest) == names[1..] && Consistent(rest, stampOf)
    ensures Names([Stamped(names[0], k)] + rest) == names
    ensures Consistent([Stamped(names[0], k)] + rest, stampOf)
  {
    var r := [Stamped(names[0], k)] + rest;
    assert Names(r) == [names[0]] + names[1..] == names;
  }

  /** Every name has a key exactly when the count of names with a key from
      the front is the whole list. */
  lemma AllParsed(names: seq<string>, stampOf: string -> Option<int>)
    ensures ParsedCount(names, stampOf) == |names| <==> forall i :: 0 <= i < |names| ==> stampOf(names[i]).Some?
  {
  }

  ghost predicate Ascending(s: seq<Stamped>)
  {
    forall i, j :: 0 <= i < j < |s| ==> s[i].stamp <= s[j].stamp
  }

  /** The entries of `s` whose key is `k`, in their order in `s`. */
  function WithStamp(s: seq<Stamped>, k: int): seq<Stamped>
  {
    if |s| == 0 then []
    else (if s[0].stamp == k then [s[0]] else []) + WithStamp(s[1..], k)
  }

  /** Insertion in front of the first entry whose key is not smaller, so an
      inserted entry precedes every entry already there with an equal key. */
  function Insert(x: Stamped, t: seq<Stamped>): (r: seq<Stamped>)
    ensures multiset(r) == multiset(t) + multiset{x}
  {
    if |t| == 0 || x.stamp <= t[0].stamp then [x] + t
    else
      assert t == [t[0]] + t[1..];
      [t[0]] + Insert(x, t[1..])
  }

  lemma {:induction false} InsertAscending(x: Stamped, t: seq<Stamped>)
    requires Ascending(t)
    ensures Ascending(Insert(x, t))
  {
    if |t| > 0 && x.stamp > t[0].stamp {
      var rest := Insert(x, t[1..]);
      InsertAscending(x, t[1..]);
      forall j | 0 <= j < |rest|
        ensures t[0].stamp <= rest[j].stamp
      {
        assert rest[j] in multiset(rest);
        assert rest[j] == x || rest[j] in multiset(t[1..]);
      }
    }
  }

  lemma {:induction false} InsertWithStamp(x: Stamped, t: seq<Stamped>, k: int)
    ensures WithStamp(Insert(x, t), k) == (if x.stamp == k then [x] else []) + WithStamp(t, k)
  {
    if |t| == 0 || x.stamp <= t[0].stamp {
      assert ([x] + t)[1..] == t;
    } else {
      var rest := Insert(x, t[1..]);
      InsertWithStamp(x, t[1..], k);
      assert ([t[0]] + rest)[1..] == rest;
    }
  }

  lemma {:induction false} InsertNames(x: Stamped, t: seq<Stamped>)
    ensures multiset(Names(Insert(x, t))) == multiset(Names(t)) + multiset{x.name}
  {
    if |t| == 0 || x.stamp <= t[0].stamp {
      NamesAppend([x], t);
    } else {
      InsertNames(x, t[1..]);
      NamesAppend([t[0]], Insert(x, t[1..]));
      NamesAppend([t[0]], t[1..]);
      assert [t[0]] + t[1..] == t;
    }
  }

  lemma NamesAppend(a: seq<Stamped>, b: seq<Stamped>)
    ensures Names(a + b) == Names(a) + Names(b)
  {
  }

  /** Python's `sorted(..., key=...)` on stamped names: a stable sort. */
  function SortByStamp(s: seq<Stamped>): (r: seq<Stamped>)
    ensures Ascending(r)
    ensures multiset(r) == multiset(s)
    ensures multiset(Names(r)) == multiset(Names(s))
    ensures forall k :: WithStamp(r, k) == WithStamp(s, k)
  {
    if |s| == 0 then []
    else
      var rest := SortByStamp(s[1..]);
      SortStep(s, rest);
      Insert(s[0], rest)
  }

  /** One step of `SortByStamp`: inserting the head into the sorted tail. */
  lemma SortStep(s: seq<Stamped>, rest: seq<Stamped>)
    requires |s| > 0
    requires Ascending(rest) && multiset(rest) == multiset(s[1..])
    requires multiset(Names(rest)) == multiset(Names(s[1..]))
    requires forall k :: WithStamp(rest, k) == WithStamp(s[1..], k)
    ensures Ascending(Insert(s[0], rest))
    ensures multiset(Insert(s[0], rest)) == multiset(s)
    ensures multiset(Names(Insert(s[0], rest))) == multiset(Names(s))
    ensures forall k :: WithStamp(Insert(s[0], rest), k) == WithStamp(s, k)
  {
    assert s == [s[0]] + s[1..];
    assert Names(s) == [s[0].name] + Names(s[1..]);
    InsertAscending(s[0], rest);
    InsertNames(s[0], rest);
    forall k
      ensures WithStamp(Insert(s[0], rest), k) == WithStamp(s, k)
    {
      InsertWithStamp(s[0], rest, k);
    }
  }

  /** The listing sorted by the parsed timestamps, or the first name whose
      timestamp does not parse. */
  function ListFrames(listing: seq<string>, stampOf: string -> Option<int>): Result<seq<string>, string>
  {
    match StampAll(listing, stampOf)
    case Err(name) => Err(name)
    case Ok(stamped) => Ok(Names(SortByStamp(stamped)))
  }

  /** The names of `names` whose key parses to `k`, in their order. */
  function Having(names: seq<string>, stampOf: string -> Option<int>, k: int): seq<string>
  {
    if |names| == 0 then []
    else (if stampOf(names[0]) == Some(k) then [names[0]] else []) + Having(names[1..], stampOf, k)
  }

  /** Sorting the listing succeeds exactly when every name parses; the
      result is then a permutation of the listing, ascending by timestamp,
      and names with equal timestamps keep their listing order. */
  lemma ListFramesSorted(listing: seq<string>, stampOf: string -> Option<int>)
    ensures ListFrames(listing, stampOf).Ok? <==> forall i :: 0 <= i < |listing| ==> stampOf(listing[i]).Some?
    ensures var r := ListFrames(listing, stampOf);
      r.Ok? ==>
        && multiset(r.value) == multiset(listing)
        && (forall i :: 0 <= i < |r.value| ==> stampOf(r.value[i]).Some?)
        && (forall i, j :: 0 <= i < j < |r.value| ==> stampOf(r.value[i]).value <= stampOf(r.value[j]).value)
        && (forall k :: Having(r.value, stampOf, k) == Having(listing, stampOf, k))
  {
    AllParsed(listing, stampOf);
    var st := StampAll(listing, stampOf);
    if st.Ok? {
      var sorted := SortByStamp(st.value);
      var r := Names(sorted);
      SortedIsConsistent(st.value, sorted, stampOf);
      forall k
        ensures Having(r, stampOf, k) == Having(listing, stampOf, k)
      {
        HavingNames(sorted, stampOf, k);
        HavingNames(st.value, stampOf, k);
      }
    }
  }

  lemma SortedIsConsistent(s: seq<Stamped>, t: seq<Stamped>, stampOf: string -> Option<int>)
    requires Consistent(s, stampOf) && multiset(t) == multiset(s)
    ensures Consistent(t, stampOf)
  {
    forall i | 0 <= i < |t|
      ensures stampOf(t[i].name) == Some(t[i].stamp)
    {
      assert t[i] in multiset(s);
      var j :| 0 <= j < |s| && s[j] == t[i];
    }
  }

  /** On consistent entries, filtering names by key is filtering entries by key. */
  lemma {:induction false} HavingNames(s: seq<Stamped>, stampOf: string -> Option<int>, k: int)
    requires Consistent(s, stampOf)
    ensures Having(Names(s), stampOf, k) == Names(WithStamp(s, k))
    decreases |s|
  {
    if |s| > 0 {
      HavingNames(s[1..], stampOf, k);
      assert Names(s)[1..] == Names(s[1..]);
      var head := if s[0].stamp == k then [s[0]] else [];
      assert Names(head + WithStamp(s[1..], k)) == Names(head) + Names(WithStamp(s[1..], k));
    }
  }
}
