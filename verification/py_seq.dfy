/** Python's sequence slicing, as used on the lists of frame names and on the
    names themselves. */
module PySeq {

  /** A slice bound normalised against a sequence of length `n`: a negative
      bound counts back from the end, and the result is clamped into [0, n]. */
  function Bound(i: int, n: nat): (k: nat)
    ensures k <= n
    ensures 0 <= i ==> k == (if i <= n then i else n)
    ensures i < 0 ==> k == (if -i <= n then n + i else 0)
  {
    if i < 0 then (if n + i < 0 then 0 else n + i)
    else if i > n then n
    else i
  }

  /** `s[start:stop]` for a list or a string. */
  function Slice<T>(s: seq<T>, start: int, stop: int): (r: seq<T>)
    ensures Bound(start, |s|) <= Bound(stop, |s|) ==> |r| == Bound(stop, |s|) - Bound(start, |s|)
    ensures Bound(stop, |s|) < Bound(start, |s|) ==> r == []
    ensures forall i :: 0 <= i < |r| ==> r[i] == s[Bound(start, |s|) + i]
  {
    var lo := Bound(start, |s|);
    var hi := Bound(stop, |s|);
    if lo <= hi then s[lo..hi] else []
  }

  /** `i * step`, spelt as repeated addition so that stride positions stay
      linear arithmetic for the verifier. */
  function Scaled(i: nat, step: nat): nat
  {
    if i == 0 then 0 else Scaled(i - 1, step) + step
  }

  lemma {:induction false} ScaledIsProduct(i: nat, step: nat)
    ensures Scaled(i, step) == i * step
  {
    if i > 0 {
      ScaledIsProduct(i - 1, step);
      assert (i - 1) * step + step == i * step;
    }
  }

  /** `itertools.islice(s, None, None, step)`: every `step`-th element of
      `s`, starting with the first. `islice` refuses a stride below 1. */
  function Islice<T>(s: seq<T>, step: nat): (r: seq<T>)
    requires step >= 1
    ensures |s| > 0 ==> |r| > 0 && r[0] == s[0]
    decreases |s|
  {
    if |s| == 0 then []
    else if |s| <= step then [s[0]]
    else [s[0]] + Islice(s[step..], step)
  }

  /** The `i`-th element of the stride is the element of `s` at position
      `i * step`. */
  lemma {:induction false} IsliceAt<T>(s: seq<T>, step: nat, i: nat)
    requires step >= 1 && i < |Islice(s, step)|
    ensures Scaled(i, step) < |s| && Islice(s, step)[i] == s[Scaled(i, step)]
    decreases i
  {
    if i > 0 {
      assert |s| > step;
      IsliceAt(s[step..], step, i - 1);
    }
  }

  /** The stride reaches past the end of `s`: no position `k * step` below
      `|s|` is skipped. */
  lemma {:induction false} IsliceCovers<T>(s: seq<T>, step: nat)
    requires step >= 1
    ensures |s| <= Scaled(|Islice(s, step)|, step)
    decreases |s|
  {
    if |s| > step {
      IsliceCovers(s[step..], step);
    }
  }

  /** `islice(s, None, None, step)` in Python's own terms: its `i`-th item
      is `s[i * step]`, and it yields `ceil(len(s) / step)` items, the last
      of them the final stride position inside `s`. */
  lemma IsliceProduct<T>(s: seq<T>, step: nat)
    requires step >= 1
    ensures var r := Islice(s, step);
      && (forall i :: 0 <= i < |r| ==> i * step < |s| && r[i] == s[i * step])
      && |s| <= |r| * step
      && (|r| > 0 ==> (|r| - 1) * step < |s|)
      && (|s| == 0 <==> |r| == 0)
  {
    var r := Islice(s, step);
    forall i | 0 <= i < |r|
      ensures i * step < |s| && r[i] == s[i * step]
    {
      IsliceAt(s, step, i);
      ScaledIsProduct(i, step);
    }
    IsliceCovers(s, step);
    ScaledIsProduct(|r|, step);
    if |r| > 0 {
      IsliceAt(s, step, |r| - 1);
      ScaledIsProduct(|r| - 1, step);
    }
  }
}
