/** The gap compression of the timeline (battery-stat.py:84-93).

    The loop walks the timestamps left to right; whenever the gap to the
    previous timestamp exceeds MaxGap it moves every earlier timestamp
    forward by the excess, so that in the compressed timeline the gap is
    exactly MaxGap.  Timestamps are whole seconds and MaxGap is 720 s, so
    the model works on `int` without rounding. */
module Compression {

  /** MAX_GAP: 0.2 hours, in seconds. */
  const MaxGap: int := 720

  /** How much the compression takes out of a gap of `d` seconds. */
  function Excess(d: int): (e: nat)
    ensures e > 0 <==> d > MaxGap
    ensures d > MaxGap ==> d - e == MaxGap
  {
    if d > MaxGap then d - MaxGap else 0
  }

  /** The gap that a gap of `d` seconds becomes: `d` itself up to MaxGap, MaxGap beyond. */
  function ClippedGap(d: int): (g: int)
    ensures g <= d && g <= MaxGap
    ensures g == d || g == MaxGap
    ensures g == d - Excess(d)
  {
    if d > MaxGap then MaxGap else d
  }

  /** Every timestamp of `s` moved by `k` seconds. */
  function Shift(s: seq<int>, k: int): (r: seq<int>)
    ensures |r| == |s|
    ensures forall i :: 0 <= i < |s| ==> r[i] == s[i] + k
  {
    seq(|s|, i requires 0 <= i < |s| => s[i] + k)
  }

  /** The timeline the loop of battery-stat.py:87-93 leaves behind, defined
      the way the loop builds it: once the prefix `t[..n-1]` is compressed,
      the next timestamp is appended unchanged and, if its gap is too large,
      the whole prefix moves forward by the excess. */
  function Compressed(t: seq<int>): (c: seq<int>)
    ensures |c| == |t|
    ensures |t| > 0 ==> c[|t| - 1] == t[|t| - 1]
    decreases |t|
  {
    if |t| <= 1 then t
    else
      var n := |t|;
      Shift(Compressed(t[..n - 1]), Excess(t[n - 1] - t[n - 2])) + [t[n - 1]]
  }

  /** The slice assignment of battery-stat.py:90-93: the first `n`
      timestamps move forward by `k`, the rest stay. */
  method ShiftPrefix(a: array<int>, n: nat, k: int)
    requires n <= a.Length
    modifies a
    ensures a[..] == Shift(old(a[..])[..n], k) + old(a[..])[n..]
  {
    forall j | 0 <= j < n {
      a[j] := a[j] + k;
    }
  }

  /** The loop of battery-stat.py:86-93, run in place on a copy of the timeline. */
  method CompressInPlace(a: array<int>)
    modifies a
    ensures a[..] == Compressed(old(a[..]))
  {
    ghost var t := a[..];
    if a.Length == 0 {
      return;
    }
    var idx := 1;
    while idx < a.Length
      invariant 1 <= idx <= a.Length
      invariant a[..] == Compressed(t[..idx]) + t[idx..]
    {
      ghost var before := a[..];
      LoopReadsOriginal(t, idx, before);
      var delta := a[idx] - a[idx - 1];
      if delta > MaxGap {
        ShiftPrefix(a, idx, delta - MaxGap);
      }
      LoopStep(t, idx, before, a[..]);
      idx := idx + 1;
    }
    assert t[..idx] == t;
  }

  /** At the start of turn `idx` the two timestamps the loop compares are
      still the original ones: the shifts so far only touched indices below
      idx - 1. */
  lemma LoopReadsOriginal(t: seq<int>, idx: nat, before: seq<int>)
    requires 0 < idx < |t|
    requires before == Compressed(t[..idx]) + t[idx..]
    ensures before[idx - 1] == t[idx - 1] && before[idx] == t[idx]
  {
    assert before[idx - 1] == Compressed(t[..idx])[idx - 1];
    assert before[idx] == t[idx..][0];
  }

  /** One turn of the loop: shifting the compressed prefix by the excess of
      the gap ending at `idx` leaves the prefix up to `idx` compressed. */
  lemma LoopStep(t: seq<int>, idx: nat, before: seq<int>, after: seq<int>)
    requires 0 < idx < |t|
    requires before == Compressed(t[..idx]) + t[idx..]
    requires t[idx] - t[idx - 1] > MaxGap ==>
      after == Shift(before[..idx], t[idx] - t[idx - 1] - MaxGap) + before[idx..]
    requires t[idx] - t[idx - 1] <= MaxGap ==> after == before
    ensures after == Compressed(t[..idx + 1]) + t[idx + 1..]
  {
    var done := Compressed(t[..idx]);
    assert before[..idx] == done && before[idx..] == t[idx..];
    assert t[..idx + 1][..idx] == t[..idx];
    assert t[idx..] == [t[idx]] + t[idx + 1..];
    if t[idx] - t[idx - 1] <= MaxGap {
      assert Shift(done, 0) == done;
    }
  }

  /** Whether every timestamp is at least the one before it. */
  predicate Chronological(t: seq<int>)
  {
    forall i :: 0 <= i < |t| - 1 ==> t[i] <= t[i + 1]
  }

  /** The total that the compression takes out of the gaps to the right of index `i`. */
  function ExcessAfter(t: seq<int>, i: nat): (e: nat)
    decreases |t| - i
  {
    if i + 1 >= |t| then 0
    else Excess(t[i + 1] - t[i]) + ExcessAfter(t, i + 1)
  }

  /** An independent, two-pass description of the compressed timeline: each
      timestamp moves forward by the total excess of the gaps after it. */
  function TwoPass(t: seq<int>): (c: seq<int>)
    ensures |c| == |t|
  {
    seq(|t|, i requires 0 <= i < |t| => t[i] + ExcessAfter(t, i))
  }

  /** Closed form of the compression: every gap of the result is the
      original gap clipped to MaxGap. */
  lemma {:induction false} CompressedGaps(t: seq<int>, i: nat)
    requires i + 1 < |t|
    ensures Compressed(t)[i + 1] - Compressed(t)[i] == ClippedGap(t[i + 1] - t[i])
    decreases |t|
  {
    var n := |t|;
    var p := t[..n - 1];
    if i + 1 < n - 1 {
      CompressedGaps(p, i);
    }
  }

  /** Two timelines with the same last timestamp and the same gaps are equal. */
  lemma {:induction false} EqualFromGaps(c: seq<int>, d: seq<int>, i: nat)
    requires |c| == |d| && i < |c|
    requires c[|c| - 1] == d[|d| - 1]
    requires forall j :: i <= j < |c| - 1 ==> c[j + 1] - c[j] == d[j + 1] - d[j]
    ensures c[i..] == d[i..]
    decreases |c| - i
  {
    if i < |c| - 1 {
      EqualFromGaps(c, d, i + 1);
      assert c[i + 1] == d[i + 1];
      assert c[i..] == [c[i]] + c[i + 1..];
      assert d[i..] == [d[i]] + d[i + 1..];
    }
  }

  /** The compression agrees with the two-pass description. */
  lemma {:induction false} CompressedIsTwoPass(t: seq<int>)
    ensures Compressed(t) == TwoPass(t)
  {
    var c, d := Compressed(t), TwoPass(t);
    if |t| > 0 {
      forall j | 0 <= j < |t| - 1
        ensures c[j + 1] - c[j] == d[j + 1] - d[j]
      {
        CompressedGaps(t, j);
      }
      EqualFromGaps(c, d, 0);
      assert c == c[0..] && d == d[0..];
    }
  }

  /** Compression only ever moves a timestamp later. */
  lemma {:induction false} CompressedMovesLater(t: seq<int>, i: nat)
    requires i < |t|
    ensures Compressed(t)[i] >= t[i]
  {
    CompressedIsTwoPass(t);
  }

  /** After compression no gap exceeds MaxGap, and a gap that did not is untouched. */
  lemma {:induction false} CompressedGapsBounded(t: seq<int>, i: nat)
    requires i + 1 < |t|
    ensures Compressed(t)[i + 1] - Compressed(t)[i] <= MaxGap
    ensures t[i + 1] - t[i] <= MaxGap ==> Compressed(t)[i + 1] - Compressed(t)[i] == t[i + 1] - t[i]
  {
    CompressedGaps(t, i);
  }

  /** A non-decreasing timeline stays non-decreasing. */
  lemma {:induction false} CompressedKeepsOrder(t: seq<int>)
    requires Chronological(t)
    ensures Chronological(Compressed(t))
  {
    forall i | 0 <= i < |t| - 1
      ensures Compressed(t)[i] <= Compressed(t)[i + 1]
    {
      CompressedGaps(t, i);
    }
  }

  /** Compressing a compressed timeline changes nothing. */
  lemma {:induction false} CompressedIdempotent(t: seq<int>)
    ensures Compressed(Compressed(t)) == Compressed(t)
  {
    var c := Compressed(t);
    var d := Compressed(c);
    if |t| > 0 {
      forall j | 0 <= j < |t| - 1
        ensures d[j + 1] - d[j] == c[j + 1] - c[j]
      {
        CompressedGaps(t, j);
        CompressedGaps(c, j);
      }
      EqualFromGaps(d, c, 0);
      assert d == d[0..] && c == c[0..];
    }
  }

  /** The total excess right of `i` when the only gap above MaxGap is the one
      ending at index `k`. */
  lemma {:induction false} ExcessAfterSingleGap(t: seq<int>, k: nat, i: nat)
    requires 0 < k < |t| && i < |t|
    requires forall j :: 0 < j < |t| && j != k ==> t[j] - t[j - 1] <= MaxGap
    requires t[k] - t[k - 1] > MaxGap
    ensures ExcessAfter(t, i) == if i < k then t[k] - t[k - 1] - MaxGap else 0
    decreases |t| - i
  {
    if i + 1 < |t| {
      ExcessAfterSingleGap(t, k, i + 1);
    }
  }

  /** One idle gap of `gap` > MaxGap seconds, ending at index `k`: everything
      before the gap moves forward by gap - MaxGap, everything from `k` on stays. */
  lemma {:induction false} CompressedSingleGap(t: seq<int>, k: nat, i: nat)
    requires 0 < k < |t| && i < |t|
    requires forall j :: 0 < j < |t| && j != k ==> t[j] - t[j - 1] <= MaxGap
    requires t[k] - t[k - 1] > MaxGap
    ensures i < k ==> Compressed(t)[i] == t[i] + (t[k] - t[k - 1] - MaxGap)
    ensures i >= k ==> Compressed(t)[i] == t[i]
  {
    CompressedIsTwoPass(t);
    ExcessAfterSingleGap(t, k, i);
  }

  /** The five-hour scenario: 5 h - 0.2 h = 4.8 h = 17280 s of shift. */
  lemma CompressedFiveHourGap(t: seq<int>, k: nat, i: nat)
    requires 0 < k < |t| && i < |t|
    requires forall j :: 0 < j < |t| && j != k ==> t[j] - t[j - 1] <= MaxGap
    requires t[k] - t[k - 1] == 5 * 3600
    ensures i < k ==> Compressed(t)[i] == t[i] + 48 * 3600 / 10
    ensures i >= k ==> Compressed(t)[i] == t[i]
  {
    CompressedSingleGap(t, k, i);
  }
}
