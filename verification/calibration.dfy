/**
 Ambient-noise calibration of the silence threshold (`calibrate_mic`).

 The microphone capture is not modelled: each of the capture loop's reads is
 given as an `Option<nat>`, `Some(rms)` for a read whose RMS loudness was
 computed and `None` for a read that raised and was swallowed.
 */
module Calibration {
  import opened Wrappers

  /** Lower clamp bound: detection is never made too sensitive. */
  const MinThreshold: int := 300
  /** Upper clamp bound: speech is never required to be implausibly loud. */
  const MaxThreshold: int := 3000
  /** Threshold returned when no sample could be collected. */
  const FallbackThreshold: int := 500
  /** Headroom factor applied to the noise floor. */
  const NoiseMultiplier: int := 5

  predicate SortedAsc(s: seq<int>) {
    forall i, j :: 0 <= i < j < |s| ==> s[i] <= s[j]
  }

  /* ---------------------------------------------------------------------- */
  /* Collecting samples                                                       */
  /* ---------------------------------------------------------------------- */

  /** The samples list of the capture loop: failed reads contribute nothing.
      `CollectSamplesCounts` adds that each successful reading is kept as
      often as it was read. */
  function CollectSamples(captured: seq<Option<nat>>): (samples: seq<nat>)
    ensures |samples| <= |captured|
    ensures (forall i :: 0 <= i < |captured| ==> captured[i].None?) <==> samples == []
    ensures forall i :: 0 <= i < |captured| && captured[i].Some? ==> captured[i].value in samples
    ensures forall v :: v in samples ==> Some(v) in captured
  {
    if captured == [] then []
    else
      var rest := CollectSamples(captured[1..]);
      assert forall i :: 1 <= i < |captured| ==> captured[i] == captured[1..][i - 1];
      match captured[0]
      case None => rest
      case Some(v) => [v] + rest
  }

  /** Every successful reading appears among the samples exactly as many
      times as it was read; the percentile index depends on these counts. */
  lemma {:induction false} CollectSamplesCounts(captured: seq<Option<nat>>)
    ensures forall v: nat :: multiset(CollectSamples(captured))[v] == multiset(captured)[Some(v)]
    decreases |captured|
  {
    if captured != [] {
      CollectSamplesCounts(captured[1..]);
      assert captured == [captured[0]] + captured[1..];
      KeptCounts(captured[0], CollectSamples(captured[1..]), captured[1..]);
    }
  }

  /** Prepending one read adds its value, if any, once to the samples. */
  lemma KeptCounts(head: Option<nat>, rest: seq<nat>, tail: seq<Option<nat>>)
    requires forall v: nat :: multiset(rest)[v] == multiset(tail)[Some(v)]
    ensures var samples := if head.Some? then [head.value] + rest else rest;
      forall v: nat :: multiset(samples)[v] == multiset([head] + tail)[Some(v)]
  {
    assert multiset([head] + tail) == multiset{head} + multiset(tail);
    if head.Some? {
      assert multiset([head.value] + rest) == multiset{head.value} + multiset(rest);
    }
  }

  /* ---------------------------------------------------------------------- */
  /* Sorting (Python's list.sort on ints)                                     */
  /* ---------------------------------------------------------------------- */

  function Insert(x: int, s: seq<int>): (r: seq<int>)
    requires SortedAsc(s)
    ensures SortedAsc(r)
    ensures multiset(r) == multiset(s) + multiset{x}
    ensures |r| == |s| + 1
  {
    if s == [] then [x]
    else if x <= s[0] then [x] + s
    else
      var tail := Insert(x, s[1..]);
      assert s == [s[0]] + s[1..];
      LowerBoundKept(s[0], x, s[1..], tail);
      [s[0]] + tail
  }

  /** A lower bound of `x` and of every element of `s` bounds every element
      of a sequence with the elements of `s` plus `x`. */
  lemma LowerBoundKept(lo: int, x: int, s: seq<int>, t: seq<int>)
    requires lo <= x
    requires forall i :: 0 <= i < |s| ==> lo <= s[i]
    requires multiset(t) == multiset(s) + multiset{x}
    ensures forall k :: 0 <= k < |t| ==> lo <= t[k]
  {
    forall k | 0 <= k < |t|
      ensures lo <= t[k]
    {
      assert t[k] in multiset(t);
      if t[k] != x {
        assert t[k] in multiset(s);
      }
    }
  }

  /** Ascending sort: the sorted permutation of `s`. */
  function Sort(s: seq<int>): (r: seq<int>)
    ensures SortedAsc(r)
    ensures multiset(r) == multiset(s)
    ensures |r| == |s|
  {
    if s == [] then []
    else
      assert s == [s[0]] + s[1..];
      Insert(s[0], Sort(s[1..]))
  }

  /* ---------------------------------------------------------------------- */
  /* Threshold                                                                */
  /* ---------------------------------------------------------------------- */

  /** Python's `int(n * 0.95)`, taken as exact integer arithmetic. */
  function PercentileIndex(n: nat): (i: nat)
    ensures i <= n
    ensures n > 0 ==> i < n
    ensures 100 * i <= 95 * n < 100 * (i + 1)
  {
    (n * 95) / 100
  }

  function Clamp(x: int): (r: int)
    ensures MinThreshold <= r <= MaxThreshold
    ensures MinThreshold <= x <= MaxThreshold ==> r == x
    ensures x < MinThreshold ==> r == MinThreshold
    ensures x > MaxThreshold ==> r == MaxThreshold
  {
    if x > MaxThreshold then MaxThreshold
    else if x < MinThreshold then MinThreshold
    else x
  }

  /** The 95th-percentile sample of the sorted samples. Because
      `PercentileIndex(n) < n` for every `n > 0`, the source's fallback to the
      last sample can never be taken and is not modelled. */
  function NoiseFloor(samples: seq<int>): (floor: int)
    requires |samples| > 0
    ensures floor in samples
  {
    var sorted := Sort(samples);
    assert sorted[PercentileIndex(|sorted|)] in multiset(sorted);
    sorted[PercentileIndex(|sorted|)]
  }

  /** The post-capture part of `calibrate_mic`. */
  function Threshold(samples: seq<int>): (t: int)
    ensures samples == [] ==> t == FallbackThreshold
    ensures samples != [] ==> MinThreshold <= t <= MaxThreshold
  {
    if samples == [] then FallbackThreshold
    else Clamp(NoiseMultiplier * NoiseFloor(samples))
  }

  /** The whole of `calibrate_mic`, given the outcome of every capture read. */
  function Calibrate(captured: seq<Option<nat>>): (t: int)
    ensures MinThreshold <= t <= MaxThreshold
    ensures (forall i :: 0 <= i < |captured| ==> captured[i].None?) ==> t == FallbackThreshold
  {
    Threshold(CollectSamples(captured))
  }

  /* ---------------------------------------------------------------------- */
  /* Order statistics: a definition of the noise floor that does not sort     */
  /* ---------------------------------------------------------------------- */

  /** Number of samples strictly below `v`, with multiplicity. */
  function CountBelow(s: seq<int>, v: int): nat {
    if s == [] then 0 else (if s[0] < v then 1 else 0) + CountBelow(s[1..], v)
  }

  /** Number of samples at most `v`, with multiplicity. */
  function CountAtMost(s: seq<int>, v: int): nat {
    if s == [] then 0 else (if s[0] <= v then 1 else 0) + CountAtMost(s[1..], v)
  }

  /** `v` is the `k`-th smallest element of `s` (counting from 0). */
  predicate IsOrderStatistic(s: seq<int>, k: nat, v: int) {
    CountBelow(s, v) <= k < CountAtMost(s, v)
  }

  lemma {:induction false} InsertCounts(x: int, s: seq<int>, v: int)
    requires SortedAsc(s)
    ensures CountBelow(Insert(x, s), v) == CountBelow(s, v) + (if x < v then 1 else 0)
    ensures CountAtMost(Insert(x, s), v) == CountAtMost(s, v) + (if x <= v then 1 else 0)
    decreases |s|
  {
    if s == [] {
    } else if x <= s[0] {
      assert ([x] + s)[1..] == s;
    } else {
      InsertCounts(x, s[1..], v);
      var r := Insert(x, s);
      assert r[1..] == Insert(x, s[1..]);
    }
  }

  /** Sorting preserves how many samples lie below or at any level. */
  lemma {:induction false} SortCounts(s: seq<int>, v: int)
    ensures CountBelow(Sort(s), v) == CountBelow(s, v)
    ensures CountAtMost(Sort(s), v) == CountAtMost(s, v)
    decreases |s|
  {
    if s != [] {
      SortCounts(s[1..], v);
      InsertCounts(s[0], Sort(s[1..]), v);
    }
  }

  /** In a sorted sequence, the element at index `k` is its `k`-th smallest. */
  lemma {:induction false} SortedIndexIsOrderStatistic(t: seq<int>, k: nat)
    requires SortedAsc(t)
    requires k < |t|
    ensures IsOrderStatistic(t, k, t[k])
    decreases |t|
  {
    if k == 0 {
      NoneBelowMinimum(t[1..], t[0]);
    } else {
      SortedIndexIsOrderStatistic(t[1..], k - 1);
      assert t[1..][k - 1] == t[k];
    }
  }

  lemma {:induction false} NoneBelowMinimum(s: seq<int>, v: int)
    requires forall i :: 0 <= i < |s| ==> v <= s[i]
    ensures CountBelow(s, v) == 0
    decreases |s|
  {
    if s != [] {
      NoneBelowMinimum(s[1..], v);
    }
  }

  /** Everything at most `v` is strictly below any `w > v`. */
  lemma {:induction false} CountMonotone(s: seq<int>, v: int, w: int)
    requires v < w
    ensures CountAtMost(s, v) <= CountBelow(s, w)
    decreases |s|
  {
    if s != [] {
      CountMonotone(s[1..], v, w);
    }
  }

  /** The 95th-percentile noise floor is exactly the order statistic at index
      `PercentileIndex(|samples|)`: no other value qualifies, and it does. */
  lemma NoiseFloorIsOrderStatistic(samples: seq<int>, v: int)
    requires |samples| > 0
    ensures v == NoiseFloor(samples) <==> IsOrderStatistic(samples, PercentileIndex(|samples|), v)
  {
    var t := Sort(samples);
    var k := PercentileIndex(|samples|);
    SortCounts(samples, v);
    SortCounts(samples, t[k]);
    SortedIndexIsOrderStatistic(t, k);
    if v < t[k] {
      CountMonotone(t, v, t[k]);
    } else if t[k] < v {
      CountMonotone(t, t[k], v);
    }
  }

  /** With at least one sample, the threshold is five times the sample that
      95% of the samples do not exceed, clamped to [300, 3000]. */
  lemma ThresholdIsClampedPercentile(samples: seq<int>, v: int)
    requires |samples| > 0 && IsOrderStatistic(samples, PercentileIndex(|samples|), v)
    ensures Threshold(samples) == Clamp(NoiseMultiplier * v)
  {
    NoiseFloorIsOrderStatistic(samples, v);
  }

  /** With at least one successful read, `calibrate_mic` returns five times
      the successful reading that 95% of the successful readings (counted with
      multiplicity) do not exceed, clamped to [300, 3000]. */
  lemma CalibrateIsClampedPercentile(captured: seq<Option<nat>>, i: nat, v: int)
    requires i < |captured| && captured[i].Some?
    requires IsOrderStatistic(CollectSamples(captured), PercentileIndex(|CollectSamples(captured)|), v)
    ensures Calibrate(captured) == Clamp(NoiseMultiplier * v)
  {
    ThresholdIsClampedPercentile(CollectSamples(captured), v);
  }

  /** `n` identical samples `L` give `clamp(5 L, 300, 3000)`. */
  lemma ThresholdOfConstantSamples(samples: seq<int>, level: int)
    requires |samples| > 0
    requires forall i :: 0 <= i < |samples| ==> samples[i] == level
    ensures Threshold(samples) == Clamp(NoiseMultiplier * level)
  {
    NoneBelowMinimum(samples, level);
    AllAtMost(samples, level);
    ThresholdIsClampedPercentile(samples, level);
  }

  lemma {:induction false} AllAtMost(s: seq<int>, v: int)
    requires forall i :: 0 <= i < |s| ==> s[i] <= v
    ensures CountAtMost(s, v) == |s|
    decreases |s|
  {
    if s != [] {
      AllAtMost(s[1..], v);
    }
  }
}
