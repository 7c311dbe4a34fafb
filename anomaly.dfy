/** Volume anomaly flags (`detect_anomalies` in tradeqc.py): a bar is
    anomalous when its volume exceeds `k` times its rolling median volume,
    strictly, and the median is present and non-zero. */
module Anomalies {
  import opened Wrappers
  import opened Seqs
  import opened Sorting
  import opened Bars
  import opened Rolling

  /** The flag for one `(vol, med)` pair of the `zip`. */
  function IsAnomaly(vol: real, med: Option<real>, k: real): bool
  {
    match med
    case None => false
    case Some(m) => m != 0.0 && vol > k * m
  }

  /** `detect_anomalies(volumes, medians, k)`: one flag per pair of the
      `zip`, which stops at the shorter input. */
  method DetectAnomalies(volumes: seq<real>, medians: seq<Option<real>>, k: real) returns (flags: seq<bool>)
    ensures |flags| == MinInt(|volumes|, |medians|)
    ensures forall i :: 0 <= i < |flags| ==>
      (flags[i] <==> medians[i].Some? && medians[i].value != 0.0 && volumes[i] > k * medians[i].value)
  {
    flags := [];
    var n := MinInt(|volumes|, |medians|);
    for i := 0 to n
      invariant |flags| == i
      invariant forall j :: 0 <= j < i ==> flags[j] == IsAnomaly(volumes[j], medians[j], k)
    {
      var med := medians[i];
      if med.None? || med.value == 0.0 {
        flags := flags + [false];
      } else {
        flags := flags + [volumes[i] > k * med.value];
      }
    }
  }

  /** The threshold is strict: a volume of exactly `k` times the median is
      not flagged, and any volume above it is. */
  lemma AnomalyStrict(med: real, k: real, eps: real)
    requires med != 0.0 && eps > 0.0
    ensures !IsAnomaly(k * med, Some(med), k)
    ensures IsAnomaly(k * med + eps, Some(med), k)
  {
  }

  /** The flag is monotone: a larger volume stays flagged, and with a
      positive median so does a smaller threshold factor. */
  lemma AnomalyMonotone(vol: real, vol': real, med: Option<real>, k: real, k': real)
    ensures vol <= vol' && IsAnomaly(vol, med, k) ==> IsAnomaly(vol', med, k)
    ensures med.Some? && med.value > 0.0 && k' <= k && IsAnomaly(vol, med, k) ==> IsAnomaly(vol, med, k')
  {
    if med.Some? && med.value > 0.0 && k' <= k {
      assert (k - k') * med.value >= 0.0;
    }
  }

  /** Without a median, or with a zero median, nothing is flagged. */
  lemma NoMedianNoAnomaly(vol: real, k: real)
    ensures !IsAnomaly(vol, None, k) && !IsAnomaly(vol, Some(0.0), k)
  {
  }

  /** The median window includes the bar itself. With `M = 1` the median is
      the bar's own volume, so for `k >= 1` no bar of non-negative volume is
      ever flagged. */
  lemma WindowOneNeverFlags(bars: seq<Bar>, i: int, k: real)
    requires 0 <= i < |bars| && k >= 1.0 && bars[i].volume >= 0.0
    ensures !IsAnomaly(bars[i].volume, Some(MedianVolumeAt(bars, 1, i)), k)
  {
    MedianWindowOne(bars, i);
    var v := bars[i].volume;
    MulBounds(1.0, k, k, v);
  }

  /** Three bars of volumes 50, 5000 and 50 with `M = 3`: the 5000 bar's own
      volume enters its median, which is the mean of 50 and 5000, 2525, so
      with `k = 10` it is not flagged; against the previous bar alone it
      would be. */
  lemma SpikeScenario(bars: seq<Bar>)
    requires |bars| == 3
    requires bars[0].volume == 50.0 && bars[1].volume == 5000.0 && bars[2].volume == 50.0
    ensures MedianVolumeAt(bars, 3, 0) == 50.0
    ensures MedianVolumeAt(bars, 3, 1) == 2525.0
    ensures MedianVolumeAt(bars, 3, 2) == 50.0
    ensures forall i :: 0 <= i < 3 ==> !IsAnomaly(bars[i].volume, Some(MedianVolumeAt(bars, 3, i)), 10.0)
    ensures IsAnomaly(bars[1].volume, Some(bars[0].volume), 10.0)
  {
    SpikeFirst(bars);
    SpikeMiddle(bars);
    SpikeLast(bars);
  }

  lemma SpikeFirst(bars: seq<Bar>)
    requires |bars| == 3 && bars[0].volume == 50.0
    ensures MedianVolumeAt(bars, 3, 0) == 50.0
  {
    assert Volumes(Window(bars, 0, 3)) == [50.0];
    MedianSingle(50.0);
  }

  lemma SpikeMiddle(bars: seq<Bar>)
    requires |bars| == 3 && bars[0].volume == 50.0 && bars[1].volume == 5000.0
    ensures MedianVolumeAt(bars, 3, 1) == 2525.0
  {
    var w := Volumes(Window(bars, 1, 3));
    assert w == [50.0, 5000.0];
    assert SortedBy([50.0, 5000.0], Id);
    MedianOfSorted(w, [50.0, 5000.0]);
  }

  lemma SpikeLast(bars: seq<Bar>)
    requires |bars| == 3
    requires bars[0].volume == 50.0 && bars[1].volume == 5000.0 && bars[2].volume == 50.0
    ensures MedianVolumeAt(bars, 3, 2) == 50.0
  {
    var w := Volumes(Window(bars, 2, 3));
    assert w == [50.0, 5000.0, 50.0];
    var s := [50.0, 50.0, 5000.0];
    assert SortedBy(s, Id);
    assert multiset(s) == multiset(w);
    MedianOfSorted(w, s);
  }
}
