/** Trailing-window indicators over one instrument's bars
    (`compute_rolling_vwap` and `compute_rolling_median_volume` in
    tradeqc.py). Both windows are the Python slice
    `bars[max(0, i - w + 1) : i + 1]`. */
module Rolling {
  import opened Wrappers
  import opened Seqs
  import opened Sorting
  import opened Cleaning
  import opened Bars

  /** `s[max(0, i - w + 1) : i + 1]`: the last `w` elements up to and
      including position `i`, clamped at the front; Python yields the empty
      slice when the start lies past the end, which happens for `w <= 0`. */
  function Window<T>(s: seq<T>, i: int, w: int): (r: seq<T>)
    requires 0 <= i < |s|
    ensures |r| == if w <= 0 then 0 else MinInt(w, i + 1)
    ensures w > 0 ==> r == s[i + 1 - |r|..i + 1]
  {
    var start := MaxInt(0, i - w + 1);
    if start <= i + 1 then s[start..i + 1] else []
  }

  /** With a window at least as long as the prefix, the window is the whole prefix. */
  lemma WindowWholePrefix<T>(s: seq<T>, i: int, w: int)
    requires 0 <= i < |s| && w >= i + 1
    ensures Window(s, i, w) == s[..i + 1]
  {
  }

  /** The VWAP of one window: `Σ pv_sum / Σ volume`, absent when the volume
      sum is zero. */
  function VwapOf(window: seq<Bar>): (r: Option<real>)
    ensures r.None? <==> SumOf(window, BarVolume) == 0.0
  {
    var totalVol := SumOf(window, BarVolume);
    if totalVol == 0.0 then None else Some(SumOf(window, BarPv) / totalVol)
  }

  /** `compute_rolling_vwap(bars, n)`: one value per bar. */
  method RollingVwap(bars: seq<Bar>, n: int) returns (vwaps: seq<Option<real>>)
    ensures |vwaps| == |bars|
    ensures forall i :: 0 <= i < |bars| ==> vwaps[i] == VwapOf(Window(bars, i, n))
  {
    vwaps := [];
    for i := 0 to |bars|
      invariant |vwaps| == i
      invariant forall j :: 0 <= j < i ==> vwaps[j] == VwapOf(Window(bars, j, n))
    {
      var window := Window(bars, i, n);
      var totalVol := SumOf(window, BarVolume);
      if totalVol == 0.0 {
        vwaps := vwaps + [None];
      } else {
        var totalPv := SumOf(window, BarPv);
        vwaps := vwaps + [Some(totalPv / totalVol)];
      }
    }
  }

  /** When every bar carries positive volume (as every bar built from clean
      trades does), a non-empty window always has a VWAP. */
  lemma VwapDefined(bars: seq<Bar>, i: int, n: int)
    requires 0 <= i < |bars| && n > 0
    requires forall j :: 0 <= j < |bars| ==> bars[j].volume > 0.0
    ensures VwapOf(Window(bars, i, n)).Some?
  {
    var w := Window(bars, i, n);
    forall j | 0 <= j < |w| ensures BarVolume(w[j]) > 0.0 {
      assert w[j] == bars[i + 1 - |w| + j];
    }
    PositiveSum(w, BarVolume);
  }

  /** A bar's `pv_sum` is its volume times a price between its low and its
      high: `low * volume <= pv_sum <= high * volume`. */
  ghost predicate PriceWeighted(b: Bar)
  {
    b.volume >= 0.0 && b.low * b.volume <= b.pvSum <= b.high * b.volume
  }

  /** Trades whose prices lie between `lo` and `hi` have a notional between
      `lo` and `hi` times their volume. */
  lemma TickWeightBounds(ticks: seq<Tick>, lo: real, hi: real)
    requires forall i :: 0 <= i < |ticks| ==> lo <= ticks[i].price <= hi && ticks[i].volume >= 0.0
    ensures lo * SumOf(ticks, TickVolume) <= SumOf(ticks, TickNotional) <= hi * SumOf(ticks, TickVolume)
  {
    TickLowerBound(ticks, lo);
    TickUpperBound(ticks, hi);
  }

  lemma TickLowerBound(ticks: seq<Tick>, lo: real)
    requires forall i :: 0 <= i < |ticks| ==> lo <= ticks[i].price && ticks[i].volume >= 0.0
    ensures lo * SumOf(ticks, TickVolume) <= SumOf(ticks, TickNotional)
  {
    forall i | 0 <= i < |ticks| ensures lo * TickVolume(ticks[i]) <= TickNotional(ticks[i]) {
      MulBounds(lo, ticks[i].price, ticks[i].price, ticks[i].volume);
    }
    WeightedSumAtLeast(ticks, TickVolume, TickNotional, lo);
  }

  lemma TickUpperBound(ticks: seq<Tick>, hi: real)
    requires forall i :: 0 <= i < |ticks| ==> ticks[i].price <= hi && ticks[i].volume >= 0.0
    ensures SumOf(ticks, TickNotional) <= hi * SumOf(ticks, TickVolume)
  {
    forall i | 0 <= i < |ticks| ensures TickNotional(ticks[i]) <= hi * TickVolume(ticks[i]) {
      MulBounds(ticks[i].price, hi, ticks[i].price, ticks[i].volume);
    }
    WeightedSumAtMost(ticks, TickVolume, TickNotional, hi);
  }

  /** Every bar reduced from trades with non-negative volumes is price-weighted. */
  lemma MakeBarPriceWeighted(minute: int, ticks: seq<Tick>)
    requires |ticks| > 0
    requires forall i :: 0 <= i < |ticks| ==> ticks[i].volume >= 0.0
    ensures PriceWeighted(MakeBar(minute, ticks))
  {
    MakeBarMeaning(minute, ticks);
    PriceWeightedOf(MakeBar(minute, ticks), ticks);
  }

  /** A bar whose sums are those of trades priced between its low and its
      high, with non-negative volumes, is price-weighted. */
  lemma PriceWeightedOf(b: Bar, ticks: seq<Tick>)
    requires b.volume == SumOf(ticks, TickVolume) && b.pvSum == SumOf(ticks, TickNotional)
    requires forall i :: 0 <= i < |ticks| ==> b.low <= ticks[i].price <= b.high && ticks[i].volume >= 0.0
    ensures PriceWeighted(b)
  {
    TickWeightBounds(ticks, b.low, b.high);
    forall i | 0 <= i < |ticks| ensures TickVolume(ticks[i]) >= 0.0 { }
    NonNegativeSum(ticks, TickVolume);
  }

  /** What every bar built from clean trades satisfies: positive volume, a
      `pv_sum` weighted by prices between its low and its high, and a low at
      most its high. */
  ghost predicate SoundBar(b: Bar)
  {
    b.volume > 0.0 && PriceWeighted(b) && b.low <= b.high
  }

  /** Every tick in a bucket of valid trades has positive volume. */
  lemma {:induction false} BucketTicksPositive(trades: seq<Trade>, key: BucketKey)
    requires forall t :: t in trades ==> IsValidTrade(t)
    ensures forall i :: 0 <= i < |BucketTicks(trades, key)| ==> BucketTicks(trades, key)[i].volume > 0.0
  {
    if trades != [] {
      var n := |trades| - 1;
      assert forall t :: t in trades[..n] ==> t in trades;
      BucketTicksPositive(trades[..n], key);
      assert IsValidTrade(trades[n]);
      var front := BucketTicks(trades[..n], key);
      var r := BucketTicks(trades, key);
      assert r == front + (if KeyOf(trades[n]) == key then [TickOf(trades[n])] else []);
      forall i | 0 <= i < |r| ensures r[i].volume > 0.0 {
        if i < |front| {
          assert r[i] == front[i];
        }
      }
    }
  }

  /** Reducing a bucket of trades with positive volumes gives a sound bar. */
  lemma MakeBarSound(minute: int, ticks: seq<Tick>)
    requires |ticks| > 0
    requires forall i :: 0 <= i < |ticks| ==> ticks[i].volume > 0.0
    ensures SoundBar(MakeBar(minute, ticks))
  {
    MakeBarMeaning(minute, ticks);
    MakeBarPriceWeighted(minute, ticks);
    MakeBarOrdered(minute, ticks);
    forall i | 0 <= i < |ticks| ensures TickVolume(ticks[i]) > 0.0 { }
    PositiveSum(ticks, TickVolume);
  }

  /** Every bar built from valid trades is sound. */
  lemma BarsOfValidTrades(trades: seq<Trade>, instruments: map<string, seq<Bar>>)
    requires BarsOf(trades, instruments)
    requires forall t :: t in trades ==> IsValidTrade(t)
    ensures forall inst, j :: inst in instruments && 0 <= j < |instruments[inst]| ==> SoundBar(instruments[inst][j])
  {
    forall inst, j | inst in instruments && 0 <= j < |instruments[inst]| ensures SoundBar(instruments[inst][j]) {
      var b := instruments[inst][j];
      assert IsBarOf(trades, inst, b);
      var key := BucketKey(inst, b.minuteStart);
      BucketTicksPositive(trades, key);
      MakeBarSound(b.minuteStart, BucketTicks(trades, key));
    }
  }

  /** Over sound bars, the VWAP of every window of positive size is defined and
      lies between the window's lowest low and highest high. */
  lemma SoundVwap(bars: seq<Bar>, i: int, n: int)
    requires 0 <= i < |bars| && n > 0
    requires forall j :: 0 <= j < |bars| ==> SoundBar(bars[j])
    ensures VwapOf(Window(bars, i, n)).Some?
    ensures MinOf(Window(bars, i, n), BarLow) <= VwapOf(Window(bars, i, n)).value <= MaxOf(Window(bars, i, n), BarHigh)
  {
    VwapDefined(bars, i, n);
    var w := Window(bars, i, n);
    forall j | 0 <= j < |w| ensures PriceWeighted(w[j]) {
      assert w[j] == bars[i + 1 - |w| + j];
    }
    VwapWithinRange(w);
  }

  /** Bars whose lows and highs lie between `lo` and `hi` have a summed
      `pv_sum` between `lo` and `hi` times their summed volume. */
  lemma BarWeightBounds(window: seq<Bar>, lo: real, hi: real)
    requires forall j :: 0 <= j < |window| ==> PriceWeighted(window[j]) && lo <= window[j].low && window[j].high <= hi
    ensures lo * SumOf(window, BarVolume) <= SumOf(window, BarPv) <= hi * SumOf(window, BarVolume)
  {
    BarLowerBound(window, lo);
    BarUpperBound(window, hi);
  }

  lemma BarLowerBound(window: seq<Bar>, lo: real)
    requires forall j :: 0 <= j < |window| ==> PriceWeighted(window[j]) && lo <= window[j].low
    ensures lo * SumOf(window, BarVolume) <= SumOf(window, BarPv)
  {
    forall j | 0 <= j < |window| ensures lo * BarVolume(window[j]) <= BarPv(window[j]) {
      BarLowOne(window[j], lo);
    }
    WeightedSumAtLeast(window, BarVolume, BarPv, lo);
  }

  lemma BarUpperBound(window: seq<Bar>, hi: real)
    requires forall j :: 0 <= j < |window| ==> PriceWeighted(window[j]) && window[j].high <= hi
    ensures SumOf(window, BarPv) <= hi * SumOf(window, BarVolume)
  {
    forall j | 0 <= j < |window| ensures BarPv(window[j]) <= hi * BarVolume(window[j]) {
      BarHighOne(window[j], hi);
    }
    WeightedSumAtMost(window, BarVolume, BarPv, hi);
  }

  lemma BarLowOne(b: Bar, lo: real)
    requires PriceWeighted(b) && lo <= b.low
    ensures lo * BarVolume(b) <= BarPv(b)
  {
    MulBounds(lo, b.low, lo, b.volume);
  }

  lemma BarHighOne(b: Bar, hi: real)
    requires PriceWeighted(b) && b.high <= hi
    ensures BarPv(b) <= hi * BarVolume(b)
  {
    MulBounds(b.high, hi, hi, b.volume);
  }

  /** The VWAP of a window of price-weighted bars lies between the lowest low
      and the highest high of the window. */
  lemma VwapWithinRange(window: seq<Bar>)
    requires |window| > 0
    requires forall j :: 0 <= j < |window| ==> PriceWeighted(window[j])
    ensures VwapOf(window).Some? ==>
      MinOf(window, BarLow) <= VwapOf(window).value <= MaxOf(window, BarHigh)
  {
    MinOfIsLeast(window, BarLow);
    MaxOfIsGreatest(window, BarHigh);
    VwapBetween(window, MinOf(window, BarLow), MaxOf(window, BarHigh));
  }

  /** The VWAP of price-weighted bars whose prices lie between `lo` and `hi`
      lies between `lo` and `hi`. */
  lemma VwapBetween(window: seq<Bar>, lo: real, hi: real)
    requires forall j :: 0 <= j < |window| ==> PriceWeighted(window[j]) && lo <= window[j].low && window[j].high <= hi
    ensures VwapOf(window).Some? ==> lo <= VwapOf(window).value <= hi
  {
    if SumOf(window, BarVolume) != 0.0 {
      WindowVolumeNonNegative(window);
      BarWeightBounds(window, lo, hi);
      DivisionBounds(SumOf(window, BarPv), SumOf(window, BarVolume), lo, hi);
    }
  }

  lemma WindowVolumeNonNegative(window: seq<Bar>)
    requires forall j :: 0 <= j < |window| ==> PriceWeighted(window[j])
    ensures SumOf(window, BarVolume) >= 0.0
  {
    forall j | 0 <= j < |window| ensures BarVolume(window[j]) >= 0.0 { }
    NonNegativeSum(window, BarVolume);
  }

  lemma DivisionBounds(p: real, v: real, lo: real, hi: real)
    requires v > 0.0 && lo * v <= p <= hi * v
    ensures lo <= p / v <= hi
  {
    var q := p / v;
    assert q * v == p;
    assert (q - lo) * v >= 0.0;
    assert (hi - q) * v >= 0.0;
  }

  /** All ticks of a sequence of buckets, in order. */
  function Flatten(groups: seq<seq<Tick>>): seq<Tick>
  {
    if groups == [] then [] else groups[0] + Flatten(groups[1..])
  }

  /** The trade-level VWAP of a set of ticks. */
  function TradeVwap(ticks: seq<Tick>): Option<real>
  {
    var vol := SumOf(ticks, TickVolume);
    if vol == 0.0 then None else Some(SumOf(ticks, TickNotional) / vol)
  }

  /** Summing `volume` and `pv_sum` over bars loses nothing: the VWAP of a
      window equals the VWAP of all trades in the window's buckets. */
  lemma {:induction false} VwapIsTradeVwap(window: seq<Bar>, groups: seq<seq<Tick>>)
    requires |window| == |groups|
    requires forall j :: 0 <= j < |groups| ==> |groups[j]| > 0 && window[j] == MakeBar(window[j].minuteStart, groups[j])
    ensures SumOf(window, BarVolume) == SumOf(Flatten(groups), TickVolume)
    ensures SumOf(window, BarPv) == SumOf(Flatten(groups), TickNotional)
    ensures VwapOf(window) == TradeVwap(Flatten(groups))
  {
    if window != [] {
      VwapIsTradeVwap(window[1..], groups[1..]);
      MakeBarMeaning(window[0].minuteStart, groups[0]);
      SumOfAppend(groups[0], Flatten(groups[1..]), TickVolume);
      SumOfAppend(groups[0], Flatten(groups[1..]), TickNotional);
    }
  }

  /** The volume of every bar, `[b["volume"] for b in window]`. */
  function Volumes(bars: seq<Bar>): (r: seq<real>)
    ensures |r| == |bars|
    ensures forall j :: 0 <= j < |bars| ==> r[j] == bars[j].volume
  {
    seq(|bars|, j requires 0 <= j < |bars| => bars[j].volume)
  }

  function Id(x: real): real { x }

  /** `statistics.median`: the middle of the sorted data, or the mean of the
      two middle values when the count is even. */
  function Median(xs: seq<real>): real
    requires |xs| > 0
  {
    var s := SortBy(xs, Id);
    var n := |s|;
    if n % 2 == 1 then s[n / 2] else (s[n / 2 - 1] + s[n / 2]) / 2.0
  }

  /** The head of an ascending sequence is at most any of its values. */
  lemma SortedHeadLeast(s: seq<real>, x: real)
    requires SortedBy(s, Id) && x in s
    ensures s[0] <= x
  {
    var i :| 0 <= i < |s| && s[i] == x;
    if i > 0 {
      assert Id(s[0]) <= Id(s[i]);
    }
  }

  lemma SortedTail(s: seq<real>)
    requires SortedBy(s, Id) && |s| > 0
    ensures SortedBy(s[1..], Id)
  {
    var t := s[1..];
    forall i, j | 0 <= i < j < |t| ensures Id(t[i]) <= Id(t[j]) {
      assert t[i] == s[i + 1] && t[j] == s[j + 1];
    }
  }

  /** Two ascending sequences holding the same values are equal. */
  lemma {:induction false} SortedUnique(a: seq<real>, b: seq<real>)
    requires SortedBy(a, Id) && SortedBy(b, Id) && multiset(a) == multiset(b)
    ensures a == b
  {
    assert |a| == |multiset(a)| == |multiset(b)| == |b|;
    if a != [] {
      SortedSameHead(a, b);
      SameTail(a, b);
      SortedTail(a);
      SortedTail(b);
      SortedUnique(a[1..], b[1..]);
      assert a == [a[0]] + a[1..];
      assert b == [b[0]] + b[1..];
    }
  }

  /** Two non-empty ascending sequences with the same values start alike. */
  lemma SortedSameHead(a: seq<real>, b: seq<real>)
    requires SortedBy(a, Id) && SortedBy(b, Id) && multiset(a) == multiset(b) && |a| > 0 && |b| > 0
    ensures a[0] == b[0]
  {
    assert a[0] in multiset(b);
    assert b[0] in multiset(a);
    SortedHeadLeast(b, a[0]);
    SortedHeadLeast(a, b[0]);
  }

  /** Removing equal heads from sequences with the same values leaves tails with the same values. */
  lemma SameTail<T>(a: seq<T>, b: seq<T>)
    requires |a| > 0 && |b| > 0 && a[0] == b[0] && multiset(a) == multiset(b)
    ensures multiset(a[1..]) == multiset(b[1..])
  {
    assert a == [a[0]] + a[1..];
    assert b == [b[0]] + b[1..];
    assert multiset(a[1..]) == multiset(a) - multiset{a[0]};
    assert multiset(b[1..]) == multiset(b) - multiset{b[0]};
  }

  /** The median depends only on the values, not their order: any ascending
      arrangement `s` of `xs` gives it. */
  lemma MedianOfSorted(xs: seq<real>, s: seq<real>)
    requires |xs| > 0 && SortedBy(s, Id) && multiset(s) == multiset(xs)
    ensures |s| == |xs|
    ensures Median(xs) == if |s| % 2 == 1 then s[|s| / 2] else (s[|s| / 2 - 1] + s[|s| / 2]) / 2.0
  {
    assert |s| == |multiset(s)| == |multiset(xs)| == |xs|;
    SortBySorted(xs, Id);
    SortByPermutes(xs, Id);
    SortedUnique(SortBy(xs, Id), s);
  }

  /** Reordering the values does not change the median. */
  lemma MedianPermutation(xs: seq<real>, ys: seq<real>)
    requires |xs| > 0 && multiset(xs) == multiset(ys)
    ensures |ys| > 0 && Median(xs) == Median(ys)
  {
    assert |ys| == |multiset(ys)| == |multiset(xs)| == |xs|;
    SortBySorted(ys, Id);
    SortByPermutes(ys, Id);
    MedianOfSorted(xs, SortBy(ys, Id));
  }

  /** A one-value median is that value. */
  lemma MedianSingle(x: real)
    ensures Median([x]) == x
  {
  }

  /** An even count: the mean of the two middle values in ascending order. */
  lemma MedianEven(xs: seq<real>, s: seq<real>)
    requires |xs| > 0 && |xs| % 2 == 0 && SortedBy(s, Id) && multiset(s) == multiset(xs)
    ensures |s| == |xs| && Median(xs) == (s[|xs| / 2 - 1] + s[|xs| / 2]) / 2.0
  {
    MedianOfSorted(xs, s);
  }

  /** The median lies between the least and the greatest value. */
  lemma MedianBounds(xs: seq<real>)
    requires |xs| > 0
    ensures MinOf(xs, Id) <= Median(xs) <= MaxOf(xs, Id)
  {
    var s := SortBy(xs, Id);
    SortBySameElements(xs, Id);
    MinOfIsLeast(xs, Id);
    MaxOfIsGreatest(xs, Id);
    var n := |s|;
    assert s[n / 2] in xs;
    assert Id(s[n / 2]) == s[n / 2];
    if n % 2 == 0 {
      assert s[n / 2 - 1] in xs;
      assert Id(s[n / 2 - 1]) == s[n / 2 - 1];
    }
  }

  /** The rolling median volume at bar `i`. */
  function MedianVolumeAt(bars: seq<Bar>, m: int, i: int): real
    requires 0 <= i < |bars| && m > 0
  {
    Median(Volumes(Window(bars, i, m)))
  }

  /** `compute_rolling_median_volume(bars, m)`. With `m <= 0` the first window
      is empty and `statistics.median` raises, modelled as `None`. */
  method RollingMedianVolume(bars: seq<Bar>, m: int) returns (medians: Option<seq<real>>)
    ensures medians.None? <==> m <= 0 && |bars| > 0
    ensures medians.Some? ==> |medians.value| == |bars|
    ensures medians.Some? ==> m > 0 || |bars| == 0
    ensures medians.Some? ==> forall i :: 0 <= i < |bars| ==> medians.value[i] == MedianVolumeAt(bars, m, i)
  {
    var result: seq<real> := [];
    for i := 0 to |bars|
      invariant m > 0 || i == 0
      invariant |result| == i
      invariant forall j :: 0 <= j < i ==> result[j] == MedianVolumeAt(bars, m, j)
    {
      var window := Window(bars, i, m);
      if |window| == 0 {
        return None;
      }
      result := result + [Median(Volumes(window))];
    }
    medians := Some(result);
  }

  /** A window of one bar: the median is that bar's own volume. */
  lemma MedianWindowOne(bars: seq<Bar>, i: int)
    requires 0 <= i < |bars|
    ensures MedianVolumeAt(bars, 1, i) == bars[i].volume
  {
    assert Volumes(Window(bars, i, 1)) == [bars[i].volume];
    MedianSingle(bars[i].volume);
  }

  /** Every rolling median lies between the least and the greatest volume of its window. */
  lemma RollingMedianBounds(bars: seq<Bar>, i: int, m: int)
    requires 0 <= i < |bars| && m > 0
    ensures var v := Volumes(Window(bars, i, m));
      |v| > 0 && MinOf(v, Id) <= MedianVolumeAt(bars, m, i) <= MaxOf(v, Id)
  {
    MedianBounds(Volumes(Window(bars, i, m)));
  }
}
