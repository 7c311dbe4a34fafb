/** One-minute OHLCV aggregation (`build_ohlcv_bars` in tradeqc.py). The
    clean trades are grouped by (instrument, minute), each group is reduced to
    a bar, and each instrument's bars are sorted by minute. */
module Bars {
  import opened Seqs
  import opened Sorting
  import opened Cleaning

  /** Timestamps are microseconds since the epoch, the resolution of Python's `datetime`. */
  const MicrosPerMinute: int := 60_000_000

  /** `dt.replace(second=0, microsecond=0)`: the start of the enclosing minute. */
  function MinuteStart(ts: int): (m: int)
    ensures m <= ts < m + MicrosPerMinute
    ensures m % MicrosPerMinute == 0
  {
    ts - ts % MicrosPerMinute
  }

  /** The tuple `(dt, price, volume)` appended to a bucket. */
  datatype Tick = Tick(ts: int, price: real, volume: real)

  datatype BucketKey = BucketKey(instrument: string, minute: int)

  datatype Bar = Bar(minuteStart: int, open: real, high: real, low: real, close: real, volume: real, pvSum: real)

  function TickTime(t: Tick): real { t.ts as real }
  function TickPrice(t: Tick): real { t.price }
  function TickVolume(t: Tick): real { t.volume }
  function TickNotional(t: Tick): real { t.price * t.volume }

  function BarMinute(b: Bar): real { b.minuteStart as real }
  function BarVolume(b: Bar): real { b.volume }
  function BarPv(b: Bar): real { b.pvSum }
  function BarLow(b: Bar): real { b.low }
  function BarHigh(b: Bar): real { b.high }

  function KeyOf(t: Trade): BucketKey
  {
    BucketKey(t.instrument, MinuteStart(t.timestamp))
  }

  function TickOf(t: Trade): Tick
  {
    Tick(t.timestamp, t.price, t.volume)
  }

  /** `buckets[key]` once the trades `trades` have been read: the ticks of
      the trades with that key, in input order. */
  function BucketTicks(trades: seq<Trade>, key: BucketKey): seq<Tick>
  {
    if trades == [] then []
    else
      var n := |trades| - 1;
      BucketTicks(trades[..n], key) + (if KeyOf(trades[n]) == key then [TickOf(trades[n])] else [])
  }

  /** The reduction of one bucket: sort by exact timestamp (stable), then take
      the first and last prices, the price extrema and the two sums. */
  function MakeBar(minute: int, ticks: seq<Tick>): Bar
    requires |ticks| > 0
  {
    var sorted := SortBy(ticks, TickTime);
    Bar(minute, sorted[0].price, MaxOf(sorted, TickPrice), MinOf(sorted, TickPrice), sorted[|sorted| - 1].price,
        SumOf(sorted, TickVolume), SumOf(sorted, TickNotional))
  }

  /** What a bar says about its bucket: `open` and `close` are the prices of
      the first of the earliest and the last of the latest trades (ties in
      timestamp keep input order), `high` and `low` are the price extrema, and
      `volume` and `pv_sum` are the sums over all trades of the bucket. */
  lemma MakeBarMeaning(minute: int, ticks: seq<Tick>)
    requires |ticks| > 0
    ensures var b := MakeBar(minute, ticks);
      && b.minuteStart == minute
      && b.volume == SumOf(ticks, TickVolume) && b.pvSum == SumOf(ticks, TickNotional)
      && (forall i :: 0 <= i < |ticks| ==> b.low <= ticks[i].price <= b.high)
      && (exists i :: 0 <= i < |ticks| && b.low == ticks[i].price)
      && (exists i :: 0 <= i < |ticks| && b.high == ticks[i].price)
      && (exists j :: IsFirstLeast(ticks, TickTime, j) && b.open == ticks[j].price)
      && (exists j :: IsLastGreatest(ticks, TickTime, j) && b.close == ticks[j].price)
  {
    var sorted := SortBy(ticks, TickTime);
    SortByHead(ticks, TickTime);
    SortByLast(ticks, TickTime);
    SortBySameElements(ticks, TickTime);
    SortBySum(ticks, TickTime, TickVolume);
    SortBySum(ticks, TickTime, TickNotional);
    MinOfSameElements(sorted, ticks, TickPrice);
    MaxOfSameElements(sorted, ticks, TickPrice);
    MinOfIsLeast(ticks, TickPrice);
    MaxOfIsGreatest(ticks, TickPrice);
  }

  /** `low <= open, close <= high` for every bar. */
  lemma MakeBarOrdered(minute: int, ticks: seq<Tick>)
    requires |ticks| > 0
    ensures var b := MakeBar(minute, ticks);
      b.low <= b.open <= b.high && b.low <= b.close <= b.high
  {
    MakeBarMeaning(minute, ticks);
  }

  /** `b` is the bar of the non-empty bucket `(inst, b.minuteStart)` of `trades`. */
  ghost predicate IsBarOf(trades: seq<Trade>, inst: string, b: Bar)
  {
    var ticks := BucketTicks(trades, BucketKey(inst, b.minuteStart));
    |ticks| > 0 && b == MakeBar(b.minuteStart, ticks)
  }

  /** `buckets` after the first loop has read the trades `read`. */
  ghost predicate Grouped(read: seq<Trade>, buckets: map<BucketKey, seq<Tick>>)
  {
    && buckets.Keys == (set t | t in read :: KeyOf(t))
    && (forall key :: key in buckets ==> buckets[key] == BucketTicks(read, key) && |buckets[key]| > 0)
    && (forall key :: key !in buckets ==> BucketTicks(read, key) == [])
  }

  lemma BucketTicksAppend(read: seq<Trade>, t: Trade, k: BucketKey)
    ensures BucketTicks(read + [t], k) == BucketTicks(read, k) + (if KeyOf(t) == k then [TickOf(t)] else [])
  {
    assert (read + [t])[..|read|] == read;
  }

  lemma KeysAppend(read: seq<Trade>, t: Trade)
    ensures (set x | x in read + [t] :: KeyOf(x)) == (set x | x in read :: KeyOf(x)) + {KeyOf(t)}
  {
  }

  /** Reading one more trade appends its tick to its own bucket only. */
  lemma GroupStep(read: seq<Trade>, t: Trade, buckets: map<BucketKey, seq<Tick>>)
    requires Grouped(read, buckets)
    ensures var key := KeyOf(t);
      Grouped(read + [t], buckets[key := (if key in buckets then buckets[key] else []) + [TickOf(t)]])
  {
    var key := KeyOf(t);
    var result := buckets[key := (if key in buckets then buckets[key] else []) + [TickOf(t)]];
    KeysAppend(read, t);
    assert result.Keys == (set x | x in read + [t] :: KeyOf(x));
    forall k | k in result ensures result[k] == BucketTicks(read + [t], k) && |result[k]| > 0 {
      BucketTicksAppend(read, t, k);
    }
    forall k | k !in result ensures BucketTicks(read + [t], k) == [] {
      BucketTicksAppend(read, t, k);
    }
  }

  /** First loop of `build_ohlcv_bars`: `buckets[(instrument, minute)].append(...)`. */
  method GroupTrades(trades: seq<Trade>) returns (buckets: map<BucketKey, seq<Tick>>)
    ensures Grouped(trades, buckets)
  {
    buckets := map[];
    var i := 0;
    while i < |trades|
      invariant i <= |trades|
      invariant Grouped(trades[..i], buckets)
    {
      var t := trades[i];
      var key := BucketKey(t.instrument, MinuteStart(t.timestamp));
      GroupStep(trades[..i], t, buckets);
      assert trades[..i + 1] == trades[..i] + [t];
      buckets := buckets[key := (if key in buckets then buckets[key] else []) + [Tick(t.timestamp, t.price, t.volume)]];
      i := i + 1;
    }
    assert trades[..i] == trades;
  }

  /** Every bucket is non-empty, as in the `buckets` the first loop builds. */
  ghost predicate NonEmptyBuckets(buckets: map<BucketKey, seq<Tick>>)
  {
    forall key :: key in buckets ==> |buckets[key]| > 0
  }

  /** Every bar in `instruments` is the reduction of a bucket in `done`. */
  ghost predicate BarsFrom(buckets: map<BucketKey, seq<Tick>>, done: set<BucketKey>, instruments: map<string, seq<Bar>>)
    requires NonEmptyBuckets(buckets) && done <= buckets.Keys
  {
    forall inst, j :: inst in instruments && 0 <= j < |instruments[inst]| ==>
      var b := instruments[inst][j];
      BucketKey(inst, b.minuteStart) in done && b == MakeBar(b.minuteStart, buckets[BucketKey(inst, b.minuteStart)])
  }

  ghost predicate HasMinute(bars: seq<Bar>, minute: int)
  {
    exists j :: 0 <= j < |bars| && bars[j].minuteStart == minute
  }

  /** Every bucket in `done` has a bar in its instrument's list. */
  ghost predicate Covers(done: set<BucketKey>, instruments: map<string, seq<Bar>>)
  {
    forall key :: key in done ==> key.instrument in instruments && HasMinute(instruments[key.instrument], key.minute)
  }

  /** The state of the second loop after the buckets `done` were reduced:
      `instruments` holds exactly one bar per reduced bucket, in the list of
      its instrument. */
  ghost predicate Reduced(buckets: map<BucketKey, seq<Tick>>, done: set<BucketKey>, instruments: map<string, seq<Bar>>)
  {
    && NonEmptyBuckets(buckets)
    && done <= buckets.Keys
    && instruments.Keys == (set key | key in done :: key.instrument)
    && (forall inst :: inst in instruments ==> DistinctKeys(instruments[inst], BarMinute))
    && BarsFrom(buckets, done, instruments)
    && Covers(done, instruments)
  }

  /** Appending the bar of a bucket not yet reduced keeps `Reduced`. */
  lemma ReduceStep(buckets: map<BucketKey, seq<Tick>>, done: set<BucketKey>, instruments: map<string, seq<Bar>>, key: BucketKey)
    requires Reduced(buckets, done, instruments)
    requires key in buckets && key !in done
    ensures var oldList := if key.instrument in instruments then instruments[key.instrument] else [];
      Reduced(buckets, done + {key}, instruments[key.instrument := oldList + [MakeBar(key.minute, buckets[key])]])
  {
    var bar := MakeBar(key.minute, buckets[key]);
    assert bar.minuteStart == key.minute;
    DistinctStep(buckets, done, instruments, key, bar);
    BarsFromStep(buckets, done, instruments, key);
    CoversStep(done, instruments, key, bar);
    KeysStep(done, instruments, key, bar);
  }

  /** A bar for a bucket not yet reduced has a minute new to its list. */
  lemma DistinctStep(buckets: map<BucketKey, seq<Tick>>, done: set<BucketKey>, instruments: map<string, seq<Bar>>, key: BucketKey, bar: Bar)
    requires NonEmptyBuckets(buckets) && done <= buckets.Keys && key !in done
    requires BarsFrom(buckets, done, instruments)
    requires forall inst :: inst in instruments ==> DistinctKeys(instruments[inst], BarMinute)
    requires bar.minuteStart == key.minute
    ensures var oldList := if key.instrument in instruments then instruments[key.instrument] else [];
      var result := instruments[key.instrument := oldList + [bar]];
      forall inst :: inst in result ==> DistinctKeys(result[inst], BarMinute)
  {
    var inst := key.instrument;
    var oldList: seq<Bar> := if inst in instruments then instruments[inst] else [];
    forall j | 0 <= j < |oldList| ensures BarMinute(oldList[j]) != BarMinute(bar) {
      assert BucketKey(inst, oldList[j].minuteStart) in done;
    }
    DistinctAppend(oldList, bar, BarMinute);
  }

  /** The instruments listed are those of the reduced buckets. */
  lemma KeysStep(done: set<BucketKey>, instruments: map<string, seq<Bar>>, key: BucketKey, bar: Bar)
    requires instruments.Keys == (set k | k in done :: k.instrument)
    ensures var oldList := if key.instrument in instruments then instruments[key.instrument] else [];
      instruments[key.instrument := oldList + [bar]].Keys == (set k | k in done + {key} :: k.instrument)
  {
  }

  /** Appending the bar of `key` keeps every listed bar the reduction of
      a reduced bucket. */
  lemma BarsFromStep(buckets: map<BucketKey, seq<Tick>>, done: set<BucketKey>, instruments: map<string, seq<Bar>>, key: BucketKey)
    requires NonEmptyBuckets(buckets) && done <= buckets.Keys && key in buckets
    requires BarsFrom(buckets, done, instruments)
    ensures var oldList := if key.instrument in instruments then instruments[key.instrument] else [];
      BarsFrom(buckets, done + {key}, instruments[key.instrument := oldList + [MakeBar(key.minute, buckets[key])]])
  {
    var inst := key.instrument;
    var oldList: seq<Bar> := if inst in instruments then instruments[inst] else [];
    var result: map<string, seq<Bar>> := instruments[inst := oldList + [MakeBar(key.minute, buckets[key])]];
    forall i: string, j: int | i in result && 0 <= j < |result[i]|
      ensures BucketKey(i, result[i][j].minuteStart) in done + {key}
      ensures result[i][j] == MakeBar(result[i][j].minuteStart, buckets[BucketKey(i, result[i][j].minuteStart)])
    {
      if i == inst && j < |oldList| {
        assert result[i][j] == oldList[j];
      } else if i != inst {
        assert result[i] == instruments[i];
      }
    }
  }

  /** Appending a bar for `key` to its instrument's list covers `key` and
      keeps every bucket covered before covered. */
  lemma CoversStep(done: set<BucketKey>, instruments: map<string, seq<Bar>>, key: BucketKey, bar: Bar)
    requires Covers(done, instruments) && bar.minuteStart == key.minute
    ensures var oldList := if key.instrument in instruments then instruments[key.instrument] else [];
      Covers(done + {key}, instruments[key.instrument := oldList + [bar]])
  {
    var inst := key.instrument;
    var oldList := if inst in instruments then instruments[inst] else [];
    var newList := oldList + [bar];
    var result := instruments[inst := newList];
    assert newList[|oldList|] == bar;
    forall k | k in done + {key} ensures k.instrument in result && HasMinute(result[k.instrument], k.minute) {
      if k == key {
        assert HasMinute(newList, key.minute);
      } else if k.instrument == inst {
        var j :| 0 <= j < |oldList| && oldList[j].minuteStart == k.minute;
        assert newList[j] == oldList[j];
      } else {
        assert HasMinute(instruments[k.instrument], k.minute);
      }
    }
  }

  /** Second loop: reduce every bucket and append its bar to its
      instrument's list, visiting the buckets in an unspecified order. */
  method ReduceBuckets(buckets: map<BucketKey, seq<Tick>>) returns (instruments: map<string, seq<Bar>>)
    requires NonEmptyBuckets(buckets)
    ensures Reduced(buckets, buckets.Keys, instruments)
  {
    instruments := map[];
    var todo := buckets.Keys;
    while todo != {}
      invariant todo <= buckets.Keys
      invariant Reduced(buckets, buckets.Keys - todo, instruments)
      decreases |todo|
    {
      var key :| key in todo;
      ReduceStep(buckets, buckets.Keys - todo, instruments, key);
      assert buckets.Keys - todo + {key} == buckets.Keys - (todo - {key});
      var oldList := if key.instrument in instruments then instruments[key.instrument] else [];
      instruments := instruments[key.instrument := oldList + [MakeBar(key.minute, buckets[key])]];
      todo := todo - {key};
    }
  }

  /** What the bars of `build_ohlcv_bars` are: one list per instrument that
      occurs in `trades`, each bar in a list is the reduction of the non-empty
      bucket of its minute, and every trade's minute has a bar in its
      instrument's list. */
  ghost predicate BarsOf(trades: seq<Trade>, instruments: map<string, seq<Bar>>)
  {
    && instruments.Keys == (set t | t in trades :: t.instrument)
    && (forall inst, j :: inst in instruments && 0 <= j < |instruments[inst]| ==> IsBarOf(trades, inst, instruments[inst][j]))
    && (forall t :: t in trades ==> t.instrument in instruments && HasMinute(instruments[t.instrument], MinuteStart(t.timestamp)))
  }

  /** After both loops, the lists are the bars of the trades, each with
      pairwise distinct minutes. */
  lemma ReducedBars(trades: seq<Trade>, buckets: map<BucketKey, seq<Tick>>, instruments: map<string, seq<Bar>>)
    requires Grouped(trades, buckets) && Reduced(buckets, buckets.Keys, instruments)
    ensures BarsOf(trades, instruments)
    ensures forall inst :: inst in instruments ==> DistinctKeys(instruments[inst], BarMinute)
  {
    forall inst | inst in instruments ensures exists t :: t in trades && t.instrument == inst {
      var key :| key in buckets && key.instrument == inst;
      var t :| t in trades && KeyOf(t) == key;
    }
    forall t | t in trades ensures t.instrument in instruments {
      assert KeyOf(t) in buckets;
    }
    forall t | t in trades ensures t.instrument in instruments && HasMinute(instruments[t.instrument], MinuteStart(t.timestamp)) {
      assert KeyOf(t) in buckets;
    }
  }

  /** Sorting every list by minute keeps `BarsOf` and makes each list
      strictly increasing in minute. */
  lemma SortedBars(trades: seq<Trade>, unsorted: map<string, seq<Bar>>, sorted: map<string, seq<Bar>>)
    requires BarsOf(trades, unsorted)
    requires forall inst :: inst in unsorted ==> DistinctKeys(unsorted[inst], BarMinute)
    requires sorted.Keys == unsorted.Keys
    requires forall inst :: inst in sorted ==> sorted[inst] == SortBy(unsorted[inst], BarMinute)
    ensures BarsOf(trades, sorted)
    ensures forall inst :: inst in sorted ==> StrictlySortedBy(sorted[inst], BarMinute)
  {
    forall inst | inst in sorted
      ensures StrictlySortedBy(sorted[inst], BarMinute)
      ensures forall b :: b in sorted[inst] <==> b in unsorted[inst]
    {
      SortByStrictlySorted(unsorted[inst], BarMinute);
      SortBySameElements(unsorted[inst], BarMinute);
    }
    SameBars(trades, unsorted, sorted);
  }

  /** Lists with the same elements keep `BarsOf`. */
  lemma SameBars(trades: seq<Trade>, unsorted: map<string, seq<Bar>>, sorted: map<string, seq<Bar>>)
    requires BarsOf(trades, unsorted)
    requires sorted.Keys == unsorted.Keys
    requires forall inst :: inst in sorted ==> forall b :: b in sorted[inst] <==> b in unsorted[inst]
    ensures BarsOf(trades, sorted)
  {
    forall inst, j | inst in sorted && 0 <= j < |sorted[inst]|
      ensures IsBarOf(trades, inst, sorted[inst][j])
    {
      assert sorted[inst][j] in unsorted[inst];
    }
    forall t | t in trades
      ensures t.instrument in sorted && HasMinute(sorted[t.instrument], MinuteStart(t.timestamp))
    {
      var inst := t.instrument;
      var j :| 0 <= j < |unsorted[inst]| && unsorted[inst][j].minuteStart == MinuteStart(t.timestamp);
      assert unsorted[inst][j] in sorted[inst];
    }
  }

  /** Third loop: `instruments[inst].sort(key=minute_start)` for every
      instrument, in an unspecified order. */
  method SortEach(unsorted: map<string, seq<Bar>>) returns (sorted: map<string, seq<Bar>>)
    ensures sorted.Keys == unsorted.Keys
    ensures forall inst :: inst in sorted ==> sorted[inst] == SortBy(unsorted[inst], BarMinute)
  {
    sorted := unsorted;
    var todo := unsorted.Keys;
    while todo != {}
      invariant todo <= unsorted.Keys && sorted.Keys == unsorted.Keys
      invariant forall inst :: inst in todo ==> sorted[inst] == unsorted[inst]
      invariant forall inst :: inst in unsorted && inst !in todo ==> sorted[inst] == SortBy(unsorted[inst], BarMinute)
      decreases |todo|
    {
      var inst :| inst in todo;
      var bars := SortBy(sorted[inst], BarMinute);
      sorted := sorted[inst := bars];
      todo := todo - {inst};
    }
  }

  /** `build_ohlcv_bars` without the file: the bars of every instrument in
      strictly ascending minute order, one bar per non-empty (instrument,
      minute) bucket, and the number of trades read. */
  method BuildBars(trades: seq<Trade>) returns (instruments: map<string, seq<Bar>>, totalTrades: nat)
    ensures totalTrades == |trades|
    ensures BarsOf(trades, instruments)
    ensures forall inst :: inst in instruments ==> StrictlySortedBy(instruments[inst], BarMinute)
  {
    totalTrades := |trades|;
    var buckets := GroupTrades(trades);
    instruments := ReduceBuckets(buckets);
    ReducedBars(trades, buckets, instruments);
    ghost var unsorted := instruments;
    instruments := SortEach(instruments);
    SortedBars(trades, unsorted, instruments);
  }
}
