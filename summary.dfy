/** What `main` in tradeqc.py gathers for the report: the anomalous minutes
    of each instrument, its statistics, the top three anomalies by
    volume-to-median ratio, and the overall summary across instruments. */
module Summary {
  import opened Wrappers
  import opened Seqs
  import opened Sorting
  import opened Bars
  import opened Rolling
  import opened Anomalies

  /** One anomalous minute, the tuple `(minute_start, volume, median)`. */
  datatype AnomalyDetail = AnomalyDetail(minuteStart: int, volume: real, median: real)

  function DetailAt(bars: seq<Bar>, medians: seq<real>, j: int): AnomalyDetail
    requires 0 <= j < |bars| && j < |medians|
  {
    AnomalyDetail(bars[j].minuteStart, bars[j].volume, medians[j])
  }

  /** The length of `zip(bars, medians, flags)`. */
  function ZipLength(bars: seq<Bar>, medians: seq<real>, flags: seq<bool>): nat
  {
    MinInt(|bars|, MinInt(|medians|, |flags|))
  }

  /** The details of the flagged triples among the first `i` of the zip, in bar order. */
  function DetailsUpTo(bars: seq<Bar>, medians: seq<real>, flags: seq<bool>, i: nat): seq<AnomalyDetail>
    requires i <= ZipLength(bars, medians, flags)
  {
    if i == 0 then []
    else
      DetailsUpTo(bars, medians, flags, i - 1)
      + (if flags[i - 1] then [DetailAt(bars, medians, i - 1)] else [])
  }

  function Details(bars: seq<Bar>, medians: seq<real>, flags: seq<bool>): seq<AnomalyDetail>
  {
    DetailsUpTo(bars, medians, flags, ZipLength(bars, medians, flags))
  }

  /** The loop of `main` that builds `anomaly_details`. */
  method CollectAnomalies(bars: seq<Bar>, medians: seq<real>, flags: seq<bool>) returns (details: seq<AnomalyDetail>)
    ensures details == Details(bars, medians, flags)
  {
    details := [];
    var n := ZipLength(bars, medians, flags);
    for i := 0 to n
      invariant details == DetailsUpTo(bars, medians, flags, i)
    {
      if flags[i] {
        details := details + [DetailAt(bars, medians, i)];
      }
    }
  }

  /** There is one detail per raised flag. */
  lemma {:induction false} DetailsCount(bars: seq<Bar>, medians: seq<real>, flags: seq<bool>, i: nat)
    requires i <= ZipLength(bars, medians, flags)
    ensures |DetailsUpTo(bars, medians, flags, i)| == CountTrue(flags[..i])
  {
    if i > 0 {
      DetailsCount(bars, medians, flags, i - 1);
      assert flags[..i] == flags[..i - 1] + [flags[i - 1]];
      CountTrueConcat(flags[..i - 1], [flags[i - 1]]);
    }
  }

  /** Every detail is that of a flagged bar. */
  lemma {:induction false} DetailsFromFlags(bars: seq<Bar>, medians: seq<real>, flags: seq<bool>, i: nat)
    requires i <= ZipLength(bars, medians, flags)
    ensures forall d :: d in DetailsUpTo(bars, medians, flags, i) ==>
      exists j :: 0 <= j < i && flags[j] && d == DetailAt(bars, medians, j)
  {
    if i > 0 {
      DetailsFromFlags(bars, medians, flags, i - 1);
    }
  }

  /** Every flagged bar yields its detail. */
  lemma {:induction false} FlagsGiveDetails(bars: seq<Bar>, medians: seq<real>, flags: seq<bool>, i: nat)
    requires i <= ZipLength(bars, medians, flags)
    ensures forall j :: 0 <= j < i && flags[j] ==> DetailAt(bars, medians, j) in DetailsUpTo(bars, medians, flags, i)
  {
    if i > 0 {
      FlagsGiveDetails(bars, medians, flags, i - 1);
    }
  }

  /** The statistics of one instrument for the report. */
  datatype InstrumentStats = InstrumentStats(
    instrument: string,
    numBars: nat,
    totalVolume: real,
    priceLow: real,
    priceHigh: real,
    numAnomalies: nat,
    anomalies: seq<AnomalyDetail>)

  /** The statistics record of `main`; `min` and `max` raise on an
      instrument without bars. */
  function Summarize(instrument: string, bars: seq<Bar>, details: seq<AnomalyDetail>): InstrumentStats
    requires |bars| > 0
  {
    InstrumentStats(instrument, |bars|, SumOf(bars, BarVolume), MinOf(bars, BarLow),
      MaxOf(bars, BarHigh), |details|, details)
  }

  /** The price range is the lowest low and the highest high of the bars. */
  lemma SummarizePriceRange(instrument: string, bars: seq<Bar>, details: seq<AnomalyDetail>)
    requires |bars| > 0
    ensures var s := Summarize(instrument, bars, details);
      && (forall j :: 0 <= j < |bars| ==> s.priceLow <= bars[j].low && bars[j].high <= s.priceHigh)
      && (exists j :: 0 <= j < |bars| && s.priceLow == bars[j].low)
      && (exists j :: 0 <= j < |bars| && s.priceHigh == bars[j].high)
  {
    MinOfIsLeast(bars, BarLow);
    MaxOfIsGreatest(bars, BarHigh);
  }

  /** The counts of the record, and `total_volume`: with non-negative bar
      volumes it is non-negative and at least every bar's volume. */
  lemma SummarizeVolume(instrument: string, bars: seq<Bar>, details: seq<AnomalyDetail>)
    requires |bars| > 0
    ensures var s := Summarize(instrument, bars, details);
      && s.instrument == instrument && s.numBars == |bars| && s.numAnomalies == |details| && s.anomalies == details
      && ((forall j :: 0 <= j < |bars| ==> bars[j].volume >= 0.0) ==>
            s.totalVolume >= 0.0 && forall j :: 0 <= j < |bars| ==> bars[j].volume <= s.totalVolume)
  {
    if forall j :: 0 <= j < |bars| ==> bars[j].volume >= 0.0 {
      forall j | 0 <= j < |bars| ensures BarVolume(bars[j]) >= 0.0 { }
      NonNegativeSum(bars, BarVolume);
      forall j | 0 <= j < |bars| ensures bars[j].volume <= SumOf(bars, BarVolume) {
        TermAtMostSum(bars, BarVolume, j);
      }
    }
  }

  /** With every bar's low at most its high, the range is not inverted. */
  lemma PriceRangeOrdered(instrument: string, bars: seq<Bar>, details: seq<AnomalyDetail>)
    requires |bars| > 0
    requires forall j :: 0 <= j < |bars| ==> bars[j].low <= bars[j].high
    ensures Summarize(instrument, bars, details).priceLow <= Summarize(instrument, bars, details).priceHigh
  {
    MinOfIsLeast(bars, BarLow);
    MaxOfIsGreatest(bars, BarHigh);
    var j :| 0 <= j < |bars| && MinOf(bars, BarLow) == bars[j].low;
  }

  /** The ranking key `vol / med`; Python would raise on a zero median, so
      the guard's branch never matters for the details of flagged bars. */
  function Ratio(d: AnomalyDetail): real
  {
    if d.median == 0.0 then 0.0 else d.volume / d.median
  }

  function NegRatio(d: AnomalyDetail): real { -Ratio(d) }

  /** `sorted(anomalies, key=ratio, reverse=True)[:3]`. A reversed Python
      sort is still stable, so it is the stable ascending sort by the
      negated ratio. */
  function TopAnomalies(details: seq<AnomalyDetail>): seq<AnomalyDetail>
    requires forall i :: 0 <= i < |details| ==> details[i].median != 0.0
  {
    SortBy(details, NegRatio)[..MinInt(3, |details|)]
  }

  /** At most three details, in descending ratio, all taken from the input. */
  lemma TopAnomaliesRanked(details: seq<AnomalyDetail>)
    requires forall i :: 0 <= i < |details| ==> details[i].median != 0.0
    ensures var top := TopAnomalies(details);
      && |top| == MinInt(3, |details|)
      && (forall i, j :: 0 <= i < j < |top| ==> Ratio(top[j]) <= Ratio(top[i]))
      && multiset(top) <= multiset(details)
  {
    var sorted := SortBy(details, NegRatio);
    var k := MinInt(3, |details|);
    SortBySorted(details, NegRatio);
    SortByPermutes(details, NegRatio);
    assert sorted == sorted[..k] + sorted[k..];
    assert multiset(sorted) == multiset(sorted[..k]) + multiset(sorted[k..]);
  }

  /** No detail left out of the top ranks above one kept in it. */
  lemma TopAnomaliesBeatRest(details: seq<AnomalyDetail>)
    requires forall i :: 0 <= i < |details| ==> details[i].median != 0.0
    ensures var top := TopAnomalies(details);
      forall d :: d in multiset(details) - multiset(top) ==>
        forall i :: 0 <= i < |top| ==> Ratio(d) <= Ratio(top[i])
  {
    SortBySorted(details, NegRatio);
    SortByPermutes(details, NegRatio);
    SortedPrefixRanksFirst(details, SortBy(details, NegRatio), MinInt(3, |details|));
  }

  lemma SortedPrefixRanksFirst(details: seq<AnomalyDetail>, sorted: seq<AnomalyDetail>, k: nat)
    requires SortedBy(sorted, NegRatio) && multiset(sorted) == multiset(details) && k <= |sorted|
    ensures forall d :: d in multiset(details) - multiset(sorted[..k]) ==>
      forall i :: 0 <= i < k ==> Ratio(d) <= Ratio(sorted[..k][i])
  {
    var top, rest := sorted[..k], sorted[k..];
    assert sorted == top + rest;
    assert multiset(details) - multiset(top) == multiset(rest);
    PrefixRanksFirst(sorted, k);
    forall d | d in multiset(rest) ensures forall i :: 0 <= i < k ==> Ratio(d) <= Ratio(top[i]) {
      assert d in rest;
      var j :| 0 <= j < |rest| && rest[j] == d;
    }
  }

  lemma PrefixRanksFirst(sorted: seq<AnomalyDetail>, k: nat)
    requires SortedBy(sorted, NegRatio) && k <= |sorted|
    ensures forall i, j :: 0 <= i < k && 0 <= j < |sorted| - k ==> Ratio(sorted[k..][j]) <= Ratio(sorted[..k][i])
  {
    forall i, j | 0 <= i < k && 0 <= j < |sorted| - k ensures Ratio(sorted[k..][j]) <= Ratio(sorted[..k][i]) {
      assert sorted[..k][i] == sorted[i] && sorted[k..][j] == sorted[k + j];
      assert NegRatio(sorted[i]) <= NegRatio(sorted[k + j]);
    }
  }

  /** Ties are resolved in input order: the first of the top anomalies is
      the earliest detail with the greatest ratio. */
  lemma TopAnomalyFirst(details: seq<AnomalyDetail>)
    requires |details| > 0
    requires forall i :: 0 <= i < |details| ==> details[i].median != 0.0
    ensures exists j :: IsFirstLeast(details, NegRatio, j) && TopAnomalies(details)[0] == details[j]
  {
    SortByHead(details, NegRatio);
  }

  /** Ties are resolved in bar order in every place, not only the first: for
      each ratio, the top details with that ratio are the first details with
      that ratio, in their order. Together with `TopAnomaliesRanked` and
      `TopAnomaliesBeatRest` this fixes the top list completely. */
  lemma TopAnomaliesStable(details: seq<AnomalyDetail>)
    requires forall i :: 0 <= i < |details| ==> details[i].median != 0.0
    ensures forall v :: KeyClass(TopAnomalies(details), Ratio, v) <= KeyClass(details, Ratio, v)
  {
    SortByStable(details, NegRatio);
    StablePrefix(details, SortBy(details, NegRatio), MinInt(3, |details|));
  }

  lemma StablePrefix(details: seq<AnomalyDetail>, sorted: seq<AnomalyDetail>, k: nat)
    requires k <= |sorted|
    requires forall v :: KeyClass(sorted, NegRatio, v) == KeyClass(details, NegRatio, v)
    ensures forall v :: KeyClass(sorted[..k], Ratio, v) <= KeyClass(details, Ratio, v)
  {
    forall v ensures KeyClass(sorted[..k], Ratio, v) <= KeyClass(details, Ratio, v) {
      PrefixClass(sorted, k, NegRatio, -v);
      RatioClass(sorted[..k], v);
      RatioClass(details, v);
    }
  }

  /** The details with ratio `v` are those whose negated ratio is `-v`. */
  lemma {:induction false} RatioClass(s: seq<AnomalyDetail>, v: real)
    ensures KeyClass(s, Ratio, v) == KeyClass(s, NegRatio, -v)
  {
    if s != [] {
      RatioClass(s[1..], v);
    }
  }

  /** Everything computed for one instrument (the per-instrument CSV columns
      and the statistics). */
  datatype InstrumentReport = InstrumentReport(
    bars: seq<Bar>,
    vwaps: seq<Option<real>>,
    medians: seq<real>,
    flags: seq<bool>,
    stats: InstrumentStats)

  /** `r` is what the loop body of `main` computes for `instrument`. */
  ghost predicate Analyzed(instrument: string, bars: seq<Bar>, n: int, m: int, k: real, r: InstrumentReport)
  {
    && |bars| > 0 && m > 0 && r.bars == bars
    && |r.vwaps| == |bars| && |r.medians| == |bars| && |r.flags| == |bars|
    && (forall i :: 0 <= i < |bars| ==> r.vwaps[i] == VwapOf(Window(bars, i, n)))
    && (forall i :: 0 <= i < |bars| ==> r.medians[i] == MedianVolumeAt(bars, m, i))
    && (forall i :: 0 <= i < |bars| ==> r.flags[i] == IsAnomaly(bars[i].volume, Some(r.medians[i]), k))
    && r.stats == Summarize(instrument, bars, Details(bars, r.medians, r.flags))
  }

  function Somes(xs: seq<real>): (r: seq<Option<real>>)
    ensures |r| == |xs|
    ensures forall j :: 0 <= j < |xs| ==> r[j] == Some(xs[j])
  {
    seq(|xs|, j requires 0 <= j < |xs| => Some(xs[j]))
  }

  /** One pass of the loop over instruments in `main`. It fails where
      Python raises: a non-positive `M` on a non-empty list
      (`statistics.median` of an empty window), or no bars at all (`min`). */
  method AnalyzeInstrument(instrument: string, bars: seq<Bar>, n: int, m: int, k: real) returns (r: Option<InstrumentReport>)
    ensures r.None? <==> |bars| == 0 || m <= 0
    ensures r.Some? ==> Analyzed(instrument, bars, n, m, k, r.value)
  {
    var vwaps := RollingVwap(bars, n);
    var medOpt := RollingMedianVolume(bars, m);
    if medOpt.None? {
      return None;
    }
    var medians := medOpt.value;
    var flags := FlagBars(bars, medians, k);
    var details := CollectAnomalies(bars, medians, flags);
    if |bars| == 0 {
      return None;
    }
    var stats := Summarize(instrument, bars, details);
    r := Some(InstrumentReport(bars, vwaps, medians, flags, stats));
  }

  /** `detect_anomalies` applied to the bars' volumes and their medians. */
  method FlagBars(bars: seq<Bar>, medians: seq<real>, k: real) returns (flags: seq<bool>)
    requires |medians| == |bars|
    ensures |flags| == |bars|
    ensures forall i :: 0 <= i < |bars| ==> flags[i] == IsAnomaly(bars[i].volume, Some(medians[i]), k)
  {
    flags := DetectAnomalies(Volumes(bars), Somes(medians), k);
    FlagsAreAnomalies(bars, medians, flags, k);
  }

  /** The flags `detect_anomalies` returns for the bars' volumes and their medians. */
  lemma FlagsAreAnomalies(bars: seq<Bar>, medians: seq<real>, flags: seq<bool>, k: real)
    requires |medians| == |bars|
    requires |flags| == MinInt(|Volumes(bars)|, |Somes(medians)|)
    requires forall i :: 0 <= i < |flags| ==>
      (flags[i] <==> Somes(medians)[i].Some? && Somes(medians)[i].value != 0.0 && Volumes(bars)[i] > k * Somes(medians)[i].value)
    ensures |flags| == |bars|
    ensures forall i :: 0 <= i < |bars| ==> flags[i] == IsAnomaly(bars[i].volume, Some(medians[i]), k)
  {
    forall i | 0 <= i < |bars| ensures flags[i] == IsAnomaly(bars[i].volume, Some(medians[i]), k) {
      assert Somes(medians)[i] == Some(medians[i]);
      assert Volumes(bars)[i] == bars[i].volume;
    }
  }

  /** An instrument's anomaly count is its number of raised flags; its
      details are exactly the flagged bars, each with a non-zero median
      exceeded more than `k` times, so they can be ranked. */
  lemma AnalyzedAnomalies(instrument: string, bars: seq<Bar>, n: int, m: int, k: real, r: InstrumentReport)
    requires Analyzed(instrument, bars, n, m, k, r)
    ensures r.stats.numAnomalies == CountTrue(r.flags) <= r.stats.numBars
    ensures forall d :: d in r.stats.anomalies ==>
      d.median != 0.0 && d.volume > k * d.median &&
      exists j :: 0 <= j < |bars| && r.flags[j] && d == DetailAt(bars, r.medians, j)
    ensures forall j :: 0 <= j < |bars| && r.flags[j] ==> DetailAt(bars, r.medians, j) in r.stats.anomalies
  {
    assert r.stats.anomalies == Details(bars, r.medians, r.flags);
    assert r.stats.numAnomalies == |r.stats.anomalies| && r.stats.numBars == |bars|;
    DetailsMeaning(bars, r.medians, r.flags, k);
  }

  lemma DetailsMeaning(bars: seq<Bar>, medians: seq<real>, flags: seq<bool>, k: real)
    requires |medians| == |bars| == |flags|
    requires forall i :: 0 <= i < |bars| ==> flags[i] == IsAnomaly(bars[i].volume, Some(medians[i]), k)
    ensures |Details(bars, medians, flags)| == CountTrue(flags) <= |bars|
    ensures forall d :: d in Details(bars, medians, flags) ==>
      d.median != 0.0 && d.volume > k * d.median &&
      exists j :: 0 <= j < |bars| && flags[j] && d == DetailAt(bars, medians, j)
    ensures forall j :: 0 <= j < |bars| && flags[j] ==> DetailAt(bars, medians, j) in Details(bars, medians, flags)
  {
    var n := |bars|;
    var details := Details(bars, medians, flags);
    assert ZipLength(bars, medians, flags) == n;
    assert flags[..n] == flags;
    DetailsCount(bars, medians, flags, n);
    CountTrueAtMost(flags);
    DetailsFromFlags(bars, medians, flags, n);
    FlagsGiveDetails(bars, medians, flags, n);
    forall d | d in details ensures d.median != 0.0 && d.volume > k * d.median {
      var j :| 0 <= j < n && flags[j] && d == DetailAt(bars, medians, j);
      assert IsAnomaly(bars[j].volume, Some(medians[j]), k);
    }
  }

  /** `reports` holds one analysed report per instrument of `instruments`,
      each instrument exactly once. */
  ghost predicate CoversInstruments(instruments: map<string, seq<Bar>>, n: int, m: int, k: real, reports: seq<InstrumentReport>)
  {
    && |reports| == |instruments|
    && (forall j :: 0 <= j < |reports| ==> AnalyzedIn(instruments, n, m, k, reports[j]))
    && (forall inst :: inst in instruments ==> exists j :: 0 <= j < |reports| && reports[j].stats.instrument == inst)
    && (forall i, j :: 0 <= i < j < |reports| ==> reports[i].stats.instrument != reports[j].stats.instrument)
  }

  /** `r` is the analysis of its instrument's bars. */
  ghost predicate AnalyzedIn(instruments: map<string, seq<Bar>>, n: int, m: int, k: real, r: InstrumentReport)
  {
    var inst := r.stats.instrument;
    inst in instruments && Analyzed(inst, instruments[inst], n, m, k, r)
  }

  /** Every report of `reports` is the analysis of its instrument. */
  ghost predicate AllAnalyzed(instruments: map<string, seq<Bar>>, n: int, m: int, k: real, reports: seq<InstrumentReport>)
  {
    reports == [] ||
    (AllAnalyzed(instruments, n, m, k, reports[..|reports| - 1]) && AnalyzedIn(instruments, n, m, k, reports[|reports| - 1]))
  }

  lemma {:induction false} AllAnalyzedEach(instruments: map<string, seq<Bar>>, n: int, m: int, k: real, reports: seq<InstrumentReport>)
    requires AllAnalyzed(instruments, n, m, k, reports)
    ensures forall i :: 0 <= i < |reports| ==> AnalyzedIn(instruments, n, m, k, reports[i])
  {
    if reports != [] {
      var front := reports[..|reports| - 1];
      AllAnalyzedEach(instruments, n, m, k, front);
      forall i | 0 <= i < |reports| - 1 ensures AnalyzedIn(instruments, n, m, k, reports[i]) {
        assert reports[i] == front[i];
      }
    }
  }

  /** The overall summary; a time bound is `None` ("N/A") when there are no bars. */
  datatype Overall = Overall(
    totalTrades: nat,
    totalBars: nat,
    numInstruments: nat,
    timeMin: Option<int>,
    timeMax: Option<int>,
    totalAnomalies: nat,
    n: int,
    m: int,
    k: real)

  /** The bars of all instruments, one instrument after another. */
  function AllBars(reports: seq<InstrumentReport>): seq<Bar>
  {
    if reports == [] then [] else reports[0].bars + AllBars(reports[1..])
  }

  /** The flags of all instruments, one instrument after another. */
  function AllFlags(reports: seq<InstrumentReport>): seq<bool>
  {
    if reports == [] then [] else reports[0].flags + AllFlags(reports[1..])
  }

  function TotalBars(reports: seq<InstrumentReport>): nat
  {
    if reports == [] then 0 else reports[0].stats.numBars + TotalBars(reports[1..])
  }

  function TotalAnomalies(reports: seq<InstrumentReport>): nat
  {
    if reports == [] then 0 else reports[0].stats.numAnomalies + TotalAnomalies(reports[1..])
  }

  function OverallOf(reports: seq<InstrumentReport>, numInstruments: nat, totalTrades: nat, n: int, m: int, k: real): Overall
  {
    var all := AllBars(reports);
    Overall(totalTrades, TotalBars(reports), numInstruments,
      if |all| == 0 then None else Some(MinOf(all, BarMinute).Floor),
      if |all| == 0 then None else Some(MaxOf(all, BarMinute).Floor),
      TotalAnomalies(reports), n, m, k)
  }

  /** `AllBars` holds exactly the bars of the reports. */
  lemma {:induction false} AllBarsMembers(reports: seq<InstrumentReport>)
    ensures forall j, i :: 0 <= j < |reports| && 0 <= i < |reports[j].bars| ==> reports[j].bars[i] in AllBars(reports)
    ensures forall b :: b in AllBars(reports) ==>
      exists j, i :: 0 <= j < |reports| && 0 <= i < |reports[j].bars| && b == reports[j].bars[i]
  {
    if reports != [] {
      AllBarsMembers(reports[1..]);
      forall j, i | 0 < j < |reports| && 0 <= i < |reports[j].bars|
        ensures reports[j].bars[i] in AllBars(reports)
      {
        assert reports[j] == reports[1..][j - 1];
      }
      forall b | b in AllBars(reports)
        ensures exists j, i :: 0 <= j < |reports| && 0 <= i < |reports[j].bars| && b == reports[j].bars[i]
      {
        if b in reports[0].bars {
          var i :| 0 <= i < |reports[0].bars| && b == reports[0].bars[i];
        } else {
          assert b in AllBars(reports[1..]);
          var j, i :| 0 <= j < |reports[1..]| && 0 <= i < |reports[1..][j].bars| && b == reports[1..][j].bars[i];
          assert reports[j + 1] == reports[1..][j];
        }
      }
    }
  }

  /** The time range is the earliest and the latest minute over all bars of
      all instruments, and "N/A" exactly when there are no bars. */
  lemma OverallTimeRange(reports: seq<InstrumentReport>, numInstruments: nat, totalTrades: nat, n: int, m: int, k: real)
    ensures var o := OverallOf(reports, numInstruments, totalTrades, n, m, k);
      && (o.timeMin.Some? <==> exists j :: 0 <= j < |reports| && |reports[j].bars| > 0)
      && o.timeMin.Some? == o.timeMax.Some?
      && (o.timeMin.Some? ==>
          && (forall j, i :: 0 <= j < |reports| && 0 <= i < |reports[j].bars| ==>
                o.timeMin.value <= reports[j].bars[i].minuteStart <= o.timeMax.value)
          && (exists j, i :: 0 <= j < |reports| && 0 <= i < |reports[j].bars| && o.timeMin.value == reports[j].bars[i].minuteStart)
          && (exists j, i :: 0 <= j < |reports| && 0 <= i < |reports[j].bars| && o.timeMax.value == reports[j].bars[i].minuteStart))
  {
    var all := AllBars(reports);
    AllBarsMembers(reports);
    if exists j :: 0 <= j < |reports| && |reports[j].bars| > 0 {
      var j :| 0 <= j < |reports| && |reports[j].bars| > 0;
      assert reports[j].bars[0] in all;
    }
    if |all| > 0 {
      TimeBounds(reports, all);
    }
  }

  lemma TimeBounds(reports: seq<InstrumentReport>, all: seq<Bar>)
    requires all == AllBars(reports) && |all| > 0
    requires forall j, i :: 0 <= j < |reports| && 0 <= i < |reports[j].bars| ==> reports[j].bars[i] in all
    requires forall b :: b in all ==>
      exists j, i :: 0 <= j < |reports| && 0 <= i < |reports[j].bars| && b == reports[j].bars[i]
    ensures forall j, i :: 0 <= j < |reports| && 0 <= i < |reports[j].bars| ==>
      MinOf(all, BarMinute).Floor <= reports[j].bars[i].minuteStart <= MaxOf(all, BarMinute).Floor
    ensures exists j, i :: 0 <= j < |reports| && 0 <= i < |reports[j].bars| && MinOf(all, BarMinute).Floor == reports[j].bars[i].minuteStart
    ensures exists j, i :: 0 <= j < |reports| && 0 <= i < |reports[j].bars| && MaxOf(all, BarMinute).Floor == reports[j].bars[i].minuteStart
  {
    MinOfIsLeast(all, BarMinute);
    MaxOfIsGreatest(all, BarMinute);
    forall j, i | 0 <= j < |reports| && 0 <= i < |reports[j].bars|
      ensures MinOf(all, BarMinute).Floor <= reports[j].bars[i].minuteStart <= MaxOf(all, BarMinute).Floor
    {
      var x :| 0 <= x < |all| && all[x] == reports[j].bars[i];
      assert BarMinute(all[x]) == reports[j].bars[i].minuteStart as real;
    }
    var lo :| 0 <= lo < |all| && MinOf(all, BarMinute) == BarMinute(all[lo]);
    var hi :| 0 <= hi < |all| && MaxOf(all, BarMinute) == BarMinute(all[hi]);
    assert all[lo] in all && all[hi] in all;
  }

  /** The totals of the summary: the bar count is the number of all bars,
      the anomaly count the number of all raised flags, never more than the
      bars. */
  lemma {:induction false} OverallTotals(reports: seq<InstrumentReport>)
    requires forall j :: 0 <= j < |reports| ==>
      reports[j].stats.numBars == |reports[j].bars| == |reports[j].flags|
      && reports[j].stats.numAnomalies == CountTrue(reports[j].flags)
    ensures TotalBars(reports) == |AllBars(reports)|
    ensures TotalAnomalies(reports) == CountTrue(AllFlags(reports)) <= TotalBars(reports)
  {
    if reports != [] {
      OverallTotals(reports[1..]);
      CountTrueConcat(reports[0].flags, AllFlags(reports[1..]));
      CountTrueAtMost(reports[0].flags);
    }
  }

  /** The anomaly percentage of the report, `0` without bars. */
  function AnomalyPercent(o: Overall): real
  {
    if o.totalBars > 0 then o.totalAnomalies as real / o.totalBars as real * 100.0 else 0.0
  }

  lemma AnomalyPercentBounds(o: Overall)
    requires o.totalAnomalies <= o.totalBars
    ensures 0.0 <= AnomalyPercent(o) <= 100.0
  {
    if o.totalBars > 0 {
      var q := o.totalAnomalies as real / o.totalBars as real;
      assert q * (o.totalBars as real) == o.totalAnomalies as real;
      assert 0.0 <= q <= 1.0;
    }
  }
}
