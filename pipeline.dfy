/** The steps of `main` in tradeqc.py joined together: cleaning, bar
    building, the per-instrument loop and the overall summary. */
module Pipeline {
  import opened Wrappers
  import opened Seqs
  import opened Sorting
  import opened Cleaning
  import opened Bars
  import opened Rolling
  import opened Anomalies
  import opened Summary

  datatype RunReport = RunReport(reports: seq<InstrumentReport>, overall: Overall)

  /** Some order of the instruments, each once. */
  method InstrumentOrder(keys: set<string>) returns (order: seq<string>)
    ensures |order| == |keys|
    ensures forall x :: x in order <==> x in keys
    ensures forall i, j :: 0 <= i < j < |order| ==> order[i] != order[j]
  {
    order := [];
    var remaining := keys;
    while remaining != {}
      invariant remaining <= keys
      invariant |order| + |remaining| == |keys|
      invariant forall x :: x in order <==> x in keys && x !in remaining
      invariant forall i, j :: 0 <= i < j < |order| ==> order[i] != order[j]
      decreases |remaining|
    {
      var x :| x in remaining;
      order := order + [x];
      remaining := remaining - {x};
    }
  }

  /** The loop over instruments in `main`. Python visits the instruments in
      sorted order; here the order is left open. The loop fails where an
      instrument's analysis raises. */
  method Report(instruments: map<string, seq<Bar>>, n: int, m: int, k: real) returns (r: Option<seq<InstrumentReport>>)
    ensures r.None? <==>
      (m <= 0 && |instruments| > 0) || (exists inst :: inst in instruments && |instruments[inst]| == 0)
    ensures r.Some? ==> CoversInstruments(instruments, n, m, k, r.value)
  {
    var order := InstrumentOrder(instruments.Keys);
    var reports: seq<InstrumentReport> := [];
    for j := 0 to |order|
      invariant |reports| == j
      invariant forall i :: 0 <= i < j ==> reports[i].stats.instrument == order[i]
      invariant AllAnalyzed(instruments, n, m, k, reports)
    {
      var next := AppendAnalysis(instruments, order[j], n, m, k, reports);
      if next.None? {
        return None;
      }
      NamesStep(order, j, reports, next.value);
      reports := next.value;
    }
    Finished(instruments, order, n, m, k, reports);
    r := Some(reports);
  }

  lemma NamesStep(order: seq<string>, j: nat, reports: seq<InstrumentReport>, next: seq<InstrumentReport>)
    requires j < |order| && |reports| == j && |next| == j + 1 && next[..j] == reports
    requires forall i :: 0 <= i < j ==> reports[i].stats.instrument == order[i]
    requires next[j].stats.instrument == order[j]
    ensures forall i :: 0 <= i < j + 1 ==> next[i].stats.instrument == order[i]
  {
    forall i | 0 <= i < j ensures next[i].stats.instrument == order[i] {
      assert next[i] == next[..j][i];
    }
  }

  /** One pass of the loop body: analyse `inst` and append its report. */
  method AppendAnalysis(instruments: map<string, seq<Bar>>, inst: string, n: int, m: int, k: real,
                        reports: seq<InstrumentReport>) returns (next: Option<seq<InstrumentReport>>)
    requires inst in instruments && AllAnalyzed(instruments, n, m, k, reports)
    ensures next.None? <==> |instruments[inst]| == 0 || m <= 0
    ensures next.Some? ==> |next.value| == |reports| + 1 && next.value[..|reports|] == reports
    ensures next.Some? ==> next.value[|reports|].stats.instrument == inst
    ensures next.Some? ==> AllAnalyzed(instruments, n, m, k, next.value)
  {
    var analysis := AnalyzeInstrument(inst, instruments[inst], n, m, k);
    if analysis.None? {
      return None;
    }
    NewReport(instruments, n, m, k, inst, analysis.value);
    var extended := reports + [analysis.value];
    assert extended[..|reports|] == reports;
    next := Some(extended);
  }

  lemma NewReport(instruments: map<string, seq<Bar>>, n: int, m: int, k: real, inst: string, a: InstrumentReport)
    requires inst in instruments && Analyzed(inst, instruments[inst], n, m, k, a)
    ensures a.stats.instrument == inst && AnalyzedIn(instruments, n, m, k, a)
  {
  }

  lemma Finished(instruments: map<string, seq<Bar>>, order: seq<string>, n: int, m: int, k: real, reports: seq<InstrumentReport>)
    requires |order| == |instruments| == |reports|
    requires forall x :: x in order <==> x in instruments
    requires forall i, j :: 0 <= i < j < |order| ==> order[i] != order[j]
    requires forall i :: 0 <= i < |reports| ==> reports[i].stats.instrument == order[i]
    requires AllAnalyzed(instruments, n, m, k, reports)
    ensures CoversInstruments(instruments, n, m, k, reports)
    ensures !(m <= 0 && |instruments| > 0)
    ensures forall inst :: inst in instruments ==> |instruments[inst]| > 0
  {
    AllAnalyzedEach(instruments, n, m, k, reports);
    forall inst | inst in instruments
      ensures exists j :: 0 <= j < |reports| && reports[j].stats.instrument == inst
      ensures |instruments[inst]| > 0
    {
      var j :| 0 <= j < |order| && order[j] == inst;
      assert AnalyzedIn(instruments, n, m, k, reports[j]);
    }
    if |instruments| > 0 {
      assert AnalyzedIn(instruments, n, m, k, reports[0]);
    }
  }

  /** The overall summary of a run: every instrument counted once, the bar
      total is the number of all bars, the anomaly total the number of all
      raised flags, and the anomaly percentage lies between 0 and 100. */
  lemma ReportTotals(instruments: map<string, seq<Bar>>, totalTrades: nat, n: int, m: int, k: real, run: RunReport)
    requires CoversInstruments(instruments, n, m, k, run.reports)
    requires run.overall == OverallOf(run.reports, |instruments|, totalTrades, n, m, k)
    ensures run.overall.numInstruments == |run.reports| == |instruments|
    ensures run.overall.totalTrades == totalTrades
    ensures run.overall.totalBars == |AllBars(run.reports)|
    ensures run.overall.totalAnomalies == CountTrue(AllFlags(run.reports)) <= run.overall.totalBars
    ensures 0.0 <= AnomalyPercent(run.overall) <= 100.0
  {
    var reports := run.reports;
    forall j | 0 <= j < |reports|
      ensures reports[j].stats.numBars == |reports[j].bars| == |reports[j].flags|
      ensures reports[j].stats.numAnomalies == CountTrue(reports[j].flags)
    {
      ReportCounts(instruments, n, m, k, reports[j]);
    }
    OverallTotals(reports);
    AnomalyPercentBounds(run.overall);
  }

  lemma ReportCounts(instruments: map<string, seq<Bar>>, n: int, m: int, k: real, r: InstrumentReport)
    requires AnalyzedIn(instruments, n, m, k, r)
    ensures r.stats.numBars == |r.bars| == |r.flags|
    ensures r.stats.numAnomalies == CountTrue(r.flags)
  {
    var inst := r.stats.instrument;
    AnalyzedAnomalies(inst, instruments[inst], n, m, k, r);
  }

  /** Every instrument of the bars has at least one bar, and there are
      instruments exactly when there are trades. */
  lemma BarsNonEmpty(trades: seq<Trade>, instruments: map<string, seq<Bar>>)
    requires BarsOf(trades, instruments)
    ensures forall inst :: inst in instruments ==> |instruments[inst]| > 0
    ensures |instruments| > 0 <==> |trades| > 0
  {
    forall inst | inst in instruments ensures |instruments[inst]| > 0 {
      var t :| t in trades && t.instrument == inst;
      assert HasMinute(instruments[t.instrument], MinuteStart(t.timestamp));
    }
    if |trades| > 0 {
      assert trades[0].instrument in instruments;
    }
    if |instruments| > 0 {
      var inst :| inst in instruments;
      var t :| t in trades && t.instrument == inst;
    }
  }

  /** What a report promises once its bars come from clean trades: with
      `N > 0` every VWAP is defined and lies within its window's price range,
      the price range is not inverted, and with `M = 1` and `k >= 1` no bar
      is flagged. */
  ghost predicate SoundReport(r: InstrumentReport, n: int, m: int, k: real)
  {
    && |r.vwaps| == |r.bars| && |r.flags| == |r.bars|
    && (forall i :: 0 <= i < |r.bars| && n > 0 ==>
          r.vwaps[i].Some? && MinOf(Window(r.bars, i, n), BarLow) <= r.vwaps[i].value <= MaxOf(Window(r.bars, i, n), BarHigh))
    && (m == 1 && k >= 1.0 ==> forall i :: 0 <= i < |r.flags| ==> !r.flags[i])
    && r.stats.priceLow <= r.stats.priceHigh
  }

  lemma ReportSound(instruments: map<string, seq<Bar>>, n: int, m: int, k: real, r: InstrumentReport)
    requires AnalyzedIn(instruments, n, m, k, r)
    requires forall j :: 0 <= j < |instruments[r.stats.instrument]| ==> SoundBar(instruments[r.stats.instrument][j])
    ensures SoundReport(r, n, m, k)
  {
    var bars := r.bars;
    forall i | 0 <= i < |bars| && n > 0
      ensures r.vwaps[i].Some? && MinOf(Window(bars, i, n), BarLow) <= r.vwaps[i].value <= MaxOf(Window(bars, i, n), BarHigh)
    {
      SoundVwap(bars, i, n);
    }
    if m == 1 && k >= 1.0 {
      forall i | 0 <= i < |r.flags| ensures !r.flags[i] {
        WindowOneNeverFlags(bars, i, k);
      }
    }
    PriceRangeOrdered(r.stats.instrument, bars, Details(bars, r.medians, r.flags));
  }

  /** Every report of a run over the clean trades of `rows` is sound. */
  lemma RunSound(rows: seq<RawRow>, instruments: map<string, seq<Bar>>, n: int, m: int, k: real, reports: seq<InstrumentReport>)
    requires BarsOf(KeptTrades(rows), instruments)
    requires CoversInstruments(instruments, n, m, k, reports)
    ensures forall j :: 0 <= j < |reports| ==> SoundReport(reports[j], n, m, k)
  {
    KeptTradesUnique(rows);
    BarsOfValidTrades(KeptTrades(rows), instruments);
    forall j | 0 <= j < |reports| ensures SoundReport(reports[j], n, m, k) {
      ReportSound(instruments, n, m, k, reports[j]);
    }
  }

  /** `main` from the raw rows of the input file to the report: the
      cleaning statistics, the bars of every instrument, and the per-instrument
      and overall results. The run fails only for a non-positive `M` with at
      least one clean trade. */
  method RunPipeline(rows: seq<RawRow>, n: int, m: int, k: real)
    returns (cleaning: CleaningStats, instruments: map<string, seq<Bar>>, r: Option<RunReport>)
    ensures cleaning.total == |rows| && cleaning.kept == |KeptTrades(rows)|
    ensures cleaning.kept + cleaning.skipped == cleaning.total
    ensures BarsOf(KeptTrades(rows), instruments)
    ensures forall inst :: inst in instruments ==> StrictlySortedBy(instruments[inst], BarMinute)
    ensures r.None? <==> m <= 0 && |KeptTrades(rows)| > 0
    ensures r.Some? ==> CoversInstruments(instruments, n, m, k, r.value.reports)
    ensures r.Some? ==> r.value.overall == OverallOf(r.value.reports, |instruments|, cleaning.kept, n, m, k)
    ensures r.Some? ==> forall j :: 0 <= j < |r.value.reports| ==> SoundReport(r.value.reports[j], n, m, k)
  {
    var clean;
    cleaning, clean := CleanTrades(rows);
    var totalTrades;
    instruments, totalTrades := BuildBars(clean);
    BarsNonEmpty(clean, instruments);
    var reports := Report(instruments, n, m, k);
    if reports.None? {
      return cleaning, instruments, None;
    }
    RunSound(rows, instruments, n, m, k, reports.value);
    var overall := OverallOf(reports.value, |instruments|, totalTrades, n, m, k);
    r := Some(RunReport(reports.value, overall));
  }
}
