# tradeqc: a verified model of the trade-QC pipeline

`tradeqc.py` is a batch quality-control pipeline for trade data. It has five stages:

1. It reads raw trade rows and validates and deduplicates them.
2. It buckets the clean trades into one-minute OHLCV bars per instrument.
3. It computes a trailing VWAP and a trailing median volume for every bar.
4. It flags bars whose volume is more than `k` times their rolling median.
5. It reduces bars and flags to per-instrument and overall statistics.

This project models those stages in Dafny and proves what each stage guarantees.

The model is organised by the program's stages:

| file | module | models |
|---|---|---|
| `wrappers.dfy` | `Wrappers` | `Option`, used for Python's `None` and for runs that raise |
| `seqs.dfy` | `Seqs` | `sum`, `min`, `max` over a projection, and counting `True`s, with their lemmas |
| `sorting.dfy` | `Sorting` | `list.sort` / `sorted` with a key: a stable insertion sort with proofs of order, permutation, full stability, and sum preservation |
| `cleaning.dfy` | `Cleaning` | `is_valid_number`, the chain of row checks and the `clean_trades` loop with its counters, reason map and `seen_ids` set |
| `bars.dfy` | `Bars` | `build_ohlcv_bars`: the grouping loop, the reduction loop and the per-instrument sort |
| `rolling.dfy` | `Rolling` | `compute_rolling_vwap` and `compute_rolling_median_volume` as loops, checked against pure window functions; `statistics.median`; the soundness of bars built from valid trades |
| `anomaly.dfy` | `Anomalies` | `detect_anomalies` |
| `summary.dfy` | `Summary` | the per-instrument loop body of `main`, the anomaly details, the statistics record, the top-3 ranking and the overall record |
| `pipeline.dfy` | `Pipeline` | `main` from raw rows to the report data |

How the model represents the program's data:

- **Raw rows.** A raw row is a `RawRow` whose fields are already parsed:
  - the number of CSV fields;
  - the timestamp, in microseconds since the epoch, or `None` when `datetime.fromisoformat` fails;
  - the price and the volume, each `None` when `float` fails;
  - the instrument and trade-id strings as read.
- **Numbers and time.** Prices and volumes are exact `real`s. A timestamp is an instant in UTC. A minute is the timestamp truncated to a multiple of 60 000 000 microseconds.
- **Bars.** An instrument's bars are a `seq<Bar>` held in a `map<string, seq<Bar>>`.
- **Errors.** A Python exception that ends the run becomes a `None` result. Within the inputs the model represents, that exception is `statistics.median` of an empty window, which happens when `M <= 0`. The source has further exceptions, which the model excludes by the way it represents its input. The `TypeError` of mixed time-zone styles and the `KeyError` of an unexpected header are examples; "## Left out" lists them.

## Model

| member | source | states |
|---|---|---|
| Cleaning.Validate | tradeqc.py:87-111 | A row is rejected for the first failing check, in the order of the source: column count, price, volume, timestamp, instrument, trade id. Every earlier check passes. A row is accepted exactly when every check passes, and the trade carries the row's parsed fields. |
| Cleaning.NumberChecks | tradeqc.py:55-60 | `IsValidNumber` (`is_valid_number`) inside the chain of checks. With a correct column count, the price check fails exactly when the price is unparsable, zero or negative. After it, the volume check fails exactly when the volume is. Zero and negative values are rejected and a positive fraction is accepted. |
| Cleaning.BlankExamples | tradeqc.py:105-111 | `IsBlank` (`not s.strip()`): the empty string, ASCII whitespace, and the non-ASCII spaces that `str.isspace` accepts are blank. A string with a visible character, or with a NUL character, is not. |
| Cleaning.BlankConcat | tradeqc.py:105-111 | A concatenation is blank exactly when both of its parts are. |
| Cleaning.TextChecks | tradeqc.py:105-111 | Once the earlier checks pass, the instrument check fails exactly when the instrument is blank. After it, the trade-id check fails exactly when the trade id is blank. |
| Cleaning.CheckMeaning | tradeqc.py:113-116 | `Check`, one row against `seen_ids`. The row is kept exactly when it passes the six checks and its id is new. It is a duplicate exactly when it passes them and its id was seen. Otherwise it keeps the reason of its first failing check. |
| Cleaning.Bump | tradeqc.py:88-114 | Incrementing one `skip_counts` entry raises that reason by one and leaves every other reason unchanged. |
| Cleaning.SkippedBump | tradeqc.py:125 | One increment raises `sum(skip_counts.values())` by one. |
| Cleaning.CleanTrades | tradeqc.py:84-126 | The loop over the rows keeps exactly the rows whose verdict, given the ids already seen, is keep. `total` is the row count and `kept` the number of clean trades. `kept + skipped == total`. `skip_reasons` holds exactly the reasons with a positive count, each with its count. |
| Cleaning.SeenIdsAreValidIds | tradeqc.py:113-116 | `seen_ids` holds exactly the ids of rows that passed every validity check. An invalid earlier row never blocks a later valid one. |
| Cleaning.KeptIffFirstValid | tradeqc.py:109-119 | A row is kept iff it is valid and no earlier valid row has its trade id. |
| Cleaning.DuplicateIffEarlierValid | tradeqc.py:113-115 | A row is skipped as a duplicate iff it is valid and an earlier valid row has its id. An invalid row gets its own first failing reason. |
| Cleaning.SeenIdsAreKeptIds | tradeqc.py:113-119 | `seen_ids` is exactly the set of ids of the kept trades. |
| Cleaning.KeptTradesUnique | tradeqc.py:113-119 | Kept trades have pairwise distinct trade ids, and every kept trade is valid. |
| Bars.MinuteStart | tradeqc.py:145-147 | The minute start is at or below the timestamp, less than one minute below it, and on a minute boundary. |
| Bars.GroupTrades | tradeqc.py:138-150 | After the first loop, the bucket keys are exactly the (instrument, minute) keys of the trades. Each bucket holds that key's trades in input order. A key with no trades has no bucket. |
| Bars.GroupStep | tradeqc.py:150 | Appending one trade grows only its own bucket, by that trade. |
| Bars.ReduceBuckets | tradeqc.py:153-169 | After the second loop, each instrument's list holds exactly one bar per bucket of that instrument, and each bar is the reduction of its bucket. |
| Bars.MakeBarMeaning | tradeqc.py:155-168 | `MakeBar`, the reduction of one bucket: `open` is the price of the first of the earliest trades and `close` the price of the last of the latest trades; timestamp ties keep input order. `high` and `low` are the greatest and least prices. `volume` and `pv_sum` are the sums of volume and of price times volume. |
| Bars.MakeBarOrdered | tradeqc.py:163-166 | `low <= open <= high` and `low <= close <= high`. |
| Bars.ReducedBars | tradeqc.py:137-169 | The instruments are exactly those of the trades, and every bar is the reduction of the non-empty bucket of its minute. Every trade's minute has a bar in its instrument's list, and no list has two bars for the same minute. |
| Bars.SortEach | tradeqc.py:171-172 | Each list is replaced by its stable sort on `minute_start`. The instruments are unchanged. |
| Bars.SortedBars | tradeqc.py:171-172 | Sorting keeps the bars of the trades and makes every list strictly ascending by minute. |
| Bars.BuildBars | tradeqc.py:131-173 | `total_trades` is the number of clean trades. The result is exactly the bars of the trades: one bar per non-empty (instrument, minute) bucket and no bar for an empty minute. Each list is strictly ascending by minute. |
| Sorting.SortByPermutes | tradeqc.py:156 | The sort is a permutation of its input. |
| Sorting.SortBySorted | tradeqc.py:156 | The sort's output is ascending by the key. |
| Sorting.SortByStable | tradeqc.py:156 | Full stability of `list.sort` / `sorted`: for every key value, the elements with that key appear in the output in exactly their input order. |
| Sorting.SortByHead | tradeqc.py:156-163 | Its head is the first input element among those with the least key (stability). |
| Sorting.SortByLast | tradeqc.py:156-166 | Its last element is the last input element among those with the greatest key (stability). |
| Rolling.Window | tradeqc.py:181 | The window ending at bar `i` holds `min(w, i + 1)` bars and ends at bar `i`. It is empty when `w <= 0`. |
| Rolling.WindowWholePrefix | tradeqc.py:181 | When the window size is at least `i + 1`, the window is the whole prefix `bars[0..i]`. |
| Rolling.VwapOf | tradeqc.py:182-187 | The VWAP of a window is `None` exactly when the window's volume sum is zero. |
| Rolling.RollingVwap | tradeqc.py:177-188 | One VWAP per bar: entry `i` is the VWAP of the trailing window ending at bar `i`. |
| Rolling.VwapDefined | tradeqc.py:182-184 | With positive bar volumes and `n > 0`, every VWAP is defined. |
| Rolling.VwapWithinRange | tradeqc.py:182-187 | A defined VWAP lies between the window's lowest low and highest high. |
| Rolling.VwapBetween | tradeqc.py:182-187 | A defined VWAP lies within any price band that contains all of the window's bars. |
| Rolling.VwapIsTradeVwap | tradeqc.py:177-188 | The VWAP over bars equals the VWAP over all the trades in those bars: bar volumes and `pv_sum`s add up to the trade totals. |
| Rolling.MakeBarSound | tradeqc.py:155-168 | A bucket of trades with positive volumes reduces to a sound bar. A sound bar has positive volume, a `pv_sum` between `low` and `high` times its volume, and `low <= high`. |
| Rolling.BucketTicksPositive | tradeqc.py:150 | Every trade in a bucket of valid trades has positive volume. |
| Rolling.BarsOfValidTrades | tradeqc.py:131-173 | Every bar built from valid trades is sound. |
| Rolling.SoundVwap | tradeqc.py:181-187 | Over sound bars, the VWAP of every window with `n > 0` is defined, and it lies between the window's lowest low and highest high. |
| Rolling.Volumes | tradeqc.py:306 | `volumes` lists each bar's volume, in bar order. |
| Rolling.MedianOfSorted | tradeqc.py:196 | `Median` (`statistics.median`) is the middle sorted value for an odd count and the mean of the two middle sorted values for an even count. |
| Rolling.MedianEven | tradeqc.py:196 | For an even count, the median is the mean of the two middle sorted values. |
| Rolling.MedianPermutation | tradeqc.py:196 | The median does not depend on the order of its input. |
| Rolling.MedianBounds | tradeqc.py:196 | The median lies between the least and the greatest value. |
| Rolling.RollingMedianVolume | tradeqc.py:191-197 | The run fails (`None`) exactly when `M <= 0` and there is a bar, because the median of an empty window raises. Otherwise there is one median per bar: entry `i` is the median volume of the trailing window ending at bar `i`. |
| Rolling.MedianWindowOne | tradeqc.py:195-196 | For a one-bar window, the median volume is that bar's volume. |
| Rolling.RollingMedianBounds | tradeqc.py:195-196 | Each rolling median lies between the least and the greatest volume of its window. |
| Anomalies.DetectAnomalies | tradeqc.py:200-208 | One flag per pair of the `zip`, so the output is as long as the shorter input. A flag is true iff the median is present and non-zero and `vol > k * med` holds strictly. |
| Anomalies.AnomalyStrict | tradeqc.py:207 | A volume of exactly `k * med` is not flagged; any larger volume is. |
| Anomalies.AnomalyMonotone | tradeqc.py:204-207 | `IsAnomaly`, the flag of one `(vol, med)` pair, is monotone. A larger volume stays flagged, and with a positive median a smaller factor `k` keeps the flag. |
| Anomalies.NoMedianNoAnomaly | tradeqc.py:204-205 | A missing or zero median gives no flag. |
| Anomalies.WindowOneNeverFlags | tradeqc.py:195-207 | With `M = 1` and `k >= 1`, no bar of non-negative volume is flagged, because its median is its own volume. |
| Anomalies.SpikeScenario | tradeqc.py:191-208 | Take bars of volume 50, 5000 and 50 with `M = 3` and `k = 10`. The medians are 50, 2525 and 50, and nothing is flagged, because the spike enters its own median. Against the previous bar alone, the spike would be flagged. |
| Summary.CollectAnomalies | tradeqc.py:316-319 | The loop builds the anomaly details of the flagged bars, in bar order. |
| Summary.DetailsCount | tradeqc.py:316-327 | The number of details is the number of true flags. |
| Summary.DetailsFromFlags | tradeqc.py:316-319 | Every detail is the (minute, volume, median) of a flagged bar. |
| Summary.FlagsGiveDetails | tradeqc.py:316-319 | Every flagged bar has its detail in the list. |
| Summary.SummarizeVolume | tradeqc.py:321-329 | `Summarize`, the statistics record: it carries the instrument, `num_bars` is the bar count, `num_anomalies` is the number of details, and the details are kept as given. With non-negative volumes, `total_volume` is non-negative and at least each bar's volume. |
| Summary.SummarizePriceRange | tradeqc.py:325-326 | `Summarize`: `price_low` is the least bar low and `price_high` the greatest bar high. Both are attained. |
| Summary.PriceRangeOrdered | tradeqc.py:325-326 | With every bar's low at most its high, `price_low <= price_high`. |
| Summary.TopAnomaliesRanked | tradeqc.py:259 | `TopAnomalies`, the sorted and sliced list. The top list holds `min(3, count)` details, in descending `volume / median`, all taken from the input as a sub-multiset. |
| Summary.TopAnomaliesBeatRest | tradeqc.py:259 | No detail left out of the top list has a higher ratio than any detail in it. |
| Summary.TopAnomaliesStable | tradeqc.py:259 | Ties keep bar order in every place. For each ratio, the top details with that ratio are the first details with that ratio, in their order. Together with the two rows above, this fixes the top list completely. |
| Summary.TopAnomalyFirst | tradeqc.py:259 | The first of the top list is the earliest detail among those with the highest ratio, so ties keep bar order. |
| Summary.FlagBars | tradeqc.py:306-307 | `detect_anomalies` on the bar volumes and the rolling medians gives each bar's `IsAnomaly` flag. |
| Summary.FlagsAreAnomalies | tradeqc.py:306-307 | The `zip`-based flags of `detect_anomalies` are, bar by bar, the anomaly test on that bar's volume and median. |
| Summary.AnalyzeInstrument | tradeqc.py:303-329 | The loop body for one instrument fails exactly when the instrument has no bars or `M <= 0`. Otherwise it returns the VWAPs, the medians and the flags, each one per bar and each given by its definition, together with the statistics record of those bars and details. |
| Summary.AnalyzedAnomalies | tradeqc.py:316-328 | `num_anomalies` is the number of true flags, at most `num_bars`. Each detail has a non-zero median and a volume above `k` times it, and comes from a flagged bar. Every flagged bar contributes its detail. |
| Summary.DetailsMeaning | tradeqc.py:316-327 | When the flags are the anomaly tests, the details are exactly the flagged bars: there are as many details as true flags, and each detail has a non-zero median and `volume > k * median`. |
| Summary.AllAnalyzedEach | tradeqc.py:301-329 | Reports built one at a time are each the analysis of their instrument. |
| Summary.AllBarsMembers | tradeqc.py:332 | `all_minutes` is drawn from exactly the bars of all instruments. |
| Summary.OverallTimeRange | tradeqc.py:332-339 | `OverallOf`, the overall record: `time_min` and `time_max` are "N/A" (`None`) exactly when there are no bars. Otherwise they are the least and greatest `minute_start` over all bars, and each is attained. |
| Summary.OverallTotals | tradeqc.py:336-340 | `OverallOf`: `total_bars` is the number of all bars, and `total_anomalies` is the number of all true flags, which is at most `total_bars`. |
| Summary.AnomalyPercentBounds | tradeqc.py:267-268 | `AnomalyPercent`: the anomaly percentage lies between 0 and 100; it is 0 when there are no bars. |
| Pipeline.InstrumentOrder | tradeqc.py:302 | The instrument loop visits every instrument exactly once. |
| Pipeline.AppendAnalysis | tradeqc.py:302-329 | One pass of the loop appends the analysis of one instrument and keeps the earlier reports. It fails exactly when that instrument's analysis raises. |
| Pipeline.NamesStep | tradeqc.py:302 | The reports stay in visiting order as the loop appends. |
| Pipeline.Finished | tradeqc.py:301-329 | At the end of the loop, every instrument has exactly one report, and that report is its analysis. |
| Pipeline.Report | tradeqc.py:301-329 | The instrument loop fails exactly when `M <= 0` with an instrument present, or when an instrument has no bars. Otherwise it yields one analysed report per instrument, each instrument once. |
| Pipeline.ReportTotals | tradeqc.py:333-344 | `num_instruments` is the instrument count and `total_trades` is passed through. `total_bars` is the number of all bars and `total_anomalies` the number of all true flags, at most `total_bars`. The percentage lies in 0..100. |
| Pipeline.ReportCounts | tradeqc.py:321-327 | For an analysed report, `num_bars` is its bar count and `num_anomalies` its true-flag count. |
| Pipeline.ReportSound | tradeqc.py:303-329 | Take an analysed report whose bars are sound. With `N > 0` every VWAP is defined and lies in its window's price range. `price_low <= price_high`. With `M = 1` and `k >= 1`, no bar is flagged. |
| Pipeline.RunSound | tradeqc.py:297-329 | Every report of a run over the clean trades has those properties, because the bars of kept trades are sound. |
| Pipeline.BarsNonEmpty | tradeqc.py:150-161 | Every instrument of the bar map has at least one bar, and there are instruments exactly when there are clean trades. |
| Pipeline.RunPipeline | tradeqc.py:283-344 | From raw rows to the report data. It returns the cleaning totals, and the bars of exactly the kept trades, each list strictly ascending by minute. The run fails exactly when `M <= 0` and some trade is kept. Otherwise every instrument is analysed once, and every report has the properties of Pipeline.ReportSound. The overall record is the reduction of the reports. |

## Left out

- Command-line and file handling are not modelled. This covers `parse_args`, `os.makedirs`, the CSV reader and writer, `write_instrument_csv`, the text of `generate_report`, and the console output.
- The clean file written by `clean_trades` is not re-read: bar building receives the kept trades directly. That equals what re-reading gives only when the header is the expected one (tradeqc.py:79-82), which the model assumes. An empty input file makes `next(reader)` raise. An unexpected header is only warned about and is copied to the clean file. `csv.DictReader` then reads the clean file by that header's names while `clean_trades` checked by position. A header without a `timestamp`, `price`, `volume` or `instrument` column makes tradeqc.py:144-150 raise `KeyError`. A header with those names in another order makes bar building read the wrong fields.
- Timestamp and number parsing are not modelled. These are `datetime.fromisoformat` with its time zones, and `float`. Rows arrive with those fields already parsed, as `Option` values. `float("inf")` and `float("nan")` have no counterpart among the reals.
- Bars.MinuteStart: bucketing is by the UTC instant truncated to the minute. That matches tradeqc.py:144-147 only when every timestamp has a zero UTC offset (`Z`, `+00:00`) or none. `build_ohlcv_bars` parses the timestamp again without the UTC default of `parse_timestamp` (tradeqc.py:48-49). It takes `minute_str` from the timestamp's own clock fields, not from the UTC instant. So `10:00:10+01:00` and `10:00:20Z` share one bucket in Python but land in two bars in the model. The per-instrument sort on that string (tradeqc.py:172) then follows local clock times, not instants.
- A bucket that mixes a timestamp without an offset and one with an offset, say `2025-01-01T09:00:05` and `2025-01-01T09:00:10Z`, makes `trades.sort` raise `TypeError` at tradeqc.py:156. Naive and aware `datetime`s cannot be compared. The model treats both as UTC and builds one bar.
- Timestamps are in microseconds rather than seconds. This is Python's `datetime` resolution, so two trades in the same second keep distinct exact timestamps for the open and close sort.
- `minute_start` is an integer rather than the `%Y-%m-%dT%H:%M:%SZ` string. For that fixed format, string order and numeric order agree.
- Rounding and floating point are not modelled: all arithmetic is exact. The source rounds to 4 places at several points:
  - bar prices, volume and `pv_sum`, before the rolling steps;
  - the VWAP;
  - the median, before the anomaly test compares against it.

  The report also rounds ratios to 2 places.
- Rolling.RollingMedianVolume: the whole run failing with `StatisticsError` is modelled as a `None` result. With `M <= 0` every window is empty, so the error is certain once there is a bar.
- Pipeline.InstrumentOrder: it promises each instrument exactly once, in an order the model leaves open, where Python uses `sorted(instruments)`. Every contract of Pipeline.Report and Pipeline.RunPipeline holds whatever that order is.
- Summary.TopAnomalies requires non-zero medians, because Python would raise `ZeroDivisionError` on a zero median. Flagged bars always have a non-zero median, which Summary.AnalyzedAnomalies proves.
- `data_generate.py` is not part of this model. It writes random synthetic input.
- The code flags a bar when the median is non-zero (`med != 0`). The model follows the code, not the requirement that the median be positive. The two agree on clean data, whose volumes are all positive.
- The median window contains the bar itself. An extreme bar can therefore raise its own baseline, as Anomalies.SpikeScenario shows. The model keeps this behaviour as written.
