/** Record validation and deduplication (`clean_trades` in tradeqc.py).
    A raw row arrives with its fields already parsed: the number of CSV
    fields, the timestamp (microseconds since the epoch, `None` when
    `datetime.fromisoformat` fails), the price and volume (`None` when
    `float(...)` fails), and the instrument and trade-id strings as read. */
module Cleaning {
  import opened Wrappers

  /** Length of the expected header `timestamp,instrument,price,volume,trade_id`. */
  const ColumnCount: nat := 5

  datatype RawRow = RawRow(
    fieldCount: nat,
    timestamp: Option<int>,
    instrument: string,
    price: Option<real>,
    volume: Option<real>,
    tradeId: string)

  /** A row that passed every check; it is written unchanged to the clean file. */
  datatype Trade = Trade(timestamp: int, instrument: string, price: real, volume: real, tradeId: string)

  /** The skip-reason codes, declared in the order in which the checks run. */
  datatype SkipReason =
    | BadColumnCount
    | InvalidPrice
    | InvalidVolume
    | InvalidTimestamp
    | MissingInstrument
    | MissingTradeId
    | DuplicateTradeId

  datatype Verdict = Keep(trade: Trade) | Skip(reason: SkipReason)

  datatype CleaningStats = CleaningStats(total: nat, kept: nat, skipped: nat, skipReasons: map<SkipReason, nat>)

  const AllReasons: seq<SkipReason> :=
    [BadColumnCount, InvalidPrice, InvalidVolume, InvalidTimestamp, MissingInstrument, MissingTradeId, DuplicateTradeId]

  /** Position of a check in the order in which `clean_trades` runs them. */
  function Rank(r: SkipReason): nat
  {
    match r
    case BadColumnCount => 0
    case InvalidPrice => 1
    case InvalidVolume => 2
    case InvalidTimestamp => 3
    case MissingInstrument => 4
    case MissingTradeId => 5
    case DuplicateTradeId => 6
  }

  /** `is_valid_number`: the field parsed as a number and that number is positive. */
  predicate IsValidNumber(v: Option<real>)
  {
    v.Some? && v.value > 0.0
  }

  /** The characters Python's `str.strip()` removes (those for which `str.isspace()` holds). */
  predicate IsPythonSpace(c: char)
  {
    var n := c as int;
    (9 <= n <= 13) || (28 <= n <= 32) || n == 133 || n == 160 || n == 5760
    || (8192 <= n <= 8202) || n == 8232 || n == 8233 || n == 8239 || n == 8287 || n == 12288
  }

  /** `not s.strip()`: the string is empty once surrounding whitespace is removed. */
  predicate IsBlank(s: string)
  {
    forall i :: 0 <= i < |s| ==> IsPythonSpace(s[i])
  }

  /** Whether `row` passes the check whose failure is reported as `r`. The
      duplicate check depends on the rows before it, not on the row alone. */
  predicate Passes(row: RawRow, r: SkipReason)
  {
    match r
    case BadColumnCount => row.fieldCount == ColumnCount
    case InvalidPrice => IsValidNumber(row.price)
    case InvalidVolume => IsValidNumber(row.volume)
    case InvalidTimestamp => row.timestamp.Some?
    case MissingInstrument => !IsBlank(row.instrument)
    case MissingTradeId => !IsBlank(row.tradeId)
    case DuplicateTradeId => true
  }

  /** A kept trade: positive price and volume, non-blank instrument and id. */
  predicate IsValidTrade(t: Trade)
  {
    t.price > 0.0 && t.volume > 0.0 && !IsBlank(t.instrument) && !IsBlank(t.tradeId)
  }

  /** The six per-row checks of `clean_trades`, in their order. A row with
      several defects is reported under the first one only. */
  function Validate(row: RawRow): (v: Verdict)
    ensures v.Skip? ==> v.reason != DuplicateTradeId && !Passes(row, v.reason)
    ensures v.Skip? ==> forall r :: Rank(r) < Rank(v.reason) ==> Passes(row, r)
    ensures v.Keep? <==> forall r :: Passes(row, r)
    ensures v.Keep? ==> IsValidTrade(v.trade) && v.trade.tradeId == row.tradeId
    ensures v.Keep? ==> row.timestamp == Some(v.trade.timestamp) && row.instrument == v.trade.instrument
    ensures v.Keep? ==> row.price == Some(v.trade.price) && row.volume == Some(v.trade.volume)
  {
    if row.fieldCount != ColumnCount then Skip(BadColumnCount)
    else if !IsValidNumber(row.price) then Skip(InvalidPrice)
    else if !IsValidNumber(row.volume) then Skip(InvalidVolume)
    else if row.timestamp.None? then Skip(InvalidTimestamp)
    else if IsBlank(row.instrument) then Skip(MissingInstrument)
    else if IsBlank(row.tradeId) then Skip(MissingTradeId)
    else Keep(Trade(row.timestamp.value, row.instrument, row.price.value, row.volume.value, row.tradeId))
  }

  /** One row against the ids kept so far: the six checks, then the duplicate check. */
  function Check(row: RawRow, seen: set<string>): Verdict
  {
    match Validate(row)
    case Skip(r) => Skip(r)
    case Keep(t) => if row.tradeId in seen then Skip(DuplicateTradeId) else Keep(t)
  }

  /** `seen_ids` after the rows `rows`. */
  function SeenIds(rows: seq<RawRow>): set<string>
  {
    if rows == [] then {}
    else
      var prev := SeenIds(rows[..|rows| - 1]);
      match Check(rows[|rows| - 1], prev)
      case Keep(t) => prev + {t.tradeId}
      case Skip(_) => prev
  }

  /** What `clean_trades` does with the row at index `i`. */
  function Outcome(rows: seq<RawRow>, i: nat): Verdict
    requires i < |rows|
  {
    Check(rows[i], SeenIds(rows[..i]))
  }

  /** The rows written to the clean file, in input order. */
  function KeptTrades(rows: seq<RawRow>): seq<Trade>
  {
    if rows == [] then []
    else
      var n := |rows| - 1;
      KeptTrades(rows[..n]) + (match Outcome(rows, n) case Keep(t) => [t] case Skip(_) => [])
  }

  /** The number of rows skipped with reason `r`. */
  function SkipCount(rows: seq<RawRow>, r: SkipReason): nat
  {
    if rows == [] then 0
    else
      var n := |rows| - 1;
      SkipCount(rows[..n], r) + (if Outcome(rows, n) == Skip(r) then 1 else 0)
  }

  /** `skip_counts[r]` of a `defaultdict(int)`. */
  function Get(m: map<SkipReason, nat>, r: SkipReason): nat
  {
    if r in m then m[r] else 0
  }

  /** `skip_counts[r] += 1`. */
  function Bump(m: map<SkipReason, nat>, r: SkipReason): (m': map<SkipReason, nat>)
    ensures Get(m', r) == Get(m, r) + 1
    ensures forall q :: q != r ==> Get(m', q) == Get(m, q)
    ensures m'.Keys == m.Keys + {r}
  {
    m[r := Get(m, r) + 1]
  }

  /** The sum of the counters named in `rs`. */
  function CountsIn(m: map<SkipReason, nat>, rs: seq<SkipReason>): nat
  {
    if rs == [] then 0 else Get(m, rs[0]) + CountsIn(m, rs[1..])
  }

  /** `sum(skip_counts.values())`: every key of the map is one of `AllReasons`. */
  function Skipped(m: map<SkipReason, nat>): nat
  {
    CountsIn(m, AllReasons)
  }

  /** Bumping one counter adds one to the sum over a list of distinct reasons
      that contains it, and nothing to one that does not. */
  lemma {:induction false} CountsInBump(m: map<SkipReason, nat>, r: SkipReason, rs: seq<SkipReason>)
    requires forall i, j :: 0 <= i < j < |rs| ==> rs[i] != rs[j]
    ensures CountsIn(Bump(m, r), rs) == CountsIn(m, rs) + (if r in rs then 1 else 0)
  {
    if rs != [] {
      CountsInBump(m, r, rs[1..]);
      assert r in rs <==> r == rs[0] || r in rs[1..];
      if r == rs[0] {
        assert r !in rs[1..];
      }
    }
  }

  /** Every bump of a skip counter adds exactly one to `skipped`. */
  lemma SkippedBump(m: map<SkipReason, nat>, r: SkipReason)
    ensures Skipped(Bump(m, r)) == Skipped(m) + 1
  {
    CountsInBump(m, r, AllReasons);
    assert r in AllReasons by {
      match r
      case BadColumnCount => assert AllReasons[0] == r;
      case InvalidPrice => assert AllReasons[1] == r;
      case InvalidVolume => assert AllReasons[2] == r;
      case InvalidTimestamp => assert AllReasons[3] == r;
      case MissingInstrument => assert AllReasons[4] == r;
      case MissingTradeId => assert AllReasons[5] == r;
      case DuplicateTradeId => assert AllReasons[6] == r;
    }
  }

  /** `is_valid_number` in the chain of checks: after a correct column count
      the price check fails exactly when the price is unparsable, zero or
      negative, and after that the volume check fails exactly when the volume
      is. */
  lemma NumberChecks(row: RawRow)
    ensures row.fieldCount == ColumnCount ==> (Validate(row) == Skip(InvalidPrice) <==> !IsValidNumber(row.price))
    ensures row.fieldCount == ColumnCount && IsValidNumber(row.price) ==>
      (Validate(row) == Skip(InvalidVolume) <==> !IsValidNumber(row.volume))
    ensures !IsValidNumber(None) && !IsValidNumber(Some(0.0)) && !IsValidNumber(Some(-1.0)) && IsValidNumber(Some(0.5))
  {
  }

  /** `not s.strip()`: a string is blank when it is empty or all whitespace,
      including the non-ASCII spaces `str.isspace` accepts; one visible
      character makes it non-blank. */
  lemma BlankExamples()
    ensures IsBlank("") && IsBlank(" \t\r\n") && IsBlank([160 as char, 12288 as char])
    ensures !IsBlank(" AAPL ") && !IsBlank([0 as char])
  {
    assert " AAPL "[1] == 'A';
    assert [0 as char][0] == 0 as char;
  }

  /** A concatenation is blank exactly when both parts are. */
  lemma BlankConcat(a: string, b: string)
    ensures IsBlank(a + b) <==> IsBlank(a) && IsBlank(b)
  {
    if IsBlank(a + b) {
      forall i | 0 <= i < |b| ensures IsPythonSpace(b[i]) {
        assert (a + b)[|a| + i] == b[i];
      }
      forall i | 0 <= i < |a| ensures IsPythonSpace(a[i]) {
        assert (a + b)[i] == a[i];
      }
    }
  }

  /** The two `strip` checks in the chain: once the earlier checks pass, the
      instrument check fails exactly when the instrument is blank, and after
      it the trade-id check fails exactly when the trade id is blank. */
  lemma TextChecks(row: RawRow)
    ensures var early := row.fieldCount == ColumnCount && IsValidNumber(row.price) && IsValidNumber(row.volume) && row.timestamp.Some?;
      && (early ==> (Validate(row) == Skip(MissingInstrument) <==> IsBlank(row.instrument)))
      && (early && !IsBlank(row.instrument) ==> (Validate(row) == Skip(MissingTradeId) <==> IsBlank(row.tradeId)))
  {
  }

  /** One row against the ids kept so far: it is kept exactly when it passes
      the six checks and its id is new, it is a duplicate exactly when it
      passes them and its id was seen, and otherwise it keeps the reason of
      the first failing check. */
  lemma CheckMeaning(row: RawRow, seen: set<string>)
    ensures Check(row, seen).Keep? <==> Validate(row).Keep? && row.tradeId !in seen
    ensures Check(row, seen) == Skip(DuplicateTradeId) <==> Validate(row).Keep? && row.tradeId in seen
    ensures Validate(row).Skip? ==> Check(row, seen) == Validate(row)
    ensures Check(row, seen).Keep? ==> Check(row, seen) == Validate(row)
  {
  }

  /** How the spec functions advance over a skipped row. */
  lemma SkipStep(rows: seq<RawRow>, i: nat, reason: SkipReason)
    requires i < |rows| && Check(rows[i], SeenIds(rows[..i])) == Skip(reason)
    ensures SeenIds(rows[..i + 1]) == SeenIds(rows[..i])
    ensures KeptTrades(rows[..i + 1]) == KeptTrades(rows[..i])
    ensures forall r :: SkipCount(rows[..i + 1], r) == SkipCount(rows[..i], r) + (if r == reason then 1 else 0)
  {
    assert rows[..i + 1][..i] == rows[..i];
  }

  /** How the spec functions advance over a kept row. */
  lemma KeepStep(rows: seq<RawRow>, i: nat, t: Trade)
    requires i < |rows| && Check(rows[i], SeenIds(rows[..i])) == Keep(t)
    ensures SeenIds(rows[..i + 1]) == SeenIds(rows[..i]) + {rows[i].tradeId}
    ensures KeptTrades(rows[..i + 1]) == KeptTrades(rows[..i]) + [t]
    ensures forall r :: SkipCount(rows[..i + 1], r) == SkipCount(rows[..i], r)
  {
    assert rows[..i + 1][..i] == rows[..i];
  }

  /** The loop of `clean_trades` over the data rows (the header has been
      consumed). Every row increments `kept` or exactly one skip counter, and
      `skip_reasons` keeps the counters that are positive. */
  method CleanTrades(rows: seq<RawRow>) returns (stats: CleaningStats, clean: seq<Trade>)
    ensures clean == KeptTrades(rows)
    ensures stats.total == |rows| && stats.kept == |clean|
    ensures stats.kept + stats.skipped == stats.total
    ensures forall r :: r in stats.skipReasons <==> SkipCount(rows, r) > 0
    ensures forall r :: r in stats.skipReasons ==> stats.skipReasons[r] == SkipCount(rows, r)
  {
    var skipCounts: map<SkipReason, nat> := map[];
    var seenIds: set<string> := {};
    var total: nat := 0;
    var kept: nat := 0;
    clean := [];
    while total < |rows|
      invariant total <= |rows|
      invariant seenIds == SeenIds(rows[..total])
      invariant clean == KeptTrades(rows[..total]) && kept == |clean|
      invariant forall r :: Get(skipCounts, r) == SkipCount(rows[..total], r)
      invariant kept + Skipped(skipCounts) == total
    {
      var row := rows[total];
      // The checks of one row, in order; `Check` spells out the chain of
      // `continue` statements of the source.
      match Check(row, seenIds) {
        case Skip(reason) =>
          SkipStep(rows, total, reason);
          SkippedBump(skipCounts, reason);
          skipCounts := Bump(skipCounts, reason);
        case Keep(t) =>
          KeepStep(rows, total, t);
          seenIds := seenIds + {row.tradeId};
          clean := clean + [t];
          kept := kept + 1;
      }
      total := total + 1;
    }
    assert rows[..total] == rows;
    var skipReasons := map r | r in skipCounts && skipCounts[r] > 0 :: skipCounts[r];
    stats := CleaningStats(total, kept, Skipped(skipCounts), skipReasons);
  }

  /** The ids in `seen_ids` are exactly the ids of rows that pass the six
      per-row checks: a row entered the set unless an earlier valid row had
      already put its id there. */
  lemma {:induction false} SeenIdsAreValidIds(rows: seq<RawRow>)
    ensures SeenIds(rows) == set j | 0 <= j < |rows| && Validate(rows[j]).Keep? :: rows[j].tradeId
  {
    if rows != [] {
      var n := |rows| - 1;
      var init := rows[..n];
      SeenIdsAreValidIds(init);
      var prevSet := set j | 0 <= j < n && Validate(init[j]).Keep? :: init[j].tradeId;
      var allSet := set j | 0 <= j < |rows| && Validate(rows[j]).Keep? :: rows[j].tradeId;
      assert forall j :: 0 <= j < n ==> init[j] == rows[j];
      if Validate(rows[n]).Keep? {
        assert allSet == prevSet + {rows[n].tradeId};
      } else {
        assert allSet == prevSet;
      }
    }
  }

  /** The first valid occurrence of an id is kept; an invalid earlier row with
      the same id does not block it. */
  lemma KeptIffFirstValid(rows: seq<RawRow>, i: nat)
    requires i < |rows|
    ensures Outcome(rows, i).Keep? <==>
      Validate(rows[i]).Keep? && forall j :: 0 <= j < i && Validate(rows[j]).Keep? ==> rows[j].tradeId != rows[i].tradeId
  {
    SeenIdsAreValidIds(rows[..i]);
    assert forall j :: 0 <= j < i ==> rows[..i][j] == rows[j];
  }

  /** Every later valid occurrence of a kept id is dropped as a duplicate, and
      a row failing one of the six checks is skipped for that reason. */
  lemma DuplicateIffEarlierValid(rows: seq<RawRow>, i: nat)
    requires i < |rows|
    ensures Outcome(rows, i) == Skip(DuplicateTradeId) <==>
      Validate(rows[i]).Keep? && exists j :: 0 <= j < i && Validate(rows[j]).Keep? && rows[j].tradeId == rows[i].tradeId
    ensures Validate(rows[i]).Skip? ==> Outcome(rows, i) == Validate(rows[i])
  {
    SeenIdsAreValidIds(rows[..i]);
    assert forall j :: 0 <= j < i ==> rows[..i][j] == rows[j];
  }

  /** `seen_ids` holds exactly the ids of the kept rows. */
  lemma {:induction false} SeenIdsAreKeptIds(rows: seq<RawRow>)
    ensures SeenIds(rows) == set t | t in KeptTrades(rows) :: t.tradeId
  {
    if rows != [] {
      var n := |rows| - 1;
      SeenIdsAreKeptIds(rows[..n]);
      assert rows[..n] == rows[..n][..n];
      match Outcome(rows, n)
      case Keep(t) =>
        assert KeptTrades(rows) == KeptTrades(rows[..n]) + [t];
        assert t.tradeId == rows[n].tradeId;
      case Skip(_) =>
        assert KeptTrades(rows) == KeptTrades(rows[..n]);
    }
  }

  /** Kept rows have pairwise distinct trade ids and pass every per-row check. */
  lemma {:induction false} KeptTradesUnique(rows: seq<RawRow>)
    ensures forall a, b :: 0 <= a < b < |KeptTrades(rows)| ==> KeptTrades(rows)[a].tradeId != KeptTrades(rows)[b].tradeId
    ensures forall t :: t in KeptTrades(rows) ==> IsValidTrade(t)
  {
    if rows != [] {
      var n := |rows| - 1;
      KeptTradesUnique(rows[..n]);
      SeenIdsAreKeptIds(rows[..n]);
      var prev := KeptTrades(rows[..n]);
      match Outcome(rows, n)
      case Keep(t) =>
        var k := KeptTrades(rows);
        assert k == prev + [t];
        assert t.tradeId !in SeenIds(rows[..n]);
        forall a | 0 <= a < |prev| ensures prev[a].tradeId != t.tradeId {
          assert prev[a] in prev;
        }
      case Skip(_) =>
    }
  }
}
