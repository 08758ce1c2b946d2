/**
 * utils/api.py: the list of intermediate files the API object records and
 * clears, the Form 4 output names it records, and the two summaries it
 * builds from cleaned Form 4 rows (`_create_consolidated_analysis` and
 * the part of `get_ticker_summary` after the files are read).
 */
module Api {
  import opened Wrappers
  import opened Text
  import opened Dates
  import opened Tables
  import opened SecParser

  /** The tickers used when none are given (`get_us_form4_data`, `get_us_fund_flow_data`). */
  function ChooseTickers(tickers: Option<seq<string>>): (r: seq<string>)
    ensures tickers.None? ==> r == ["AAPL", "MSFT", "GOOGL"]
    ensures tickers.Some? ==> r == tickers.value
  {
    tickers.GetOr(["AAPL", "MSFT", "GOOGL"])
  }

  // ---------------------------------------------------------------------
  // Output names
  // ---------------------------------------------------------------------

  const CleanPrefix := "form4_transactions_clean_"

  /** `form4_transactions_clean_{timestamp}.csv`. */
  function CleanOutputName(stamp: string): string {
    CleanPrefix + stamp + ".csv"
  }

  /** `form4_monthly_stats_{timestamp}.csv`. */
  function StatsOutputName(stamp: string): string {
    "form4_monthly_stats_" + stamp + ".csv"
  }

  /** The names `get_ticker_summary` reads back. */
  predicate IsTransactionFile(name: string) {
    StartsWith(name, CleanPrefix) && EndsWith(name, ".csv")
  }

  /** The summary reads the cleaned transactions file it wrote, and never the monthly statistics. */
  lemma OutputNamesSelected(stamp: string)
    ensures IsTransactionFile(CleanOutputName(stamp))
    ensures !IsTransactionFile(StatsOutputName(stamp))
  {
    var c := CleanOutputName(stamp);
    assert c[..|CleanPrefix|] == CleanPrefix;
    assert c[|c| - 4..] == ".csv";
    var s := StatsOutputName(stamp);
    assert s[6] == 'm' && CleanPrefix[6] == 't';
  }

  // ---------------------------------------------------------------------
  // The intermediate-files list
  // ---------------------------------------------------------------------

  /** The recorded files a cleaning removes: those on disk whose removal does not raise. */
  function Removed(paths: seq<string>, undeletable: set<string>): set<string> {
    set p | p in paths && p !in undeletable
  }

  /** The part of `InvestmentDataAPI` that records intermediate files. */
  class InvestmentDataApi {
    const keepIntermediateFiles: bool
    var intermediateFiles: seq<string>

    constructor(keep: bool)
      ensures keepIntermediateFiles == keep && intermediateFiles == []
    {
      keepIntermediateFiles := keep;
      intermediateFiles := [];
    }

    /**
     * `_clean_intermediate_files`, given the paths on disk (`disk`) and
     * those whose `os.remove` raises (`undeletable`); returns what is left
     * on disk. Unless the object keeps its files or has none recorded,
     * every recorded file that can be removed is gone and the list is
     * empty afterwards, whatever removals failed.
     */
    method CleanIntermediateFiles(disk: set<string>, undeletable: set<string>) returns (remaining: set<string>)
      modifies this
      ensures !keepIntermediateFiles && old(intermediateFiles) != [] ==>
        intermediateFiles == [] && remaining == disk - Removed(old(intermediateFiles), undeletable)
      ensures keepIntermediateFiles || old(intermediateFiles) == [] ==>
        intermediateFiles == old(intermediateFiles) && remaining == disk
    {
      if keepIntermediateFiles || intermediateFiles == [] {
        return disk;
      }
      remaining := disk;
      var i := 0;
      while i < |intermediateFiles|
        invariant 0 <= i <= |intermediateFiles|
        invariant remaining == disk - Removed(intermediateFiles[..i], undeletable)
      {
        var path := intermediateFiles[i];
        assert intermediateFiles[..i + 1] == intermediateFiles[..i] + [path];
        if path in remaining && path !in undeletable {
          remaining := remaining - {path};
        }
        i := i + 1;
      }
      assert intermediateFiles[..i] == intermediateFiles;
      intermediateFiles := [];
    }

    /** Saving the Form 4 outputs records the cleaned file, then the statistics file, after what was recorded. */
    method TrackForm4Outputs(directory: string, stamp: string)
      modifies this
      ensures intermediateFiles == old(intermediateFiles)
        + [JoinPath(directory, CleanOutputName(stamp)), JoinPath(directory, StatsOutputName(stamp))]
    {
      intermediateFiles := intermediateFiles
        + [JoinPath(directory, CleanOutputName(stamp)), JoinPath(directory, StatsOutputName(stamp))];
    }

    /** One fund-flow side file is recorded only when it exists on disk. */
    method TrackIfExists(path: string, onDisk: bool)
      modifies this
      ensures intermediateFiles == if onDisk then old(intermediateFiles) + [path] else old(intermediateFiles)
    {
      if onDisk {
        intermediateFiles := intermediateFiles + [path];
      }
    }
  }

  /** Recording the Form 4 outputs and then cleaning leaves nothing recorded and removes both outputs. */
  method SaveThenClean(api: InvestmentDataApi, directory: string, stamp: string, disk: set<string>)
    returns (remaining: set<string>)
    requires !api.keepIntermediateFiles
    modifies api
    ensures api.intermediateFiles == []
    ensures JoinPath(directory, CleanOutputName(stamp)) !in remaining
    ensures JoinPath(directory, StatsOutputName(stamp)) !in remaining
  {
    api.TrackForm4Outputs(directory, stamp);
    remaining := api.CleanIntermediateFiles(disk, {});
  }

  // ---------------------------------------------------------------------
  // Earliest and latest dates (`min` / `max` of a date column)
  // ---------------------------------------------------------------------

  function TxDate(r: CleanRow): Option<CalendarDate> {
    r.transactionDate
  }

  /** Calendar order, in which pandas compares two dates. */
  predicate NotAfter(d1: CalendarDate, d2: CalendarDate) {
    !Before(d2, d1)
  }

  /** Calendar order and day numbers agree, so the days from a date to one not before it are never negative. */
  lemma NotAfterDays(d1: CalendarDate, d2: CalendarDate)
    requires NotAfter(d1, d2)
    ensures DayNumber(d1) <= DayNumber(d2)
  {
    if d1 != d2 {
      DayNumberMonotone(d1, d2);
    }
  }

  /** `min()` of a date column: `NaT` cells are skipped, and only a column of `NaT` gives `NaT`. */
  function EarliestDate(ds: seq<Option<CalendarDate>>): (r: Option<CalendarDate>)
    ensures r.None? <==> forall i :: 0 <= i < |ds| ==> ds[i].None?
    ensures r.Some? ==> r in ds && forall i :: 0 <= i < |ds| && ds[i].Some? ==> NotAfter(r.value, ds[i].value)
  {
    if ds == [] then None
    else
      var m := EarliestDate(ds[..|ds| - 1]);
      var d := ds[|ds| - 1];
      assert forall i :: 0 <= i < |ds| - 1 ==> ds[..|ds| - 1][i] == ds[i];
      if d.None? then m
      else if m.Some? && NotAfter(m.value, d.value) then m
      else d
  }

  /** `max()` of a date column: `NaT` cells are skipped, and only a column of `NaT` gives `NaT`. */
  function LatestDate(ds: seq<Option<CalendarDate>>): (r: Option<CalendarDate>)
    ensures r.None? <==> forall i :: 0 <= i < |ds| ==> ds[i].None?
    ensures r.Some? ==> r in ds && forall i :: 0 <= i < |ds| && ds[i].Some? ==> NotAfter(ds[i].value, r.value)
  {
    if ds == [] then None
    else
      var m := LatestDate(ds[..|ds| - 1]);
      var d := ds[|ds| - 1];
      assert forall i :: 0 <= i < |ds| - 1 ==> ds[..|ds| - 1][i] == ds[i];
      if d.None? then m
      else if m.Some? && NotAfter(d.value, m.value) then m
      else d
  }

  /** `(latest - earliest).dt.days`, missing when either is `NaT`. */
  function DaySpan(first: Option<CalendarDate>, last: Option<CalendarDate>): Option<int> {
    if first.Some? && last.Some? then Some(DayNumber(last.value) - DayNumber(first.value)) else None
  }

  /** First and last dates both present or both `NaT`, in order, and the day range between them not negative. */
  predicate OrderedSpan(first: Option<CalendarDate>, last: Option<CalendarDate>, span: Option<int>) {
    && (first.Some? <==> last.Some?)
    && (first.Some? ==>
          NotAfter(first.value, last.value)
          && span == Some(DayNumber(last.value) - DayNumber(first.value))
          && span.value >= 0)
  }

  /** The earliest and latest dates of a column give an ordered span. */
  lemma SpanOfColumn(ds: seq<Option<CalendarDate>>)
    ensures OrderedSpan(EarliestDate(ds), LatestDate(ds), DaySpan(EarliestDate(ds), LatestDate(ds)))
  {
    var f, l := EarliestDate(ds), LatestDate(ds);
    if f.Some? {
      var i :| 0 <= i < |ds| && ds[i] == l;
      NotAfterDays(f.value, l.value);
    }
  }

  /** When every date of a column is present and in one month, the earliest and latest are present and in that month. */
  lemma SpanInMonth(ds: seq<Option<CalendarDate>>, month: string)
    requires |ds| >= 1
    requires forall i :: 0 <= i < |ds| ==> ds[i].Some? && FormatYearMonth(ds[i].value) == month
    ensures EarliestDate(ds).Some? && FormatYearMonth(EarliestDate(ds).value) == month
    ensures LatestDate(ds).Some? && FormatYearMonth(LatestDate(ds).value) == month
  {
    var f, l := EarliestDate(ds), LatestDate(ds);
    var jf :| 0 <= jf < |ds| && ds[jf] == f;
    var jl :| 0 <= jl < |ds| && ds[jl] == l;
  }

  // ---------------------------------------------------------------------
  // `_create_consolidated_analysis`
  // ---------------------------------------------------------------------

  /** One row of the consolidated analysis, without the clock's `report_generated_date`. */
  datatype MonthSummary = MonthSummary(
    ticker: string,
    yearMonth: string,
    filingCount: nat,
    firstTransactionDate: Option<CalendarDate>,
    lastTransactionDate: Option<CalendarDate>,
    transactionDateRange: Option<int>)

  function MonthSummaryOf(k: (string, string), g: seq<CleanRow>): MonthSummary {
    var first := EarliestDate(Column(g, TxDate));
    var last := LatestDate(Column(g, TxDate));
    MonthSummary(k.0, k.1, |g|, first, last, DaySpan(first, last))
  }

  function SummaryKey(s: MonthSummary): (string, string) {
    (s.ticker, s.yearMonth)
  }

  /** One month's row carries its key, the size of its group and an ordered span. */
  lemma MonthSummaryOfFacts(k: (string, string), g: seq<CleanRow>)
    ensures var s := MonthSummaryOf(k, g);
      SummaryKey(s) == k && s.filingCount == |g|
      && OrderedSpan(s.firstTransactionDate, s.lastTransactionDate, s.transactionDateRange)
  {
    SpanOfColumn(Column(g, TxDate));
  }

  function MonthSummaries(dated: seq<CleanRow>, ks: seq<(string, string)>): (out: seq<MonthSummary>)
    ensures |out| == |ks|
    ensures forall i :: 0 <= i < |ks| ==> out[i] == MonthSummaryOf(ks[i], Group(dated, MonthKey, ks[i]))
  {
    seq(|ks|, i requires 0 <= i < |ks| => MonthSummaryOf(ks[i], Group(dated, MonthKey, ks[i])))
  }

  /**
   * `groupby(['ticker', 'year_month'])` with the count of accession
   * numbers and the first and last transaction dates; rows without a
   * month fall out of the grouping, and an empty table gives an empty one.
   */
  function ConsolidatedAnalysis(rows: seq<CleanRow>): seq<MonthSummary> {
    if rows == [] then []
    else
      var dated := Filter(rows, HasMonth);
      MonthSummaries(dated, Distinct(Column(dated, MonthKey)))
  }

  /** A row's month is the month of its transaction date, as `clean_and_organize_data` leaves it. */
  predicate MonthFromDate(r: CleanRow) {
    r.yearMonth == MonthOf(r.transactionDate)
  }

  /** No two rows of the analysis share a (ticker, year_month). */
  predicate KeysAreDistinct(out: seq<MonthSummary>) {
    forall i, j :: 0 <= i < j < |out| ==> SummaryKey(out[i]) != SummaryKey(out[j])
  }

  /** Every row with a month has its (ticker, year_month) in the analysis. */
  predicate CoversMonths(rows: seq<CleanRow>, out: seq<MonthSummary>) {
    forall r :: r in rows && HasMonth(r) ==> exists i :: 0 <= i < |out| && SummaryKey(out[i]) == MonthKey(r)
  }

  /** The guarantees of one month's row: it counts the rows of its key, at least one, and its dates form an ordered span. */
  predicate MonthFacts(dated: seq<CleanRow>, s: MonthSummary) {
    && 1 <= s.filingCount == multiset(Column(dated, MonthKey))[SummaryKey(s)]
    && OrderedSpan(s.firstTransactionDate, s.lastTransactionDate, s.transactionDateRange)
  }

  /**
   * The consolidated analysis is empty for an empty table; otherwise it
   * has one row per (ticker, year_month) of the rows with a month, none
   * twice, and each row counts the rows of its month, at least one, with
   * its first and last dates in order and a day range of no negative days.
   */
  lemma ConsolidatedAnalysisFacts(rows: seq<CleanRow>)
    ensures rows == [] ==> ConsolidatedAnalysis(rows) == []
    ensures KeysAreDistinct(ConsolidatedAnalysis(rows))
    ensures CoversMonths(rows, ConsolidatedAnalysis(rows))
    ensures forall i :: 0 <= i < |ConsolidatedAnalysis(rows)| ==>
      MonthFacts(Filter(rows, HasMonth), ConsolidatedAnalysis(rows)[i])
  {
    if rows != [] {
      var dated := Filter(rows, HasMonth);
      var ks := Distinct(Column(dated, MonthKey));
      assert ConsolidatedAnalysis(rows) == MonthSummaries(dated, ks);
      SummariesKeyed(dated);
      SummariesCover(rows);
    }
  }

  /** Each row of the analysis carries its distinct key and the guarantees of its month. */
  lemma SummariesKeyed(dated: seq<CleanRow>)
    ensures var ks := Distinct(Column(dated, MonthKey));
      var out := MonthSummaries(dated, ks);
      && (forall i :: 0 <= i < |out| ==> SummaryKey(out[i]) == ks[i] && MonthFacts(dated, out[i]))
      && KeysAreDistinct(out)
  {
    var ks := Distinct(Column(dated, MonthKey));
    var out := MonthSummaries(dated, ks);
    forall i | 0 <= i < |out|
      ensures SummaryKey(out[i]) == ks[i] && MonthFacts(dated, out[i])
    {
      MonthSummariesFacts(dated, i);
    }
  }

  /** Each dated row's key has a row of the analysis. */
  lemma SummariesCover(rows: seq<CleanRow>)
    requires rows != []
    ensures CoversMonths(rows, ConsolidatedAnalysis(rows))
  {
    var dated := Filter(rows, HasMonth);
    var out := MonthSummaries(dated, Distinct(Column(dated, MonthKey)));
    assert ConsolidatedAnalysis(rows) == out;
    SummariesCoverDated(dated);
    forall r | r in rows && HasMonth(r)
      ensures exists i :: 0 <= i < |out| && SummaryKey(out[i]) == MonthKey(r)
    {
      assert r in dated;
      assert KeyHasRow(out, MonthKey(r));
    }
  }

  /** Some row of the analysis has key `k`. */
  predicate KeyHasRow(out: seq<MonthSummary>, k: (string, string)) {
    exists i :: 0 <= i < |out| && SummaryKey(out[i]) == k
  }

  lemma SummariesCoverDated(dated: seq<CleanRow>)
    ensures forall r :: r in dated ==> KeyHasRow(MonthSummaries(dated, Distinct(Column(dated, MonthKey))), MonthKey(r))
  {
    var ks := Distinct(Column(dated, MonthKey));
    var out := MonthSummaries(dated, ks);
    forall r | r in dated
      ensures KeyHasRow(out, MonthKey(r))
    {
      KeyListed(dated, MonthKey, r);
      var i :| 0 <= i < |ks| && ks[i] == MonthKey(r);
      MonthSummariesFacts(dated, i);
    }
  }

  lemma MonthSummariesFacts(dated: seq<CleanRow>, i: nat)
    requires i < |Distinct(Column(dated, MonthKey))|
    ensures var ks := Distinct(Column(dated, MonthKey));
      SummaryKey(MonthSummaries(dated, ks)[i]) == ks[i] && MonthFacts(dated, MonthSummaries(dated, ks)[i])
  {
    var ks := Distinct(Column(dated, MonthKey));
    assert ks[i] in ks;
    GroupSize(dated, MonthKey, ks[i]);
    MonthSummaryOfFacts(ks[i], Group(dated, MonthKey, ks[i]));
  }

  /** The transaction dates of one month's group are all present and fall in that month. */
  lemma MonthGroupDates(rows: seq<CleanRow>, k: (string, string))
    requires forall r :: r in rows ==> MonthFromDate(r)
    requires k in Column(Filter(rows, HasMonth), MonthKey)
    ensures var c := Column(Group(Filter(rows, HasMonth), MonthKey, k), TxDate);
      |c| >= 1 && forall j :: 0 <= j < |c| ==> c[j].Some? && FormatYearMonth(c[j].value) == k.1
  {
    var g := Group(Filter(rows, HasMonth), MonthKey, k);
    GroupNonEmpty(Filter(rows, HasMonth), MonthKey, k);
    var c := Column(g, TxDate);
    forall j | 0 <= j < |c|
      ensures c[j].Some? && FormatYearMonth(c[j].value) == k.1
    {
      assert g[j] in g;
    }
  }

  /** When every row's month comes from its date, each month's first and last dates are present and fall in that month. */
  lemma ConsolidatedDatesInMonth(rows: seq<CleanRow>, i: nat)
    requires forall r :: r in rows ==> MonthFromDate(r)
    requires i < |ConsolidatedAnalysis(rows)|
    ensures var s := ConsolidatedAnalysis(rows)[i];
      && s.firstTransactionDate.Some? && s.lastTransactionDate.Some?
      && FormatYearMonth(s.firstTransactionDate.value) == s.yearMonth
      && FormatYearMonth(s.lastTransactionDate.value) == s.yearMonth
  {
    var dated := Filter(rows, HasMonth);
    var ks := Distinct(Column(dated, MonthKey));
    assert ConsolidatedAnalysis(rows) == MonthSummaries(dated, ks);
    var k := ks[i];
    assert k in ks;
    MonthGroupDates(rows, k);
    var c := Column(Group(dated, MonthKey, k), TxDate);
    SpanInMonth(c, k.1);
    assert ConsolidatedAnalysis(rows)[i] == MonthSummary(k.0, k.1, |Group(dated, MonthKey, k)|,
      EarliestDate(c), LatestDate(c), DaySpan(EarliestDate(c), LatestDate(c)));
  }

  // ---------------------------------------------------------------------
  // `get_ticker_summary`
  // ---------------------------------------------------------------------

  /** One file of the summary directory, with the rows `pd.read_csv` gives back. */
  datatype CsvFile = CsvFile(name: string, rows: seq<CleanRow>)

  /** One row of the ticker summary, without the clock's `report_generated_date`. */
  datatype TickerStat = TickerStat(
    ticker: string,
    totalFilings: nat,
    earliestTransaction: Option<CalendarDate>,
    latestTransaction: Option<CalendarDate>,
    monthsWithActivity: nat,
    activityLevel: Option<real>,
    dateRangeDays: Option<int>)

  function FileRows(f: CsvFile): seq<CleanRow> {
    f.rows
  }

  function IsTransactionCsv(f: CsvFile): bool {
    IsTransactionFile(f.name)
  }

  /** The `drop_duplicates` subset. */
  function DedupKey(r: CleanRow): (string, Option<CalendarDate>, Option<CalendarDate>, string) {
    (r.ticker, r.filingDate, r.transactionDate, r.accessionNumber)
  }

  function RowTicker(r: CleanRow): string {
    r.ticker
  }

  function RowMonth(r: CleanRow): string {
    r.yearMonth.GetOr("")
  }

  function HasTicker(t: string): CleanRow -> bool {
    (r: CleanRow) => r.ticker == t
  }

  /** The transactions files' rows, concatenated in file order, without repeated keys. */
  function DedupedRows(listing: seq<CsvFile>): seq<CleanRow> {
    DropDuplicates(Concat(Column(Filter(listing, IsTransactionCsv), FileRows)), DedupKey)
  }

  /** `r` is a row of one of the transactions files. */
  predicate InTransactionFile(listing: seq<CsvFile>, r: CleanRow) {
    exists f :: f in listing && IsTransactionFile(f.name) && r in f.rows
  }

  /** Every deduplicated row comes from a transactions file, and no key repeats. */
  lemma DedupedRowsFacts(listing: seq<CsvFile>)
    ensures forall r :: r in DedupedRows(listing) ==> InTransactionFile(listing, r)
    ensures NoDuplicates(Column(DedupedRows(listing), DedupKey))
  {
    var files := Filter(listing, IsTransactionCsv);
    var tables := Column(files, FileRows);
    DropDuplicatesUnique(Concat(tables), DedupKey);
    forall r | r in DedupedRows(listing)
      ensures InTransactionFile(listing, r)
    {
      ConcatMember(tables, r);
      var k :| 0 <= k < |tables| && r in tables[k];
      assert files[k] in files;
    }
  }

  /**
   * The rows the summary is built from: the transactions files' rows in
   * file order without repeated keys, narrowed to the ticker when one is
   * given (`None` and "" are falsy); `None` when there is no such file, no
   * row, or no row of the ticker.
   */
  function SummaryRows(listing: seq<CsvFile>, ticker: Option<string>): Option<seq<CleanRow>> {
    if Filter(listing, IsTransactionCsv) == [] then None
    else
      var all := DedupedRows(listing);
      if all == [] then None
      else if ticker.Some? && ticker.value != "" then
        var mine := Filter(all, HasTicker(ticker.value));
        if mine == [] then None else Some(mine)
      else Some(all)
  }

  /** The `groupby('ticker')` row of one ticker's rows. */
  function TickerStatOf(t: string, g: seq<CleanRow>): TickerStat {
    var earliest := EarliestDate(Column(g, TxDate));
    var latest := LatestDate(Column(g, TxDate));
    var months := |Distinct(Column(Filter(g, HasMonth), RowMonth))|;
    TickerStat(t, |g|, earliest, latest, months,
               if months > 0 then Some(|g| as real / months as real) else None,
               DaySpan(earliest, latest))
  }

  function TickerRows(rows: seq<CleanRow>, ts: seq<string>): (out: seq<TickerStat>)
    ensures |out| == |ts|
    ensures forall i :: 0 <= i < |ts| ==> out[i] == TickerStatOf(ts[i], Group(rows, RowTicker, ts[i]))
  {
    seq(|ts|, i requires 0 <= i < |ts| => TickerStatOf(ts[i], Group(rows, RowTicker, ts[i])))
  }

  /** `groupby('ticker')` with the summary's aggregates. */
  function TickerStats(rows: seq<CleanRow>): seq<TickerStat> {
    TickerRows(rows, Distinct(Column(rows, RowTicker)))
  }

  /** `get_ticker_summary` after the directory is listed and the files are read. */
  function TickerSummary(listing: seq<CsvFile>, ticker: Option<string>): Option<seq<TickerStat>> {
    match SummaryRows(listing, ticker)
    case None => None
    case Some(rows) => Some(TickerStats(rows))
  }

  /**
   * The summary rows come from transactions files, repeat no key, and
   * with a ticker given all carry that ticker.
   */
  lemma SummaryRowsFacts(listing: seq<CsvFile>, ticker: Option<string>)
    requires SummaryRows(listing, ticker).Some?
    ensures var rows := SummaryRows(listing, ticker).value;
      && |rows| >= 1
      && NoDuplicates(Column(rows, DedupKey))
      && (forall r :: r in rows ==> InTransactionFile(listing, r))
      && (ticker.Some? && ticker.value != "" ==> forall r :: r in rows ==> r.ticker == ticker.value)
  {
    var all := DedupedRows(listing);
    DedupedRowsFacts(listing);
    if ticker.Some? && ticker.value != "" {
      var mine := Filter(all, HasTicker(ticker.value));
      assert SummaryRows(listing, ticker) == Some(mine);
      forall i, j | 0 <= i < j < |mine|
        ensures Column(mine, DedupKey)[i] != Column(mine, DedupKey)[j]
      {
        FilterKeepsUnique(all, HasTicker(ticker.value), DedupKey, i, j);
      }
    } else {
      assert SummaryRows(listing, ticker) == Some(all);
    }
  }

  /**
   * The ticker summary has one row per ticker, none twice; each row's
   * count is the rows of its ticker (at least one), its distinct months
   * are at most that count and at least one exactly when one of its rows
   * has a month, the activity level is the count per month (missing, for
   * an infinite division, without a month), and earliest and latest
   * transaction are both present or both missing, in order, with a span
   * of no negative days.
   */
  lemma TickerStatsFacts(rows: seq<CleanRow>)
    ensures var out := TickerStats(rows);
      && (forall i, j :: 0 <= i < j < |out| ==> out[i].ticker != out[j].ticker)
      && (forall r :: r in rows ==> exists i :: 0 <= i < |out| && out[i].ticker == r.ticker)
      && (forall i :: 0 <= i < |out| ==> TickerStatFacts(rows, out[i]))
  {
    var out := TickerStats(rows);
    var col := Column(rows, RowTicker);
    var ts := Distinct(col);
    forall i | 0 <= i < |out|
      ensures out[i].ticker == ts[i]
      ensures TickerStatFacts(rows, out[i])
    {
      assert ts[i] in ts;
      TickerStatOfFacts(rows, ts[i]);
    }
    forall r | r in rows
      ensures exists i :: 0 <= i < |out| && out[i].ticker == r.ticker
    {
      var j :| 0 <= j < |rows| && rows[j] == r;
      assert col[j] == r.ticker;
      assert r.ticker in ts;
      var i :| 0 <= i < |ts| && ts[i] == r.ticker;
      assert out[i].ticker == r.ticker;
    }
  }

  /** The guarantees of one ticker's row, stated against the rows it summarises. */
  predicate TickerStatFacts(rows: seq<CleanRow>, s: TickerStat) {
    && 1 <= s.totalFilings == multiset(Column(rows, RowTicker))[s.ticker]
    && s.monthsWithActivity <= s.totalFilings
    && (s.monthsWithActivity >= 1 <==> exists r :: r in rows && r.ticker == s.ticker && HasMonth(r))
    && (s.activityLevel.Some? <==> s.monthsWithActivity >= 1)
    && (s.activityLevel.Some? ==> s.activityLevel.value == s.totalFilings as real / s.monthsWithActivity as real)
    && OrderedSpan(s.earliestTransaction, s.latestTransaction, s.dateRangeDays)
  }

  /** A ticker's distinct months number at most its rows, and at least one exactly when one of its rows has a month. */
  lemma MonthCountFacts(g: seq<CleanRow>)
    ensures |Distinct(Column(Filter(g, HasMonth), RowMonth))| <= |g|
    ensures |Distinct(Column(Filter(g, HasMonth), RowMonth))| >= 1 <==> exists r :: r in g && HasMonth(r)
  {
    var withMonth := Filter(g, HasMonth);
    var months := Column(withMonth, RowMonth);
    if |Distinct(months)| >= 1 {
      assert withMonth[0] in withMonth;
    }
    if exists r :: r in g && HasMonth(r) {
      var r :| r in g && HasMonth(r);
      assert r in withMonth;
      DistinctBounds(months);
    }
  }

  lemma TickerStatOfFacts(rows: seq<CleanRow>, t: string)
    requires t in Column(rows, RowTicker)
    ensures TickerStatFacts(rows, TickerStatOf(t, Group(rows, RowTicker, t)))
  {
    var g := Group(rows, RowTicker, t);
    GroupSize(rows, RowTicker, t);
    MonthCountFacts(g);
    SpanOfColumn(Column(g, TxDate));
    assert (exists r :: r in g && HasMonth(r)) <==> exists r :: r in rows && r.ticker == t && HasMonth(r);
  }

  /** Rows of one ticker summarise to one row, for that ticker. */
  lemma SingleTickerStats(rows: seq<CleanRow>, t: string)
    requires |rows| >= 1 && forall r :: r in rows ==> r.ticker == t
    ensures |TickerStats(rows)| == 1 && TickerStats(rows)[0].ticker == t
  {
    var col := Column(rows, RowTicker);
    forall i | 0 <= i < |col|
      ensures col[i] == t
    {
      assert rows[i] in rows;
    }
    DistinctOfConstant(col, t);
    assert TickerStats(rows) == TickerRows(rows, [t]);
  }

  /** With a ticker given, the summary is one row, for that ticker. */
  lemma OneTickerSummary(listing: seq<CsvFile>, t: string)
    requires t != "" && TickerSummary(listing, Some(t)).Some?
    ensures |TickerSummary(listing, Some(t)).value| == 1
    ensures TickerSummary(listing, Some(t)).value[0].ticker == t
  {
    SummaryRowsFacts(listing, Some(t));
    var rows := SummaryRows(listing, Some(t)).value;
    assert TickerSummary(listing, Some(t)) == Some(TickerStats(rows));
    SingleTickerStats(rows, t);
  }

  /** A summary needs a transactions file and, with a ticker given, a row of that ticker in one. */
  lemma SummaryNeedsRows(listing: seq<CsvFile>, ticker: Option<string>)
    ensures TickerSummary(listing, ticker).Some? ==> exists f :: f in listing && IsTransactionFile(f.name)
    ensures TickerSummary(listing, ticker).Some? && ticker.Some? && ticker.value != "" ==>
      exists f, r :: f in listing && r in f.rows && r.ticker == ticker.value
  {
    if SummaryRows(listing, ticker).Some? {
      SummaryRowsFacts(listing, ticker);
      var rows := SummaryRows(listing, ticker).value;
      assert rows[0] in rows;
      var f :| f in listing && IsTransactionFile(f.name) && rows[0] in f.rows;
    }
  }
}
