/**
 * us_market/sec_parser.py: scanning the download directory for Form 4
 * XML files, turning one document into transaction records, adding the
 * parsed dates to the scanned table, and sorting the collected filings
 * by date with their per-month filing counts.
 */
module SecParser {
  import opened Wrappers
  import opened Text
  import opened Dates
  import opened Tables
  import opened OwnershipXml
  import opened Form4Collector

  // ---------------------------------------------------------------------
  // One document (`_parse_single_file`)
  // ---------------------------------------------------------------------

  /**
   * One record of a parsed file. The `Option<string>` columns hold
   * Python's `None` where the element exists but has no text.
   */
  datatype SecTransaction = SecTransaction(
    ticker: string,
    reporterName: Option<string>,
    reporterType: Option<string>,
    securityTitle: Option<string>,
    transactionDate: Option<string>,
    transactionCode: Option<string>,
    shares: real,
    pricePerShare: real,
    filePath: string,
    parsedDate: string,
    totalValue: real,
    transactionType: TxType)

  /** `find(path).text`: raises (`None` here) when the element is missing, else its possibly-`None` text. */
  function ElementText(f: Field): Option<Option<string>> {
    match f
    case Absent => None
    case NoText => Some(None)
    case Text(s) => Some(Some(s))
  }

  /** `float(find(path).text)`: raises (`None` here) for a missing element, a missing text or a non-number. */
  function ElementFloat(f: Field): Option<real> {
    match f
    case Text(s) => ParseFloat(s)
    case _ => None
  }

  /** The transaction codes counted as purchases. */
  const BuyCodes: seq<string> := ["P", "J"]

  function TransactionType(code: Option<string>): TxType {
    if code.Some? && code.value in BuyCodes then Buy else Sell
  }

  /** Reporter name and CIK: "Unknown" for both without a `reportingOwnerId`; raises when one of its children is missing. */
  function ReporterFields(r: Reporter): Option<(Option<string>, Option<string>)> {
    match r
    case NoReporter => Some((Some("Unknown"), Some("Unknown")))
    case ReporterId(name, cik) =>
      var n := ElementText(name);
      var c := ElementText(cik);
      if n.Some? && c.Some? then Some((n.value, c.value)) else None
  }

  /** The values every record of one file shares: ticker, reporter name and CIK, path and parse date. */
  datatype FileContext = FileContext(
    ticker: string,
    reporterName: Option<string>,
    reporterType: Option<string>,
    filePath: string,
    parsedDate: string)

  /** The converted sub-elements of one entry (the `trans_data` dict before its last two keys). */
  datatype EntryFields = EntryFields(
    securityTitle: Option<string>,
    transactionDate: Option<string>,
    transactionCode: Option<string>,
    shares: real,
    pricePerShare: real)

  /** Reading the five sub-elements of one entry; `None` when one of them raises. */
  function ReadEntry(e: TxEntry): Option<EntryFields> {
    var title := ElementText(e.securityTitle);
    var date := ElementText(e.transactionDate);
    var code := ElementText(e.transactionCode);
    var shares := ElementFloat(e.shares);
    var price := ElementFloat(e.pricePerShare);
    if title.Some? && date.Some? && code.Some? && shares.Some? && price.Some? then
      Some(EntryFields(title.value, date.value, code.value, shares.value, price.value))
    else None
  }

  /** The record once `total_value` and `transaction_type` are added. */
  function Complete(ctx: FileContext, f: EntryFields): SecTransaction {
    SecTransaction(ctx.ticker, ctx.reporterName, ctx.reporterType, f.securityTitle, f.transactionDate,
                   f.transactionCode, f.shares, f.pricePerShare, ctx.filePath, ctx.parsedDate,
                   f.shares * f.pricePerShare, TransactionType(f.transactionCode))
  }

  /** The record of one entry, or `None` when building it raises. */
  function EntryTransaction(ctx: FileContext, e: TxEntry): Option<SecTransaction> {
    match ReadEntry(e)
    case None => None
    case Some(f) => Some(Complete(ctx, f))
  }

  /** The document-type gate: a `documentType` whose stripped text is "4". */
  predicate IsForm4Document(doc: OwnershipDoc) {
    doc.documentType.Text? && Strip(doc.documentType.text) == "4"
  }

  /** The shared values of a file's records, or `None` when reading the reporter raises. */
  function Context(doc: OwnershipDoc, ticker: string, filePath: string, parsedDate: string): Option<FileContext> {
    match ReporterFields(doc.reporter)
    case None => None
    case Some(rep) => Some(FileContext(ticker, rep.0, rep.1, filePath, parsedDate))
  }

  /**
   * What `_parse_single_file` returns for one file, given its text and its
   * parse chain: `None` without the open tag, without a document, for a
   * document that is not a Form 4, when a reporter child is missing or
   * when any entry raises; otherwise one record per entry.
   */
  function SingleFileRecords(content: string, attempt: ParseAttempt, ticker: string,
                             filePath: string, parsedDate: string): Option<seq<SecTransaction>>
  {
    if !Contains(content, OpenTag) then None
    else match ResolveRoot(attempt)
      case None => None
      case Some(doc) => DocumentRecords(doc, ticker, filePath, parsedDate)
  }

  /** The records of a parsed document: `None` unless it is a Form 4 whose reporter and entries all read. */
  function DocumentRecords(doc: OwnershipDoc, ticker: string, filePath: string, parsedDate: string): Option<seq<SecTransaction>> {
    if !IsForm4Document(doc) then None
    else match Context(doc, ticker, filePath, parsedDate)
      case None => None
      case Some(ctx) => MapAll(doc.entries, Converter(ctx))
  }

  /** `EntryTransaction` for the records of one file. */
  function Converter(ctx: FileContext): TxEntry -> Option<SecTransaction> {
    (e: TxEntry) => EntryTransaction(ctx, e)
  }

  /** `_parse_single_file`, appending one record per entry. */
  method ParseSingleFile(content: string, attempt: ParseAttempt, ticker: string,
                         filePath: string, parsedDate: string) returns (r: Option<seq<SecTransaction>>)
    ensures r == SingleFileRecords(content, attempt, ticker, filePath, parsedDate)
  {
    if Find(content, OpenTag) < 0 {
      return None;
    }
    var root := ResolveRoot(attempt);
    if root.None? {
      return None;
    }
    var doc := root.value;
    if !IsForm4Document(doc) {
      return None;
    }
    var context := Context(doc, ticker, filePath, parsedDate);
    if context.None? {
      return None;
    }
    // the loop over the `nonDerivativeTransaction` entries
    r := ConvertEach(doc.entries, Converter(context.value));
  }

  /**
   * Every record of a file carries the file's ticker and path, the one
   * reporter of the document ("Unknown" without a `reportingOwnerId`),
   * the product of its shares and price as total value, and is a BUY
   * exactly when its code is "P" or "J"; there is one record per entry.
   */
  lemma SingleFileRecordsFacts(content: string, attempt: ParseAttempt, ticker: string, filePath: string, parsedDate: string)
    requires SingleFileRecords(content, attempt, ticker, filePath, parsedDate).Some?
    ensures var recs := SingleFileRecords(content, attempt, ticker, filePath, parsedDate).value;
      var doc := ResolveRoot(attempt).value;
      && Contains(content, OpenTag) && IsForm4Document(doc)
      && |recs| == |doc.entries|
      && (forall x :: x in recs ==> RecordFacts(ticker, filePath, x))
      && (forall i, j :: 0 <= i < |recs| && 0 <= j < |recs| ==>
            recs[i].reporterName == recs[j].reporterName && recs[i].reporterType == recs[j].reporterType)
      && (doc.reporter.NoReporter? ==>
            forall x :: x in recs ==> x.reporterName == Some("Unknown") && x.reporterType == Some("Unknown"))
  {
    var recs := SingleFileRecords(content, attempt, ticker, filePath, parsedDate).value;
    var doc := ResolveRoot(attempt).value;
    assert DocumentRecords(doc, ticker, filePath, parsedDate) == Some(recs);
    var ctx := Context(doc, ticker, filePath, parsedDate).value;
    MapAllResult(doc.entries, Converter(ctx));
    forall x | x in recs
      ensures x.reporterName == ctx.reporterName && x.reporterType == ctx.reporterType
      ensures RecordFacts(ticker, filePath, x)
    {
      var k :| 0 <= k < |recs| && recs[k] == x;
      CompleteFacts(ctx, ReadEntry(doc.entries[k]).value);
    }
  }

  /** The per-record guarantees: ticker and path of the file, total value, BUY exactly for codes "P" and "J". */
  predicate RecordFacts(ticker: string, filePath: string, x: SecTransaction) {
    && x.ticker == ticker && x.filePath == filePath
    && x.totalValue == x.shares * x.pricePerShare
    && (x.transactionType == Buy <==> (x.transactionCode == Some("P") || x.transactionCode == Some("J")))
  }

  lemma CompleteFacts(ctx: FileContext, f: EntryFields)
    ensures var x := Complete(ctx, f);
      RecordFacts(ctx.ticker, ctx.filePath, x)
      && x.reporterName == ctx.reporterName && x.reporterType == ctx.reporterType
  {
  }

  /** A document without `documentType`, or whose type is not "4", yields nothing. */
  lemma NotForm4Rejected(content: string, attempt: ParseAttempt, ticker: string, filePath: string, parsedDate: string)
    requires ResolveRoot(attempt).Some?
    requires var t := ResolveRoot(attempt).value.documentType;
      t.Absent? || (t.Text? && Strip(t.text) != "4")
    ensures SingleFileRecords(content, attempt, ticker, filePath, parsedDate).None?
  {
  }

  /** One entry lacking a required sub-element fails the whole file; nothing is skipped. */
  lemma MissingElementFailsFile(content: string, attempt: ParseAttempt, ticker: string, filePath: string,
                                parsedDate: string, k: nat)
    requires ResolveRoot(attempt).Some?
    requires var es := ResolveRoot(attempt).value.entries;
      k < |es| && (es[k].securityTitle.Absent? || es[k].transactionDate.Absent? || es[k].transactionCode.Absent?
                   || es[k].shares.Absent? || es[k].pricePerShare.Absent?)
    ensures SingleFileRecords(content, attempt, ticker, filePath, parsedDate).None?
  {
    var doc := ResolveRoot(attempt).value;
    MissingElementUnreadable(doc.entries[k]);
    if IsForm4Document(doc) && Context(doc, ticker, filePath, parsedDate).Some? {
      var ctx := Context(doc, ticker, filePath, parsedDate).value;
      assert Converter(ctx)(doc.entries[k]).None?;
      MapAllFailsAt(doc.entries, Converter(ctx), k);
    }
    assert DocumentRecords(doc, ticker, filePath, parsedDate).None?;
  }

  /** An entry lacking one of its five sub-elements cannot be read. */
  lemma MissingElementUnreadable(e: TxEntry)
    requires e.securityTitle.Absent? || e.transactionDate.Absent? || e.transactionCode.Absent?
             || e.shares.Absent? || e.pricePerShare.Absent?
    ensures ReadEntry(e).None?
  {
  }

  // ---------------------------------------------------------------------
  // The directory scan (`process_form4_files`)
  // ---------------------------------------------------------------------

  /** One directory entry: its name, its text and how the XML parsers treat it. */
  datatype DirFile = DirFile(name: string, content: string, attempt: ParseAttempt)

  /** `os.path.join(directory, name)` for a relative name. */
  function JoinPath(directory: string, name: string): string {
    if directory == [] || directory[|directory| - 1] == '/' then directory + name
    else directory + "/" + name
  }

  /** The listing entries whose names end in ".xml", in listing order. */
  function XmlFiles(listing: seq<DirFile>): (r: seq<DirFile>)
    ensures forall f :: f in r <==> f in listing && EndsWith(f.name, ".xml")
  {
    Filter(listing, (f: DirFile) => EndsWith(f.name, ".xml"))
  }

  /**
   * The records one scanned file contributes: none when it yields nothing;
   * a name without '_' makes `split('_')[1]` raise, which ends the scan.
   */
  function FileStep(directory: string, parsedDate: string): DirFile -> Option<seq<SecTransaction>> {
    (f: DirFile) =>
      match SecondToken(f.name, '_')
      case None => None
      case Some(ticker) =>
        Some(SingleFileRecords(f.content, f.attempt, ticker, JoinPath(directory, f.name), parsedDate).GetOr([]))
  }

  /** The records of the scanned files, concatenated in file order, or `None` when a name has no '_'. */
  function ScanFiles(directory: string, files: seq<DirFile>, parsedDate: string): Option<seq<SecTransaction>> {
    ConcatMapAll(files, FileStep(directory, parsedDate))
  }

  /** What `_process_transactions` adds to a record: its parsed transaction date and the days since it. */
  datatype ProcessedTx = ProcessedTx(tx: SecTransaction, transactionDate: Option<CalendarDate>, daysSinceFiling: Option<int>)

  /**
   * `pd.to_datetime` of one date cell: a missing or empty cell becomes
   * `NaT` (`Some(None)`), an ISO date a `Timestamp` can hold its day, and
   * anything else raises (`None`), an out-of-range ISO date included.
   */
  function DateCell(s: Option<string>): (r: Option<Option<CalendarDate>>)
    ensures s.None? || s == Some("") ==> r == Some(None)
    ensures s.Some? && s != Some("") ==>
      (r.Some? <==> ParseIsoDate(s.value).Some? && InTimestampRange(ParseIsoDate(s.value).value))
    ensures r.Some? && r.value.Some? ==>
      s.Some? && ParseIsoDate(s.value) == Some(r.value.value) && InTimestampRange(r.value.value)
  {
    if s.None? || s.value == "" then Some(None)
    else match ToTimestamp(s.value)
      case None => None
      case Some(d) => var cd: CalendarDate := d; Some(Some(cd))
  }

  /** `(datetime.now() - date).dt.days` for the day `today`; `NaT` stays missing. */
  function DaysSince(today: CalendarDate, d: Option<CalendarDate>): Option<int> {
    if d.Some? then Some(DayNumber(today) - DayNumber(d.value)) else None
  }

  function ProcessOne(today: CalendarDate, t: SecTransaction): Option<ProcessedTx> {
    match DateCell(t.transactionDate)
    case None => None
    case Some(d) => Some(ProcessedTx(t, d, DaysSince(today, d)))
  }

  /**
   * `_process_transactions`: every record with its date converted and the
   * days since it; one unparseable date makes the conversion raise.
   */
  function ProcessTransactions(today: CalendarDate, rows: seq<SecTransaction>): Option<seq<ProcessedTx>> {
    MapAll(rows, Processor(today))
  }

  function Processor(today: CalendarDate): SecTransaction -> Option<ProcessedTx> {
    (t: SecTransaction) => ProcessOne(today, t)
  }

  /** A processed record keeps its source record and counts the days from its transaction date to `today`. */
  lemma ProcessedRowFacts(today: CalendarDate, rows: seq<SecTransaction>, k: nat)
    requires ProcessTransactions(today, rows).Some? && k < |rows|
    ensures |ProcessTransactions(today, rows).value| == |rows|
    ensures var p := ProcessTransactions(today, rows).value[k];
      && p.tx == rows[k]
      && (p.transactionDate.Some? <==> rows[k].transactionDate.Some? && rows[k].transactionDate != Some(""))
      && (p.transactionDate.Some? ==>
            && FormatIsoDate(p.transactionDate.value) == rows[k].transactionDate.value
            && p.daysSinceFiling == Some(DayNumber(today) - DayNumber(p.transactionDate.value)))
      && (p.transactionDate.None? ==> p.daysSinceFiling.None?)
  {
    MapAllResult(rows, Processor(today));
    var p := ProcessTransactions(today, rows).value[k];
    assert Some(p) == ProcessOne(today, rows[k]);
    if p.transactionDate.Some? {
      ParseThenFormat(rows[k].transactionDate.value);
    }
  }

  /**
   * `process_form4_files`: `listing` is `os.listdir` of the directory
   * (`None` when that raises) and `today` the clock's date. `None` when
   * the listing fails, a scanned name has no '_', nothing was collected
   * or a transaction date cannot be converted.
   */
  function Form4FilesResult(directory: string, listing: Option<seq<DirFile>>, today: CalendarDate): Option<seq<ProcessedTx>> {
    if listing.None? then None
    else match ScanFiles(directory, XmlFiles(listing.value), FormatIsoDate(today))
      case None => None
      case Some(all) => if all == [] then None else ProcessTransactions(today, all)
  }

  /** `process_form4_files`: the listing, the scan, the empty check and the date conversion. */
  method ProcessForm4Files(directory: string, listing: Option<seq<DirFile>>, today: CalendarDate)
    returns (r: Option<seq<ProcessedTx>>)
    ensures r == Form4FilesResult(directory, listing, today)
  {
    if listing.None? {
      return None;
    }
    var scanned := ScanDirectory(directory, XmlFiles(listing.value), FormatIsoDate(today));
    if scanned.None? || scanned.value == [] {
      return None;
    }
    return ProcessTransactions(today, scanned.value);
  }

  /** The scan loop, extending the collected list file by file. */
  method ScanDirectory(directory: string, files: seq<DirFile>, parsedDate: string)
    returns (r: Option<seq<SecTransaction>>)
    ensures r == ScanFiles(directory, files, parsedDate)
  {
    var allTransactions: seq<SecTransaction> := [];
    var i := 0;
    while i < |files|
      invariant 0 <= i <= |files|
      invariant ScanFiles(directory, files[..i], parsedDate) == Some(allTransactions)
    {
      ConcatMapAllSnoc(files[..i], files[i], FileStep(directory, parsedDate));
      assert files[..i + 1] == files[..i] + [files[i]];
      var transactions := ScanOne(directory, files[i], parsedDate);
      if transactions.None? {
        ConcatMapAllFailsAt(files, FileStep(directory, parsedDate), i);
        return None;
      }
      allTransactions := allTransactions + transactions.value;
      i := i + 1;
    }
    assert files[..i] == files;
    return Some(allTransactions);
  }

  /** One pass of the scan loop: the ticker from the name, then the file's records if it yields any. */
  method ScanOne(directory: string, f: DirFile, parsedDate: string) returns (r: Option<seq<SecTransaction>>)
    ensures r == FileStep(directory, parsedDate)(f)
  {
    var ticker := SecondToken(f.name, '_');
    if ticker.None? {
      return None;
    }
    var transactions := ParseSingleFile(f.content, f.attempt, ticker.value, JoinPath(directory, f.name), parsedDate);
    if transactions.Some? {
      return Some(transactions.value);
    }
    return Some([]);
  }

  /** A scanned name without '_' makes the scan fail. */
  lemma ScanStopsAt(directory: string, files: seq<DirFile>, parsedDate: string, k: nat)
    requires k < |files| && '_' !in files[k].name
    ensures ScanFiles(directory, files, parsedDate).None?
  {
    assert FileStep(directory, parsedDate)(files[k]).None?;
    ConcatMapAllFailsAt(files, FileStep(directory, parsedDate), k);
  }

  /** The scan of two runs of files is the first run's records followed by the second's. */
  lemma ScanFilesAppend(directory: string, a: seq<DirFile>, b: seq<DirFile>, parsedDate: string)
    ensures ScanFiles(directory, a + b, parsedDate) ==
      if ScanFiles(directory, a, parsedDate).Some? && ScanFiles(directory, b, parsedDate).Some?
      then Some(ScanFiles(directory, a, parsedDate).value + ScanFiles(directory, b, parsedDate).value) else None
  {
    ConcatMapAllAppend(a, b, FileStep(directory, parsedDate));
  }

  /** The scan of one file is that file's records (none when it yields nothing), given a second '_'-token. */
  lemma ScanOneFile(directory: string, f: DirFile, parsedDate: string)
    ensures ScanFiles(directory, [f], parsedDate) ==
      match SecondToken(f.name, '_')
      case None => None
      case Some(t) => Some(SingleFileRecords(f.content, f.attempt, t, JoinPath(directory, f.name), parsedDate).GetOr([]))
  {
    ConcatMapAllSnoc([], f, FileStep(directory, parsedDate));
    assert [] + [f] == [f];
    var step := FileStep(directory, parsedDate)(f);
    if step.Some? {
      assert [] + step.value == step.value;
    }
  }

  /** A raw copy saved beside the XML file is never scanned. */
  lemma RawCopyNotScanned(ticker: string, stamp: string)
    ensures !EndsWith(RawFileName(ticker, stamp), ".xml")
    ensures EndsWith(XmlFileName(ticker, stamp), ".xml")
  {
    var raw := RawFileName(ticker, stamp);
    assert raw[|raw| - 4..] == ".txt";
    var xml := XmlFileName(ticker, stamp);
    assert xml[|xml| - 4..] == ".xml";
  }

  /** The ticker read back from a downloaded file's name is the ticker it was saved under, if that has no '_'. */
  lemma DownloadedNameGivesTicker(ticker: string, stamp: string)
    requires '_' !in ticker
    ensures SecondToken(XmlFileName(ticker, stamp), '_') == Some(ticker)
  {
    var rest := stamp + ".xml";
    var tail := ticker + "_" + rest;
    assert XmlFileName(ticker, stamp) == "form4" + ['_'] + tail;
    assert tail == ticker + ['_'] + rest;
    SplitAfterToken("form4", '_', tail);
    SplitAfterToken(ticker, '_', rest);
  }

  // ---------------------------------------------------------------------
  // Sorting and monthly counts (`clean_and_organize_data`)
  // ---------------------------------------------------------------------

  /** The seven columns of `clean_df`. */
  datatype CleanRow = CleanRow(
    ticker: string,
    filingDate: Option<CalendarDate>,
    transactionDate: Option<CalendarDate>,
    formType: string,
    accessionNumber: string,
    yearMonth: Option<string>,
    daysSinceFiling: Option<int>)

  /** One row of `monthly_stats`. */
  datatype MonthlyStat = MonthlyStat(ticker: string, yearMonth: string, filingCount: nat)

  /** A collected filing with its two dates converted. */
  datatype DatedFiling = DatedFiling(filing: Filing, filingDate: Option<CalendarDate>, transactionDate: Option<CalendarDate>)

  function DateFiling(f: Filing): Option<DatedFiling> {
    var fd := DateCell(Some(f.filingDate));
    var td := DateCell(Some(f.transactionDate));
    if fd.Some? && td.Some? then Some(DatedFiling(f, fd.value, td.value)) else None
  }

  /** Both `pd.to_datetime` conversions, all or nothing. */
  function DateFilings(rows: seq<Filing>): Option<seq<DatedFiling>> {
    MapAll(rows, DateFiling)
  }

  /** The sort position of a date cell: its day number, with `NaT` after every date. */
  function DateRank(d: Option<CalendarDate>): int {
    if d.Some? then DayNumber(d.value) else DaysBeforeYear(10000)
  }

  /** Rows with a date come before rows without one, earlier dates first. */
  lemma DateRankOrder(a: Option<CalendarDate>, b: Option<CalendarDate>)
    ensures a.Some? && b.None? ==> DateRank(a) < DateRank(b)
    ensures a.Some? && b.Some? ==> (DateRank(a) <= DateRank(b) <==> !Before(b.value, a.value))
  {
    if a.Some? {
      DayNumberBound(a.value);
      if b.Some? {
        if Before(b.value, a.value) {
          DayNumberMonotone(b.value, a.value);
        } else if a.value != b.value {
          assert Before(a.value, b.value);
          DayNumberMonotone(a.value, b.value);
        }
      }
    }
  }

  function TransactionRank(d: DatedFiling): int {
    DateRank(d.transactionDate)
  }

  /** `strftime('%Y-%m')`, missing for `NaT`. */
  function MonthOf(d: Option<CalendarDate>): Option<string> {
    if d.Some? then Some(FormatYearMonth(d.value)) else None
  }

  function ToCleanRow(today: CalendarDate, d: DatedFiling): CleanRow {
    CleanRow(d.filing.ticker, d.filingDate, d.transactionDate, d.filing.formType,
             d.filing.accessionNumber, MonthOf(d.transactionDate), DaysSince(today, d.transactionDate))
  }

  /** A row's `year_month` and `days_since_filing` agree with its transaction date. */
  predicate CoherentRow(today: CalendarDate, r: CleanRow) {
    r.yearMonth == MonthOf(r.transactionDate) && r.daysSinceFiling == DaysSince(today, r.transactionDate)
  }

  predicate HasMonth(r: CleanRow) {
    r.yearMonth.Some?
  }

  /** The `groupby(['ticker', 'year_month'])` key of a row with a month. */
  function MonthKey(r: CleanRow): (string, string) {
    (r.ticker, r.yearMonth.GetOr(""))
  }

  /**
   * `monthly_stats`: for every distinct (ticker, year_month) of the rows
   * that have a month, the number of those rows carrying it (the count of
   * `accession_number`, which is never missing).
   */
  function MonthlyStats(clean: seq<CleanRow>): seq<MonthlyStat> {
    var dated := Filter(clean, HasMonth);
    var ks := Distinct(Column(dated, MonthKey));
    seq(|ks|, i requires 0 <= i < |ks| => MonthlyStat(ks[i].0, ks[i].1, |Group(dated, MonthKey, ks[i])|))
  }

  /**
   * `clean_and_organize_data` for the collected filings and the clock's
   * date: `None` when a date cannot be converted (the handler's
   * `(None, None)`); otherwise the rows sorted by transaction date,
   * projected to the seven columns, and their monthly counts.
   */
  function CleanAndOrganize(rows: seq<Filing>, today: CalendarDate): Option<(seq<CleanRow>, seq<MonthlyStat>)> {
    match DateFilings(rows)
    case None => None
    case Some(dated) =>
      var clean := CleanRows(dated, today);
      Some((clean, MonthlyStats(clean)))
  }

  function CleanRowOf(today: CalendarDate): DatedFiling -> CleanRow {
    (d: DatedFiling) => ToCleanRow(today, d)
  }

  /** `sort_values('transaction_date')` followed by the projection to the seven columns. */
  function CleanRows(dated: seq<DatedFiling>, today: CalendarDate): seq<CleanRow> {
    Column(SortByKey(dated, TransactionRank), CleanRowOf(today))
  }

  /**
   * A date text `pd.to_datetime` rejects: not empty, and either not an ISO
   * date or one outside the `Timestamp` range.
   */
  predicate Unconvertible(s: string) {
    s != "" && (ParseIsoDate(s).None? || !InTimestampRange(ParseIsoDate(s).value))
  }

  /**
   * The conversion fails exactly when some filing or transaction date is
   * neither empty nor an ISO date a `Timestamp` can hold.
   */
  lemma CleanAndOrganizeFails(rows: seq<Filing>, today: CalendarDate)
    ensures CleanAndOrganize(rows, today).None? <==>
      exists k :: 0 <= k < |rows| && (Unconvertible(rows[k].filingDate) || Unconvertible(rows[k].transactionDate))
  {
    assert CleanAndOrganize(rows, today).None? <==> DateFilings(rows).None?;
    MapAllResult(rows, DateFiling);
    forall k | 0 <= k < |rows|
      ensures DateFiling(rows[k]).None? <==> Unconvertible(rows[k].filingDate) || Unconvertible(rows[k].transactionDate)
    {
      DateFilingFails(rows[k]);
    }
  }

  /** Converting one filing's dates fails exactly when one of them is neither empty nor an ISO date a `Timestamp` can hold. */
  lemma DateFilingFails(f: Filing)
    ensures DateFiling(f).None? <==> Unconvertible(f.filingDate) || Unconvertible(f.transactionDate)
  {
  }

  /**
   * The cleaned rows are the input filings, one row each, rearranged and
   * sorted by transaction date (dated rows first, earliest first); each
   * row keeps its filing's ticker, form and accession number, and its
   * `year_month` and day count agree with its transaction date.
   */
  lemma CleanRowsSortedPermutation(rows: seq<Filing>, today: CalendarDate)
    requires CleanAndOrganize(rows, today).Some?
    ensures var clean := CleanAndOrganize(rows, today).value.0;
      var dated := DateFilings(rows).value;
      && |clean| == |rows|
      && multiset(clean) == multiset(Column(dated, CleanRowOf(today)))
      && (forall i, j :: 0 <= i < j < |clean| ==> DateRank(clean[i].transactionDate) <= DateRank(clean[j].transactionDate))
      && (forall r :: r in clean ==> CoherentRow(today, r))
  {
    MapAllResult(rows, DateFiling);
    var dated := DateFilings(rows).value;
    assert CleanAndOrganize(rows, today).value.0 == CleanRows(dated, today);
    CleanRowsFacts(dated, today);
  }

  /** The sorted projection is a rearrangement of the projected rows, in transaction-date order, each row coherent. */
  lemma CleanRowsFacts(dated: seq<DatedFiling>, today: CalendarDate)
    ensures var clean := CleanRows(dated, today);
      && |clean| == |dated|
      && multiset(clean) == multiset(Column(dated, CleanRowOf(today)))
      && (forall i, j :: 0 <= i < j < |clean| ==> DateRank(clean[i].transactionDate) <= DateRank(clean[j].transactionDate))
      && (forall r :: r in clean ==> CoherentRow(today, r))
  {
    var sorted := SortByKey(dated, TransactionRank);
    MapPermutation(sorted, dated, CleanRowOf(today));
    var clean := CleanRows(dated, today);
    assert forall i :: 0 <= i < |clean| ==> clean[i] == ToCleanRow(today, sorted[i]);
  }

  /** A filing's `year_month` is the first seven characters of its transaction date text. */
  lemma CleanRowMonthIsPrefix(f: Filing, today: CalendarDate)
    requires DateFiling(f).Some? && f.transactionDate != ""
    ensures ToCleanRow(today, DateFiling(f).value).yearMonth == Some(f.transactionDate[..7])
  {
    YearMonthIsIsoPrefix(f.transactionDate);
  }

  /** The `groupby` key a row of `monthly_stats` stands for. */
  function StatKey(s: MonthlyStat): (string, string) {
    (s.ticker, s.yearMonth)
  }

  /** The rows of `monthly_stats` are the distinct keys in first-appearance order, each with its group's size. */
  lemma MonthlyStatsRows(clean: seq<CleanRow>)
    ensures var stats := MonthlyStats(clean);
      var ks := Distinct(Column(Filter(clean, HasMonth), MonthKey));
      && |stats| == |ks|
      && forall i :: 0 <= i < |stats| ==>
           (StatKey(stats[i]) == ks[i] && stats[i].filingCount == |Group(Filter(clean, HasMonth), MonthKey, ks[i])|)
  {
  }

  /** No (ticker, year_month) appears twice in `monthly_stats`. */
  lemma MonthlyStatsUnique(clean: seq<CleanRow>)
    ensures var stats := MonthlyStats(clean);
      forall i, j :: 0 <= i < j < |stats| ==> StatKey(stats[i]) != StatKey(stats[j])
  {
    MonthlyStatsRows(clean);
  }

  /**
   * Each count is at least one and equals the number of rows with a month
   * that carry the row's key.
   */
  lemma MonthlyStatsCounts(clean: seq<CleanRow>)
    ensures var stats := MonthlyStats(clean);
      var col := Column(Filter(clean, HasMonth), MonthKey);
      forall i :: 0 <= i < |stats| ==> 1 <= stats[i].filingCount == multiset(col)[StatKey(stats[i])]
  {
    var stats := MonthlyStats(clean);
    var dated := Filter(clean, HasMonth);
    var ks := Distinct(Column(dated, MonthKey));
    MonthlyStatsRows(clean);
    forall i | 0 <= i < |stats|
      ensures 1 <= stats[i].filingCount == multiset(Column(dated, MonthKey))[StatKey(stats[i])]
    {
      assert ks[i] in ks;
      GroupSize(dated, MonthKey, ks[i]);
    }
  }

  /** Every row with a month has its key in `monthly_stats`. */
  lemma MonthlyStatsCoverRows(clean: seq<CleanRow>)
    ensures var stats := MonthlyStats(clean);
      forall r :: r in clean && HasMonth(r) ==> exists i :: 0 <= i < |stats| && StatKey(stats[i]) == MonthKey(r)
  {
    var stats := MonthlyStats(clean);
    var dated := Filter(clean, HasMonth);
    var col := Column(dated, MonthKey);
    var ks := Distinct(col);
    MonthlyStatsRows(clean);
    forall r | r in clean && HasMonth(r)
      ensures exists i :: 0 <= i < |stats| && StatKey(stats[i]) == MonthKey(r)
    {
      assert r in dated;
      var j :| 0 <= j < |dated| && dated[j] == r;
      assert col[j] == MonthKey(r);
      assert MonthKey(r) in ks;
      var i :| 0 <= i < |ks| && ks[i] == MonthKey(r);
      assert StatKey(stats[i]) == MonthKey(r);
    }
  }

  /** Every row of `monthly_stats` comes from a row with that ticker and month. */
  lemma MonthlyStatsFromRows(clean: seq<CleanRow>)
    ensures var stats := MonthlyStats(clean);
      forall i :: 0 <= i < |stats| ==>
        exists r :: r in clean && r.ticker == stats[i].ticker && r.yearMonth == Some(stats[i].yearMonth)
  {
    var stats := MonthlyStats(clean);
    var dated := Filter(clean, HasMonth);
    var col := Column(dated, MonthKey);
    var ks := Distinct(col);
    MonthlyStatsRows(clean);
    forall i | 0 <= i < |stats|
      ensures exists r :: r in clean && r.ticker == stats[i].ticker && r.yearMonth == Some(stats[i].yearMonth)
    {
      assert ks[i] in ks;
      assert ks[i] in col;
      var j :| 0 <= j < |col| && col[j] == ks[i];
      assert dated[j] in dated;
      assert dated[j] in clean && HasMonth(dated[j]);
    }
  }

  /** The counts of `monthly_stats` add up to the number of rows with a month. */
  lemma MonthlyStatsTotal(clean: seq<CleanRow>)
    ensures SumFilingCounts(MonthlyStats(clean)) == |Filter(clean, HasMonth)|
  {
    var stats := MonthlyStats(clean);
    var col := Column(Filter(clean, HasMonth), MonthKey);
    MonthlyStatsCounts(clean);
    MonthlyStatsRows(clean);
    StatsSum(stats, Distinct(col), multiset(col));
    DistinctCountsSum(col);
  }

  function SumFilingCounts(stats: seq<MonthlyStat>): nat {
    if stats == [] then 0 else SumFilingCounts(stats[..|stats| - 1]) + stats[|stats| - 1].filingCount
  }

  lemma {:induction false} StatsSum(stats: seq<MonthlyStat>, ks: seq<(string, string)>, m: multiset<(string, string)>)
    requires |stats| == |ks|
    requires forall i :: 0 <= i < |stats| ==> stats[i].filingCount == m[ks[i]]
    ensures SumFilingCounts(stats) == SumCounts(ks, m)
  {
    if stats != [] {
      StatsSum(stats[..|stats| - 1], ks[..|ks| - 1], m);
    }
  }
}
