# Form 4 and institutional-investor data pipeline: a Dafny model

This project models the data-shaping core of an investment-data pipeline
written in Python. The pipeline:

- downloads SEC Form 4 insider filings;
- extracts the ownership document from each submission and turns its
  non-derivative transactions into records;
- sorts the collected filings by transaction date, keys them by
  `YYYY-MM` month and counts them per (ticker, month);
- cleans the three-institutional-investors table of the Taiwan stock
  exchange (it translates the Chinese headers and turns thousands-separated
  share counts into numbers);
- builds the per-month and per-ticker summaries of the API class, and
  keeps that class's list of intermediate files.

Each source file has a Dafny module of its own name:

- `Form4Collector` models `us_market/form4_collector.py`;
- `SecParser` models `us_market/sec_parser.py`;
- `TaiwanDataParser` models `taiwan_market/data_parser.py`;
- `Api` models `utils/api.py`.

Four support modules hold what the pandas and Python runtime supply:

- `Text`: `find`, `strip`, `upper`, `split`, `zfill`, `float` on decimal
  text, `str.replace`.
- `Dates`: the calendar, day numbers, the `strftime` renderings the
  pipeline uses and the ISO reading of `pd.to_datetime`.
- `Tables`: columns, `groupby` groups, `drop_duplicates`, `concat`,
  filters, a stable sort, and conversions that raise.
- `Wrappers`: `Option`.

`OwnershipXml` describes parsed ownership documents and the
strict-then-tolerant parse chain that both XML readers share.

Things the original does step by step stay imperative:

- Loops are methods with loop invariants:
  - the appending loops of `GetForm4Transactions`, `ParseForm4Xml`,
    `ParseSingleFile`, `ScanDirectory` and `ProcessForm4Files`;
  - the early-return search of `GetCik`;
  - the column-overwriting loop of `ConvertColumns`, which
    `CleanInstitutionalData` calls.
  Each is proved equal to a specification function. The properties the
  source promises are proved as lemmas about those functions.
- The API object's `intermediate_files` list is a `seq` field of the
  class `Api.InvestmentDataApi`. Its methods append to the field and
  reset it.

Exceptions that the source catches become `None`. A Python `None`
inside a record is an `Option` field; pandas' `NaT` is a `None` date.
The clock, the network and the file system are parameters:

- `today`, `stamp` and `parsedDate` stand for the clock readings;
- the CIK table, the submissions arrays and the HTTP responses are given
  values;
- a directory listing and the files read back are given sequences;
- the outcome of each XML parse is a given `ParseAttempt`.

Two behaviours of the code to note:

- `parse_form4_xml` in the code computes neither a total value nor a
  BUY/SELL type. It defaults missing fields to "Unknown" and 0.0 and
  skips entries whose conversion raises.
- `_parse_single_file` has no such skip: one unreadable entry fails the
  whole file.

## Model

| member | source | states |
|---|---|---|
| Form4Collector.CikStringShape | us_market/form4_collector.py:120 | the padded CIK has max(10, digits) characters, all digits; it ends with the unpadded decimal, adds only leading '0's, and a string of 10 or more digits is unchanged |
| Form4Collector.LookupCikNone | us_market/form4_collector.py:118-123 | the lookup gives no CIK exactly when no entry's upper-cased ticker equals the upper-cased query |
| Form4Collector.LookupCikFirstMatch | us_market/form4_collector.py:118-120 | the first matching entry decides the CIK, whatever matches follow it |
| Form4Collector.LookupCikIgnoresCase | us_market/form4_collector.py:119 | tickers that agree up to case resolve to the same CIK |
| Form4Collector.LookupCikUpper | us_market/form4_collector.py:119 | "aapl" resolves as "AAPL" does |
| Form4Collector.GetCik | us_market/form4_collector.py:91-128 | the early-return loop gives None when the table could not be fetched or decoded, otherwise the first-match lookup |
| Form4Collector.Form4Positions | us_market/form4_collector.py:60 | the listed positions are exactly the "4" forms, strictly increasing, as many as there are "4" forms |
| Form4Collector.Form4PositionRank | us_market/form4_collector.py:60 | the k-th listed position has exactly k "4" forms before it |
| Form4Collector.Form4PositionComplete | us_market/form4_collector.py:60 | every position holding "4" is listed |
| Form4Collector.PySliceTo | us_market/form4_collector.py:60 | Python's `[:n]` is a prefix, of length min(n, length) for n ≥ 0 |
| Form4Collector.SelectForm4Exact | us_market/form4_collector.py:60 | a position is selected iff it holds "4" and fewer than num_filings "4"s precede it; the selection is in order, and its length is min(num_filings, number of "4"s) |
| Form4Collector.SelectForm4Fours | us_market/form4_collector.py:60 | every selected position holds a "4" form, for any num_filings |
| Form4Collector.GetForm4Transactions | us_market/form4_collector.py:29-89 | no CIK, a non-200 response, a missing or empty `recent` block, an empty selection or an index past an array's end gives None; otherwise one row per selected position, in order: BUY at even positions, 1000·(idx+1) shares at 150+5·idx, total value their product, and the dates, form and accession of that filing |
| Form4Collector.ExtractOwnershipDocument | us_market/form4_collector.py:163-169 | extraction succeeds iff the open tag occurs and the first close tag lies after the first open tag |
| Form4Collector.ExtractedSpan | us_market/form4_collector.py:163-169 | on success the output is the fixed XML declaration followed by a contiguous piece of the input that starts with the open tag, ends with the close tag and holds no earlier close tag |
| Form4Collector.NoOpenInsideClose | us_market/form4_collector.py:166 | a first close tag after the open tag leaves the open tag whole |
| Form4Collector.CloseBeforeOpenFails | us_market/form4_collector.py:163-178 | a close tag before the first open tag makes extraction fail, even if a later close tag exists |
| Form4Collector.MissingCloseFails | us_market/form4_collector.py:164-178 | a submission without a close tag yields nothing |
| Form4Collector.DownloadFiling | us_market/form4_collector.py:130-193 | it reports success iff the status is 200 and a document can be cut out; a 200 response writes the raw copy `form4_{ticker}_{ts}_raw.txt` first and the XML file `form4_{ticker}_{ts}.xml` only on success; a non-200 response writes nothing |
| Form4Collector.SavedXmlHasOpenTag | us_market/form4_collector.py:167-169 | a saved XML file passes the open-tag check of both readers (form4_collector.py:203 and sec_parser.py:47) |
| Form4Collector.EntryRecordsAppend | us_market/form4_collector.py:233-265 | the per-entry records of two entry lists are the first list's records followed by the second's |
| Form4Collector.SkipFailingEntry | us_market/form4_collector.py:263-265 | an entry whose conversion raises is skipped and does not stop the entries after it |
| Form4Collector.EntryRecordsFromEntries | us_market/form4_collector.py:233-265 | there are no more records than entries, and every record is the conversion of some entry |
| Form4Collector.ConvertEntryFacts | us_market/form4_collector.py:233-265 | an entry fails exactly when one of its elements has no text or a present number does not read; otherwise each missing element gets "Unknown" or 0.0 and each present one its stripped text or number |
| Form4Collector.AllMissingDefaults | us_market/form4_collector.py:236-253 | an entry with every sub-element missing gives "Unknown" for the text fields and 0.0 for the numbers |
| Form4Collector.ParseForm4Xml | us_market/form4_collector.py:195-276 | None without the open tag, when the parse chain yields no document, or when no entry converts; otherwise the records of the entries that convert, in document order |
| OwnershipXml.ResolveRoot | us_market/form4_collector.py:208-229 | the strict parse wins when it succeeds; otherwise the re-parse of the tolerant repair is used when the tolerant parser found the root; otherwise nothing |
| OwnershipXml.ChainTerminates | us_market/sec_parser.py:52-70 | three steps of the chain always reach a final state, and a fourth changes nothing |
| SecParser.XmlFiles | us_market/sec_parser.py:16 | a listed file is scanned iff its name ends in ".xml" |
| SecParser.RawCopyNotScanned | us_market/sec_parser.py:16 | the raw copy `form4_{ticker}_{ts}_raw.txt` does not end in ".xml" and the saved document `form4_{ticker}_{ts}.xml` does, so only the latter is scanned |
| SecParser.DownloadedNameGivesTicker | us_market/sec_parser.py:24 | for a ticker without '_', the second '_'-token of `form4_{ticker}_{ts}.xml` is that ticker |
| SecParser.ScanStopsAt | us_market/sec_parser.py:24-38 | a scanned name without '_' makes the whole scan give None |
| SecParser.ScanFilesAppend | us_market/sec_parser.py:20-28 | the scan of two runs of files is the first run's records followed by the second's |
| SecParser.ScanOneFile | us_market/sec_parser.py:23-28 | the scan of one file is that file's records, or nothing when the file yields None |
| SecParser.ScanDirectory | us_market/sec_parser.py:20-28 | the extending loop equals the file-by-file concatenation |
| SecParser.ScanOne | us_market/sec_parser.py:23-28 | one pass takes the ticker from the name, then the file's records if it yields any |
| SecParser.ProcessForm4Files | us_market/sec_parser.py:9-38 | None when the listing fails, a scanned name has no '_', nothing was collected or a transaction date cannot be converted (not ISO, or outside the Timestamp range); otherwise the processed records |
| SecParser.DateCell | us_market/sec_parser.py:117 | a missing or empty date becomes NaT; an ISO date within the Timestamp range 1677-09-22..2262-04-11 becomes its day; any other text, an out-of-range ISO date included, fails the conversion |
| SecParser.ProcessedRowFacts | us_market/sec_parser.py:113-132 | processing keeps every record, in order, and counts the days from its transaction date to today |
| SecParser.ParseSingleFile | us_market/sec_parser.py:40-111 | the appending loop equals the per-file record function |
| SecParser.SingleFileRecordsFacts | us_market/sec_parser.py:79-107 | one record per entry; all records carry the file's ticker and path and the document's single reporter name and CIK ("Unknown" for both without reportingOwnerId); total value is shares·price; BUY iff the code is "P" or "J" |
| SecParser.CompleteFacts | us_market/sec_parser.py:99-103 | a completed record has total value shares·price and is BUY iff its code is "P" or "J" |
| SecParser.NotForm4Rejected | us_market/sec_parser.py:73-76 | a document whose documentType is missing, or whose stripped text is not "4", yields None |
| SecParser.MissingElementFailsFile | us_market/sec_parser.py:85-111 | one entry lacking a required sub-element fails the whole file |
| SecParser.MissingElementUnreadable | us_market/sec_parser.py:90-94 | an entry lacking one of its five sub-elements cannot be read |
| SecParser.DateRankOrder | us_market/sec_parser.py:143 | the sort key puts rows with a date before NaT rows, and orders dated rows by calendar order |
| SecParser.CleanAndOrganizeFails | us_market/sec_parser.py:139-177 | cleaning fails exactly when some filing or transaction date is neither empty nor an ISO date within the Timestamp range |
| SecParser.DateFilingFails | us_market/sec_parser.py:139-140 | one filing's conversion fails exactly when one of its two dates is neither empty nor an ISO date within the Timestamp range |
| SecParser.CleanRowsFacts | us_market/sec_parser.py:139-168 | the cleaned rows are a permutation of the input filings, sorted by transaction date with NaT last; each keeps its filing's ticker, form and accession number, and its `year_month` and day count agree with its date |
| SecParser.CleanRowsSortedPermutation | us_market/sec_parser.py:143-168 | the sorted projection is a rearrangement of the projected rows, in transaction-date order, and every row is coherent |
| SecParser.CleanRowMonthIsPrefix | us_market/sec_parser.py:146 | a row's `year_month` is the first seven characters (YYYY-MM) of its ISO transaction date |
| SecParser.MonthlyStatsRows | us_market/sec_parser.py:152-156 | the monthly rows are the distinct (ticker, year_month) keys in first-appearance order, each with its group's size |
| SecParser.MonthlyStatsUnique | us_market/sec_parser.py:152-156 | no (ticker, year_month) appears twice |
| SecParser.MonthlyStatsCounts | us_market/sec_parser.py:152-156 | each count is at least one and equals the number of dated rows carrying that key |
| SecParser.MonthlyStatsCoverRows | us_market/sec_parser.py:152-156 | every row with a month has its key among the monthly rows |
| SecParser.MonthlyStatsFromRows | us_market/sec_parser.py:152-156 | every monthly row comes from a row with that ticker and month |
| SecParser.MonthlyStatsTotal | us_market/sec_parser.py:152-156 | the counts add up to the number of rows with a month |
| TaiwanDataParser.MappingInjective | taiwan_market/data_parser.py:9-19 | no two Chinese headers are given the same English name |
| TaiwanDataParser.NumericColumnsAreMapped | taiwan_market/data_parser.py:24-25 | the six converted columns are names the translation produces, none listed twice |
| TaiwanDataParser.RenameFacts | taiwan_market/data_parser.py:21 | renaming keeps every column and its cells in place; a mapped header takes its English name and any other header stays as it is |
| TaiwanDataParser.CleanInstitutionalData | taiwan_market/data_parser.py:5-34 | the method, which overwrites the columns one by one, equals the cleaned-frame function |
| TaiwanDataParser.ConvertColumns | taiwan_market/data_parser.py:27-28 | the loop that overwrites a column per pass equals the sequence of conversions |
| TaiwanDataParser.ConvertNumericStops | taiwan_market/data_parser.py:27-34 | once a conversion raises, the remaining columns are not reached and the result is None |
| TaiwanDataParser.ConvertNamedFacts | taiwan_market/data_parser.py:28 | a conversion keeps names and lengths, converts the named column cell by cell and leaves the others alone |
| TaiwanDataParser.ConvertNumericFacts | taiwan_market/data_parser.py:27-28 | the conversions of distinct names succeed iff each name picks a unique column that `.str` applies to; they then convert exactly those columns |
| TaiwanDataParser.CleanedFrameFacts | taiwan_market/data_parser.py:21-34 | cleaning succeeds iff each numeric column, after renaming, is present once and holds text; it then keeps every column in place with its translated name and row count, converts the six numeric columns cell by cell, and leaves every other column's cells unchanged |
| TaiwanDataParser.MissingNumericColumnFails | taiwan_market/data_parser.py:28-34 | a numeric column missing after renaming makes the result None |
| TaiwanDataParser.CommaDigits | taiwan_market/data_parser.py:28 | digits with commas anywhere convert to the integer their digits spell |
| TaiwanDataParser.ThousandsSeparators | taiwan_market/data_parser.py:28 | "1,234,567" converts to 1234567 |
| TaiwanDataParser.LetterBecomesMissing | taiwan_market/data_parser.py:28 | text holding a letter that no number Python or pandas reads can contain (any letter but those of "e", "inf", "infinity" and "nan") becomes missing instead of raising |
| TaiwanDataParser.NoLetterFloat | taiwan_market/data_parser.py:28 | no string holding such a letter reads as a number |
| Api.ChooseTickers | utils/api.py:116-117 | no ticker list gives ["AAPL", "MSFT", "GOOGL"]; a given list is used as it is |
| Api.OutputNamesSelected | utils/api.py:523-527 | the summary reads back the cleaned transactions file the pipeline wrote, and never the monthly statistics file |
| Api.InvestmentDataApi.constructor | utils/api.py:27-38 | a new API object keeps the given keep flag and records no file |
| Api.InvestmentDataApi.CleanIntermediateFiles | utils/api.py:52-65 | without the keep flag and with files recorded, the list becomes empty even when deletions fail, and exactly the recorded files that exist and can be removed leave the disk; otherwise the list and the disk are unchanged |
| Api.InvestmentDataApi.TrackForm4Outputs | utils/api.py:143-162 | saving the Form 4 output appends the cleaned file and then the statistics file, both in the output directory, after the existing entries |
| Api.InvestmentDataApi.TrackIfExists | utils/api.py:252-253 | a side file is appended only when it exists on disk |
| Api.SaveThenClean | utils/api.py:162 | recording the Form 4 outputs and then cleaning, with no removal raising, leaves nothing recorded and both outputs gone from disk |
| Api.NotAfterDays | utils/api.py:579-581 | calendar order and day numbers agree, so the days from a date to one not before it are never negative |
| Api.EarliestDate | utils/api.py:562 | `min()` of a date column skips NaT; it is NaT only for an all-NaT column, and otherwise a date of the column not after any other |
| Api.LatestDate | utils/api.py:562 | `max()` of a date column skips NaT; it is NaT only for an all-NaT column, and otherwise a date of the column not before any other |
| Api.SpanOfColumn | utils/api.py:579-581 | the earliest and latest dates of a column are both present or both NaT, in order, with a day range of no negative days |
| Api.SpanInMonth | utils/api.py:493-505 | when every date of a column is present and in one month, the earliest and latest are present and in that month |
| Api.MonthSummaryOfFacts | utils/api.py:491-505 | one month's row carries its key, the size of its group and an ordered span |
| Api.ConsolidatedAnalysisFacts | utils/api.py:474-510 | empty for an empty table; otherwise one row per (ticker, year_month) of the rows with a month, none twice, each counting the rows of its month (at least one), with first ≤ last and a non-negative day range |
| Api.ConsolidatedDatesInMonth | utils/api.py:487-505 | when every row's month comes from its date, each month's first and last dates are present and fall in that month |
| Api.DedupedRowsFacts | utils/api.py:534-544 | every deduplicated row comes from a transactions file, and no (ticker, filing_date, transaction_date, accession_number) key repeats |
| Api.SummaryRowsFacts | utils/api.py:523-554 | the rows summarised come from transactions files, repeat no key, and with a ticker given all carry that ticker |
| Api.SummaryNeedsRows | utils/api.py:529-554 | a summary needs a transactions file and, with a ticker given, a row of that ticker in one of them |
| Api.TickerStatsFacts | utils/api.py:560-581 | one row per ticker, none twice; each row's count is the number of rows of its ticker (at least one). Its distinct months are at most that count, and at least one exactly when a row has a month. The activity level is count per month. Earliest and latest are both present or both NaT, in order, with a span of no negative days |
| Api.SingleTickerStats | utils/api.py:560-571 | rows of one ticker summarise to one row, for that ticker |
| Api.OneTickerSummary | utils/api.py:550-571 | with a ticker given, the summary, when there is one, is a single row for that ticker |
| Api.MonthCountFacts | utils/api.py:563-576 | a ticker's distinct months are at most its rows, and at least one exactly when one of its rows has a month |
| Tables.DropDuplicatesKeepsFirst | utils/api.py:542-544 | every kept row is the first row of the table carrying its key |
| Tables.DropDuplicates | utils/api.py:542-544 | the kept keys are the distinct keys in first-appearance order, and every kept row is an input row |
| Tables.DropDuplicatesUnique | utils/api.py:542-544 | no key repeats after `drop_duplicates` |
| Tables.DistinctOrder | utils/api.py:542-544 | the distinct keys keep the order of their first appearances |
| Tables.GroupSize | us_market/sec_parser.py:152-153 | a group's size is the number of rows carrying its key, and every such row is in it |
| Tables.DistinctCountsSum | us_market/sec_parser.py:152-156 | the key counts over the distinct keys add up to the number of rows |
| Text.SplitJoin | us_market/sec_parser.py:24 | joining the pieces of `split` with the separator gives back the string |
| Text.SplitAfterToken | us_market/sec_parser.py:24 | a separator-free head followed by the separator is split off as the first piece, before the pieces of the rest |
| Text.ZFillDigits | us_market/form4_collector.py:120 | `zfill` of a digit string is a digit string of width max(n, length) denoting the same number |
| Dates.FormatThenParse | us_market/sec_parser.py:139-140 | every valid date is read back from its ISO rendering |
| Dates.ParseThenFormat | us_market/sec_parser.py:139-140 | a string that reads as a date is exactly that date's ISO rendering |
| Dates.ToTimestampIff | us_market/sec_parser.py:139-140 | a text converts to a Timestamp exactly when it reads as an ISO date in 1677-09-22..2262-04-11, and then to that date |
| Dates.FormatThenTimestamp | us_market/sec_parser.py:139-140 | every date a Timestamp holds converts back from its ISO rendering |
| Dates.OutOfBoundsDate | us_market/sec_parser.py:117 | the well-formed ISO date 1600-01-01 reads as a date but does not convert, so it makes the conversion raise |
| Dates.YearMonthKeyIff | us_market/sec_parser.py:146 | two dates share a `year_month` key exactly when they share year and month |
| Dates.DayNumberMonotone | us_market/sec_parser.py:143 | the day number is strictly increasing in calendar order, so sorting by it is sorting by date |

## Left out

- HTTP requests, JSON decoding and the rate-limit sleeps are not modelled. The CIK table, the submissions arrays and the HTTP responses are given values.
- ElementTree and BeautifulSoup are foreign libraries. A parsed document is a given value (`OwnershipXml.Document`), and each parser's outcome on a file is a given `ParseAttempt`. The file rewrite during the tolerant repair is not modelled.
- The UTF-8 decoding with `errors='ignore'` in `_download_filing` is not modelled. Extraction works on the decoded text.
- The clock is a parameter. `days_since_filing` counts from a given `today`; `parsed_date`, the file timestamps and `report_generated_date` are given strings or are dropped from the rows.
- Floating point is not modelled. The simulated rows of `get_form4_transactions` hold exact integers, since `150.0 + idx * 5.0` and its product with the share count are whole numbers; the shares, prices and totals of parsed records are `real`. `float()` and `pd.to_numeric` read only the decimal subset `[sign](digits[.digits] | .digits)` after stripping spaces; exponents, `inf`, `nan` and underscores are not read.
- Api.TickerStatsFacts: `activity_level` is the exact quotient, without `round(2)`. A ticker with no month gets a missing value where pandas gives `inf`.
- Api.ConsolidatedAnalysis: takes the cleaned rows of `clean_and_organize_data`, whose dates are already converted, so the `pd.to_datetime` calls of `_create_consolidated_analysis` are identity steps; the failure they could raise on raw text, which that function does not catch, is not modelled.
- Api.ConsolidatedAnalysisFacts: pandas' `groupby` sorts its keys; the model lists the groups in first-appearance order, so the rows are the same but may come in another order.
- Api.TickerStatsFacts: pandas' `groupby` sorts its keys; the model lists the groups in first-appearance order, so the rows are the same but may come in another order.
- SecParser.MonthlyStatsRows: pandas' `groupby` sorts its keys; the model lists the groups in first-appearance order, so the rows are the same but may come in another order.
- SecParser.CleanRowsFacts: `sort_values` uses an unstable quicksort. The model sorts stably, which is one of the orders the source allows.
- `pd.to_datetime` is modelled for canonical `YYYY-MM-DD` text only, at midnight and within the nanosecond `Timestamp` range; any other text is a conversion failure.
- The count of `accession_number` equals a group's row count, because the collected accession numbers are never missing. The model counts rows.
- `get_ticker_summary` is modelled after the directory listing: the listed files with the rows `pd.read_csv` gives back. The CSV write and read round trip is not modelled.
- The `.str` accessor is modelled as working on a column that holds a string or only missing values. Mixed object columns are not distinguished further.
- SecParser.ProcessForm4Files: leaves out the `groupby` summary of `_process_transactions`, which is only printed.
- Form4Collector.GetForm4Transactions: takes `num_filings` as an argument; its default of 10 is not modelled.
- Printing, the Excel and JSON report writers and `CustomJSONEncoder` are output-only and are not modelled.
- The fund-flow code (`us_market/fund_flow.py`), the Taiwan HTTP fetcher, the database, `utils/file_handler.py` and `main.py` are not part of this model. `analyze_fund_flow` is not defined in the source.
- `get_us_form4_data` and the other API entry points are modelled only where they touch the intermediate-file list (`TrackForm4Outputs`, `TrackIfExists`, `CleanIntermediateFiles`).
