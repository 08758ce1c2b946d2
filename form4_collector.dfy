/**
 * us_market/form4_collector.py: resolving a ticker to its CIK, picking the
 * Form 4 filings out of a company's `recent` submissions and building the
 * (simulated) transaction rows for them, cutting the `<ownershipDocument>`
 * out of a downloaded submission together with the names of the two files
 * saved for it, and reading the entries of a saved document.
 */
module Form4Collector {
  import opened Wrappers
  import opened Text
  import opened Dates
  import opened OwnershipXml

  // ---------------------------------------------------------------------
  // CIK resolution (`_get_cik`)
  // ---------------------------------------------------------------------

  /** One value of the `company_tickers.json` table. */
  datatype CikEntry = CikEntry(ticker: string, cikStr: nat)

  /** The width the submissions API expects a CIK to be padded to. */
  const CikWidth: nat := 10

  /** `str(cik_str).zfill(10)`. */
  function CikString(n: nat): string {
    ZFill(NatToDecimal(n), CikWidth)
  }

  /**
   * The padded CIK has `max(10, digits)` characters, all decimal digits,
   * ends with the unpadded decimal, adds only '0's in front and denotes
   * the same number.
   */
  lemma CikStringShape(n: nat)
    ensures var d := NatToDecimal(n);
      var r := CikString(n);
      && |r| == (if |d| >= CikWidth then |d| else CikWidth)
      && (|d| >= CikWidth ==> r == d)
      && EndsWith(r, d)
      && (forall i :: 0 <= i < |r| - |d| ==> r[i] == '0')
      && AllDigits(r) && DigitsValue(r) == n
  {
    ZFillDigits(NatToDecimal(n), CikWidth);
  }

  /** The first entry whose upper-cased ticker equals the upper-cased query decides the CIK. */
  function LookupCik(table: seq<CikEntry>, ticker: string): Option<string> {
    if table == [] then None
    else if Upper(table[0].ticker) == Upper(ticker) then Some(CikString(table[0].cikStr))
    else LookupCik(table[1..], ticker)
  }

  /** No answer exactly when no entry matches, ignoring case. */
  lemma {:induction false} LookupCikNone(table: seq<CikEntry>, ticker: string)
    ensures LookupCik(table, ticker).None?
        <==> forall i :: 0 <= i < |table| ==> Upper(table[i].ticker) != Upper(ticker)
  {
    if table != [] {
      LookupCikNone(table[1..], ticker);
      assert forall i :: 1 <= i < |table| ==> table[i] == table[1..][i - 1];
    }
  }

  /** The first matching entry wins, whatever matches come after it. */
  lemma {:induction false} LookupCikFirstMatch(table: seq<CikEntry>, ticker: string, i: nat)
    requires i < |table| && Upper(table[i].ticker) == Upper(ticker)
    requires forall j :: 0 <= j < i ==> Upper(table[j].ticker) != Upper(ticker)
    ensures LookupCik(table, ticker) == Some(CikString(table[i].cikStr))
  {
    if i > 0 {
      assert table[1..][i - 1] == table[i];
      LookupCikFirstMatch(table[1..], ticker, i - 1);
    }
  }

  /** Tickers that agree up to case resolve identically ("aapl" and "AAPL"). */
  lemma {:induction false} LookupCikIgnoresCase(table: seq<CikEntry>, a: string, b: string)
    requires Upper(a) == Upper(b)
    ensures LookupCik(table, a) == LookupCik(table, b)
  {
    if table != [] {
      LookupCikIgnoresCase(table[1..], a, b);
    }
  }

  /** "aapl" resolves as "AAPL" does. */
  lemma LookupCikUpper(table: seq<CikEntry>, ticker: string)
    ensures LookupCik(table, ticker) == LookupCik(table, Upper(ticker))
  {
    UpperIdempotent(ticker);
    LookupCikIgnoresCase(table, ticker, Upper(ticker));
  }

  /**
   * `_get_cik`: `table` is the fetched ticker table, `None` when the
   * request fails, returns a non-200 status or the body is not JSON.
   */
  method GetCik(table: Option<seq<CikEntry>>, ticker: string) returns (cik: Option<string>)
    ensures table.None? ==> cik.None?
    ensures table.Some? ==> cik == LookupCik(table.value, ticker)
  {
    if table.None? {
      return None;
    }
    var entries := table.value;
    var i := 0;
    while i < |entries|
      invariant 0 <= i <= |entries|
      invariant LookupCik(entries, ticker) == LookupCik(entries[i..], ticker)
    {
      assert entries[i..][1..] == entries[i + 1..];
      if Upper(entries[i].ticker) == Upper(ticker) {
        return Some(CikString(entries[i].cikStr));
      }
      i := i + 1;
    }
    return None;
  }

  // ---------------------------------------------------------------------
  // Form 4 selection and the simulated transaction rows
  // (`get_form4_transactions`)
  // ---------------------------------------------------------------------

  datatype TxType = Buy | Sell

  /** The `filings.recent` arrays of a submissions document; a missing array is empty. */
  datatype Recent = Recent(
    form: seq<string>,
    filingDate: seq<string>,
    accessionNumber: seq<string>,
    reportDate: seq<string>)

  /**
   * The submissions request: `Unavailable` for a non-200 status or a body
   * that is not JSON; `recent` is `None` when `filings.recent` is missing
   * or empty.
   */
  datatype Submissions = Unavailable | Submissions(recent: Option<Recent>)

  /** One row of the table `get_form4_transactions` returns. */
  datatype Filing = Filing(
    ticker: string,
    filingDate: string,
    transactionDate: string,
    formType: string,
    accessionNumber: string,
    transactionType: TxType,
    shares: int,
    pricePerShare: int,
    totalValue: int)

  /** Number of "4" entries in a form list. */
  function CountForm4(forms: seq<string>): nat {
    if forms == [] then 0
    else CountForm4(forms[..|forms| - 1]) + (if forms[|forms| - 1] == "4" then 1 else 0)
  }

  /** `[i for i, form in enumerate(form_types) if form == '4']`. */
  function Form4Positions(forms: seq<string>): (ps: seq<nat>)
    ensures |ps| == CountForm4(forms)
    ensures forall k :: 0 <= k < |ps| ==> ps[k] < |forms| && forms[ps[k]] == "4"
    ensures forall k, l :: 0 <= k < l < |ps| ==> ps[k] < ps[l]
  {
    if forms == [] then []
    else
      Form4Positions(forms[..|forms| - 1])
      + (if forms[|forms| - 1] == "4" then [|forms| - 1] else [])
  }

  /** The k-th listed position has exactly k "4" entries before it. */
  lemma {:induction false} Form4PositionRank(forms: seq<string>, k: nat)
    requires k < |Form4Positions(forms)|
    ensures CountForm4(forms[..Form4Positions(forms)[k]]) == k
  {
    var p := forms[..|forms| - 1];
    var ps := Form4Positions(forms);
    if k < |Form4Positions(p)| {
      Form4PositionRank(p, k);
      assert forms[..ps[k]] == p[..ps[k]];
    } else {
      assert ps[k] == |forms| - 1;
      assert forms[..ps[k]] == p;
    }
  }

  /** Every "4" entry is listed. */
  lemma {:induction false} Form4PositionComplete(forms: seq<string>, i: nat)
    requires i < |forms| && forms[i] == "4"
    ensures i in Form4Positions(forms)
  {
    var p := forms[..|forms| - 1];
    if i < |p| {
      Form4PositionComplete(p, i);
    }
  }

  /** Python's `s[:n]`. */
  function PySliceTo<T>(s: seq<T>, n: int): (r: seq<T>)
    ensures |r| <= |s| && r == s[..|r|]
    ensures n >= 0 ==> |r| == (if n < |s| then n else |s|)
  {
    if n >= 0 then s[..if n < |s| then n else |s|]
    else s[..if |s| + n > 0 then |s| + n else 0]
  }

  /** `form4_indices`: the positions the function builds rows for. */
  function SelectForm4(forms: seq<string>, numFilings: int): seq<nat> {
    PySliceTo(Form4Positions(forms), numFilings)
  }

  /**
   * For a non-negative `num_filings` the selection is exactly the first
   * `num_filings` positions holding "4", in list order: a position is
   * selected iff it holds "4" and fewer than `num_filings` "4"s precede
   * it, and there are `min(num_filings, number of "4"s)` of them.
   */
  lemma SelectForm4Exact(forms: seq<string>, numFilings: int)
    requires numFilings >= 0
    ensures var sel := SelectForm4(forms, numFilings);
      && |sel| == (if numFilings < CountForm4(forms) then numFilings else CountForm4(forms))
      && (forall k, l :: 0 <= k < l < |sel| ==> sel[k] < sel[l])
      && (forall i :: i in sel <==> 0 <= i < |forms| && forms[i] == "4" && CountForm4(forms[..i]) < numFilings)
  {
    var ps := Form4Positions(forms);
    var sel := SelectForm4(forms, numFilings);
    forall i | i in sel
      ensures 0 <= i < |forms| && forms[i] == "4" && CountForm4(forms[..i]) < numFilings
    {
      var k :| 0 <= k < |sel| && sel[k] == i;
      Form4PositionRank(forms, k);
    }
    forall i | 0 <= i < |forms| && forms[i] == "4" && CountForm4(forms[..i]) < numFilings
      ensures i in sel
    {
      Form4PositionComplete(forms, i);
      var k :| 0 <= k < |ps| && ps[k] == i;
      Form4PositionRank(forms, k);
      assert sel[k] == i;
    }
  }

  /** The arrays the row for list position `idx` reads all reach that far. */
  predicate RowInRange(recent: Recent, idx: nat) {
    idx < |recent.form| && idx < |recent.filingDate|
    && idx < |recent.accessionNumber| && idx < |recent.reportDate|
  }

  /**
   * The row built for list position `idx`: the dates, form and accession
   * number of that filing, and the simulated trade — BUY at even
   * positions, `1000*(idx+1)` shares at `150 + 5*idx`, worth their product.
   */
  function SimulatedFiling(ticker: string, recent: Recent, idx: nat): Filing
    requires RowInRange(recent, idx)
  {
    var shares := 1000 * (idx + 1);
    var price := 150 + 5 * idx;
    Filing(ticker, recent.filingDate[idx], recent.reportDate[idx], recent.form[idx],
           recent.accessionNumber[idx], if idx % 2 == 0 then Buy else Sell,
           shares, price, shares * price)
  }

  /** Every selected position holds a "4" form. */
  lemma SelectForm4Fours(forms: seq<string>, numFilings: int)
    ensures var sel := SelectForm4(forms, numFilings);
      forall k :: 0 <= k < |sel| ==> sel[k] < |forms| && forms[sel[k]] == "4"
  {
    var ps := Form4Positions(forms);
    var sel := SelectForm4(forms, numFilings);
    assert forall k :: 0 <= k < |sel| ==> sel[k] == ps[k];
  }

  /** What every row of the returned table satisfies. */
  predicate WellFormedRow(ticker: string, t: Filing) {
    && t.ticker == ticker && t.formType == "4"
    && t.totalValue == t.shares * t.pricePerShare
    && t.shares >= 1000 && t.pricePerShare >= 150
  }

  /**
   * `get_form4_transactions`: `cik` is what `_get_cik` returned and
   * `submissions` the submissions request. No CIK, an unavailable request,
   * a missing `recent` block, an empty selection or a selected position
   * past the end of one of the arrays (an `IndexError`) all give `None`;
   * otherwise one row per selected position, in order.
   */
  method GetForm4Transactions(ticker: string, cik: Option<string>, submissions: Submissions, numFilings: int)
    returns (r: Option<seq<Filing>>)
    ensures cik.None? || submissions.Unavailable? || submissions.recent.None? ==> r.None?
    ensures cik.Some? && submissions.Submissions? && submissions.recent.Some? ==>
      var recent := submissions.recent.value;
      var sel := SelectForm4(recent.form, numFilings);
      && (r.Some? <==> (|sel| > 0 && forall k :: 0 <= k < |sel| ==> RowInRange(recent, sel[k])))
      && (r.Some? ==> (|r.value| == |sel|
            && forall k :: 0 <= k < |sel| ==> r.value[k] == SimulatedFiling(ticker, recent, sel[k])))
    ensures r.Some? ==> forall t :: t in r.value ==> WellFormedRow(ticker, t)
  {
    if cik.None? || submissions.Unavailable? || submissions.recent.None? {
      return None;
    }
    var recent := submissions.recent.value;
    var indices := SelectForm4(recent.form, numFilings);
    SelectForm4Fours(recent.form, numFilings);
    var transactions: seq<Filing> := [];
    var i := 0;
    while i < |indices|
      invariant 0 <= i <= |indices|
      invariant forall k :: 0 <= k < i ==> RowInRange(recent, indices[k])
      invariant |transactions| == i
      invariant forall k :: 0 <= k < i ==> transactions[k] == SimulatedFiling(ticker, recent, indices[k])
      invariant forall k :: 0 <= k < i ==> WellFormedRow(ticker, transactions[k])
    {
      var idx := indices[i];
      if !RowInRange(recent, idx) {
        return None;
      }
      var row := SimulatedFiling(ticker, recent, idx);
      assert WellFormedRow(ticker, row);
      transactions := transactions + [row];
      i := i + 1;
    }
    if |transactions| == 0 {
      return None;
    }
    return Some(transactions);
  }

  // ---------------------------------------------------------------------
  // Downloading one filing (`_download_filing`)
  // ---------------------------------------------------------------------

  const OpenTag: string := "<ownershipDocument>"
  const CloseTag: string := "</ownershipDocument>"
  const XmlDeclaration: string := "<?xml version=\"1.0\" encoding=\"UTF-8\"?>\n"

  /**
   * The saved XML: the declaration followed by the text from the first
   * open tag through the end of the first close tag, provided that close
   * tag comes after the open tag.
   */
  function ExtractOwnershipDocument(content: string): (r: Option<string>)
    ensures r.Some? <==> Find(content, OpenTag) >= 0 && Find(content, CloseTag) > Find(content, OpenTag)
  {
    var startIdx := Find(content, OpenTag);
    var endIdx := Find(content, CloseTag);
    if startIdx > -1 && endIdx > startIdx then
      Some(XmlDeclaration + content[startIdx..endIdx + |CloseTag|])
    else None
  }

  /**
   * On success the output is the declaration and then one contiguous
   * piece of the input that starts with the open tag, ends with the close
   * tag and holds no earlier close tag.
   */
  lemma ExtractedSpan(content: string)
    requires ExtractOwnershipDocument(content).Some?
    ensures var out := ExtractOwnershipDocument(content).value;
      var span := out[|XmlDeclaration|..];
      && StartsWith(out, XmlDeclaration)
      && IsAt(content, span, Find(content, OpenTag))
      && StartsWith(span, OpenTag)
      && EndsWith(span, CloseTag)
      && Find(span, CloseTag) == |span| - |CloseTag|
  {
    var s := Find(content, OpenTag);
    var e := Find(content, CloseTag);
    NoOpenInsideClose(content, e, s);
    var span := content[s..e + |CloseTag|];
    assert ExtractOwnershipDocument(content).value == XmlDeclaration + span;
    PrefixThenRest(XmlDeclaration, span);
    assert IsAt(content, span, s);
    SpanEnds(content, s, e);
    SpanFirstClose(content, s, e);
  }

  lemma PrefixThenRest(d: string, x: string)
    ensures StartsWith(d + x, d) && (d + x)[|d|..] == x
  {
    assert (d + x)[..|d|] == d;
  }

  /** The piece from an open tag to the end of a later close tag starts and ends with those tags. */
  lemma SpanEnds(content: string, s: int, e: int)
    requires IsAt(content, OpenTag, s) && IsAt(content, CloseTag, e) && s + |OpenTag| <= e
    ensures StartsWith(content[s..e + |CloseTag|], OpenTag)
    ensures EndsWith(content[s..e + |CloseTag|], CloseTag)
  {
    var span := content[s..e + |CloseTag|];
    assert span[..|OpenTag|] == content[s..s + |OpenTag|];
    assert span[|span| - |CloseTag|..] == content[e..e + |CloseTag|];
  }

  /** When `e` is the first close tag of `content`, the piece's first close tag is its last one. */
  lemma SpanFirstClose(content: string, s: int, e: int)
    requires 0 <= s && IsAt(content, CloseTag, e) && s + |OpenTag| <= e
    requires forall j :: 0 <= j < e ==> !IsAt(content, CloseTag, j)
    ensures Find(content[s..e + |CloseTag|], CloseTag) == e + |CloseTag| - s - |CloseTag|
  {
    var span := content[s..e + |CloseTag|];
    assert span[e - s..] == content[e..e + |CloseTag|];
    assert IsAt(span, CloseTag, e - s);
    forall j | 0 <= j < e - s
      ensures !IsAt(span, CloseTag, j)
    {
      assert forall m :: j <= m < j + |CloseTag| ==> span[m] == content[s + m];
      assert span[j..j + |CloseTag|] == content[s + j..s + j + |CloseTag|];
      assert !IsAt(content, CloseTag, s + j);
    }
    var f := Find(span, CloseTag);
    assert f >= 0;
  }

  /** The first close tag, lying after the open tag, lies far enough after it to leave the open tag whole. */
  lemma NoOpenInsideClose(content: string, e: int, s: int)
    requires IsAt(content, CloseTag, e) && IsAt(content, OpenTag, s) && s < e
    ensures s + |OpenTag| <= e
  {
    assert content[e] == content[e..e + |CloseTag|][0];
    forall k | s < k < s + |OpenTag|
      ensures content[k] != '<'
    {
      assert content[k] == content[s..s + |OpenTag|][k - s];
    }
  }

  /** A close tag before the first open tag makes extraction fail, even if a later close tag exists. */
  lemma CloseBeforeOpenFails(content: string, j: nat)
    requires IsAt(content, CloseTag, j)
    requires forall i :: 0 <= i <= j ==> !IsAt(content, OpenTag, i)
    ensures ExtractOwnershipDocument(content).None?
  {
  }

  /** A submission without a close tag gives nothing. */
  lemma MissingCloseFails(content: string)
    requires !Contains(content, CloseTag)
    ensures ExtractOwnershipDocument(content).None?
  {
  }

  /** `form4_{ticker}_{timestamp}_raw.txt`, the verbatim copy. */
  function RawFileName(ticker: string, stamp: string): string {
    "form4_" + ticker + "_" + stamp + "_raw.txt"
  }

  /** `form4_{ticker}_{timestamp}.xml`, the extracted document. */
  function XmlFileName(ticker: string, stamp: string): string {
    "form4_" + ticker + "_" + stamp + ".xml"
  }

  datatype HttpResponse = HttpResponse(status: int, body: string)

  /** A file written to the download directory: its name and contents. */
  datatype SavedFile = SavedFile(name: string, content: string)

  /** What `_download_filing` returns and the files it writes, in order. */
  datatype DownloadOutcome = DownloadOutcome(ok: bool, written: seq<SavedFile>)

  /**
   * `_download_filing` for one response, with `stamp` the clock reading
   * `%Y%m%d_%H%M%S`: a 200 response is saved verbatim as the raw file and
   * then, only when a document can be cut out, as the XML file; the result
   * says whether the XML file was written.
   */
  function DownloadFiling(ticker: string, stamp: string, response: HttpResponse): (r: DownloadOutcome)
    ensures r.ok <==> response.status == 200 && ExtractOwnershipDocument(response.body).Some?
    ensures response.status != 200 ==> r.written == []
    ensures response.status == 200 ==>
      && 1 <= |r.written| <= 2
      && r.written[0] == SavedFile(RawFileName(ticker, stamp), response.body)
      && (r.ok <==> |r.written| == 2)
    ensures r.ok ==> r.written[1] == SavedFile(XmlFileName(ticker, stamp), ExtractOwnershipDocument(response.body).value)
  {
    if response.status != 200 then DownloadOutcome(false, [])
    else
      var raw := SavedFile(RawFileName(ticker, stamp), response.body);
      match ExtractOwnershipDocument(response.body)
      case Some(xml) => DownloadOutcome(true, [raw, SavedFile(XmlFileName(ticker, stamp), xml)])
      case None => DownloadOutcome(false, [raw])
  }

  /** A saved XML file passes the `'<ownershipDocument>' in content` check of both readers. */
  lemma SavedXmlHasOpenTag(content: string)
    requires ExtractOwnershipDocument(content).Some?
    ensures Contains(ExtractOwnershipDocument(content).value, OpenTag)
  {
    ExtractedSpan(content);
    var out := ExtractOwnershipDocument(content).value;
    var k := |XmlDeclaration|;
    assert out[k..][..|OpenTag|] == OpenTag;
    assert out[k..k + |OpenTag|] == OpenTag;
    assert IsAt(out, OpenTag, k);
  }

  // ---------------------------------------------------------------------
  // Reading a saved document (`parse_form4_xml`)
  // ---------------------------------------------------------------------

  /** One row of the table `parse_form4_xml` returns. */
  datatype EntryRecord = EntryRecord(
    securityTitle: string,
    transactionDate: string,
    transactionCode: string,
    shares: real,
    pricePerShare: real)

  /** A text field: "Unknown" when missing, the stripped text otherwise; `None` where `.text.strip()` raises. */
  function TextOrUnknown(f: Field): Option<string> {
    match f
    case Absent => Some("Unknown")
    case NoText => None
    case Text(s) => Some(Strip(s))
  }

  /** A numeric field: 0.0 when missing, `float(text.strip())` otherwise; `None` where that raises. */
  function NumberOrZero(f: Field): Option<real> {
    match f
    case Absent => Some(0.0)
    case NoText => None
    case Text(s) => ParseFloat(Strip(s))
  }

  /** The record for one entry, or `None` when any of its conversions raises. */
  function ConvertEntry(e: TxEntry): Option<EntryRecord> {
    var title := TextOrUnknown(e.securityTitle);
    var date := TextOrUnknown(e.transactionDate);
    var code := TextOrUnknown(e.transactionCode);
    var shares := NumberOrZero(e.shares);
    var price := NumberOrZero(e.pricePerShare);
    if title.Some? && date.Some? && code.Some? && shares.Some? && price.Some? then
      Some(EntryRecord(title.value, date.value, code.value, shares.value, price.value))
    else None
  }

  /** The records of the entries that convert, in document order; the others are skipped. */
  function EntryRecords(entries: seq<TxEntry>): seq<EntryRecord> {
    if entries == [] then []
    else
      var last := ConvertEntry(entries[|entries| - 1]);
      EntryRecords(entries[..|entries| - 1]) + (if last.Some? then [last.value] else [])
  }

  /** Reading distributes over concatenation of entry lists. */
  lemma {:induction false} EntryRecordsAppend(a: seq<TxEntry>, b: seq<TxEntry>)
    ensures EntryRecords(a + b) == EntryRecords(a) + EntryRecords(b)
    decreases |b|
  {
    if b == [] {
      assert a + b == a;
    } else {
      var b' := b[..|b| - 1];
      assert (a + b)[..|a + b| - 1] == a + b';
      assert (a + b)[|a + b| - 1] == b[|b| - 1];
      EntryRecordsAppend(a, b');
    }
  }

  /** An entry whose conversion raises is skipped and does not stop the entries after it. */
  lemma SkipFailingEntry(a: seq<TxEntry>, bad: TxEntry, b: seq<TxEntry>)
    requires ConvertEntry(bad).None?
    ensures EntryRecords(a + [bad] + b) == EntryRecords(a) + EntryRecords(b)
  {
    EntryRecordsAppend(a + [bad], b);
    EntryRecordsAppend(a, [bad]);
    assert [bad][..0] == [];
    assert EntryRecords([bad]) == EntryRecords([]) + [];
    assert EntryRecords(a + [bad]) == EntryRecords(a);
  }

  /** The k-th record comes from an entry that converts, and there are no more records than entries. */
  lemma {:induction false} EntryRecordsFromEntries(entries: seq<TxEntry>)
    ensures |EntryRecords(entries)| <= |entries|
    ensures forall x :: x in EntryRecords(entries) ==>
      exists i :: 0 <= i < |entries| && ConvertEntry(entries[i]) == Some(x)
  {
    if entries != [] {
      var p := entries[..|entries| - 1];
      EntryRecordsFromEntries(p);
      forall x | x in EntryRecords(entries)
        ensures exists i :: 0 <= i < |entries| && ConvertEntry(entries[i]) == Some(x)
      {
        if x in EntryRecords(p) {
          var i :| 0 <= i < |p| && ConvertEntry(p[i]) == Some(x);
          assert entries[i] == p[i];
        } else {
          assert ConvertEntry(entries[|entries| - 1]) == Some(x);
        }
      }
    }
  }

  /** A text field's value: "Unknown" for a missing element, the stripped text of a present one. */
  predicate TextDefaulted(f: Field, v: string) {
    (f.Absent? ==> v == "Unknown") && (f.Text? ==> v == Strip(f.text))
  }

  /** A numeric field's value: 0.0 for a missing element, the number the stripped text reads as otherwise. */
  predicate NumberDefaulted(f: Field, v: real) {
    (f.Absent? ==> v == 0.0) && (f.Text? ==> ParseFloat(Strip(f.text)) == Some(v))
  }

  /** `float(text.strip())` raises for this field: it has no text, or its text is not a number. */
  predicate NumberFails(f: Field) {
    f.NoText? || (f.Text? && ParseFloat(Strip(f.text)).None?)
  }

  /**
   * An entry fails exactly when one of its elements has no text (so
   * `.text.strip()` raises) or a present number does not read; otherwise
   * each missing element takes its default and each present one its
   * stripped text or number.
   */
  lemma ConvertEntryFacts(e: TxEntry)
    ensures ConvertEntry(e).None? <==>
      e.securityTitle.NoText? || e.transactionDate.NoText? || e.transactionCode.NoText?
      || NumberFails(e.shares) || NumberFails(e.pricePerShare)
    ensures ConvertEntry(e).Some? ==>
      var x := ConvertEntry(e).value;
      && TextDefaulted(e.securityTitle, x.securityTitle)
      && TextDefaulted(e.transactionDate, x.transactionDate)
      && TextDefaulted(e.transactionCode, x.transactionCode)
      && NumberDefaulted(e.shares, x.shares)
      && NumberDefaulted(e.pricePerShare, x.pricePerShare)
  {
  }

  /** An entry with every sub-element missing yields the all-default record. */
  lemma AllMissingDefaults()
    ensures ConvertEntry(TxEntry(Absent, Absent, Absent, Absent, Absent))
         == Some(EntryRecord("Unknown", "Unknown", "Unknown", 0.0, 0.0))
  {
  }

  /**
   * `parse_form4_xml` on a saved file's text and parse chain: `None` when
   * the text lacks the open tag, when the chain yields no document, or
   * when no entry converts; otherwise the records of the entries that do.
   */
  method ParseForm4Xml(content: string, attempt: ParseAttempt) returns (r: Option<seq<EntryRecord>>)
    ensures !Contains(content, OpenTag) ==> r.None?
    ensures Contains(content, OpenTag) && ResolveRoot(attempt).None? ==> r.None?
    ensures Contains(content, OpenTag) && ResolveRoot(attempt).Some? ==>
      var recs := EntryRecords(ResolveRoot(attempt).value.entries);
      r == if recs == [] then None else Some(recs)
  {
    if Find(content, OpenTag) < 0 {
      return None;
    }
    var root := ResolveRoot(attempt);
    if root.None? {
      return None;
    }
    var entries := root.value.entries;
    var transactions: seq<EntryRecord> := [];
    var i := 0;
    while i < |entries|
      invariant 0 <= i <= |entries|
      invariant transactions == EntryRecords(entries[..i])
    {
      assert entries[..i + 1][..i] == entries[..i];
      var rec := ConvertEntry(entries[i]);
      if rec.None? {
        i := i + 1;
        continue;
      }
      transactions := transactions + [rec.value];
      i := i + 1;
    }
    assert entries[..i] == entries;
    if transactions == [] {
      return None;
    }
    return Some(transactions);
  }
}
