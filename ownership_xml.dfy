/**
 * What the pipeline sees of a Form 4 `<ownershipDocument>` once an XML
 * library has parsed it, and the strict-then-tolerant parse chain both
 * readers run (us_market/form4_collector.py `parse_form4_xml`,
 * us_market/sec_parser.py `_parse_single_file`).
 */
module OwnershipXml {
  import opened Wrappers

  /**
   * The result of one ElementTree `find`: no such element, an element
   * whose `.text` is `None`, or an element with text.
   */
  datatype Field = Absent | NoText | Text(text: string)

  /** One `nonDerivativeTransaction` entry, by the sub-elements the readers look up. */
  datatype TxEntry = TxEntry(
    securityTitle: Field,      // .//securityTitle/value
    transactionDate: Field,    // .//transactionDate/value
    transactionCode: Field,    // .//transactionCode
    shares: Field,             // .//transactionShares/value
    pricePerShare: Field)      // .//transactionPricePerShare/value

  /** `.//reportingOwner/reportingOwnerId`, when present, with its two children. */
  datatype Reporter = NoReporter | ReporterId(rptOwnerName: Field, rptOwnerCik: Field)

  /** A parsed document: `.//documentType`, the reporter and the entries in document order. */
  datatype OwnershipDoc = OwnershipDoc(documentType: Field, reporter: Reporter, entries: seq<TxEntry>)

  /**
   * How each step of the parse chain turns out for one file:
   * `ET.parse` of the file (`strict`), whether BeautifulSoup finds an
   * `ownershipDocument` element in the text (`tolerantFindsRoot`), and
   * `ET.fromstring` of BeautifulSoup's re-serialisation (`reparsed`).
   * `None` stands for a parse that raises.
   */
  datatype ParseAttempt = ParseAttempt(
    strict: Option<OwnershipDoc>,
    tolerantFindsRoot: bool,
    reparsed: Option<OwnershipDoc>)

  /** States of the repair chain. */
  datatype ParseState = Unparsed | StrictFailed | Repaired | Parsed(doc: OwnershipDoc) | Failed

  /** One transition of the repair chain. */
  function ParseStep(a: ParseAttempt, s: ParseState): (t: ParseState)
    ensures s.Parsed? || s.Failed? ==> t == s
  {
    match s
    case Unparsed => if a.strict.Some? then Parsed(a.strict.value) else StrictFailed
    case StrictFailed => if a.tolerantFindsRoot then Repaired else Failed
    case Repaired => if a.reparsed.Some? then Parsed(a.reparsed.value) else Failed
    case Parsed(_) => s
    case Failed => s
  }

  /**
   * The document the chain ends with: the strict parse when it succeeds;
   * otherwise the re-parse of the tolerant repair, provided the tolerant
   * parser found the root element; otherwise nothing.
   */
  function ResolveRoot(a: ParseAttempt): (r: Option<OwnershipDoc>)
    ensures a.strict.Some? ==> r == a.strict
    ensures a.strict.None? && !a.tolerantFindsRoot ==> r.None?
    ensures a.strict.None? && a.tolerantFindsRoot ==> r == a.reparsed
  {
    match ParseStep(a, ParseStep(a, ParseStep(a, Unparsed)))
    case Parsed(doc) => Some(doc)
    case _ => None
  }

  /** Three steps always reach a final state, and a fourth changes nothing. */
  lemma ChainTerminates(a: ParseAttempt)
    ensures var s := ParseStep(a, ParseStep(a, ParseStep(a, Unparsed)));
      (s.Parsed? || s.Failed?) && ParseStep(a, s) == s
  {
  }
}
