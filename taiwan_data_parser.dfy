/**
 * taiwan_market/data_parser.py `clean_institutional_data`: a TWSE T86
 * table with Chinese headers gets English column names, and its six
 * share-count columns are turned from text such as "1,234,567" into
 * numbers, unreadable text becoming missing.
 */
module TaiwanDataParser {
  import opened Wrappers
  import opened Text
  import Tables

  /** One cell: a string of the JSON payload, a number once converted, or missing (`None` / `NaN`). */
  datatype Cell = Str(s: string) | Number(value: real) | Missing

  /** A named column; the frame's row count is the length of its columns. */
  datatype Series = Series(name: string, cells: seq<Cell>)

  /** A data frame as its columns, in order; pandas allows two columns to share a name. */
  type Frame = seq<Series>

  /** The header translation of `column_mapping`. */
  const ColumnMapping: map<string, string> := map[
    "證券代號" := "stock_code",
    "證券名稱" := "stock_name",
    "外陸資買進股數" := "foreign_buy",
    "外陸資賣出股數" := "foreign_sell",
    "投信買進股數" := "investment_trust_buy",
    "投信賣出股數" := "investment_trust_sell",
    "自營商買進股數" := "dealer_buy",
    "自營商賣出股數" := "dealer_sell",
    "日期" := "date"
  ]

  /** The columns converted to numbers, in the order they are converted. */
  const NumericColumns: seq<string> := [
    "foreign_buy", "foreign_sell", "investment_trust_buy",
    "investment_trust_sell", "dealer_buy", "dealer_sell"]

  /** No two Chinese headers are given the same English name. */
  lemma MappingInjective()
    ensures forall a, b :: a in ColumnMapping && b in ColumnMapping && a != b ==> ColumnMapping[a] != ColumnMapping[b]
  {
  }

  /** Every converted column is one of the names the translation produces, and none is listed twice. */
  lemma NumericColumnsAreMapped()
    ensures forall c :: c in NumericColumns ==> c in ColumnMapping.Values
    ensures Tables.NoDuplicates(NumericColumns)
  {
    assert ColumnMapping["外陸資買進股數"] == "foreign_buy";
    assert ColumnMapping["外陸資賣出股數"] == "foreign_sell";
    assert ColumnMapping["投信買進股數"] == "investment_trust_buy";
    assert ColumnMapping["投信賣出股數"] == "investment_trust_sell";
    assert ColumnMapping["自營商買進股數"] == "dealer_buy";
    assert ColumnMapping["自營商賣出股數"] == "dealer_sell";
  }

  // ---------------------------------------------------------------------
  // Renaming
  // ---------------------------------------------------------------------

  function RenamedHeader(h: string): string {
    if h in ColumnMapping then ColumnMapping[h] else h
  }

  /** `df.rename(columns=column_mapping)`. */
  function Rename(frame: Frame): Frame {
    seq(|frame|, i requires 0 <= i < |frame| => Series(RenamedHeader(frame[i].name), frame[i].cells))
  }

  /**
   * Renaming keeps every column and its cells in place; a header of the
   * mapping takes its English name and any other header is left as it is.
   */
  lemma RenameFacts(frame: Frame)
    ensures |Rename(frame)| == |frame|
    ensures forall i :: 0 <= i < |frame| ==>
      && Rename(frame)[i].cells == frame[i].cells
      && (frame[i].name in ColumnMapping ==> Rename(frame)[i].name == ColumnMapping[frame[i].name])
      && (frame[i].name !in ColumnMapping ==> Rename(frame)[i].name == frame[i].name)
  {
  }

  // ---------------------------------------------------------------------
  // Converting one column
  // ---------------------------------------------------------------------

  function SeriesName(s: Series): string {
    s.name
  }

  function Names(frame: Frame): seq<string> {
    Tables.Column(frame, SeriesName)
  }

  /**
   * Whether the `.str` accessor works on the column: it holds a string, or
   * only missing values (an object column); a column of numbers has a
   * numeric dtype, on which `.str` raises.
   */
  predicate StrAccessible(cells: seq<Cell>) {
    (exists i :: 0 <= i < |cells| && cells[i].Str?) || (forall i :: 0 <= i < |cells| ==> cells[i].Missing?)
  }

  /**
   * `str.replace(',', '')` followed by `pd.to_numeric(..., errors='coerce')`
   * for one cell: a string without its commas read as a number, or missing
   * when it does not read; a cell that is not a string becomes missing.
   */
  function ConvertCell(c: Cell): Cell {
    match c
    case Str(s) => (
      match ParseFloat(RemoveChar(s, ','))
      case Some(v) => Number(v)
      case None => Missing)
    case _ => Missing
  }

  /** Whether `df[col].str` works: exactly one column has the name, and `.str` applies to it. */
  predicate Convertible(frame: Frame, col: string) {
    multiset(Names(frame))[col] == 1 && StrAccessible(frame[Tables.FirstPos(Names(frame), col)].cells)
  }

  /**
   * `df[col] = pd.to_numeric(df[col].str.replace(',', ''), errors='coerce')`;
   * `None` when `df[col]` raises (no such column), selects several
   * columns, or has no `.str`.
   */
  function ConvertNamed(frame: Frame, col: string): Option<Frame> {
    if !Convertible(frame, col) then None
    else
      var k := Tables.FirstPos(Names(frame), col);
      Some(frame[k := Series(col, Tables.Column(frame[k].cells, ConvertCell))])
  }

  /** The conversions of the named columns, one after the other; the first that raises ends it. */
  function ConvertNumeric(frame: Frame, cols: seq<string>): Option<Frame> {
    if cols == [] then Some(frame)
    else match ConvertNumeric(frame, cols[..|cols| - 1])
      case None => None
      case Some(f) => ConvertNamed(f, cols[|cols| - 1])
  }

  /** `clean_institutional_data`: the renamed frame with its six numeric columns converted, or `None`. */
  function CleanedFrame(frame: Frame): Option<Frame> {
    ConvertNumeric(Rename(frame), NumericColumns)
  }

  /** `clean_institutional_data`, overwriting the numeric columns one by one. */
  method CleanInstitutionalData(frame: Frame) returns (r: Option<Frame>)
    ensures r == CleanedFrame(frame)
  {
    var df := Rename(frame);
    r := ConvertColumns(df, NumericColumns);
  }

  /** The `for col in numeric_columns` loop, overwriting one column per pass. */
  method ConvertColumns(frame: Frame, cols: seq<string>) returns (r: Option<Frame>)
    ensures r == ConvertNumeric(frame, cols)
  {
    var df := frame;
    var i := 0;
    while i < |cols|
      invariant 0 <= i <= |cols|
      invariant ConvertNumeric(frame, cols[..i]) == Some(df)
    {
      var col := cols[i];
      assert cols[..i + 1][..i] == cols[..i];
      var names := Names(df);
      if multiset(names)[col] != 1 || !StrAccessible(df[Tables.FirstPos(names, col)].cells) {
        ConvertNumericStops(frame, cols, i + 1);
        return None;
      }
      var k := Tables.FirstPos(names, col);
      df := df[k := Series(col, Tables.Column(df[k].cells, ConvertCell))];
      i := i + 1;
    }
    assert cols[..i] == cols;
    return Some(df);
  }

  /** Once a conversion raises, the remaining columns are not reached and the result is `None`. */
  lemma {:induction false} ConvertNumericStops(frame: Frame, cols: seq<string>, n: nat)
    requires n <= |cols| && ConvertNumeric(frame, cols[..n]).None?
    ensures ConvertNumeric(frame, cols).None?
    decreases |cols| - n
  {
    if n < |cols| {
      assert cols[..n + 1][..n] == cols[..n];
      ConvertNumericStops(frame, cols, n + 1);
    } else {
      assert cols[..n] == cols;
    }
  }

  // ---------------------------------------------------------------------
  // What one conversion changes
  // ---------------------------------------------------------------------

  /**
   * A conversion keeps the column names and every column's length, turns
   * the one column named `col` cell by cell and leaves the others alone.
   */
  lemma ConvertNamedFacts(frame: Frame, col: string)
    requires ConvertNamed(frame, col).Some?
    ensures var f := ConvertNamed(frame, col).value;
      && |f| == |frame| && Names(f) == Names(frame)
      && forall i :: 0 <= i < |frame| ==>
           && |f[i].cells| == |frame[i].cells|
           && (frame[i].name != col ==> f[i] == frame[i])
           && (frame[i].name == col ==> f[i].cells == Tables.Column(frame[i].cells, ConvertCell))
  {
    var names := Names(frame);
    var k := Tables.FirstPos(names, col);
    var f := ConvertNamed(frame, col).value;
    forall i | 0 <= i < |frame| && i != k
      ensures frame[i].name != col
    {
      if frame[i].name == col {
        OnlyOne(names, k, i);
      }
    }
    assert Names(f) == names;
  }

  /** A value counted once in a sequence sits at one position only. */
  lemma OnlyOne(xs: seq<string>, k: nat, i: nat)
    requires k < |xs| && i < |xs| && k != i && multiset(xs)[xs[k]] == 1
    ensures xs[i] != xs[k]
  {
    var lo, hi := if k < i then k else i, if k < i then i else k;
    assert xs == xs[..lo] + [xs[lo]] + xs[lo + 1..hi] + [xs[hi]] + xs[hi + 1..];
    assert multiset(xs)[xs[k]] >= multiset{xs[lo]}[xs[k]] + multiset{xs[hi]}[xs[k]];
  }

  /** A conversion leaves the convertibility of every other name as it was. */
  lemma ConvertiblePreserved(frame: Frame, col: string, d: string)
    requires ConvertNamed(frame, col).Some? && d != col
    ensures Convertible(ConvertNamed(frame, col).value, d) <==> Convertible(frame, d)
  {
    ConvertNamedFacts(frame, col);
    var f := ConvertNamed(frame, col).value;
    if multiset(Names(frame))[d] == 1 {
      var j := Tables.FirstPos(Names(frame), d);
      assert Names(frame)[j] == d;
      assert frame[j].name == d;
    }
  }

  /**
   * The invariant of the conversions: names and lengths are kept, the
   * columns named in `cols` are converted and all others are unchanged.
   */
  predicate Converted(frame: Frame, cols: seq<string>, f: Frame) {
    && |f| == |frame| && Names(f) == Names(frame)
    && forall i :: 0 <= i < |frame| ==>
         && f[i].name == frame[i].name
         && |f[i].cells| == |frame[i].cells|
         && (frame[i].name !in cols ==> f[i].cells == frame[i].cells)
         && (frame[i].name in cols ==> f[i].cells == Tables.Column(frame[i].cells, ConvertCell))
  }

  /**
   * The conversions of distinct names succeed exactly when each name
   * picks a unique column that `.str` applies to, and then convert exactly
   * those columns.
   */
  lemma {:induction false} ConvertNumericFacts(frame: Frame, cols: seq<string>)
    requires Tables.NoDuplicates(cols)
    ensures ConvertNumeric(frame, cols).Some? <==> forall c :: c in cols ==> Convertible(frame, c)
    ensures ConvertNumeric(frame, cols).Some? ==> Converted(frame, cols, ConvertNumeric(frame, cols).value)
    ensures ConvertNumeric(frame, cols).Some? ==>
      forall d :: d !in cols ==> (Convertible(ConvertNumeric(frame, cols).value, d) <==> Convertible(frame, d))
  {
    if cols != [] {
      var init := cols[..|cols| - 1];
      var c := cols[|cols| - 1];
      assert Tables.NoDuplicates(init);
      assert c !in init;
      assert forall x :: x in cols <==> x in init || x == c;
      ConvertNumericFacts(frame, init);
      if ConvertNumeric(frame, init).Some? {
        var g := ConvertNumeric(frame, init).value;
        if ConvertNamed(g, c).Some? {
          var f := ConvertNamed(g, c).value;
          ConvertNamedFacts(g, c);
          forall d | d !in cols
            ensures Convertible(f, d) <==> Convertible(frame, d)
          {
            ConvertiblePreserved(g, c, d);
          }
          ConvertedStep(frame, init, c, g, f);
        }
      }
    }
  }

  lemma ConvertedStep(frame: Frame, init: seq<string>, c: string, g: Frame, f: Frame)
    requires Converted(frame, init, g) && c !in init
    requires ConvertNamed(g, c) == Some(f)
    ensures Converted(frame, init + [c], f)
  {
    ConvertNamedFacts(g, c);
    forall i | 0 <= i < |frame|
      ensures frame[i].name in init + [c] <==> frame[i].name in init || frame[i].name == c
    {
    }
  }

  // ---------------------------------------------------------------------
  // The whole function
  // ---------------------------------------------------------------------

  /**
   * `clean_institutional_data` succeeds exactly when each numeric column,
   * after renaming, is present once and holds text; then it keeps every
   * column in place with its translated name and its row count, converts
   * the six numeric columns cell by cell and leaves every other column's
   * cells unchanged.
   */
  lemma CleanedFrameFacts(frame: Frame)
    ensures CleanedFrame(frame).Some? <==> forall c :: c in NumericColumns ==> Convertible(Rename(frame), c)
    ensures CleanedFrame(frame).Some? ==>
      var r := CleanedFrame(frame).value;
      && |r| == |frame|
      && forall i :: 0 <= i < |frame| ==>
           && r[i].name == RenamedHeader(frame[i].name)
           && |r[i].cells| == |frame[i].cells|
           && (r[i].name !in NumericColumns ==> r[i].cells == frame[i].cells)
           && (r[i].name in NumericColumns ==> r[i].cells == Tables.Column(frame[i].cells, ConvertCell))
  {
    NumericColumnsAreMapped();
    ConvertNumericFacts(Rename(frame), NumericColumns);
    RenameFacts(frame);
  }

  /** A numeric column missing after renaming makes the function return `None`. */
  lemma MissingNumericColumnFails(frame: Frame, c: string)
    requires c in NumericColumns && c !in Names(Rename(frame))
    ensures CleanedFrame(frame).None?
  {
    CleanedFrameFacts(frame);
    assert !Convertible(Rename(frame), c);
  }

  // ---------------------------------------------------------------------
  // Single cells
  // ---------------------------------------------------------------------

  /** Digits with commas anywhere read as the integer their digits spell. */
  lemma CommaDigits(s: string)
    requires forall i :: 0 <= i < |s| ==> IsDigit(s[i]) || s[i] == ','
    requires exists i :: 0 <= i < |s| && IsDigit(s[i])
    ensures AllDigits(RemoveChar(s, ','))
    ensures ConvertCell(Str(s)) == Number(DigitsValue(RemoveChar(s, ',')) as real)
  {
    CommasRemoved(s);
    var t := RemoveChar(s, ',');
    StripNoSpace(t);
    ParseDigits(t);
  }

  /** Removing the commas of digits and commas leaves a non-empty digit string when there was a digit. */
  lemma CommasRemoved(s: string)
    requires forall i :: 0 <= i < |s| ==> IsDigit(s[i]) || s[i] == ','
    requires exists i :: 0 <= i < |s| && IsDigit(s[i])
    ensures AllDigits(RemoveChar(s, ',')) && |RemoveChar(s, ',')| >= 1
  {
    var t := RemoveChar(s, ',');
    RemoveCharFacts(s, ',');
    forall j | 0 <= j < |t|
      ensures IsDigit(t[j])
    {
      assert t[j] in multiset(t);
      assert t[j] in multiset(s);
      var i :| 0 <= i < |s| && s[i] == t[j];
    }
    var i :| 0 <= i < |s| && IsDigit(s[i]);
    assert s[i] in multiset(t);
  }

  /** The TWSE rendering "1,234,567" becomes 1234567. */
  lemma ThousandsSeparators()
    ensures ConvertCell(Str("1,234,567")) == Number(1234567 as real)
  {
    var s := "1,234,567";
    assert IsDigit(s[0]);
    CommaDigits(s);
    SeparatorsRemoved();
    DigitsOfExample();
  }

  lemma SeparatorsRemoved()
    ensures RemoveChar("1,234,567", ',') == "1234567"
  {
    assert "1,234,567" == "1" + "," + "234" + "," + "567";
    CommasBetween("1", "234", "567");
    assert "1" + "234" + "567" == "1234567";
  }

  /** Removing the two separators of three comma-free groups joins the groups. */
  lemma CommasBetween(a: string, b: string, c: string)
    requires ',' !in a && ',' !in b && ',' !in c
    ensures RemoveChar(a + "," + b + "," + c, ',') == a + b + c
  {
    RemoveAbsentChar(a, ',');
    RemoveAbsentChar(b, ',');
    RemoveAbsentChar(c, ',');
    var sep := ",";
    assert RemoveChar(sep, ',') == [];
    var p1 := a + sep;
    RemoveCharAppend(a, sep, ',');
    assert RemoveChar(p1, ',') == a;
    var p2 := p1 + b;
    RemoveCharAppend(p1, b, ',');
    assert RemoveChar(p2, ',') == a + b;
    var p3 := p2 + sep;
    RemoveCharAppend(p2, sep, ',');
    assert RemoveChar(p3, ',') == a + b;
    RemoveCharAppend(p3, c, ',');
  }

  lemma DigitsOfExample()
    ensures AllDigits("1234567") && DigitsValue("1234567") == 1234567
  {
    DigitsValueSnoc("", '1');
    assert "" + ['1'] == "1";
    DigitsValueSnoc("1", '2');
    assert "1" + ['2'] == "12";
    DigitsValueSnoc("12", '3');
    assert "12" + ['3'] == "123";
    DigitsValueSnoc("123", '4');
    assert "123" + ['4'] == "1234";
    DigitsValueSnoc("1234", '5');
    assert "1234" + ['5'] == "12345";
    DigitsValueSnoc("12345", '6');
    assert "12345" + ['6'] == "123456";
    DigitsValueSnoc("123456", '7');
    assert "123456" + ['7'] == "1234567";
  }

  /**
   * A letter no text that Python's `float` or `pd.to_numeric` accepts can
   * hold: every letter but those of an exponent ("e") and of "inf",
   * "infinity" and "nan", in either case.
   */
  predicate NonNumericLetter(c: char) {
    ('a' <= c <= 'z' || 'A' <= c <= 'Z') && c !in "aefintyAEFINTY"
  }

  /** Text holding such a letter (as in "--x" or "12k") becomes missing instead of raising. */
  lemma LetterBecomesMissing(s: string, i: nat)
    requires i < |s| && NonNumericLetter(s[i])
    ensures ConvertCell(Str(s)) == Missing
  {
    var t := RemoveChar(s, ',');
    RemoveCharFacts(s, ',');
    assert s[i] in multiset(s);
    assert s[i] in multiset(t);
    var j :| 0 <= j < |t| && t[j] == s[i];
    NoLetterFloat(t, j);
  }

  /** No string holding such a letter reads as a number. */
  lemma NoLetterFloat(t: string, j: nat)
    requires j < |t| && NonNumericLetter(t[j])
    ensures ParseFloat(t) == None
  {
    var r := Strip(t);
    var lead := LeadingSpaces(t);
    assert !IsSpace(t[j]);
    assert lead <= j < lead + |r|;
    assert r[j - lead] == t[j];
    NoLetterNumbers(r, j - lead);
  }
}
