/**
 * market_stats.py: the texts of the investor and short-selling chunks, and what the parser of
 * flow_filter.py recovers from them.
 */
module MarketStats {
  import opened FlowFilter
  import opened FlowText
  import opened Numerals
  import opened Options

  /** One row of the net-buying column; None stands for a value that `int` refuses. */
  datatype Row = Row(investor: string, amount: Option<int>)

  // ---------- the printers ----------

  function InvestorHeader(ticker: string, day: string): string {
    "[투자자별 매매] " + ticker + " — " + day
  }

  function InvestorLine(name: string, amount: int): string {
    name + NET_BUYING + " " + FormatSigned(amount) + "원"
  }

  function LineOf(row: Row): seq<string> {
    match row.amount
    case None => []
    case Some(n) => [InvestorLine(row.investor, n)]
  }

  function InvestorLines(rows: seq<Row>): seq<string> {
    if rows == [] then [] else LineOf(rows[0]) + InvestorLines(rows[1..])
  }

  /** `column` is None when the frame has no net-buying column. */
  function InvestorText(ticker: string, day: string, column: Option<seq<Row>>): string {
    Join([InvestorHeader(ticker, day)] + if column.Some? then InvestorLines(column.value) else [])
  }

  lemma OneMoreLine(lines: seq<string>, rows: seq<Row>, i: nat)
    requires i < |rows|
    ensures InvestorLines(rows[i..]) == LineOf(rows[i]) + InvestorLines(rows[i + 1..])
    ensures rows[i].amount.None? ==> lines + InvestorLines(rows[i..]) == lines + InvestorLines(rows[i + 1..])
    ensures rows[i].amount.Some? ==>
              lines + InvestorLines(rows[i..])
              == lines + [InvestorLine(rows[i].investor, rows[i].amount.value)] + InvestorLines(rows[i + 1..])
  {
    assert rows[i..][1..] == rows[i + 1..];
  }

  method AppendLines(header: string, rows: seq<Row>) returns (lines: seq<string>)
    ensures lines == [header] + InvestorLines(rows)
  {
    lines := [header];
    for i := 0 to |rows|
      invariant lines + InvestorLines(rows[i..]) == [header] + InvestorLines(rows)
    {
      OneMoreLine(lines, rows, i);
      if rows[i].amount.Some? {
        lines := lines + [InvestorLine(rows[i].investor, rows[i].amount.value)];
      }
    }
  }

  method BuildInvestorChunkText(ticker: string, day: string, column: Option<seq<Row>>) returns (text: string)
    ensures text == InvestorText(ticker, day, column)
  {
    var lines := [InvestorHeader(ticker, day)];
    if column.Some? {
      lines := AppendLines(InvestorHeader(ticker, day), column.value);
    }
    text := Join(lines);
  }

  /** `row.get(a) or row.get(b) or 0` */
  function Either(row: map<string, int>, a: string, b: string): int {
    if a in row && row[a] != 0 then row[a]
    else if b in row then row[b]
    else 0
  }

  function BalanceQuantity(row: map<string, int>): int { Either(row, "잔고수량", "잔고") }

  function BalanceValue(row: map<string, int>): int { Either(row, "잔고금액", "잔고금액") }

  function ShortQuantity(row: map<string, int>): int { Either(row, "거래량", "공매도") }

  function ShortValue(row: map<string, int>): int { Either(row, "거래대금", "공매도금액") }

  /** The figure of the first column, of the second when the first is missing or 0, else 0. */
  ghost predicate FirstFigure(row: map<string, int>, first: string, second: string, figure: int) {
    && (first in row && row[first] != 0 ==> figure == row[first])
    && ((first !in row || row[first] == 0) && second in row ==> figure == row[second])
    && (first !in row && second !in row ==> figure == 0)
  }

  lemma ShortColumns(row: map<string, int>)
    ensures FirstFigure(row, "잔고수량", "잔고", BalanceQuantity(row))
    ensures FirstFigure(row, "잔고금액", "잔고금액", BalanceValue(row))
    ensures FirstFigure(row, "거래량", "공매도", ShortQuantity(row))
    ensures FirstFigure(row, "거래대금", "공매도금액", ShortValue(row))
  {
  }

  function ShortHeader(ticker: string, day: string): string {
    "[공매도 잔고] " + ticker + " — " + day
  }

  function ShortLines(row: map<string, int>): seq<string> {
    [SHORT_BALANCE + " " + Format(BalanceQuantity(row)) + SHARES,
     "잔고 금액:" + " " + Format(BalanceValue(row)) + "원",
     SHORT_VOLUME + " " + Format(ShortQuantity(row)) + (SHARES + " (" + Format(ShortValue(row)) + "원)")]
  }

  function ShortText(ticker: string, day: string, row: map<string, int>): string {
    Join([ShortHeader(ticker, day)] + ShortLines(row))
  }

  // ---------- captions, suffixes and headers ----------

  predicate CaptionForm(caption: string) {
    caption != [] && OneLine(caption) && caption[0] != '['
  }

  predicate SuffixForm(suffix: string) {
    |suffix| <= 1 && ' ' !in suffix
  }

  predicate Headed(lines: seq<string>) {
    |lines| > 0 && OneLine(lines[0]) && lines[0] != [] && lines[0][0] == '['
  }

  lemma HeadersBegin(ticker: string, day: string)
    requires OneLine(ticker) && OneLine(day)
    ensures Headed([InvestorHeader(ticker, day)]) && Headed([ShortHeader(ticker, day)])
  {
  }

  // ---------- reading below a header ----------

  lemma BelowHeader(caption: string, suffix: string, header: string, lines: seq<string>)
    requires Headed([header]) && CaptionForm(caption) && AllSingle(lines) && NoneReads(caption, suffix, lines)
    ensures AllSingle([header] + lines) && NoneReads(caption, suffix, [header] + lines)
  {
    OtherLine(caption, suffix, header);
  }

  lemma BodyFound(caption: string, suffix: string, header: string, lines: seq<string>, k: nat, group: string)
    requires Headed([header]) && CaptionForm(caption) && k < |lines|
    requires AllSingle(lines[..k]) && NoneReads(caption, suffix, lines[..k])
    requires Reads(caption, suffix, lines[k], Some(group))
    ensures Search(caption, suffix, Join([header] + lines), true) == Some(group)
  {
    BelowHeader(caption, suffix, header, lines[..k]);
    assert ([header] + lines)[..k + 1] == [header] + lines[..k];
    FoundAt(caption, suffix, [header] + lines, k + 1, group);
  }

  lemma BodyLacks(caption: string, suffix: string, header: string, lines: seq<string>)
    requires Headed([header]) && CaptionForm(caption)
    requires AllSingle(lines) && NoneReads(caption, suffix, lines)
    ensures FindInt(caption, suffix, Join([header] + lines)) == Missing
  {
    BelowHeader(caption, suffix, header, lines);
    NothingFound(caption, suffix, [header] + lines);
  }

  lemma FormatIsOneLine(n: int)
    ensures OneLine(Format(n)) && OneLine(FormatSigned(n))
  {
    FormatReadsBack(n);
    NumeralIsOneLine(Format(n));
    NumeralIsOneLine(FormatSigned(n));
  }

  lemma NumeralIsOneLine(s: string)
    requires IsNumeral(s)
    ensures OneLine(s)
  {
    var d := if s[0] == '+' || s[0] == '-' then s[1..] else s;
    forall k | 0 <= k < |s|
      ensures s[k] != '\n'
    {
      assert k >= |s| - |d| ==> s[k] == d[k - (|s| - |d|)] && IsNumeralChar(d[k - (|s| - |d|)]);
    }
  }

  // ---------- one investor line ----------

  /** Where a caption holds a blank followed by the first letter of the net-buying mark. */
  ghost predicate MarkOnlyAt(caption: string, at: int) {
    && caption != [] && caption[|caption| - 1] != ' '
    && forall k {:trigger caption[k]} :: 0 <= k < |caption| - 1 && caption[k] == NET_BUYING[0] && caption[k + 1] == NET_BUYING[1]
         ==> k == at
  }

  lemma CaptionShapes()
    ensures MarkOnlyAt(INSTITUTION + NET_BUYING, |INSTITUTION|)
    ensures MarkOnlyAt(FOREIGN + NET_BUYING, |FOREIGN|)
    ensures MarkOnlyAt(PENSION + NET_BUYING, |PENSION|)
    ensures MarkOnlyAt(INDIVIDUAL + NET_BUYING, |INDIVIDUAL|)
    ensures MarkOnlyAt(SHORT_BALANCE, |SHORT_BALANCE|)
    ensures MarkOnlyAt(SHORT_VOLUME, |SHORT_VOLUME|)
  {
  }

  /** A caption that does not begin the name begins the line only if it is the name's own. */
  lemma CaptionOfLine(caption: string, at: int, name: string, amount: int)
    requires MarkOnlyAt(caption, at) && !(caption <= name)
    ensures caption <= InvestorLine(name, amount) ==> |name| == at && at < |caption| && name == caption[..at]
  {
    var line := InvestorLine(name, amount);
    assert line[..|name|] == name;
    assert |caption| <= |name| ==> line[..|caption|] == name[..|caption|];
    if caption <= line {
      assert caption == line[..|caption|];
      assert caption[|name|] == line[|name|] == NET_BUYING[0];
      assert caption[|name| + 1] == line[|name| + 1] == NET_BUYING[1];
    }
  }

  lemma CaptionOfOwnLine(name: string, amount: int)
    ensures ToInt(FormatSigned(amount)) == Some(amount)
    ensures Reads(name + NET_BUYING, "", InvestorLine(name, amount), Some(FormatSigned(amount)))
  {
    FormatReadsBack(amount);
    LabelledReads(name + NET_BUYING, "", InvestorLine(name, amount), FormatSigned(amount), "원");
  }

  lemma LineIsSingle(name: string, amount: int)
    requires OneLine(name)
    ensures OneLine(InvestorLine(name, amount))
  {
    FormatIsOneLine(amount);
  }

  lemma MarkEnds(name: string, amount: int) returns (more: string)
    ensures InvestorLine(name, amount) == name + more && Ends(more)
  {
    more := NET_BUYING + " " + FormatSigned(amount) + "원";
  }

  /** Unless it is the caption's own, an investor line is read exactly as its name alone would be. */
  lemma LineReadAsName(caption: string, suffix: string, own: string, name: string, amount: int)
    requires CaptionForm(caption) && SuffixForm(suffix) && MarkOnlyAt(caption, |own|) && own <= caption
    requires OneLine(name) && (name != own || own == caption)
    ensures Reads(caption, suffix, InvestorLine(name, amount), MatchHere(caption, suffix, name))
  {
    if caption <= name {
      var more := MarkEnds(name, amount);
      NameReadsAlone(caption, suffix, name, more);
    } else {
      assert caption[..|own|] == own;
      CaptionOfLine(caption, |own|, name, amount);
      LineIsSingle(name, amount);
      OtherLine(caption, suffix, InvestorLine(name, amount));
    }
  }

  // ---------- investor texts ----------

  /** No pattern of the parser matches at the start of the name. */
  predicate PlainName(name: string) {
    && MatchHere(INSTITUTION + NET_BUYING, "", name) == None && MatchHere(FOREIGN + NET_BUYING, "", name) == None
    && MatchHere(PENSION + NET_BUYING, "", name) == None && MatchHere(INDIVIDUAL + NET_BUYING, "", name) == None
    && MatchHere(SHORT_BALANCE, SHARES, name) == None && MatchHere(SHORT_VOLUME, SHARES, name) == None
  }

  predicate PlainNames(rows: seq<Row>) {
    forall i :: 0 <= i < |rows| ==> PlainName(rows[i].investor)
  }

  predicate SingleNames(rows: seq<Row>) {
    forall i :: 0 <= i < |rows| ==> OneLine(rows[i].investor)
  }

  /** The amount of the first row with this name that has one: what the text says about it. */
  function Column(rows: seq<Row>, name: string): Option<int> {
    if rows == [] then None
    else if rows[0].investor == name && rows[0].amount.Some? then rows[0].amount
    else Column(rows[1..], name)
  }

  function AsReading(a: Option<int>): Reading {
    match a
    case None => Missing
    case Some(v) => Number(v)
  }

  lemma {:induction false} LinesAreSingle(rows: seq<Row>)
    requires SingleNames(rows)
    ensures AllSingle(InvestorLines(rows))
  {
    if rows != [] {
      LinesAreSingle(rows[1..]);
      assert OneLine(rows[0].investor);
      match rows[0].amount {
        case None =>
        case Some(n) => LineIsSingle(rows[0].investor, n);
      }
    }
  }

  /** The pattern reads no printed line but its own. */
  ghost predicate Tells(caption: string, suffix: string, own: string, rows: seq<Row>) {
    forall i :: 0 <= i < |rows| ==> TellsRow(caption, suffix, own, rows[i])
  }

  ghost predicate TellsRow(caption: string, suffix: string, own: string, row: Row) {
    row.amount.Some? && (row.investor != own || own == caption) ==>
      Reads(caption, suffix, InvestorLine(row.investor, row.amount.value), None)
  }

  predicate NotTaken(caption: string, suffix: string, rows: seq<Row>) {
    forall i :: 0 <= i < |rows| ==> MatchHere(caption, suffix, rows[i].investor) == None
  }

  lemma PatternTells(caption: string, suffix: string, own: string, rows: seq<Row>)
    requires CaptionForm(caption) && SuffixForm(suffix) && MarkOnlyAt(caption, |own|) && own <= caption
    requires SingleNames(rows) && NotTaken(caption, suffix, rows)
    ensures Tells(caption, suffix, own, rows)
  {
    forall i | 0 <= i < |rows|
      ensures TellsRow(caption, suffix, own, rows[i])
    {
      if rows[i].amount.Some? && (rows[i].investor != own || own == caption) {
        LineReadAsName(caption, suffix, own, rows[i].investor, rows[i].amount.value);
      }
    }
  }

  lemma Prepended(caption: string, suffix: string, first: seq<string>, lines: seq<string>, k: nat)
    requires NoneReads(caption, suffix, first) && k <= |lines| && NoneReads(caption, suffix, lines[..k])
    ensures NoneReads(caption, suffix, (first + lines)[..|first| + k])
    ensures k < |lines| ==> (first + lines)[|first| + k] == lines[k]
  {
    assert (first + lines)[..|first| + k] == first + lines[..k];
  }

  lemma OtherRow(caption: string, suffix: string, own: string, row: Row)
    requires TellsRow(caption, suffix, own, row)
    requires row.amount.Some? && row.investor == own ==> own == caption
    ensures NoneReads(caption, suffix, LineOf(row))
  {
  }

  /** `k` is where the selected amount is printed, or past the end when there is none; nothing is read before. */
  ghost predicate Located(caption: string, suffix: string, lines: seq<string>, line: Option<string>, k: int) {
    0 <= k <= |lines| && NoneReads(caption, suffix, lines[..k]) && LineAt(lines, k) == line
  }

  function LineAt(lines: seq<string>, k: int): Option<string> {
    if 0 <= k < |lines| then Some(lines[k]) else None
  }

  /** The line that prints the amount. */
  function LineFor(name: string, amount: Option<int>): Option<string> {
    match amount
    case None => None
    case Some(n) => Some(InvestorLine(name, n))
  }

  lemma LocatedBelow(caption: string, suffix: string, first: seq<string>, lines: seq<string>, line: Option<string>, k: int)
    requires NoneReads(caption, suffix, first) && Located(caption, suffix, lines, line, k)
    ensures Located(caption, suffix, first + lines, line, |first| + k)
  {
    Prepended(caption, suffix, first, lines, k);
  }

  lemma TellsRest(caption: string, suffix: string, own: string, rows: seq<Row>)
    requires Tells(caption, suffix, own, rows) && rows != []
    ensures TellsRow(caption, suffix, own, rows[0]) && Tells(caption, suffix, own, rows[1..])
  {
    forall i | 0 <= i < |rows| - 1
      ensures TellsRow(caption, suffix, own, rows[1..][i])
    {
      assert TellsRow(caption, suffix, own, rows[i + 1]);
    }
  }

  lemma PastRow(rows: seq<Row>, name: string)
    requires rows != [] && !(rows[0].investor == name && rows[0].amount.Some?)
    ensures InvestorLines(rows) == LineOf(rows[0]) + InvestorLines(rows[1..])
    ensures LineFor(name, Column(rows, name)) == LineFor(name, Column(rows[1..], name))
  {
  }

  lemma AtRow(rows: seq<Row>, name: string, caption: string, suffix: string)
    requires rows == [] || (rows[0].investor == name && rows[0].amount.Some?)
    ensures Located(caption, suffix, InvestorLines(rows), LineFor(name, Column(rows, name)), 0)
  {
    assert InvestorLines(rows)[..0] == [];
  }

  /** Where the row that `Column` selects is printed. */
  lemma {:induction false} ColumnLine(rows: seq<Row>, name: string, caption: string, suffix: string) returns (k: nat)
    requires Tells(caption, suffix, name, rows)
    ensures Located(caption, suffix, InvestorLines(rows), LineFor(name, Column(rows, name)), k)
  {
    if rows == [] || (rows[0].investor == name && rows[0].amount.Some?) {
      k := 0;
      AtRow(rows, name, caption, suffix);
    } else {
      var first, tail := LineOf(rows[0]), rows[1..];
      TellsRest(caption, suffix, name, rows);
      var rest := ColumnLine(tail, name, caption, suffix);
      OtherRow(caption, suffix, name, rows[0]);
      LocatedBelow(caption, suffix, first, InvestorLines(tail), LineFor(name, Column(tail, name)), rest);
      PastRow(rows, name);
      k := |first| + rest;
    }
  }

  lemma {:induction false} NoLineReads(rows: seq<Row>, caption: string, suffix: string)
    requires Tells(caption, suffix, caption, rows)
    ensures NoneReads(caption, suffix, InvestorLines(rows))
  {
    if rows != [] {
      NoLineReads(rows[1..], caption, suffix);
      assert TellsRow(caption, suffix, caption, rows[0]);
      OtherRow(caption, suffix, caption, rows[0]);
    }
  }

  lemma AmountFound(header: string, lines: seq<string>, k: nat, name: string, n: int)
    requires Headed([header]) && CaptionForm(name + NET_BUYING)
    requires k < |lines| && AllSingle(lines[..k]) && NoneReads(name + NET_BUYING, "", lines[..k])
    requires lines[k] == InvestorLine(name, n)
    ensures FindInt(name + NET_BUYING, "", Join([header] + lines)) == Number(n)
  {
    CaptionOfOwnLine(name, n);
    BodyFound(name + NET_BUYING, "", header, lines, k, FormatSigned(n));
    FoundNumber(name + NET_BUYING, "", Join([header] + lines), FormatSigned(n), n);
  }

  lemma SinglePart(lines: seq<string>, k: nat)
    requires AllSingle(lines) && k <= |lines|
    ensures AllSingle(lines[..k])
  {
  }

  lemma NameReads(header: string, rows: seq<Row>, name: string)
    requires Headed([header]) && SingleNames(rows) && NotTaken(name + NET_BUYING, "", rows)
    requires CaptionForm(name + NET_BUYING) && MarkOnlyAt(name + NET_BUYING, |name|)
    ensures FindInt(name + NET_BUYING, "", Join([header] + InvestorLines(rows))) == AsReading(Column(rows, name))
  {
    PatternTells(name + NET_BUYING, "", name, rows);
    LinesAreSingle(rows);
    var k := ColumnLine(rows, name, name + NET_BUYING, "");
    var lines := InvestorLines(rows);
    SinglePart(lines, k);
    match Column(rows, name) {
      case None =>
        assert lines[..k] == lines;
        BodyLacks(name + NET_BUYING, "", header, lines);
      case Some(n) => AmountFound(header, lines, k, name, n);
    }
  }

  /** A short-selling pattern reads no investor line. */
  lemma ShortLacks(header: string, rows: seq<Row>, caption: string)
    requires Headed([header]) && SingleNames(rows) && NotTaken(caption, SHARES, rows)
    requires CaptionForm(caption) && MarkOnlyAt(caption, |caption|)
    ensures FindInt(caption, SHARES, Join([header] + InvestorLines(rows))) == Missing
  {
    PatternTells(caption, SHARES, caption, rows);
    LinesAreSingle(rows);
    NoLineReads(rows, caption, SHARES);
    BodyLacks(caption, SHARES, header, InvestorLines(rows));
  }

  lemma NoneTaken(rows: seq<Row>)
    requires PlainNames(rows)
    ensures NotTaken(INSTITUTION + NET_BUYING, "", rows) && NotTaken(FOREIGN + NET_BUYING, "", rows)
    ensures NotTaken(PENSION + NET_BUYING, "", rows) && NotTaken(INDIVIDUAL + NET_BUYING, "", rows)
    ensures NotTaken(SHORT_BALANCE, SHARES, rows) && NotTaken(SHORT_VOLUME, SHARES, rows)
  {
    forall i | 0 <= i < |rows|
      ensures PlainName(rows[i].investor)
    {
    }
  }

  lemma PatternForms()
    ensures CaptionForm(INSTITUTION + NET_BUYING) && CaptionForm(FOREIGN + NET_BUYING)
    ensures CaptionForm(PENSION + NET_BUYING) && CaptionForm(INDIVIDUAL + NET_BUYING)
    ensures CaptionForm(SHORT_BALANCE) && CaptionForm(SHORT_VOLUME)
  {
  }

  function ColumnFeatures(rows: seq<Row>): Features {
    Features(Column(rows, INSTITUTION), Column(rows, FOREIGN), Column(rows, PENSION), Column(rows, INDIVIDUAL), None, None)
  }

  lemma InvestorReadings(header: string, rows: seq<Row>, text: string)
    requires Headed([header]) && SingleNames(rows) && PlainNames(rows) && text == Join([header] + InvestorLines(rows))
    ensures
      && FindInt(INSTITUTION + NET_BUYING, "", text) == AsReading(Column(rows, INSTITUTION))
      && FindInt(FOREIGN + NET_BUYING, "", text) == AsReading(Column(rows, FOREIGN))
      && FindInt(PENSION + NET_BUYING, "", text) == AsReading(Column(rows, PENSION))
      && FindInt(INDIVIDUAL + NET_BUYING, "", text) == AsReading(Column(rows, INDIVIDUAL))
      && FindInt(SHORT_BALANCE, SHARES, text) == Missing
      && FindInt(SHORT_VOLUME, SHARES, text) == Missing
  {
    CaptionShapes();
    PatternForms();
    NoneTaken(rows);
    NameReads(header, rows, INSTITUTION);
    NameReads(header, rows, FOREIGN);
    NameReads(header, rows, PENSION);
    NameReads(header, rows, INDIVIDUAL);
    ShortLacks(header, rows, SHORT_BALANCE);
    ShortLacks(header, rows, SHORT_VOLUME);
  }

  lemma AmountsAreFields(a: Option<int>, b: Option<int>, c: Option<int>, d: Option<int>)
    ensures Fields(AsReading(a), AsReading(b), AsReading(c), AsReading(d), Missing, Missing)
            == Parsed(Features(a, b, c, d, None, None))
  {
  }

  /** Parsing undoes printing: every amount of either sign, every missing name, whatever the other rows. */
  lemma InvestorRoundTrip(ticker: string, day: string, rows: seq<Row>)
    requires OneLine(ticker) && OneLine(day) && SingleNames(rows) && PlainNames(rows)
    ensures ParseFlowText(InvestorText(ticker, day, Some(rows))) == Parsed(ColumnFeatures(rows))
  {
    var text := InvestorText(ticker, day, Some(rows));
    HeadersBegin(ticker, day);
    InvestorReadings(InvestorHeader(ticker, day), rows, text);
    ParsedFrom(text, AsReading(Column(rows, INSTITUTION)), AsReading(Column(rows, FOREIGN)),
               AsReading(Column(rows, PENSION)), AsReading(Column(rows, INDIVIDUAL)), Missing, Missing);
    AmountsAreFields(Column(rows, INSTITUTION), Column(rows, FOREIGN), Column(rows, PENSION), Column(rows, INDIVIDUAL));
  }

  /** Without the column nothing is recovered. */
  lemma NoColumnNoFeatures(ticker: string, day: string)
    requires OneLine(ticker) && OneLine(day)
    ensures ParseFlowText(InvestorText(ticker, day, None)) == Parsed(Features(None, None, None, None, None, None))
  {
    InvestorRoundTrip(ticker, day, []);
    assert [InvestorHeader(ticker, day)] + InvestorLines([]) == [InvestorHeader(ticker, day)];
  }

  /** The printed text scores as the structured amounts do, and as they do in any other unit. */
  lemma TextScoresAsStructured(ticker: string, day: string, rows: seq<Row>, k: int, volume: Option<int>)
    requires OneLine(ticker) && OneLine(day) && SingleNames(rows) && PlainNames(rows) && k > 0
    ensures
      var parsed := ParseFlowText(InvestorText(ticker, day, Some(rows)));
      var inst, frgn := Column(rows, INSTITUTION), Column(rows, FOREIGN);
      var indiv, pens := Column(rows, INDIVIDUAL), Column(rows, PENSION);
      && parsed.Parsed?
      && FlowScore(parsed.features) == FlowScore(FeaturesFromStructured(inst, frgn, indiv, pens, volume))
      && FlowScore(parsed.features)
         == FlowScore(FeaturesFromStructured(Scaled(k, inst), Scaled(k, frgn), Scaled(k, indiv), pens, volume))
  {
    InvestorRoundTrip(ticker, day, rows);
    StructuredScore(k, ColumnFeatures(rows), volume);
  }

  // ---------- which names the round trip needs ----------

  ghost predicate NamedBy(rows: seq<Row>, names: seq<string>) {
    |rows| == |names| && forall i :: 0 <= i < |rows| ==> rows[i].investor == names[i]
  }

  /** Rows with these names round-trip whatever their amounts, missing ones included. */
  ghost predicate AlwaysRoundTrips(ticker: string, day: string, names: seq<string>) {
    forall rows :: NamedBy(rows, names) ==> ParseFlowText(InvestorText(ticker, day, Some(rows))) == Parsed(ColumnFeatures(rows))
  }

  function OnlyRow(names: seq<string>, i: nat): (rows: seq<Row>)
    requires i < |names|
    ensures |rows| == |names|
    ensures forall j :: 0 <= j < |names| ==> rows[j] == Row(names[j], if j == i then Some(0) else None)
  {
    seq(|names|, j requires 0 <= j < |names| => Row(names[j], if j == i then Some(0) else None))
  }

  lemma {:induction false} NoAmountsNoLines(rows: seq<Row>, name: string)
    requires forall j :: 0 <= j < |rows| ==> rows[j].amount == None
    ensures InvestorLines(rows) == [] && Column(rows, name) == None
  {
    if rows != [] {
      NoAmountsNoLines(rows[1..], name);
    }
  }

  lemma {:induction false} OnlyLine(rows: seq<Row>, i: nat, name: string)
    requires i < |rows| && rows[i].amount == Some(0)
    requires forall j :: 0 <= j < |rows| && j != i ==> rows[j].amount == None
    ensures InvestorLines(rows) == [InvestorLine(rows[i].investor, 0)]
    ensures rows[i].investor != name ==> Column(rows, name) == None
    decreases i
  {
    if i == 0 {
      NoAmountsNoLines(rows[1..], name);
    } else {
      OnlyLine(rows[1..], i - 1, name);
    }
  }

  /** A name at whose start a pattern matches is read in place of the amounts. */
  lemma NameTakenForAmount(ticker: string, day: string, caption: string, suffix: string, own: string, name: string, amount: int)
    requires OneLine(ticker) && OneLine(day) && OneLine(name)
    requires CaptionForm(caption) && SuffixForm(suffix) && MarkOnlyAt(caption, |own|) && own <= caption
    requires MatchHere(caption, suffix, name).Some?
    ensures name != own || own == caption
    ensures Search(caption, suffix, Join([InvestorHeader(ticker, day)] + [InvestorLine(name, amount)]), true)
            == MatchHere(caption, suffix, name)
  {
    assert caption <= name && |own| <= |caption|;
    assert name == own ==> own == caption;
    HeadersBegin(ticker, day);
    LineReadAsName(caption, suffix, own, name, amount);
    var lines := [InvestorLine(name, amount)];
    assert lines[..0] == [];
    BodyFound(caption, suffix, InvestorHeader(ticker, day), lines, 0, MatchHere(caption, suffix, name).value);
  }

  /** What an equal result says about the six readings. */
  lemma ReadingsOf(text: string, f: Features)
    requires ParseFlowText(text) == Parsed(f)
    ensures FindInt(INSTITUTION + NET_BUYING, "", text) == AsReading(f.institution)
    ensures FindInt(FOREIGN + NET_BUYING, "", text) == AsReading(f.foreigner)
    ensures FindInt(PENSION + NET_BUYING, "", text) == AsReading(f.pension)
    ensures FindInt(INDIVIDUAL + NET_BUYING, "", text) == AsReading(f.individual)
    ensures FindInt(SHORT_BALANCE, SHARES, text) == AsReading(f.shortBalance)
    ensures FindInt(SHORT_VOLUME, SHARES, text) == AsReading(f.shortVolume)
  {
  }

  lemma SearchedIsNotMissing(caption: string, suffix: string, text: string)
    requires Search(caption, suffix, text, true).Some?
    ensures FindInt(caption, suffix, text) != Missing
  {
  }

  /** One row whose name a pattern of the parser takes. */
  lemma TakenIsRead(ticker: string, day: string, rows: seq<Row>, i: nat, caption: string, suffix: string, own: string)
    requires OneLine(ticker) && OneLine(day) && i < |rows| && rows[i].amount == Some(0) && OneLine(rows[i].investor)
    requires forall j :: 0 <= j < |rows| && j != i ==> rows[j].amount == None
    requires CaptionForm(caption) && SuffixForm(suffix) && MarkOnlyAt(caption, |own|) && own <= caption
    requires MatchHere(caption, suffix, rows[i].investor).Some?
    ensures FindInt(caption, suffix, InvestorText(ticker, day, Some(rows))) != Missing
    ensures own != caption ==> Column(rows, own) == None
  {
    OnlyLine(rows, i, own);
    NameTakenForAmount(ticker, day, caption, suffix, own, rows[i].investor, 0);
    SearchedIsNotMissing(caption, suffix, InvestorText(ticker, day, Some(rows)));
  }

  lemma TakenNameBreaks(ticker: string, day: string, names: seq<string>, i: nat)
    requires OneLine(ticker) && OneLine(day) && i < |names| && OneLine(names[i]) && !PlainName(names[i])
    ensures ParseFlowText(InvestorText(ticker, day, Some(OnlyRow(names, i)))) != Parsed(ColumnFeatures(OnlyRow(names, i)))
  {
    var rows := OnlyRow(names, i);
    var text := InvestorText(ticker, day, Some(rows));
    if ParseFlowText(text) == Parsed(ColumnFeatures(rows)) {
      ReadingsOf(text, ColumnFeatures(rows));
      CaptionShapes();
      PatternForms();
      if MatchHere(INSTITUTION + NET_BUYING, "", names[i]).Some? {
        TakenIsRead(ticker, day, rows, i, INSTITUTION + NET_BUYING, "", INSTITUTION);
      } else if MatchHere(FOREIGN + NET_BUYING, "", names[i]).Some? {
        TakenIsRead(ticker, day, rows, i, FOREIGN + NET_BUYING, "", FOREIGN);
      } else if MatchHere(PENSION + NET_BUYING, "", names[i]).Some? {
        TakenIsRead(ticker, day, rows, i, PENSION + NET_BUYING, "", PENSION);
      } else if MatchHere(INDIVIDUAL + NET_BUYING, "", names[i]).Some? {
        TakenIsRead(ticker, day, rows, i, INDIVIDUAL + NET_BUYING, "", INDIVIDUAL);
      } else if MatchHere(SHORT_BALANCE, SHARES, names[i]).Some? {
        TakenIsRead(ticker, day, rows, i, SHORT_BALANCE, SHARES, SHORT_BALANCE);
      } else {
        TakenIsRead(ticker, day, rows, i, SHORT_VOLUME, SHARES, SHORT_VOLUME);
      }
    }
  }

  /** For names on one line the round trip always works exactly when no pattern matches at the start of a name. */
  lemma RoundTripNeedsPlainNames(ticker: string, day: string, names: seq<string>)
    requires OneLine(ticker) && OneLine(day) && AllSingle(names)
    ensures AlwaysRoundTrips(ticker, day, names) <==> forall i :: 0 <= i < |names| ==> PlainName(names[i])
  {
    if forall i :: 0 <= i < |names| ==> PlainName(names[i]) {
      forall rows | NamedBy(rows, names)
        ensures ParseFlowText(InvestorText(ticker, day, Some(rows))) == Parsed(ColumnFeatures(rows))
      {
        assert SingleNames(rows) && PlainNames(rows);
        InvestorRoundTrip(ticker, day, rows);
      }
    } else {
      var i: nat :| i < |names| && !PlainName(names[i]);
      TakenNameBreaks(ticker, day, names, i);
      assert NamedBy(OnlyRow(names, i), names);
    }
  }

  // ---------- short-selling texts ----------

  lemma SingleParts(a: string, b: string, c: string)
    requires OneLine(a) && OneLine(b) && OneLine(c)
    ensures OneLine(a + b + c)
  {
  }

  lemma ShortLinesSingle(row: map<string, int>)
    ensures AllSingle(ShortLines(row))
  {
    FormatIsOneLine(BalanceQuantity(row));
    FormatIsOneLine(BalanceValue(row));
    FormatIsOneLine(ShortQuantity(row));
    FormatIsOneLine(ShortValue(row));
    SingleParts(SHORT_BALANCE + " ", Format(BalanceQuantity(row)), SHARES);
    SingleParts("잔고 금액:" + " ", Format(BalanceValue(row)), "원");
    SingleParts(SHARES + " (", Format(ShortValue(row)), "원)");
    SingleParts(SHORT_VOLUME + " ", Format(ShortQuantity(row)), SHARES + " (" + Format(ShortValue(row)) + "원)");
  }

  lemma ShortLinesRead(row: map<string, int>)
    ensures Reads(SHORT_BALANCE, SHARES, ShortLines(row)[0], Some(Format(BalanceQuantity(row))))
    ensures Reads(SHORT_VOLUME, SHARES, ShortLines(row)[2], Some(Format(ShortQuantity(row))))
  {
    FormatReadsBack(BalanceQuantity(row));
    FormatReadsBack(ShortQuantity(row));
    LabelledReads(SHORT_BALANCE, SHARES, ShortLines(row)[0], Format(BalanceQuantity(row)), SHARES);
    LabelledReads(SHORT_VOLUME, SHARES, ShortLines(row)[2], Format(ShortQuantity(row)),
                  SHARES + " (" + Format(ShortValue(row)) + "원)");
  }

  lemma ShortLinesBegin(row: map<string, int>)
    ensures ShortLines(row)[0][0] == ShortLines(row)[1][0] == '잔' && ShortLines(row)[2][0] == '당'
  {
  }

  lemma OtherStart(caption: string, suffix: string, line: string)
    requires CaptionForm(caption) && OneLine(line) && line != [] && caption[0] != line[0]
    ensures Reads(caption, suffix, line, None)
  {
    OtherLine(caption, suffix, line);
  }

  lemma BalanceRead(header: string, row: map<string, int>)
    requires Headed([header])
    ensures FindInt(SHORT_BALANCE, SHARES, Join([header] + ShortLines(row))) == Number(BalanceQuantity(row))
  {
    var num := Format(BalanceQuantity(row));
    ShortLinesRead(row);
    PatternForms();
    assert ShortLines(row)[..0] == [];
    BodyFound(SHORT_BALANCE, SHARES, header, ShortLines(row), 0, num);
    FormatReadsBack(BalanceQuantity(row));
    FoundNumber(SHORT_BALANCE, SHARES, Join([header] + ShortLines(row)), num, BalanceQuantity(row));
  }

  lemma VolumeRead(header: string, row: map<string, int>)
    requires Headed([header])
    ensures FindInt(SHORT_VOLUME, SHARES, Join([header] + ShortLines(row))) == Number(ShortQuantity(row))
  {
    var lines, num := ShortLines(row), Format(ShortQuantity(row));
    ShortLinesRead(row);
    ShortLinesSingle(row);
    ShortLinesBegin(row);
    PatternForms();
    OtherStart(SHORT_VOLUME, SHARES, lines[0]);
    OtherStart(SHORT_VOLUME, SHARES, lines[1]);
    assert lines[..2] == [lines[0], lines[1]];
    BodyFound(SHORT_VOLUME, SHARES, header, lines, 2, num);
    FormatReadsBack(ShortQuantity(row));
    FoundNumber(SHORT_VOLUME, SHARES, Join([header] + lines), num, ShortQuantity(row));
  }

  lemma ShortLacksInvestor(header: string, row: map<string, int>, caption: string)
    requires Headed([header]) && CaptionForm(caption) && caption[0] != '잔' && caption[0] != '당'
    ensures FindInt(caption, "", Join([header] + ShortLines(row))) == Missing
  {
    var lines := ShortLines(row);
    ShortLinesSingle(row);
    ShortLinesBegin(row);
    OtherStart(caption, "", lines[0]);
    OtherStart(caption, "", lines[1]);
    OtherStart(caption, "", lines[2]);
    BodyLacks(caption, "", header, lines);
  }

  /** The balance and the day's short volume are recovered, nothing else is, and the score is neutral. */
  lemma ShortRoundTrip(ticker: string, day: string, row: map<string, int>)
    requires OneLine(ticker) && OneLine(day)
    ensures
      var parsed := ParseFlowText(ShortText(ticker, day, row));
      && parsed == Parsed(Features(None, None, None, None, Some(BalanceQuantity(row)), Some(ShortQuantity(row))))
      && FirstFigure(row, "잔고수량", "잔고", parsed.features.shortBalance.value)
      && FirstFigure(row, "거래량", "공매도", parsed.features.shortVolume.value)
      && FlowScore(parsed.features) == 0.0
  {
    ShortColumns(row);
    var header := ShortHeader(ticker, day);
    HeadersBegin(ticker, day);
    PatternForms();
    BalanceRead(header, row);
    VolumeRead(header, row);
    ShortLacksInvestor(header, row, INSTITUTION + NET_BUYING);
    ShortLacksInvestor(header, row, FOREIGN + NET_BUYING);
    ShortLacksInvestor(header, row, PENSION + NET_BUYING);
    ShortLacksInvestor(header, row, INDIVIDUAL + NET_BUYING);
    ParsedFrom(ShortText(ticker, day, row), Missing, Missing, Missing, Missing,
               Number(BalanceQuantity(row)), Number(ShortQuantity(row)));
  }
}
