/**
 * The monthly report of the direct-request scraper (bse_scraper_2): find
 * the price table in the answer to the form post, make its first row the
 * header, keep Month and Close as "Quarter End" and "Close", and fall back
 * to the CSV download when that fails.
 *
 * BeautifulSoup, pd.read_html, pd.read_csv, the float conversion of Close
 * and the HTTP session are collaborators and reach this module as function
 * parameters.
 */
module MonthlyPage {
  import opened Wrappers
  import opened Text
  import opened Frames
  import opened FormPost

  /** A <table> element: its text as get_text(" ", strip=True) gives it, and str(tbl). */
  datatype HtmlTable = HtmlTable(text: string, markup: string)

  /** A parsed page: the tables inside #ContentPlaceHolder1_divStkData when
      the page has that element, and every table of the page. */
  datatype Page = Page(stkData: Option<seq<HtmlTable>>, all: seq<HtmlTable>)

  /** One row of the monthly report: the Quarter End label and the parsed
      Close (None where pd.to_numeric coerces to NaN). */
  datatype MonthRow = MonthRow(quarterEnd: string, close: Option<real>)

  /** The labels every monthly report ends up with. */
  const ReportLabels: seq<Label> := [Name("Quarter End"), Name("Close")]

  // ---------------------------------------------------------------------
  // Finding the table in the page (lines 35-45)

  /** The header text has the whole words Month and Close, in any case. */
  predicate MentionsMonthAndClose(t: HtmlTable) {
    ContainsWord(t.text, "month") && ContainsWord(t.text, "close")
  }

  /** soup.find(id=...) or soup: a found element is always truthy. */
  function Scope(p: Page): seq<HtmlTable> {
    match p.stkData
    case Some(tables) => tables
    case None => p.all
  }

  /** str() of the first table in scope that mentions both words; none when no table does. */
  function FindMonthlyTableHtml(p: Page): (r: Option<string>)
    ensures r.None? <==> forall k :: 0 <= k < |Scope(p)| ==> !MentionsMonthAndClose(Scope(p)[k])
    ensures r.Some? ==> exists i ::
      && 0 <= i < |Scope(p)| && MentionsMonthAndClose(Scope(p)[i]) && r.value == Scope(p)[i].markup
      && forall k :: 0 <= k < i ==> !MentionsMonthAndClose(Scope(p)[k])
  {
    match FirstIndex(Scope(p), MentionsMonthAndClose)
    case None => None
    case Some(i) => Some(Scope(p)[i].markup)
  }

  /** Only the tables inside the stock-data element are searched when the page
      has one, however many other tables of the page would match; the whole
      page is searched only when the element is missing. */
  lemma ScopeSearched(p: Page)
    ensures p.stkData.Some? ==>
      (FindMonthlyTableHtml(p).Some? <==> exists k :: 0 <= k < |p.stkData.value| && MentionsMonthAndClose(p.stkData.value[k]))
    ensures p.stkData.None? ==>
      (FindMonthlyTableHtml(p).Some? <==> exists k :: 0 <= k < |p.all| && MentionsMonthAndClose(p.all[k]))
  {
  }

  /** `found or markup`: an empty string is falsy in Python. */
  function ActualTable(found: Option<string>, markup: string): (r: string)
    ensures found.Some? && found.value != "" ==> r == found.value
    ensures found.None? || found.value == "" ==> r == markup
  {
    match found
    case Some(s) => if s != "" then s else markup
    case None => markup
  }

  // ---------------------------------------------------------------------
  // One table of pd.read_html (lines 63-74)

  /** [str(c).strip().title() for c in table.columns] for the promoted header. */
  function Keys(header: seq<string>): (r: seq<string>)
    ensures |r| == |header|
    ensures forall j :: 0 <= j < |header| ==> r[j] == Title(Trim(header[j]))
  {
    seq(|header|, j requires 0 <= j < |header| => Title(Trim(header[j])))
  }

  /** The normalised header has both Month and Close. */
  predicate HasMonthAndClose(header: seq<string>) {
    "Month" in Keys(header) && "Close" in Keys(header)
  }

  function IsMonthLabel(c: string): bool { c == "Month" }
  function IsCloseLabel(c: string): bool { c == "Close" }

  /** The cells of a row all differ from c. */
  predicate Lacks(row: seq<string>, c: string) {
    forall j :: 0 <= j < |row| ==> row[j] != c
  }

  /** frame[[a, b]] renamed to the report's labels: the columns at jm and jc. */
  function Report(rows: seq<seq<string>>, width: nat, jm: nat, jc: nat): (r: Table)
    requires jm < width && jc < width
    requires forall i :: 0 <= i < |rows| ==> |rows[i]| == width
    ensures r.labels == ReportLabels && |r.rows| == |rows|
    ensures forall i :: 0 <= i < |rows| ==> r.rows[i] == [rows[i][jm], rows[i][jc]]
  {
    Frame(ReportLabels, seq(|rows|, i requires 0 <= i < |rows| => [rows[i][jm], rows[i][jc]]))
  }

  /** What the loop does with one table: IndexError on an empty table, skip
      when the promoted header lacks Month or Close, otherwise
      table[["Month", "Close"]] renamed, which looks the labels up exactly
      and so raises KeyError when only a stripped or title-cased form is there. */
  function Promote(t: Table): (r: Result<Option<Table>>)
    ensures r.Success? && r.value.Some? ==> r.value.value.labels == ReportLabels
    ensures |t.rows| > 0 && !Lacks(t.rows[0], "Month") && !Lacks(t.rows[0], "Close") ==> r.Success? && r.value.Some?
  {
    if |t.rows| == 0 then Failure(IndexOutOfRange)
    else
      var header := t.rows[0];
      var body := t.rows[1..];
      VerbatimHeaderMatches(header);
      if !HasMonthAndClose(header) then Success(None)
      else
        match FirstIndex(header, IsMonthLabel)
        case None => Failure(KeyMissing("Month"))
        case Some(jm) =>
          match FirstIndex(header, IsCloseLabel)
          case None => Failure(KeyMissing("Close"))
          case Some(jc) =>
            assert forall i :: 0 <= i < |body| ==> body[i] == t.rows[i + 1];
            Success(Some(Report(body, |header|, jm, jc)))
  }

  /** "Month" and "Close" are their own str(c).strip().title(). */
  lemma VerbatimKeys()
    ensures Title(Trim("Month")) == "Month" && Title(Trim("Close")) == "Close"
  {
    TitleOfCapitalised("Month");
    TitleOfCapitalised("Close");
  }

  /** A header holding Month and Close verbatim also holds them after
      str(c).strip().title(). */
  lemma VerbatimHeaderMatches(header: seq<string>)
    ensures !Lacks(header, "Month") && !Lacks(header, "Close") ==> HasMonthAndClose(header)
  {
    if !Lacks(header, "Month") && !Lacks(header, "Close") {
      VerbatimKeys();
      var jm :| 0 <= jm < |header| && header[jm] == "Month";
      var jc :| 0 <= jc < |header| && header[jc] == "Close";
      assert Keys(header)[jm] == "Month" && Keys(header)[jc] == "Close";
    }
  }

  /** An empty table raises IndexError, a header without Month and Close is
      skipped, and the exact lookup raises KeyError for the first of Month,
      Close the promoted header does not hold verbatim; a header holding both
      verbatim is promoted. */
  lemma PromoteOutcomes(t: Table)
    ensures Promote(t) == Failure(IndexOutOfRange) <==> |t.rows| == 0
    ensures Promote(t) == Success(None) <==> |t.rows| > 0 && !HasMonthAndClose(t.rows[0])
    ensures var r := Promote(t);
      r.Failure? && r.error != IndexOutOfRange ==>
        && |t.rows| > 0 && HasMonthAndClose(t.rows[0])
        && (r.error == KeyMissing("Month") <==> Lacks(t.rows[0], "Month"))
        && (r.error == KeyMissing("Close") <==> !Lacks(t.rows[0], "Month") && Lacks(t.rows[0], "Close"))
    ensures |t.rows| > 0 && !Lacks(t.rows[0], "Month") && !Lacks(t.rows[0], "Close") ==>
      Promote(t).Success? && Promote(t).value.Some?
  {
    if |t.rows| > 0 && HasMonthAndClose(t.rows[0]) {
      var header := t.rows[0];
      match FirstIndex(header, IsMonthLabel)
      case None =>
      case Some(jm) =>
        assert header[jm] == "Month";
        match FirstIndex(header, IsCloseLabel)
        case None =>
        case Some(jc) =>
          assert header[jc] == "Close";
    }
  }

  /** A promoted table is the body under the header, cut to the first column
      labelled exactly Month and the first labelled exactly Close. */
  lemma PromoteProjects(t: Table)
    ensures var r := Promote(t);
      r.Success? && r.value.Some? ==>
        var header := t.rows[0];
        var body := t.rows[1..];
        var q := r.value.value;
        && HasMonthAndClose(header)
        && |q.rows| == |body|
        && exists jm, jc ::
          && 0 <= jm < |header| && header[jm] == "Month" && Lacks(header[..jm], "Month")
          && 0 <= jc < |header| && header[jc] == "Close" && Lacks(header[..jc], "Close")
          && forall i :: 0 <= i < |body| ==> q.rows[i] == [body[i][jm], body[i][jc]]
  {
    if |t.rows| > 0 && HasMonthAndClose(t.rows[0]) {
      var header := t.rows[0];
      match FirstIndex(header, IsMonthLabel)
      case None =>
      case Some(jm) =>
        match FirstIndex(header, IsCloseLabel)
        case None =>
        case Some(jc) =>
          assert header[jm] == "Month" && Lacks(header[..jm], "Month");
          assert header[jc] == "Close" && Lacks(header[..jc], "Close");
    }
  }

  /** The table settles the loop: it raises or it is the match. */
  predicate Decides(t: Table) {
    Promote(t) != Success(None)
  }

  /** The loop over the tables of pd.read_html: the first table Promote does
      not skip decides, and ValueError when every table is skipped. */
  function Scan(tables: seq<Table>): (r: Result<Table>)
    ensures r.Success? ==> r.value.labels == ReportLabels
  {
    match FirstIndex(tables, Decides)
    case None => Failure(TableNotFound)
    case Some(i) =>
      match Promote(tables[i])
      case Failure(e) => Failure(e)
      case Success(q) => Success(q.value)
  }

  /** Scan fails with TableNotFound exactly when every table is skipped, and
      otherwise gives what Promote gives for the first table not skipped. */
  lemma ScanTakesFirst(tables: seq<Table>)
    ensures Scan(tables) == Failure(TableNotFound) <==> forall k :: 0 <= k < |tables| ==> Promote(tables[k]) == Success(None)
    ensures var r := Scan(tables);
      r != Failure(TableNotFound) ==> exists i ::
        && 0 <= i < |tables|
        && (forall k :: 0 <= k < i ==> Promote(tables[k]) == Success(None))
        && Promote(tables[i]) == (if r.Success? then Success(Some(r.value)) else Failure(r.error))
  {
    match FirstIndex(tables, Decides)
    case None =>
    case Some(i) =>
      assert Decides(tables[i]);
  }

  /** _decompose_monthly_table: the markup of the table found in the page, or
      the whole answer, read by pd.read_html and scanned. */
  function Decompose(markup: string, soupOf: string -> Page, readHtml: string -> Result<seq<Table>>)
    : (r: Result<Table>)
    ensures r.Success? ==> r.value.labels == ReportLabels
    ensures var parsed := readHtml(ActualTable(FindMonthlyTableHtml(soupOf(markup)), markup));
      && (parsed.Failure? ==> r == Failure(parsed.error))
      && (parsed.Success? ==> r == Scan(parsed.value))
  {
    match readHtml(ActualTable(FindMonthlyTableHtml(soupOf(markup)), markup))
    case Failure(e) => Failure(e)
    case Success(tables) => Scan(tables)
  }

  /** Lines 58-75, in the scraper's own order: for each table, promote and return on the first match. */
  method DecomposeMonthlyTable(markup: string, soupOf: string -> Page, readHtml: string -> Result<seq<Table>>)
    returns (r: Result<Table>)
    ensures r == Decompose(markup, soupOf, readHtml)
  {
    var actual := ActualTable(FindMonthlyTableHtml(soupOf(markup)), markup);
    var parsed := readHtml(actual);
    if parsed.Failure? {
      return Failure(parsed.error);
    }
    var tables := parsed.value;
    for i := 0 to |tables|
      invariant forall k :: 0 <= k < i ==> !Decides(tables[k])
    {
      var step := Promote(tables[i]);
      if step.Failure? {
        FirstIndexAt(tables, i, Decides);
        return Failure(step.error);
      }
      if step.value.Some? {
        FirstIndexAt(tables, i, Decides);
        return Success(step.value.value);
      }
      NoneUpTo(tables, i, Decides);
    }
    r := Failure(TableNotFound);
  }

  // ---------------------------------------------------------------------
  // The download fallback (lines 225-230)

  function MentionsMonth(l: Label): bool { ContainsWord(Str(l), "month") }
  function MentionsClose(l: Label): bool { ContainsWord(Str(l), "close") }

  /** The first column whose label has the whole word month, and the first
      with the whole word close, as the CSV's two report columns. */
  function FromDownload(t: Table): (r: Result<Table>)
    ensures r.Success? ==> r.value.labels == ReportLabels
  {
    match FirstIndex(t.labels, MentionsMonth)
    case None => Failure(ColumnNotFound("Month/Close"))
    case Some(jm) =>
      match FirstIndex(t.labels, MentionsClose)
      case None => Failure(ColumnNotFound("Month/Close"))
      case Some(jc) => Success(Report(t.rows, |t.labels|, jm, jc))
  }

  /** The fallback fails, with the one message for both columns, exactly when
      no label has the word month or none has the word close. */
  lemma FromDownloadFails(t: Table)
    ensures FromDownload(t).Failure? <==>
      (forall k :: 0 <= k < |t.labels| ==> !MentionsMonth(t.labels[k]))
      || (forall k :: 0 <= k < |t.labels| ==> !MentionsClose(t.labels[k]))
    ensures FromDownload(t).Failure? ==> FromDownload(t).error == ColumnNotFound("Month/Close")
  {
  }

  /** Otherwise it keeps every row, cut to the first month column and the first close column. */
  lemma FromDownloadProjects(t: Table)
    ensures var r := FromDownload(t);
      r.Success? ==>
        && |r.value.rows| == |t.rows|
        && exists jm, jc ::
          && 0 <= jm < |t.labels| && MentionsMonth(t.labels[jm])
          && (forall k :: 0 <= k < jm ==> !MentionsMonth(t.labels[k]))
          && 0 <= jc < |t.labels| && MentionsClose(t.labels[jc])
          && (forall k :: 0 <= k < jc ==> !MentionsClose(t.labels[k]))
          && forall i :: 0 <= i < |t.rows| ==> r.value.rows[i] == [t.rows[i][jm], t.rows[i][jc]]
  {
  }

  // ---------------------------------------------------------------------
  // The whole request (lines 83-232)

  /** pd.to_numeric(df["Close"].astype(str).str.replace(",", ""), errors="coerce") row by row. */
  function Prices(t: Table, parse: string -> Option<real>): (r: seq<MonthRow>)
    requires t.labels == ReportLabels
    ensures |r| == |t.rows|
    ensures forall i :: 0 <= i < |t.rows| ==>
      r[i].quarterEnd == t.rows[i][0] && r[i].close == parse(RemoveCommas(t.rows[i][1]))
  {
    seq(|t.rows|, i requires 0 <= i < |t.rows| => MonthRow(t.rows[i][0], parse(RemoveCommas(t.rows[i][1]))))
  }

  /** What one monthly request did: the payloads it posted, in order, and its outcome. */
  datatype Exchange = Exchange(posted: seq<Payload>, result: Result<seq<MonthRow>>)

  /** The download postback after the table could not be decomposed. */
  function Fallback(payload: Payload, post: Payload -> Result<string>,
                    readCsv: string -> Result<Table>, parse: string -> Option<real>): (x: Exchange)
    ensures |x.posted| == 1 && x.posted[0] == DownloadPayload(payload)
    ensures x.result.Success? ==>
      && post(DownloadPayload(payload)).Success?
      && readCsv(post(DownloadPayload(payload)).value).Success?
      && FromDownload(readCsv(post(DownloadPayload(payload)).value).value).Success?
  {
    var dl := DownloadPayload(payload);
    match post(dl)
    case Failure(e) => Exchange([dl], Failure(e))
    case Success(text) =>
      match readCsv(text)
      case Failure(e) => Exchange([dl], Failure(e))
      case Success(csv) =>
        match FromDownload(csv)
        case Failure(e) => Exchange([dl], Failure(e))
        case Success(q) => Exchange([dl], Success(Prices(q, parse)))
  }

  /** The fallback fails with the error of the download post, of read_csv,
      or the ValueError of a missing month or close column, in that order;
      otherwise it gives one row per CSV row, from the first month column and
      the first close column, the close read without its commas. */
  lemma FallbackOutcome(payload: Payload, post: Payload -> Result<string>,
                        readCsv: string -> Result<Table>, parse: string -> Option<real>)
    ensures var x := Fallback(payload, post, readCsv, parse);
      var sent := post(DownloadPayload(payload));
      && (sent.Failure? ==> x.result == Failure(sent.error))
      && (sent.Success? && readCsv(sent.value).Failure? ==> x.result == Failure(readCsv(sent.value).error))
      && (sent.Success? && readCsv(sent.value).Success? ==>
            var csv := readCsv(sent.value).value;
            && (FromDownload(csv).Failure? ==> x.result == Failure(ColumnNotFound("Month/Close")))
            && (FromDownload(csv).Success? ==>
                  x.result.Success? && |x.result.value| == |csv.rows|
                  && exists jm, jc ::
                    && 0 <= jm < |csv.labels| && MentionsMonth(csv.labels[jm])
                    && (forall k :: 0 <= k < jm ==> !MentionsMonth(csv.labels[k]))
                    && 0 <= jc < |csv.labels| && MentionsClose(csv.labels[jc])
                    && (forall k :: 0 <= k < jc ==> !MentionsClose(csv.labels[k]))
                    && forall i :: 0 <= i < |csv.rows| ==>
                         x.result.value[i] == MonthRow(csv.rows[i][jm], parse(RemoveCommas(csv.rows[i][jc])))))
  {
    var sent := post(DownloadPayload(payload));
    if sent.Success? && readCsv(sent.value).Success? {
      var csv := readCsv(sent.value).value;
      FromDownloadFails(csv);
      FromDownloadProjects(csv);
    }
  }

  /** Lines 94-190: the payload to post, or the RuntimeError of a missing
      token, or the KeyError of a selected settlement option without a value. */
  function Prepare(tags: seq<InputTag>, select: Option<seq<OptionTag>>,
                   code: string, month: int, year: int, toDate: string): (r: Result<Payload>)
    ensures MissingTokenOf(Inputs(tags)).Some? ==> r == Failure(MissingToken(MissingTokenOf(Inputs(tags)).value))
    ensures MissingTokenOf(Inputs(tags)).None? && SettlementValue(select).Failure? ==>
      r == Failure(SettlementValue(select).error)
    ensures MissingTokenOf(Inputs(tags)).None? && SettlementValue(select).Success? ==> r.Success?
    ensures r.Success? ==>
      && MissingTokenOf(Inputs(tags)).None? && SettlementValue(select).Success?
      && r.value == MonthlyPayload(Inputs(tags), SettlementValue(select).value, code, month, year, toDate).value
  {
    var inputs := Inputs(tags);
    match MissingTokenOf(inputs)
    case Some(k) => Failure(MissingToken(k))
    case None =>
      match SettlementValue(select)
      case Failure(e) => Failure(e)
      case Success(settlement) => Success(MonthlyPayload(inputs, settlement, code, month, year, toDate).value)
  }

  /** Lines 195-232: post the payload, decompose the answer, and post the
      download when that fails. */
  function Request(payload: Payload, post: Payload -> Result<string>, soupOf: string -> Page,
                   readHtml: string -> Result<seq<Table>>, readCsv: string -> Result<Table>,
                   parse: string -> Option<real>): (x: Exchange)
    ensures 1 <= |x.posted| <= 2 && x.posted[0] == payload
    ensures |x.posted| == 2 <==> post(payload).Success? && Decompose(post(payload).value, soupOf, readHtml).Failure?
    ensures |x.posted| == 2 ==> x.posted[1] == DownloadPayload(payload)
    ensures post(payload).Failure? ==> x.result == Failure(post(payload).error)
    ensures |x.posted| == 1 && x.result.Success? ==>
      && post(payload).Success?
      && var d := Decompose(post(payload).value, soupOf, readHtml);
      && d.Success? && x.result.value == Prices(d.value, parse)
  {
    match post(payload)
    case Failure(e) => Exchange([payload], Failure(e))
    case Success(answer) =>
      match Decompose(answer, soupOf, readHtml)
      case Success(q) => Exchange([payload], Success(Prices(q, parse)))
      case Failure(_) =>
        var dl := Fallback(payload, post, readCsv, parse);
        Exchange([payload] + dl.posted, dl.result)
  }

  /** A decomposed answer gives its report; otherwise, once the answer was
      posted, the request ends as the download fallback does. */
  lemma RequestOutcome(payload: Payload, post: Payload -> Result<string>, soupOf: string -> Page,
                       readHtml: string -> Result<seq<Table>>, readCsv: string -> Result<Table>,
                       parse: string -> Option<real>)
    ensures var x := Request(payload, post, soupOf, readHtml, readCsv, parse);
      && (post(payload).Success? && Decompose(post(payload).value, soupOf, readHtml).Success? ==>
            x.result == Success(Prices(Decompose(post(payload).value, soupOf, readHtml).value, parse)))
      && (|x.posted| == 2 ==> x.result == Fallback(payload, post, readCsv, parse).result)
  {
  }

  /** _get_monthly_table from the harvested page on.  `toDate` is today's
      date; nothing is posted when the payload cannot be prepared. */
  function GetMonthlyTable(tags: seq<InputTag>, select: Option<seq<OptionTag>>,
                           code: string, month: int, year: int, toDate: string,
                           post: Payload -> Result<string>, soupOf: string -> Page,
                           readHtml: string -> Result<seq<Table>>, readCsv: string -> Result<Table>,
                           parse: string -> Option<real>): (x: Exchange)
    ensures x.posted == [] <==> Prepare(tags, select, code, month, year, toDate).Failure?
    ensures x.posted == [] ==> x.result == Failure(Prepare(tags, select, code, month, year, toDate).error)
    ensures x.posted != [] ==>
      x == Request(Prepare(tags, select, code, month, year, toDate).value, post, soupOf, readHtml, readCsv, parse)
  {
    match Prepare(tags, select, code, month, year, toDate)
    case Failure(e) => Exchange([], Failure(e))
    case Success(payload) => Request(payload, post, soupOf, readHtml, readCsv, parse)
  }

  /** A missing state token stops the request before anything is posted. */
  lemma MissingTokenPostsNothing(tags: seq<InputTag>, select: Option<seq<OptionTag>>,
                                 code: string, month: int, year: int, toDate: string,
                                 post: Payload -> Result<string>, soupOf: string -> Page,
                                 readHtml: string -> Result<seq<Table>>, readCsv: string -> Result<Table>,
                                 parse: string -> Option<real>)
    requires exists k <- Tokens :: !HasToken(Inputs(tags), k)
    ensures var x := GetMonthlyTable(tags, select, code, month, year, toDate, post, soupOf, readHtml, readCsv, parse);
      x.posted == [] && x.result.Failure? && x.result.error.MissingToken?
  {
  }
}
