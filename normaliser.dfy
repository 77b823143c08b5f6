/**
 * The monthly-table normaliser of the browser-driven scraper
 * (Scraper_bse._pick_monthly_data): choose the table that has Month and
 * Close, recover its real header, drop residual header and footnote rows,
 * resolve the Month and Close columns and project onto them.
 *
 * The HTML parsers are collaborators: their output is an input here.
 * `tables` is what pd.read_html gives for the page; `fragments` are the
 * <table> elements BeautifulSoup finds, each with its text nodes and the
 * first table pd.read_html gives for it (None when that raises).
 */
module Normaliser {
  import opened Wrappers
  import opened Text
  import opened Frames

  datatype Fragment = Fragment(texts: seq<string>, parsed: Option<Table>)

  // ---------------------------------------------------------------------
  // Choosing the table (lines 43-71)

  /** str(c).strip().title() */
  function HeaderKey(l: Label): string {
    Title(Trim(Str(l)))
  }

  /** {str(c).strip().title() for c in t.columns} */
  function HeaderKeys(labels: seq<Label>): (r: seq<string>)
    ensures |r| == |labels|
    ensures forall j :: 0 <= j < |labels| ==> r[j] == HeaderKey(labels[j])
  {
    seq(|labels|, j requires 0 <= j < |labels| => HeaderKey(labels[j]))
  }

  /** {"Month", "Close"} is a subset of the table's header keys. */
  predicate IsCandidate(t: Table) {
    "Month" in HeaderKeys(t.labels) && "Close" in HeaderKeys(t.labels)
  }

  /** Some text node matches re.compile(w, re.I), for a lower-case literal w. */
  predicate AnyMentions(texts: seq<string>, w: string) {
    if |texts| == 0 then false else Contains(Lower(texts[0]), w) || AnyMentions(texts[1..], w)
  }

  /** tbl.find(string=re.compile("Month", re.I)) and tbl.find(string=re.compile("Close", re.I)) */
  predicate Mentions(f: Fragment) {
    AnyMentions(f.texts, "month") && AnyMentions(f.texts, "close")
  }

  /** A fragment the BeautifulSoup fallback accepts: it mentions both words and re-parses. */
  predicate Usable(f: Fragment) {
    Mentions(f) && f.parsed.Some?
  }

  /** The table the normaliser works on: the first candidate of pd.read_html,
      otherwise the first usable fragment, otherwise none. */
  function Chosen(tables: seq<Table>, fragments: seq<Fragment>): (r: Option<Table>)
    ensures (exists k :: 0 <= k < |tables| && IsCandidate(tables[k])) ==> r.Some? && IsCandidate(r.value)
    ensures r.None? <==>
      (forall k :: 0 <= k < |tables| ==> !IsCandidate(tables[k]))
      && (forall k :: 0 <= k < |fragments| ==> !Usable(fragments[k]))
  {
    match FirstIndex(tables, IsCandidate)
    case Some(k) => Some(tables[k])
    case None =>
      match FirstIndex(fragments, Usable)
      case Some(k) => fragments[k].parsed
      case None => None
  }

  // ---------------------------------------------------------------------
  // Recovering the header (lines 74-104)

  /** re.fullmatch(r"\d+", str(c)) */
  predicate IsDigitLabel(l: Label) {
    IsDigits(Str(l))
  }

  predicate AllDigitLabels(labels: seq<Label>) {
    forall j :: 0 <= j < |labels| ==> IsDigitLabel(labels[j])
  }

  function TrimAll(cells: seq<string>): (r: seq<string>)
    ensures |r| == |cells|
    ensures forall j :: 0 <= j < |cells| ==> r[j] == Trim(cells[j])
  {
    seq(|cells|, j requires 0 <= j < |cells| => Trim(cells[j]))
  }

  /** {str(v).strip().lower() for v in row} */
  function RowTokens(row: seq<string>): (r: seq<string>)
    ensures |r| == |row|
    ensures forall j :: 0 <= j < |row| ==> r[j] == Lower(Trim(row[j]))
  {
    seq(|row|, j requires 0 <= j < |row| => Lower(Trim(row[j])))
  }

  /** The trimmed, lower-cased cells of the row include "month" and "close". */
  predicate IsHeaderRow(row: seq<string>) {
    "month" in RowTokens(row) && "close" in RowTokens(row)
  }

  /** The first header row among the first six rows. */
  function HeaderRow(rows: seq<seq<string>>): (r: Option<nat>)
    ensures r.Some? ==> r.value < 6 && r.value < |rows| && IsHeaderRow(rows[r.value])
    ensures r.Some? ==> forall k :: 0 <= k < r.value ==> !IsHeaderRow(rows[k])
    ensures r.None? ==> forall k :: 0 <= k < 6 && k < |rows| ==> !IsHeaderRow(rows[k])
  {
    var prefix := rows[..if |rows| < 6 then |rows| else 6];
    assert forall k :: 0 <= k < |prefix| ==> prefix[k] == rows[k];
    FirstIndex(prefix, IsHeaderRow)
  }

  /** Row i becomes the header; it and the rows above it are dropped. */
  function Promote(t: Table, i: nat): (r: Table)
    requires i < |t.rows|
    ensures r.labels == Named(TrimAll(t.rows[i]))
    ensures r.rows == t.rows[i + 1..]
  {
    Frame(Named(TrimAll(t.rows[i])), t.rows[i + 1..])
  }

  /** A part of a tuple label survives when it is truthy and does not read "nan". */
  predicate Kept(p: string) {
    p != "" && Lower(Trim(p)) != "nan"
  }

  /** [str(p).strip() for p in c if p and str(p).strip().lower() != "nan"] */
  function KeptParts(parts: seq<string>): (r: seq<string>)
    ensures |r| <= |parts|
  {
    if |parts| == 0 then []
    else (if Kept(parts[0]) then [Trim(parts[0])] else []) + KeptParts(parts[1..])
  }

  /** The flattened name of one column label: a tuple keeps its last kept part
      (or "" when none is), anything else is str(c).strip(). */
  function FlatLabel(l: Label): (r: string)
    ensures l.Levels? ==> r == LastKept(l.parts)
  {
    match l
    case Levels(parts) =>
      var kept := KeptParts(parts);
      KeptPartsLast(parts);
      if |kept| == 0 then "" else kept[|kept| - 1]
    case _ => Trim(Str(l))
  }

  /** Searching a tuple from its end for the first kept part. */
  function LastKept(parts: seq<string>): string {
    if |parts| == 0 then ""
    else if Kept(parts[|parts| - 1]) then Trim(parts[|parts| - 1])
    else LastKept(parts[..|parts| - 1])
  }

  lemma {:induction false} KeptPartsSnoc(parts: seq<string>)
    requires |parts| > 0
    ensures KeptParts(parts) == KeptParts(parts[..|parts| - 1])
      + (if Kept(parts[|parts| - 1]) then [Trim(parts[|parts| - 1])] else [])
  {
    if |parts| > 1 {
      assert parts[1..][..|parts[1..]| - 1] == parts[..|parts| - 1][1..];
      KeptPartsSnoc(parts[1..]);
    }
  }

  /** The last of the kept parts is the first kept part found searching from
      the end, and there is none exactly when no part is kept. */
  lemma {:induction false} KeptPartsLast(parts: seq<string>)
    ensures var kept := KeptParts(parts);
      (if |kept| == 0 then "" else kept[|kept| - 1]) == LastKept(parts)
    decreases |parts|
  {
    if |parts| > 0 {
      var init := parts[..|parts| - 1];
      KeptPartsSnoc(parts);
      if !Kept(parts[|parts| - 1]) {
        assert KeptParts(parts) == KeptParts(init);
        KeptPartsLast(init);
      }
    }
  }

  /** The table with its header recovered: numeric labels are replaced by the
      embedded header row when there is one, other labels are flattened. */
  function Reshape(t: Table): (r: Table)
    ensures AllDigitLabels(t.labels) && HeaderRow(t.rows).None? ==> r == t
    ensures AllDigitLabels(t.labels) && HeaderRow(t.rows).Some? ==>
      var i := HeaderRow(t.rows).value;
      r.labels == Named(TrimAll(t.rows[i])) && r.rows == t.rows[i + 1..]
    ensures !AllDigitLabels(t.labels) ==>
      r.rows == t.rows && |r.labels| == |t.labels|
      && forall j :: 0 <= j < |t.labels| ==> r.labels[j] == Name(FlatLabel(t.labels[j]))
  {
    if AllDigitLabels(t.labels) then
      match HeaderRow(t.rows)
      case None => t
      case Some(i) => Promote(t, i)
    else
      Frame(Named(seq(|t.labels|, j requires 0 <= j < |t.labels| => FlatLabel(t.labels[j]))), t.rows)
  }

  // ---------------------------------------------------------------------
  // Dropping residual rows (lines 106-114)

  /** The first cell is not a repeated "Month" header. */
  predicate NotHeaderEcho(row: seq<string>) {
    |row| == 0 || Lower(Trim(row[0])) != "month"
  }

  /** The first cell is not a footnote such as "* Spread ..." or "High-Low ...". */
  predicate NotFootnote(row: seq<string>) {
    |row| == 0 || !MatchesFootnote(row[0])
  }

  /** monthly[mask(monthly[first column])]; a frame without columns is left alone. */
  function DropRows(t: Table, keep: seq<string> -> bool): (r: Table)
    ensures r.labels == t.labels
    ensures |t.labels| > 0 ==> r.rows == Filter(t.rows, keep)
    ensures |t.labels| == 0 ==> r == t
  {
    if |t.labels| == 0 then t
    else
      var rows := Filter(t.rows, keep);
      assert forall i :: 0 <= i < |rows| ==> rows[i] in t.rows;
      Frame(t.labels, rows)
  }

  /** The table after header recovery and both row filters: the filters keep
      the recovered labels. */
  function Cleaned(t: Table): (r: Table)
    ensures r.labels == Reshape(t).labels
  {
    DropRows(DropRows(Reshape(t), NotHeaderEcho), NotFootnote)
  }

  /** No surviving row starts with "month" or a footnote, and the survivors
      are exactly the reshaped rows that pass both tests, in their order. */
  lemma CleanedRows(t: Table)
    requires |t.labels| > 0
    ensures forall row <- Cleaned(t).rows :: |row| > 0 && Lower(Trim(row[0])) != "month" && !MatchesFootnote(row[0])
    ensures Cleaned(t).rows == Filter(Filter(Reshape(t).rows, NotHeaderEcho), NotFootnote)
  {
    var r := Reshape(t);
    if !AllDigitLabels(t.labels) || HeaderRow(t.rows).None? {
      assert |r.labels| == |t.labels|;
    } else {
      var i := HeaderRow(t.rows).value;
      assert t.rows[i] in t.rows;
      assert |r.labels| == |t.rows[i]| == |t.labels|;
    }
  }

  // ---------------------------------------------------------------------
  // Resolving the columns (lines 116-136)

  /** After line 117 every label has to be a string. */
  function LabelNames(t: Table): Result<seq<string>> {
    if AllNamed(t.labels) then Success(TrimAll(Names(t.labels))) else Failure(LabelNotText)
  }

  predicate IsMonthName(c: string) { Lower(c) == "month" }
  predicate MentionsMonth(c: string) { Contains(Lower(c), "month") }
  predicate IsCloseName(c: string) { Lower(c) == "close" || Lower(c) == "close*" }
  predicate MentionsCloseWord(c: string) { ContainsWord(c, "close") }

  lemma ContainsItself(s: string)
    ensures Contains(s, s)
  {
    assert s[..|s|] == s;
  }

  /** The Month column: the first exact "month" (any case), else the first label
      containing "month"; none when no label contains it. */
  function MonthColumn(names: seq<string>): (r: Option<nat>)
    ensures r.Some? ==> r.value < |names| && MentionsMonth(names[r.value])
    ensures r.None? <==> forall k :: 0 <= k < |names| ==> !MentionsMonth(names[k])
    ensures (exists k :: 0 <= k < |names| && IsMonthName(names[k])) ==>
      r.Some? && IsMonthName(names[r.value]) && forall k :: 0 <= k < r.value ==> !IsMonthName(names[k])
    ensures (forall k :: 0 <= k < |names| ==> !IsMonthName(names[k])) && r.Some? ==>
      forall k :: 0 <= k < r.value ==> !MentionsMonth(names[k])
  {
    match FirstIndex(names, IsMonthName)
    case Some(j) =>
      ContainsItself(Lower(names[j]));
      Some(j)
    case None =>
      FirstIndex(names, MentionsMonth)
  }

  lemma CloseIsWord(c: string)
    requires IsCloseName(c)
    ensures MentionsCloseWord(c)
  {
    LowerSlice(c, 0, 5);
    if |c| > 5 {
      LowerAt(c, 5);
    }
    assert c[0..5] == c[..5];
    assert Lower(c)[..5] == "close";
    assert HasWordAt(c, 0, "close");
  }

  /** The Close column: the first "close" or "close*" (any case), else the first
      label with "close" as a whole word; none when no label has it. */
  function CloseColumn(names: seq<string>): (r: Option<nat>)
    ensures r.Some? ==> r.value < |names| && MentionsCloseWord(names[r.value])
    ensures r.None? <==> forall k :: 0 <= k < |names| ==> !MentionsCloseWord(names[k])
    ensures (exists k :: 0 <= k < |names| && IsCloseName(names[k])) ==>
      r.Some? && IsCloseName(names[r.value]) && forall k :: 0 <= k < r.value ==> !IsCloseName(names[k])
    ensures (forall k :: 0 <= k < |names| ==> !IsCloseName(names[k])) && r.Some? ==>
      forall k :: 0 <= k < r.value ==> !MentionsCloseWord(names[k])
  {
    match FirstIndex(names, IsCloseName)
    case Some(j) =>
      CloseIsWord(names[j]);
      Some(j)
    case None =>
      FirstIndex(names, MentionsCloseWord)
  }

  /** monthly[[m, c]].rename(columns={m: "Month", c: "Close"}).  When both
      resolve to one column the dict keeps only c: "Close", so both copies
      are named Close. */
  function Project(t: Table, names: seq<string>, mi: nat, ci: nat): (r: Table)
    requires |names| == |t.labels| && mi < |names| && ci < |names|
    ensures mi != ci ==> r.labels == [Name("Month"), Name("Close")]
    ensures mi == ci ==> r.labels == [Name("Close"), Name("Close")]
    ensures |r.rows| == |t.rows|
    ensures forall i :: 0 <= i < |t.rows| ==> r.rows[i] == [t.rows[i][mi], t.rows[i][ci]]
  {
    Frame(if mi == ci then [Name("Close"), Name("Close")] else [Name("Month"), Name("Close")],
          Pick(t.rows, |t.labels|, mi, ci))
  }

  /** What the normaliser returns, or the exception it raises: one of the
      five errors of lines 61-64, 117, 127 and 133. */
  function Normalise(tables: seq<Table>, fragments: seq<Fragment>): (r: Result<Table>)
    ensures r.Failure? ==>
      r.error in {NoTables, TableNotFound, LabelNotText, ColumnNotFound("Month"), ColumnNotFound("Close")}
    ensures r.Success? <==>
      && |tables| > 0 && Chosen(tables, fragments).Some?
      && var c := Cleaned(Chosen(tables, fragments).value);
      && LabelNames(c).Success?
      && MonthColumn(LabelNames(c).value).Some? && CloseColumn(LabelNames(c).value).Some?
  {
    if |tables| == 0 then Failure(NoTables)
    else match Chosen(tables, fragments)
      case None => Failure(TableNotFound)
      case Some(t) =>
        var c := Cleaned(t);
        match LabelNames(c)
        case Failure(e) => Failure(e)
        case Success(names) =>
          match MonthColumn(names)
          case None => Failure(ColumnNotFound("Month"))
          case Some(mi) =>
            match CloseColumn(names)
            case None => Failure(ColumnNotFound("Close"))
            case Some(ci) => Success(Project(c, names, mi, ci))
  }

  // ---------------------------------------------------------------------
  // The normaliser itself

  /** Lines 43-64: collect the candidates of pd.read_html, else take the first
      fragment that mentions both words and re-parses. */
  method ChooseTable(tables: seq<Table>, fragments: seq<Fragment>) returns (r: Option<Table>)
    ensures r == Chosen(tables, fragments)
  {
    var candidates: seq<Table> := [];
    for i := 0 to |tables|
      invariant candidates == [] ==> forall k :: 0 <= k < i ==> !IsCandidate(tables[k])
      invariant candidates != [] ==>
        FirstIndex(tables, IsCandidate).Some? && candidates[0] == tables[FirstIndex(tables, IsCandidate).value]
    {
      if IsCandidate(tables[i]) {
        if candidates == [] {
          FirstIndexAt(tables, i, IsCandidate);
        }
        candidates := candidates + [tables[i]];
      } else if candidates == [] {
        NoneUpTo(tables, i, IsCandidate);
      }
    }
    if candidates != [] {
      return Some(candidates[0]);
    }
    var j := 0;
    while j < |fragments|
      invariant 0 <= j <= |fragments|
      invariant forall k :: 0 <= k < j ==> !Usable(fragments[k])
    {
      var f := fragments[j];
      if Mentions(f) && f.parsed.Some? {
        FirstIndexAt(fragments, j, Usable);
        return f.parsed;
      }
      NoneUpTo(fragments, j, Usable);
      j := j + 1;
    }
    r := None;
  }

  /** Lines 78-88: the first of the first six rows whose stripped, lower-cased
      cells include "month" and "close". */
  method FindHeaderRow(rows: seq<seq<string>>) returns (h: Option<nat>)
    ensures h == HeaderRow(rows)
  {
    var n := if |rows| < 6 then |rows| else 6;
    ghost var prefix := rows[..n];
    for i := 0 to n
      invariant forall k :: 0 <= k < i ==> !IsHeaderRow(prefix[k])
    {
      if IsHeaderRow(rows[i]) {
        FirstIndexAt(prefix, i, IsHeaderRow);
        return Some(i);
      }
      NoneUpTo(prefix, i, IsHeaderRow);
    }
    h := None;
  }

  /** Lines 96-104: the flattened labels, one per column. */
  method FlattenLabels(labels: seq<Label>) returns (flat: seq<string>)
    ensures |flat| == |labels|
    ensures forall k :: 0 <= k < |labels| ==> flat[k] == FlatLabel(labels[k])
  {
    flat := [];
    for i := 0 to |labels|
      invariant |flat| == i
      invariant forall k :: 0 <= k < i ==> flat[k] == FlatLabel(labels[k])
    {
      flat := flat + [FlatLabel(labels[i])];
    }
  }

  /** Lines 74-104: promote an embedded header row of a numerically labelled
      table, or flatten the labels of any other table. */
  method RecoverHeader(t: Table) returns (r: Table)
    ensures r == Reshape(t)
  {
    if forall j :: 0 <= j < |t.labels| ==> IsDigitLabel(t.labels[j]) {
      var header := FindHeaderRow(t.rows);
      if header.None? {
        return t;
      }
      var headerValues := TrimAll(t.rows[header.value]);
      r := Frame(Named(headerValues), t.rows[header.value + 1..]);
    } else {
      var flat := FlattenLabels(t.labels);
      r := Frame(Named(flat), t.rows);
    }
  }

  method PickMonthlyData(tables: seq<Table>, fragments: seq<Fragment>) returns (r: Result<Table>)
    ensures r == Normalise(tables, fragments)
  {
    if |tables| == 0 {
      return Failure(NoTables);
    }
    var chosen := ChooseTable(tables, fragments);
    if chosen.None? {
      return Failure(TableNotFound);
    }
    var monthly := RecoverHeader(chosen.value);
    monthly := DropRows(monthly, NotHeaderEcho);
    monthly := DropRows(monthly, NotFootnote);
    assert monthly == Cleaned(chosen.value);

    if !AllNamed(monthly.labels) {
      return Failure(LabelNotText);
    }
    var names := TrimAll(Names(monthly.labels));
    var monthCol := MonthColumn(names);
    if monthCol.None? {
      return Failure(ColumnNotFound("Month"));
    }
    var closeCol := CloseColumn(names);
    if closeCol.None? {
      return Failure(ColumnNotFound("Close"));
    }
    r := Success(Project(monthly, names, monthCol.value, closeCol.value));
  }

  // ---------------------------------------------------------------------
  // Properties

  /** The normaliser never returns a table when no candidate exists. */
  lemma NoCandidateFails(tables: seq<Table>, fragments: seq<Fragment>)
    requires forall k :: 0 <= k < |tables| ==> !IsCandidate(tables[k])
    requires forall k :: 0 <= k < |fragments| ==> !Usable(fragments[k])
    ensures Normalise(tables, fragments) == Failure(if |tables| == 0 then NoTables else TableNotFound)
  {
  }

  /** A successful result has the two columns Month and Close (both Close when
      one column matched both rules) and one row per cleaned row. */
  lemma NormaliseShape(tables: seq<Table>, fragments: seq<Fragment>)
    requires Normalise(tables, fragments).Success?
    ensures Chosen(tables, fragments).Some?
    ensures var out := Normalise(tables, fragments).value;
      var c := Cleaned(Chosen(tables, fragments).value);
      |out.labels| == 2 && out.labels[1] == Name("Close")
      && (out.labels[0] == Name("Month") || out.labels[0] == Name("Close"))
      && |out.rows| == |c.rows|
  {
    var c := Cleaned(Chosen(tables, fragments).value);
    var names := LabelNames(c).value;
    var mi, ci := MonthColumn(names).value, CloseColumn(names).value;
    assert Normalise(tables, fragments) == Success(Project(c, names, mi, ci));
  }

  /** The cells of a successful result are, row by row, the cleaned table's
      Month and Close cells, those columns being found among the stripped
      labels by the rules of lines 124-133; the first label is Month unless
      one column matched both rules. */
  lemma NormaliseCells(tables: seq<Table>, fragments: seq<Fragment>)
    requires Normalise(tables, fragments).Success?
    ensures var out := Normalise(tables, fragments).value;
      var c := Cleaned(Chosen(tables, fragments).value);
      && AllNamed(c.labels)
      && var names := TrimAll(Names(c.labels));
      && MonthColumn(names).Some? && CloseColumn(names).Some?
      && var mi, ci := MonthColumn(names).value, CloseColumn(names).value;
      && (mi != ci ==> out.labels[0] == Name("Month"))
      && |out.rows| == |c.rows|
      && forall i :: 0 <= i < |c.rows| ==> out.rows[i] == [c.rows[i][mi], c.rows[i][ci]]
  {
    var c := Cleaned(Chosen(tables, fragments).value);
    var names := LabelNames(c).value;
    var mi, ci := MonthColumn(names).value, CloseColumn(names).value;
    assert Normalise(tables, fragments) == Success(Project(c, names, mi, ci));
  }

  /** The first candidate table is chosen; without one, the re-parsed table of
      the first fragment that mentions both words and re-parses. */
  lemma ChosenFirst(tables: seq<Table>, fragments: seq<Fragment>)
    ensures (exists k :: 0 <= k < |tables| && IsCandidate(tables[k])) ==>
      exists k ::
        && 0 <= k < |tables| && IsCandidate(tables[k]) && Chosen(tables, fragments) == Some(tables[k])
        && forall j :: 0 <= j < k ==> !IsCandidate(tables[j])
    ensures (forall k :: 0 <= k < |tables| ==> !IsCandidate(tables[k])) ==>
      (exists k :: 0 <= k < |fragments| && Usable(fragments[k])) ==>
      exists k ::
        && 0 <= k < |fragments| && Usable(fragments[k]) && Chosen(tables, fragments) == fragments[k].parsed
        && forall j :: 0 <= j < k ==> !Usable(fragments[j])
  {
    var t := FirstIndex(tables, IsCandidate);
    if t.None? {
      var f := FirstIndex(fragments, Usable);
    }
  }

  lemma {:induction false} MissingFirstChar(s: string, p: string)
    requires |p| > 0 && forall i :: 0 <= i < |s| ==> s[i] != p[0]
    ensures !Contains(s, p)
    decreases |s|
  {
    if |s| > 0 {
      if |p| <= |s| {
        assert s[..|p|][0] == s[0];
      }
      MissingFirstChar(s[1..], p);
    }
  }

  lemma DigitsDoNotMentionMonth(s: string)
    requires IsDigits(s)
    ensures !MentionsMonth(s)
  {
    var low := Lower(s);
    forall i | 0 <= i < |low| ensures low[i] != 'm' {
      LowerAt(s, i);
      assert IsDigit(s[i]);
    }
    MissingFirstChar(low, "month");
  }

  /** Numeric labels without an embedded header row in the first six rows make
      the normaliser fail: integer labels cannot be stripped, and digit
      strings contain no "month". */
  lemma NumericLabelsWithoutHeaderFail(tables: seq<Table>, fragments: seq<Fragment>)
    requires |tables| > 0 && Chosen(tables, fragments).Some?
    requires AllDigitLabels(Chosen(tables, fragments).value.labels)
    requires HeaderRow(Chosen(tables, fragments).value.rows).None?
    ensures Normalise(tables, fragments).Failure?
  {
    var t := Chosen(tables, fragments).value;
    var c := Cleaned(t);
    assert c.labels == t.labels;
    if AllNamed(c.labels) {
      var names := TrimAll(Names(c.labels));
      forall k | 0 <= k < |names| ensures !MentionsMonth(names[k]) {
        DigitNameUnmentioned(c.labels[k]);
      }
      assert MonthColumn(names).None?;
    }
  }

  lemma DigitNameUnmentioned(l: Label)
    requires IsDigitLabel(l) && l.Name?
    ensures !MentionsMonth(Trim(l.text))
  {
    TrimOfDigits(l.text);
    DigitsDoNotMentionMonth(l.text);
  }

  lemma TrimOfDigits(s: string)
    requires IsDigits(s)
    ensures Trim(s) == s
  {
    assert IsDigit(s[0]) && IsDigit(s[|s| - 1]);
    TrimUnspaced(s);
  }
}
