/**
 * The quarter-end extraction of the browser-driven scraper
 * (Scraper_bse._extract_qtrly_dates): keep the rows of the monthly table
 * whose month is Mar, Jun, Sep or Dec, label them "mar 2024", read their
 * closing price, drop the rows without one and sort the rest from the most
 * recent quarter to the oldest.
 *
 * float() is a collaborator: `parse` gives the value float() reads from a
 * cell with its commas removed, and None when float() raises or reads NaN
 * (the rows dropna removes).
 */
module QuarterEnds {
  import opened Wrappers
  import opened Text
  import opened Frames

  /** One row of the result: "Quarter End" and "Close". */
  datatype Quarter = Quarter(end: string, close: real)

  /** A row appended to the intermediate list, before dropna. */
  datatype Entry = Entry(end: string, close: Option<real>)

  predicate IsQuarterMonth(abbr: string) {
    abbr == "Mar" || abbr == "Jun" || abbr == "Sep" || abbr == "Dec"
  }

  /** A two-digit year is read in the 2000s, anything else as written. */
  function FullYear(yy: int): (year: int)
    ensures 0 <= yy < 100 ==> 2000 <= year < 2100
    ensures yy < 100 ==> year == 2000 + yy
    ensures yy >= 100 ==> year == yy
  {
    if yy < 100 then 2000 + yy else yy
  }

  /** The "Quarter End" label: f"{abbr.lower()} {year}". */
  function EndLabel(abbr: string, year: int): string {
    Lower(abbr) + " " + IntToString(year)
  }

  /** A label built from a quarter month splits back into the lower-cased
      month and str(year). */
  lemma EndLabelWords(abbr: string, year: int)
    requires IsQuarterMonth(abbr)
    ensures Words(EndLabel(abbr, year)) == [Lower(abbr), IntToString(year)]
    ensures var m := Lower(abbr); m == "mar" || m == "jun" || m == "sep" || m == "dec"
  {
    QuarterMonthLower(abbr);
    IntToStringIsToken(year);
    WordsOfPair(Lower(abbr), IntToString(year));
  }

  /** What one row of the table contributes: nothing (too few words or not a
      quarter month), an entry, or the ValueError of int(). */
  function RowEntry(month: string, close: string, parse: string -> Option<real>): (r: Result<Option<Entry>>)
    ensures r.Failure? ==> r.error.NotAnInteger?
  {
    var parts := Words(Trim(month));
    if |parts| < 2 then Success(None)
    else
      var abbr := Title(parts[0]);
      if !IsQuarterMonth(abbr) then Success(None)
      else match ParseInt(parts[1])
        case None => Failure(NotAnInteger(parts[1]))
        case Some(yy) => Success(Some(Entry(EndLabel(abbr, FullYear(yy)), parse(RemoveCommas(close)))))
  }

  /** The entries of the rows, in order; the first failing row raises. */
  function Collect(rows: seq<seq<string>>, mi: nat, ci: nat, parse: string -> Option<real>): (r: Result<seq<Entry>>)
    requires forall row <- rows :: mi < |row| && ci < |row|
    ensures r.Success? ==> |r.value| <= |rows|
  {
    if |rows| == 0 then Success([])
    else
      var init := rows[..|rows| - 1];
      var last := rows[|rows| - 1];
      match Collect(init, mi, ci, parse)
      case Failure(e) => Failure(e)
      case Success(acc) =>
        match RowEntry(last[mi], last[ci], parse)
        case Failure(e) => Failure(e)
        case Success(None) => Success(acc)
        case Success(Some(e)) => Success(acc + [e])
  }

  predicate HasClose(e: Entry) { e.close.Some? }

  /** dropna(subset=["Close"]) */
  function DropMissing(entries: seq<Entry>): (r: seq<Quarter>)
    ensures |r| <= |entries|
    ensures forall q <- r :: Entry(q.end, Some(q.close)) in entries
    ensures forall e <- entries :: e.close.Some? ==> Quarter(e.end, e.close.value) in r
  {
    if |entries| == 0 then []
    else
      (match entries[0].close
       case None => []
       case Some(c) => [Quarter(entries[0].end, c)])
      + DropMissing(entries[1..])
  }

  /** dropna works row by row: a single entry is kept exactly when it has a
      price, and dropping from a concatenation concatenates what is kept. */
  lemma {:induction false} DropMissingConcat(a: seq<Entry>, b: seq<Entry>)
    ensures DropMissing(a + b) == DropMissing(a) + DropMissing(b)
    decreases |a|
  {
    if |a| > 0 {
      assert (a + b)[1..] == a[1..] + b;
      DropMissingConcat(a[1..], b);
    } else {
      assert a + b == b;
    }
  }

  lemma DropMissingSingle(e: Entry)
    ensures DropMissing([e]) == if e.close.Some? then [Quarter(e.end, e.close.value)] else []
  {
    assert [e][1..] == [];
  }

  // ---------------------------------------------------------------------
  // The sort key (lines 535-538)

  /** The tuple (year, quarter index) the rows are sorted by. */
  datatype SortKey = SortKey(year: int, quarter: int)

  /** ["mar","jun","sep","dec"].index(m); -1 stands for the ValueError, which
      no label built by EndLabel can reach (see KeyOfEndLabel). */
  function QuarterIndex(m: string): (q: int)
    ensures -1 <= q < 4
    ensures q == -1 <==> !(m == "mar" || m == "jun" || m == "sep" || m == "dec")
    ensures q >= 0 ==> ["mar", "jun", "sep", "dec"][q] == m
  {
    if m == "mar" then 0 else if m == "jun" then 1 else if m == "sep" then 2 else if m == "dec" then 3 else -1
  }

  /** (int(s.split()[1]), ["mar","jun","sep","dec"].index(s.split()[0])); a
      label the lambda would raise on keys as (0, -1), and no label built by
      EndLabel is one. */
  function Key(e: string): (r: SortKey)
    ensures -1 <= r.quarter < 4
    ensures r.quarter >= 0 ==>
      |Words(e)| >= 2 && ParseInt(Words(e)[1]) == Some(r.year) && ["mar", "jun", "sep", "dec"][r.quarter] == Words(e)[0]
    ensures |Words(e)| >= 2 && ParseInt(Words(e)[1]).Some? && QuarterIndex(Words(e)[0]) >= 0 ==> r.quarter >= 0
  {
    var w := Words(e);
    if |w| < 2 then SortKey(0, -1)
    else match ParseInt(w[1])
      case None => SortKey(0, -1)
      case Some(y) => SortKey(y, QuarterIndex(w[0]))
  }

  /** Tuple comparison: a is ordered at or after b. */
  predicate KeyAtLeast(a: SortKey, b: SortKey) {
    a.year > b.year || (a.year == b.year && a.quarter >= b.quarter)
  }

  /** The key of a result row. */
  function RowKey(q: Quarter): SortKey {
    Key(q.end)
  }

  predicate SortedDescending<T>(s: seq<T>, key: T -> SortKey) {
    forall i, j :: 0 <= i < j < |s| ==> KeyAtLeast(key(s[i]), key(s[j]))
  }

  /** Insert x into a descending sequence, after every element keyed at or after it. */
  function Insert<T>(x: T, s: seq<T>, key: T -> SortKey): (r: seq<T>)
    ensures multiset(r) == multiset(s) + multiset{x}
    ensures |r| == |s| + 1
  {
    if |s| == 0 then [x]
    else if KeyAtLeast(key(s[0]), key(x)) then
      assert s == [s[0]] + s[1..];
      [s[0]] + Insert(x, s[1..], key)
    else [x] + s
  }

  /** Insertion sort, most recent key first.  It keeps equal keys in their
      original order. */
  function SortDescending<T>(s: seq<T>, key: T -> SortKey): (r: seq<T>)
    ensures multiset(r) == multiset(s)
    ensures |r| == |s|
  {
    if |s| == 0 then []
    else
      assert s == s[..|s| - 1] + [s[|s| - 1]];
      Insert(s[|s| - 1], SortDescending(s[..|s| - 1], key), key)
  }

  lemma SortedTail<T>(s: seq<T>, key: T -> SortKey)
    requires |s| > 0 && SortedDescending(s, key)
    ensures SortedDescending(s[1..], key)
  {
    var tail := s[1..];
    forall i, j | 0 <= i < j < |tail| ensures KeyAtLeast(key(tail[i]), key(tail[j])) {
      assert tail[i] == s[i + 1] && tail[j] == s[j + 1];
    }
  }

  lemma SortedCons<T>(h: T, t: seq<T>, key: T -> SortKey)
    requires SortedDescending(t, key)
    requires forall y <- t :: KeyAtLeast(key(h), key(y))
    ensures SortedDescending([h] + t, key)
  {
    var r := [h] + t;
    forall i, j | 0 <= i < j < |r| ensures KeyAtLeast(key(r[i]), key(r[j])) {
      assert r[j] == t[j - 1];
      if i > 0 {
        assert r[i] == t[i - 1];
      }
    }
  }

  lemma {:induction false} InsertSorted<T>(x: T, s: seq<T>, key: T -> SortKey)
    requires SortedDescending(s, key)
    ensures SortedDescending(Insert(x, s, key), key)
  {
    if |s| > 0 {
      var h := s[0];
      if KeyAtLeast(key(h), key(x)) {
        SortedTail(s, key);
        InsertSorted(x, s[1..], key);
        var t := Insert(x, s[1..], key);
        forall y | y in t ensures KeyAtLeast(key(h), key(y)) {
          assert y in multiset(t);
          if y != x {
            assert y in multiset(s[1..]);
            var k :| 0 <= k < |s[1..]| && s[1..][k] == y;
            assert s[k + 1] == y;
          }
        }
        SortedCons(h, t, key);
      } else {
        forall y | y in s ensures KeyAtLeast(key(x), key(y)) {
          var k :| 0 <= k < |s| && s[k] == y;
          if k > 0 {
            assert KeyAtLeast(key(s[0]), key(s[k]));
          }
        }
        SortedCons(x, s, key);
      }
    }
  }

  /** The sorted rows are in descending key order. */
  lemma {:induction false} SortDescendingSorted<T>(s: seq<T>, key: T -> SortKey)
    ensures SortedDescending(SortDescending(s, key), key)
  {
    if |s| > 0 {
      SortDescendingSorted(s[..|s| - 1], key);
      InsertSorted(s[|s| - 1], SortDescending(s[..|s| - 1], key), key);
    }
  }

  // ---------------------------------------------------------------------
  // The extraction

  /** What _extract_qtrly_dates returns, or the exception it raises. */
  function Extract(t: Table, parse: string -> Option<real>): (r: Result<seq<Quarter>>)
    ensures r.Failure? ==> r.error == ColumnNotFound("Month, Close") || r.error == KeyMissing("Close") || r.error.NotAnInteger?
    ensures r.Success? ==> |r.value| <= |t.rows|
    ensures var m := FirstIndex(t.labels, (l: Label) => l == Name("Month"));
      var c := FirstIndex(t.labels, (l: Label) => l == Name("Close"));
      m.Some? && c.Some? ==>
        var entries := Collect(t.rows, m.value, c.value, parse);
        && (r.Success? <==> entries.Success? && |entries.value| > 0)
        && (r.Failure? && r.error.NotAnInteger? <==> entries.Failure?)
  {
    match (FirstIndex(t.labels, (l: Label) => l == Name("Month")), FirstIndex(t.labels, (l: Label) => l == Name("Close")))
    case (Some(mi), Some(ci)) =>
      (match Collect(t.rows, mi, ci, parse)
       case Failure(e) => RowErrorIsNotColumn(t.rows, mi, ci, parse); Failure(e)
       case Success(entries) =>
         if |entries| == 0 then Failure(KeyMissing("Close"))
         else Success(SortDescending(DropMissing(entries), RowKey)))
    case _ => Failure(ColumnNotFound("Month, Close"))
  }

  method ExtractQtrlyDates(t: Table, parse: string -> Option<real>) returns (r: Result<seq<Quarter>>)
    ensures r == Extract(t, parse)
  {
    var month := FirstIndex(t.labels, (l: Label) => l == Name("Month"));
    var close := FirstIndex(t.labels, (l: Label) => l == Name("Close"));
    if month.None? || close.None? {
      return Failure(ColumnNotFound("Month, Close"));
    }
    var mi, ci := month.value, close.value;
    var entries: seq<Entry> := [];
    for i := 0 to |t.rows|
      invariant Collect(t.rows[..i], mi, ci, parse) == Success(entries)
    {
      var row := t.rows[i];
      var e := RowEntry(row[mi], row[ci], parse);
      CollectNext(t.rows, i, mi, ci, parse, entries);
      if e.Failure? {
        CollectFailureSticks(t.rows, i + 1, mi, ci, parse);
        return Failure(e.error);
      }
      if e.value.Some? {
        entries := entries + [e.value.value];
      }
    }
    assert t.rows[..|t.rows|] == t.rows;
    if entries == [] {
      return Failure(KeyMissing("Close"));
    }
    var kept := DropMissing(entries);
    r := Success(SortDescending(kept, RowKey));
  }

  /** One more row of the table extends the entries by what that row contributes. */
  lemma CollectNext(rows: seq<seq<string>>, i: nat, mi: nat, ci: nat, parse: string -> Option<real>, acc: seq<Entry>)
    requires i < |rows|
    requires forall row <- rows :: mi < |row| && ci < |row|
    requires Collect(rows[..i], mi, ci, parse) == Success(acc)
    ensures var e := RowEntry(rows[i][mi], rows[i][ci], parse);
      Collect(rows[..i + 1], mi, ci, parse)
        == match e
           case Failure(err) => Failure(err)
           case Success(None) => Success(acc)
           case Success(Some(x)) => Success(acc + [x])
  {
    assert rows[..i + 1][..i] == rows[..i];
  }

  /** Once a prefix of the rows fails, the whole table fails with the same error. */
  lemma {:induction false} CollectFailureSticks(rows: seq<seq<string>>, n: nat, mi: nat, ci: nat, parse: string -> Option<real>)
    requires n <= |rows|
    requires forall row <- rows :: mi < |row| && ci < |row|
    requires Collect(rows[..n], mi, ci, parse).Failure?
    ensures Collect(rows, mi, ci, parse) == Collect(rows[..n], mi, ci, parse)
    decreases |rows| - n
  {
    if n < |rows| {
      assert rows[..n + 1][..n] == rows[..n];
      CollectFailureSticks(rows, n + 1, mi, ci, parse);
    } else {
      assert rows[..n] == rows;
    }
  }

  // ---------------------------------------------------------------------
  // Properties

  /** str(year) is one token of the label. */
  lemma IntToStringIsToken(year: int)
    ensures IsToken(IntToString(year))
  {
    var d := NatToString(if year < 0 then -year else year);
    assert forall i :: 0 <= i < |d| ==> IsDigit(d[i]);
    if year < 0 {
      var s := IntToString(year);
      assert s == "-" + d;
      forall i | 0 <= i < |s| ensures !IsSpace(s[i]) {
        if i > 0 {
          assert s[i] == d[i - 1];
        }
      }
    }
  }

  /** The lower-cased quarter month is one token, and title() restores it. */
  lemma QuarterMonthLower(abbr: string)
    requires IsQuarterMonth(abbr)
    ensures var m := Lower(abbr);
      (m == "mar" || m == "jun" || m == "sep" || m == "dec") && IsToken(m) && Title(m) == abbr
  {
    var m := Lower(abbr);
    LowerAt(abbr, 0);
    LowerAt(abbr, 1);
    LowerAt(abbr, 2);
    assert m == [m[0], m[1], m[2]];
    TitleOfLowerTail(m[1..]);
    assert Title(m) == [UpperChar(m[0])] + m[1..];
  }

  /** The sort key reads back the year and the quarter of a label built from a
      quarter month, so the key lambda never raises on the rows it sorts. */
  lemma KeyOfEndLabel(abbr: string, year: int)
    requires IsQuarterMonth(abbr)
    ensures Key(EndLabel(abbr, year)) == SortKey(year, QuarterIndex(Lower(abbr)))
    ensures 0 <= QuarterIndex(Lower(abbr)) < 4
  {
    var m := Lower(abbr);
    QuarterMonthLower(abbr);
    IntToStringIsToken(year);
    WordsOfPair(m, IntToString(year));
    ParseIntRoundTrip(year);
  }

  /** A row contributes an entry exactly when its month has at least two words,
      the first of them a quarter month (any case) and the second an integer;
      the entry's label is that month, lower-cased, and the year read from it. */
  lemma RowEntryCases(month: string, close: string, parse: string -> Option<real>)
    ensures var parts := Words(Trim(month));
      var r := RowEntry(month, close, parse);
      && (r == Success(None) <==> |parts| < 2 || !IsQuarterMonth(Title(parts[0])))
      && (r.Failure? <==> |parts| >= 2 && IsQuarterMonth(Title(parts[0])) && ParseInt(parts[1]).None?)
      && (r.Success? && r.value.Some? ==>
            && r.value.value.end == EndLabel(Title(parts[0]), FullYear(ParseInt(parts[1]).value))
            && r.value.value.close == parse(RemoveCommas(close))
            && 0 <= RowKey(Quarter(r.value.value.end, 0.0)).quarter < 4)
  {
    var parts := Words(Trim(month));
    if |parts| >= 2 && IsQuarterMonth(Title(parts[0])) && ParseInt(parts[1]).Some? {
      KeyOfEndLabel(Title(parts[0]), FullYear(ParseInt(parts[1]).value));
    }
  }

  /** Rows of the result come out with the most recent quarter first. */
  lemma ExtractSorted(t: Table, parse: string -> Option<real>)
    requires Extract(t, parse).Success?
    ensures SortedDescending(Extract(t, parse).value, RowKey)
  {
    var mi := FirstIndex(t.labels, (l: Label) => l == Name("Month")).value;
    var ci := FirstIndex(t.labels, (l: Label) => l == Name("Close")).value;
    SortDescendingSorted(DropMissing(Collect(t.rows, mi, ci, parse).value), RowKey);
  }

  /** The result holds exactly the appended rows that have a closing price:
      sorting loses and invents nothing. */
  lemma ExtractKeepsPricedRows(t: Table, parse: string -> Option<real>)
    requires Extract(t, parse).Success?
    ensures var mi := FirstIndex(t.labels, (l: Label) => l == Name("Month")).value;
      var ci := FirstIndex(t.labels, (l: Label) => l == Name("Close")).value;
      var entries := Collect(t.rows, mi, ci, parse).value;
      && |entries| > 0
      && multiset(Extract(t, parse).value) == multiset(DropMissing(entries))
      && (forall q <- Extract(t, parse).value :: Entry(q.end, Some(q.close)) in entries)
      && (forall e <- entries :: e.close.Some? ==> Quarter(e.end, e.close.value) in Extract(t, parse).value)
  {
    var mi := FirstIndex(t.labels, (l: Label) => l == Name("Month")).value;
    var ci := FirstIndex(t.labels, (l: Label) => l == Name("Close")).value;
    var kept := DropMissing(Collect(t.rows, mi, ci, parse).value);
    var out := Extract(t, parse).value;
    assert out == SortDescending(kept, RowKey);
    forall q | q in out ensures q in kept {
      assert q in multiset(out);
    }
    forall q | q in kept ensures q in out {
      assert q in multiset(kept);
    }
  }

  /** The frame must have a Month and a Close column; otherwise ValueError. */
  lemma ExtractNeedsColumns(t: Table, parse: string -> Option<real>)
    ensures Extract(t, parse) == Failure(ColumnNotFound("Month, Close"))
      <==> Name("Month") !in t.labels || Name("Close") !in t.labels
  {
    var m := FirstIndex(t.labels, (l: Label) => l == Name("Month"));
    var c := FirstIndex(t.labels, (l: Label) => l == Name("Close"));
    if Name("Month") in t.labels {
      var k :| 0 <= k < |t.labels| && t.labels[k] == Name("Month");
      assert m.Some?;
    }
    if Name("Close") in t.labels {
      var k :| 0 <= k < |t.labels| && t.labels[k] == Name("Close");
      assert c.Some?;
    }
    if m.Some? && c.Some? {
      assert t.labels[m.value] == Name("Month");
      assert t.labels[c.value] == Name("Close");
      match Collect(t.rows, m.value, c.value, parse)
      case Failure(e) => RowErrorIsNotColumn(t.rows, m.value, c.value, parse);
      case Success(_) =>
    }
  }

  /** The only exception a row can raise is int()'s ValueError. */
  lemma {:induction false} RowErrorIsNotColumn(rows: seq<seq<string>>, mi: nat, ci: nat, parse: string -> Option<real>)
    requires forall row <- rows :: mi < |row| && ci < |row|
    ensures Collect(rows, mi, ci, parse).Failure? ==> Collect(rows, mi, ci, parse).error.NotAnInteger?
  {
    if |rows| > 0 {
      RowErrorIsNotColumn(rows[..|rows| - 1], mi, ci, parse);
    }
  }

  predicate NotQuarterEnd(month: string) {
    var parts := Words(Trim(month));
    |parts| < 2 || !IsQuarterMonth(Title(parts[0]))
  }

  lemma {:induction false} CollectNothing(rows: seq<seq<string>>, mi: nat, ci: nat, parse: string -> Option<real>)
    requires forall row <- rows :: mi < |row| && ci < |row| && NotQuarterEnd(row[mi])
    ensures Collect(rows, mi, ci, parse) == Success([])
  {
    if |rows| > 0 {
      assert rows[|rows| - 1] in rows;
      CollectNothing(rows[..|rows| - 1], mi, ci, parse);
    }
  }

  /** A table none of whose months is a quarter end appends no row at all, and
      dropna(subset=["Close"]) on the resulting column-less frame raises KeyError. */
  lemma NoQuarterRowsRaise(t: Table, parse: string -> Option<real>)
    requires Name("Month") in t.labels && Name("Close") in t.labels
    requires forall row <- t.rows, j | 0 <= j < |row| && t.labels[j] == Name("Month") :: NotQuarterEnd(row[j])
    ensures Extract(t, parse) == Failure(KeyMissing("Close"))
  {
    var m := FirstIndex(t.labels, (l: Label) => l == Name("Month"));
    var c := FirstIndex(t.labels, (l: Label) => l == Name("Close"));
    var k :| 0 <= k < |t.labels| && t.labels[k] == Name("Month");
    var k2 :| 0 <= k2 < |t.labels| && t.labels[k2] == Name("Close");
    assert m.Some? && c.Some?;
    assert t.labels[m.value] == Name("Month");
    CollectNothing(t.rows, m.value, c.value, parse);
  }

  /** Reading an output label back as a month cell gives the same label when
      the year has at least three digits, as every year read from a cell of two
      digits or more does. */
  lemma ReLabelIsIdentity(abbr: string, year: int, close: string, parse: string -> Option<real>)
    requires IsQuarterMonth(abbr) && year >= 100
    ensures RowEntry(EndLabel(abbr, year), close, parse)
      == Success(Some(Entry(EndLabel(abbr, year), parse(RemoveCommas(close)))))
  {
    ReLabelReadsYear(abbr, year, close, parse);
  }

  /** A year below 100 in a label is read back as a two-digit year, so labelling
      is not idempotent there ("mar 50" becomes "mar 2050"). */
  lemma ReLabelReadsYear(abbr: string, year: int, close: string, parse: string -> Option<real>)
    requires IsQuarterMonth(abbr)
    ensures RowEntry(EndLabel(abbr, year), close, parse)
      == Success(Some(Entry(EndLabel(abbr, FullYear(year)), parse(RemoveCommas(close)))))
  {
    var m := Lower(abbr);
    var y := IntToString(year);
    var s := EndLabel(abbr, year);
    QuarterMonthLower(abbr);
    IntToStringIsToken(year);
    assert s[0] == m[0] && s[|s| - 1] == y[|y| - 1];
    TrimUnspaced(s);
    WordsOfPair(m, y);
    ParseIntRoundTrip(year);
  }
}
