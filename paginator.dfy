/**
 * The window advancer of the direct-request scraper (bse_scraper_2): read
 * the month after the last row fetched, keep fetching monthly reports until
 * the current month, and keep the quarter-end rows of the result.
 *
 * The monthly request is a collaborator: `fetch` gives the rows
 * _get_monthly_table returns for a (month, year) window, or the error it
 * raises.  The current month and year are a parameter.
 */
module Paginator {
  import opened Wrappers
  import opened Text
  import opened Frames
  import opened MonthlyPage

  /** A (month, year) pair; month is 1..12 wherever the scraper builds one. */
  datatype Window = Window(month: int, year: int)

  /** Months since the start of year 0: the chronological order of windows. */
  function Index(w: Window): int {
    w.year * 12 + w.month - 1
  }

  // ---------------------------------------------------------------------
  // The quarter-end rows (lines 236-243)

  /** str.slice(0, 3).isin(["Mar", "Jun", "Sep", "Dec"]), case-sensitively. */
  predicate IsQuarterEnd(r: MonthRow) {
    var p := Prefix3(r.quarterEnd);
    p == "Mar" || p == "Jun" || p == "Sep" || p == "Dec"
  }

  /** The rows whose label starts with a quarter-end month, in their order. */
  function QuarterlyDates(rows: seq<MonthRow>): (r: seq<MonthRow>)
    ensures forall x :: x in r <==> x in rows && IsQuarterEnd(x)
  {
    Filter(rows, IsQuarterEnd)
  }

  /** Filtering the concatenated pages is concatenating the filtered pages, so
      the relative order of the kept rows is the order they were fetched in. */
  lemma QuarterlyDatesConcat(a: seq<MonthRow>, b: seq<MonthRow>)
    ensures QuarterlyDates(a + b) == QuarterlyDates(a) + QuarterlyDates(b)
  {
    FilterConcat(a, b, IsQuarterEnd);
  }

  /** Keeping the quarter ends twice keeps the same rows. */
  lemma QuarterlyDatesIdempotent(rows: seq<MonthRow>)
    ensures QuarterlyDates(QuarterlyDates(rows)) == QuarterlyDates(rows)
  {
    FilterIdempotent(rows, IsQuarterEnd);
  }

  /** The test is on the first three characters as written: a label keeps its
      row exactly when it starts with one of the four capitalised abbreviations. */
  lemma QuarterEndByPrefix(r: MonthRow)
    ensures IsQuarterEnd(r) <==>
      StartsWith(r.quarterEnd, "Mar") || StartsWith(r.quarterEnd, "Jun")
      || StartsWith(r.quarterEnd, "Sep") || StartsWith(r.quarterEnd, "Dec")
  {
    var s := r.quarterEnd;
    if |s| >= 3 {
      assert Prefix3(s) == s[..3];
    } else {
      assert !StartsWith(s, "Mar") && !StartsWith(s, "Jun") && !StartsWith(s, "Sep") && !StartsWith(s, "Dec");
    }
  }

  // ---------------------------------------------------------------------
  // The next window (lines 245-269)

  const MonthAbbrs: seq<string> := ["Jan", "Feb", "Mar", "Apr", "May", "Jun",
                                    "Jul", "Aug", "Sep", "Oct", "Nov", "Dec"]

  /** monthly_mapping.get(s): the month number of a capitalised abbreviation. */
  function MonthNumber(s: string): (r: Option<int>)
    ensures r.Some? <==> s in MonthAbbrs
    ensures r.Some? ==> 1 <= r.value <= 12 && MonthAbbrs[r.value - 1] == s
  {
    MonthFrom(s, 0)
  }

  /** The number of s among the abbreviations from position i on. */
  function MonthFrom(s: string, i: nat): (r: Option<int>)
    requires i <= 12
    ensures r.Some? <==> exists k :: i <= k < 12 && MonthAbbrs[k] == s
    ensures r.Some? ==> i < r.value <= 12 && MonthAbbrs[r.value - 1] == s
    decreases 12 - i
  {
    if i == 12 then None
    else if MonthAbbrs[i] == s then Some(i + 1)
    else MonthFrom(s, i + 1)
  }

  /** The window the last row of the table names: IndexError for an empty
      table or a blank label, ValueError when "20" + the last word is not an
      integer or the first word is not a month abbreviation. */
  function LastWindow(rows: seq<MonthRow>): (r: Result<Window>)
    ensures |rows| == 0 ==> r == Failure(IndexOutOfRange)
    ensures |rows| > 0 ==>
      var words := Words(rows[|rows| - 1].quarterEnd);
      && (|words| == 0 ==> r == Failure(IndexOutOfRange))
      && (|words| > 0 ==>
            var yearText := "20" + words[|words| - 1];
            && (ParseInt(yearText).None? ==> r == Failure(NotAnInteger(yearText)))
            && (ParseInt(yearText).Some? && MonthNumber(words[0]).None? ==> r == Failure(UnknownMonth(words[0])))
            && (r.Success? <==> ParseInt(yearText).Some? && MonthNumber(words[0]).Some?)
            && (r.Success? ==> r.value == Window(MonthNumber(words[0]).value, ParseInt(yearText).value)))
  {
    if |rows| == 0 then Failure(IndexOutOfRange)
    else
      var words := Words(rows[|rows| - 1].quarterEnd);
      if |words| == 0 then Failure(IndexOutOfRange)
      else
        var yearText := "20" + words[|words| - 1];
        match ParseInt(yearText)
        case None => Failure(NotAnInteger(yearText))
        case Some(year) =>
          match MonthNumber(words[0])
          case None => Failure(UnknownMonth(words[0]))
          case Some(month) => Success(Window(month, year))
  }

  /** The month after w, December rolling over into January of the next year. */
  function Succ(w: Window): (r: Window)
    requires 1 <= w.month <= 12
    ensures 1 <= r.month <= 12
    ensures Index(r) == Index(w) + 1
  {
    if w.month < 12 then Window(w.month + 1, w.year) else Window(1, w.year + 1)
  }

  /** _calculate_next_month_year: the month after the one the last row names. */
  function NextMonthYear(rows: seq<MonthRow>): (r: Result<Window>)
    ensures r.Failure? <==> LastWindow(rows).Failure?
    ensures r.Failure? ==> r.error == LastWindow(rows).error
    ensures r.Success? ==> 1 <= r.value.month <= 12 && Index(r.value) == Index(LastWindow(rows).value) + 1
  {
    match LastWindow(rows)
    case Failure(e) => Failure(e)
    case Success(w) => Success(Succ(w))
  }

  /** Only the last row is read: rows fetched earlier do not matter. */
  lemma NextUsesLastRow(acc: seq<MonthRow>, page: seq<MonthRow>)
    requires |page| > 0
    ensures LastWindow(acc + page) == LastWindow(page)
    ensures NextMonthYear(acc + page) == NextMonthYear(page)
  {
    assert (acc + page)[|acc + page| - 1] == page[|page| - 1];
  }

  /** The abbreviations are three ASCII letters each. */
  lemma AbbrsAreLetters()
    ensures forall k :: 0 <= k < 12 ==> |MonthAbbrs[k]| == 3 && forall i :: 0 <= i < 3 ==> 'A' <= MonthAbbrs[k][i] <= 'z'
  {
  }

  /** Every abbreviation is a single word. */
  lemma AbbrIsToken(s: string)
    requires MonthNumber(s).Some?
    ensures IsToken(s)
  {
    AbbrsAreLetters();
    var k := MonthNumber(s).value - 1;
    assert |s| == 3 && forall i :: 0 <= i < 3 ==> 'A' <= s[i] <= 'z';
  }

  lemma TwentyValue()
    ensures AllDigits("20") && DigitsValue("20") == 20
  {
    assert "20"[..1] == "2";
    assert "2"[..0] == "";
  }

  /** A digit string p in front of a digit string t reads as p followed by t's digits. */
  lemma DigitsPrefix(p: string, t: string)
    requires IsDigits(p) && IsDigits(t)
    ensures ParseInt(p + t) == Some(DigitsValue(p) * Pow10(|t|) + DigitsValue(t))
  {
    DigitsValueAppend(p, t);
    var s := p + t;
    assert s[0] == p[0];
    assert IsDigits(s);
  }

  /** A last row "<abbr> <t>" names the month of abbr in the year of "20" + t. */
  lemma LastWindowOfPair(rows: seq<MonthRow>, abbr: string, t: string, close: Option<real>, m: int, year: int)
    requires IsToken(abbr) && IsToken(t)
    requires MonthNumber(abbr) == Some(m) && ParseInt("20" + t) == Some(year)
    ensures LastWindow(rows + [MonthRow(abbr + " " + t, close)]) == Success(Window(m, year))
  {
    WordsOfPair(abbr, t);
    var all := rows + [MonthRow(abbr + " " + t, close)];
    assert all[|all| - 1].quarterEnd == abbr + " " + t;
  }

  /** The label "<Mon> <yy>" of a two-digit year names that month of 20yy. */
  lemma LastWindowOfLabel(rows: seq<MonthRow>, abbr: string, m: int, yy: int, close: Option<real>)
    requires MonthNumber(abbr) == Some(m) && 0 <= yy < 100
    ensures LastWindow(rows + [MonthRow(abbr + " " + Pad2(yy), close)]) == Success(Window(m, 2000 + yy))
  {
    var t := Pad2(yy);
    Pad2RoundTrip(yy);
    assert DigitsValue(t) == yy;
    AbbrIsToken(abbr);
    TwentyValue();
    DigitsPrefix("20", t);
    assert Pow10(2) == 100;
    LastWindowOfPair(rows, abbr, t, close, m, 2000 + yy);
  }

  /** str(year) of a four-digit year has four digits and reads back as year. */
  lemma FourDigits(year: int)
    requires 1000 <= year <= 9999
    ensures |IntToString(year)| == 4 && IsDigits(IntToString(year))
    ensures DigitsValue(IntToString(year)) == year
  {
    var t := IntToString(year);
    assert t == NatToString(year / 10) + [DigitChar(year % 10)];
    assert NatToString(year / 10) == NatToString(year / 100) + [DigitChar(year / 10 % 10)];
    assert NatToString(year / 100) == NatToString(year / 1000) + [DigitChar(year / 100 % 10)];
    NatToStringRoundTrip(year);
  }

  /** A label that already carries the four-digit year is read with "20" in
      front of it: "Mar 2024" names the year 202024. */
  lemma FourDigitYearMisread(rows: seq<MonthRow>, abbr: string, m: int, year: int, close: Option<real>)
    requires MonthNumber(abbr) == Some(m) && 1000 <= year <= 9999
    ensures LastWindow(rows + [MonthRow(abbr + " " + IntToString(year), close)]) == Success(Window(m, 200000 + year))
  {
    var t := IntToString(year);
    FourDigits(year);
    AbbrIsToken(abbr);
    TwentyValue();
    DigitsPrefix("20", t);
    assert Pow10(4) == 10000;
    LastWindowOfPair(rows, abbr, t, close, m, 200000 + year);
  }

  // ---------------------------------------------------------------------
  // Fetching until today (lines 271-288)

  /** How the loop compares the next window with today: as the scraper
      writes it, month and year separately, or in calendar order. */
  datatype Guard = Componentwise | Chronological

  /** The loop condition.  Under either guard the loop only goes on while next
      is not after today; in calendar order it goes on for every such window. */
  function Continue(g: Guard, next: Window, today: Window): (b: bool)
    ensures b ==> Index(next) <= Index(today)
    ensures g == Chronological && Index(next) <= Index(today) ==> b
  {
    match g
    case Componentwise => next.year <= today.year && next.month <= today.month
    case Chronological => Index(next) <= Index(today)
  }

  /** Every page fetched for a window up to today is non-empty and ends no
      earlier than that window, so the next window moves past it. */
  ghost predicate Progressing(fetch: Window -> Result<seq<MonthRow>>, today: Window) {
    forall w: Window :: Index(w) <= Index(today) ==> ProgressesAt(fetch, w)
  }

  /** The page fetched for w, if any, is non-empty and ends no earlier than w. */
  ghost predicate ProgressesAt(fetch: Window -> Result<seq<MonthRow>>, w: Window) {
    fetch(w).Success? ==>
      && |fetch(w).value| > 0
      && (LastWindow(fetch(w).value).Success? ==> Index(LastWindow(fetch(w).value).value) >= Index(w))
  }

  /** What the loop did: the windows it fetched, the pages they gave, the
      accumulated table or the error raised, and whether it stopped because a
      page did not move the next window forward. */
  datatype Run = Run(windows: seq<Window>, pages: seq<seq<MonthRow>>, outcome: Result<seq<MonthRow>>, stalled: bool)

  function Concat(pages: seq<seq<MonthRow>>): (r: seq<MonthRow>)
    ensures |r| == TotalLength(pages)
  {
    if |pages| == 0 then [] else pages[0] + Concat(pages[1..])
  }

  /** The number of rows of all the pages together. */
  function TotalLength(pages: seq<seq<MonthRow>>): nat {
    if |pages| == 0 then 0 else |pages[0]| + TotalLength(pages[1..])
  }

  lemma ConcatCons(p: seq<MonthRow>, ps: seq<seq<MonthRow>>)
    ensures Concat([p] + ps) == p + Concat(ps)
  {
    assert ([p] + ps)[1..] == ps;
  }

  /** What is left of the loop: nothing once the guard fails or the next window
      is no later than the one fetched last, else the months up to today. */
  function Measure(g: Guard, prev: Window, next: Window, today: Window): nat {
    if Continue(g, next, today) && Index(prev) < Index(next) then Index(today) - Index(next) + 1 else 0
  }

  /** The loop from the window `next` on, with `acc` fetched so far, `next` the
      window after its last row and `prev` the window fetched last.  As written
      the loop fetches `next` even when it is no later than `prev`: when it is
      `prev` itself, the same window for ever (StalledLoopRepeats), and when it
      is earlier, a window already behind it, whose rows are appended again.
      Here it stops with NoProgress instead. */
  function Loop(fetch: Window -> Result<seq<MonthRow>>, g: Guard, acc: seq<MonthRow>,
                prev: Window, next: Window, today: Window): (r: Run)
    requires NextMonthYear(acc) == Success(next)
    ensures |r.pages| == |r.windows|
    ensures !Continue(g, next, today) ==> r == Run([], [], Success(acc), false)
    ensures Continue(g, next, today) && Index(next) <= Index(prev) ==>
      r == Run([], [], Failure(NoProgress(prev.month, prev.year)), true)
    ensures Continue(g, next, today) && Index(prev) < Index(next) ==>
      && (fetch(next).Failure? ==> r == Run([], [], Failure(fetch(next).error), false))
      && (fetch(next).Success? ==> r.windows != [] && r.windows[0] == next && r.pages[0] == fetch(next).value)
    ensures r.stalled ==> r.outcome.Failure? && r.outcome.error.NoProgress?
    decreases Measure(g, prev, next, today)
  {
    if !Continue(g, next, today) then
      Run([], [], Success(acc), false)
    else if Index(next) <= Index(prev) then
      Run([], [], Failure(NoProgress(prev.month, prev.year)), true)
    else
      match fetch(next)
      case Failure(e) => Run([], [], Failure(e), false)
      case Success(page) =>
        var df := acc + page;
        match NextMonthYear(df)
        case Failure(e) => Run([next], [page], Failure(e), false)
        case Success(n2) =>
          var rest := Loop(fetch, g, df, next, n2, today);
          Run([next] + rest.windows, [page] + rest.pages, rest.outcome, rest.stalled)
  }

  /** The loop returns what it had plus every page it fetched, in order. */
  lemma {:induction false} LoopAppends(fetch: Window -> Result<seq<MonthRow>>, g: Guard, acc: seq<MonthRow>,
                                       prev: Window, next: Window, today: Window)
    requires NextMonthYear(acc) == Success(next)
    ensures var r := Loop(fetch, g, acc, prev, next, today);
      r.outcome.Success? ==> r.outcome.value == acc + Concat(r.pages)
    decreases Measure(g, prev, next, today)
  {
    var r := Loop(fetch, g, acc, prev, next, today);
    if !Continue(g, next, today) {
      assert r.pages == [];
      assert acc + Concat([]) == acc;
    } else if Index(prev) < Index(next) && fetch(next).Success? {
      var page := fetch(next).value;
      var df := acc + page;
      if NextMonthYear(df).Success? {
        var n2 := NextMonthYear(df).value;
        var rest := Loop(fetch, g, df, next, n2, today);
        assert r == Run([next] + rest.windows, [page] + rest.pages, rest.outcome, rest.stalled);
        LoopAppends(fetch, g, df, next, n2, today);
        if r.outcome.Success? {
          ConcatCons(page, rest.pages);
          SeqAssoc(acc, page, Concat(rest.pages));
        }
      }
    }
  }

  lemma SeqAssoc(a: seq<MonthRow>, b: seq<MonthRow>, c: seq<MonthRow>)
    ensures (a + b) + c == a + (b + c)
  {
  }

  /** The loop stops only when the guard fails for the window after the last
      row of what it returns. */
  lemma {:induction false} LoopStops(fetch: Window -> Result<seq<MonthRow>>, g: Guard, acc: seq<MonthRow>,
                                     prev: Window, next: Window, today: Window)
    requires NextMonthYear(acc) == Success(next)
    ensures var r := Loop(fetch, g, acc, prev, next, today);
      r.outcome.Success? ==>
        NextMonthYear(r.outcome.value).Success? && !Continue(g, NextMonthYear(r.outcome.value).value, today)
    decreases Measure(g, prev, next, today)
  {
    if Continue(g, next, today) && Index(prev) < Index(next) && fetch(next).Success? {
      var df := acc + fetch(next).value;
      if NextMonthYear(df).Success? {
        LoopStops(fetch, g, df, next, NextMonthYear(df).value, today);
      }
    }
  }

  /** Each window passed the guard and was fetched into the page beside it. */
  predicate AllFetched(fetch: Window -> Result<seq<MonthRow>>, g: Guard, today: Window,
                       windows: seq<Window>, pages: seq<seq<MonthRow>>)
  {
    && |windows| == |pages|
    && forall i :: 0 <= i < |windows| ==> Continue(g, windows[i], today) && fetch(windows[i]) == Success(pages[i])
  }

  /** Each window after the first is the month after the last row of the page before it. */
  predicate Chained(windows: seq<Window>, pages: seq<seq<MonthRow>>)
    requires |windows| == |pages|
  {
    forall i :: 0 < i < |windows| ==> NextMonthYear(pages[i - 1]) == Success(windows[i])
  }

  /** Each window is later than the one before it. */
  predicate Advancing(windows: seq<Window>) {
    forall i :: 0 < i < |windows| ==> Index(windows[i - 1]) < Index(windows[i])
  }

  lemma AllFetchedCons(fetch: Window -> Result<seq<MonthRow>>, g: Guard, today: Window,
                       w: Window, p: seq<MonthRow>, windows: seq<Window>, pages: seq<seq<MonthRow>>)
    requires Continue(g, w, today) && fetch(w) == Success(p)
    requires AllFetched(fetch, g, today, windows, pages)
    ensures AllFetched(fetch, g, today, [w] + windows, [p] + pages)
  {
    var ws, ps := [w] + windows, [p] + pages;
    forall i | 0 <= i < |ws|
      ensures Continue(g, ws[i], today) && fetch(ws[i]) == Success(ps[i])
    {
      if i > 0 {
        assert ws[i] == windows[i - 1] && ps[i] == pages[i - 1];
      }
    }
  }

  lemma ChainedCons(w: Window, p: seq<MonthRow>, windows: seq<Window>, pages: seq<seq<MonthRow>>)
    requires |windows| == |pages| && Chained(windows, pages)
    requires windows != [] ==> NextMonthYear(p) == Success(windows[0])
    ensures Chained([w] + windows, [p] + pages)
  {
    var ws, ps := [w] + windows, [p] + pages;
    forall i | 0 < i < |ws|
      ensures NextMonthYear(ps[i - 1]) == Success(ws[i])
    {
      assert ws[i] == windows[i - 1];
      if i > 1 {
        assert ps[i - 1] == pages[i - 2];
      }
    }
  }

  lemma AdvancingCons(w: Window, windows: seq<Window>)
    requires Advancing(windows)
    requires windows != [] ==> Index(w) < Index(windows[0])
    ensures Advancing([w] + windows)
  {
    var ws := [w] + windows;
    forall i | 0 < i < |ws|
      ensures Index(ws[i - 1]) < Index(ws[i])
    {
      assert ws[i] == windows[i - 1];
      if i > 1 {
        assert ws[i - 1] == windows[i - 2];
      }
    }
  }

  /** Every window the loop visits passed the guard and was fetched into the page recorded for it. */
  lemma {:induction false} LoopFetches(fetch: Window -> Result<seq<MonthRow>>, g: Guard, acc: seq<MonthRow>,
                                       prev: Window, next: Window, today: Window)
    requires NextMonthYear(acc) == Success(next)
    ensures var r := Loop(fetch, g, acc, prev, next, today); AllFetched(fetch, g, today, r.windows, r.pages)
    decreases Measure(g, prev, next, today)
  {
    var r := Loop(fetch, g, acc, prev, next, today);
    if Continue(g, next, today) && Index(prev) < Index(next) && fetch(next).Success? {
      var page := fetch(next).value;
      var df := acc + page;
      if NextMonthYear(df).Success? {
        var n2 := NextMonthYear(df).value;
        LoopFetches(fetch, g, df, next, n2, today);
        var rest := Loop(fetch, g, df, next, n2, today);
        assert r.windows == [next] + rest.windows && r.pages == [page] + rest.pages;
        AllFetchedCons(fetch, g, today, next, page, rest.windows, rest.pages);
      } else {
        AllFetchedCons(fetch, g, today, next, page, [], []);
      }
    }
  }

  /** The loop starts at next, and each later window is the month after the last row of the page before it. */
  lemma {:induction false} LoopChains(fetch: Window -> Result<seq<MonthRow>>, g: Guard, acc: seq<MonthRow>,
                                      prev: Window, next: Window, today: Window)
    requires NextMonthYear(acc) == Success(next)
    ensures var r := Loop(fetch, g, acc, prev, next, today);
      && (r.windows != [] ==> r.windows[0] == next)
      && Chained(r.windows, r.pages)
    decreases Measure(g, prev, next, today)
  {
    var r := Loop(fetch, g, acc, prev, next, today);
    if Continue(g, next, today) && Index(prev) < Index(next) && fetch(next).Success? {
      var page := fetch(next).value;
      var df := acc + page;
      if NextMonthYear(df).Success? {
        var n2 := NextMonthYear(df).value;
        LoopChains(fetch, g, df, next, n2, today);
        var rest := Loop(fetch, g, df, next, n2, today);
        assert r.windows == [next] + rest.windows && r.pages == [page] + rest.pages;
        if |page| > 0 {
          NextUsesLastRow(acc, page);
        } else {
          assert df == acc;
        }
        ChainedCons(next, page, rest.windows, rest.pages);
      }
    }
  }

  /** Every window the loop fetches is later than the one fetched before it. */
  lemma {:induction false} LoopAdvances(fetch: Window -> Result<seq<MonthRow>>, g: Guard, acc: seq<MonthRow>,
                                        prev: Window, next: Window, today: Window)
    requires NextMonthYear(acc) == Success(next)
    ensures var r := Loop(fetch, g, acc, prev, next, today);
      && (r.windows != [] ==> Index(prev) < Index(r.windows[0]))
      && Advancing(r.windows)
    decreases Measure(g, prev, next, today)
  {
    var r := Loop(fetch, g, acc, prev, next, today);
    if Continue(g, next, today) && Index(prev) < Index(next) && fetch(next).Success? {
      var df := acc + fetch(next).value;
      if NextMonthYear(df).Success? {
        var n2 := NextMonthYear(df).value;
        LoopAdvances(fetch, g, df, next, n2, today);
        var rest := Loop(fetch, g, df, next, n2, today);
        assert r.windows == [next] + rest.windows;
        AdvancingCons(next, rest.windows);
      }
    }
  }

  /** Where every page up to today moves the next window forward, the loop
      never takes the NoProgress stop: it runs exactly as written. */
  lemma {:induction false} LoopNeverStalls(fetch: Window -> Result<seq<MonthRow>>, g: Guard, acc: seq<MonthRow>,
                                           prev: Window, next: Window, today: Window)
    requires Progressing(fetch, today)
    requires NextMonthYear(acc) == Success(next)
    requires Continue(g, next, today) ==> Index(prev) < Index(next)
    ensures !Loop(fetch, g, acc, prev, next, today).stalled
    decreases Measure(g, prev, next, today)
  {
    if Continue(g, next, today) && fetch(next).Success? {
      var page := fetch(next).value;
      var df := acc + page;
      assert ProgressesAt(fetch, next);
      NextUsesLastRow(acc, page);
      if NextMonthYear(df).Success? {
        LoopNeverStalls(fetch, g, df, next, NextMonthYear(df).value, today);
      }
    }
  }

  /** The page of w can be fetched and its last row names a month and year. */
  ghost predicate ReadsCleanly(fetch: Window -> Result<seq<MonthRow>>, w: Window) {
    fetch(w).Success? && LastWindow(fetch(w).value).Success?
  }

  /** Every window up to today reads cleanly. */
  ghost predicate Readable(fetch: Window -> Result<seq<MonthRow>>, today: Window) {
    forall w: Window :: Index(w) <= Index(today) ==> ReadsCleanly(fetch, w)
  }

  /** Where every page up to today can be fetched, names its month in its last
      row and moves the next window forward, the loop succeeds. */
  lemma {:induction false} LoopSucceeds(fetch: Window -> Result<seq<MonthRow>>, g: Guard, acc: seq<MonthRow>,
                                        prev: Window, next: Window, today: Window)
    requires Progressing(fetch, today) && Readable(fetch, today)
    requires NextMonthYear(acc) == Success(next)
    requires Continue(g, next, today) ==> Index(prev) < Index(next)
    ensures Loop(fetch, g, acc, prev, next, today).outcome.Success?
    decreases Measure(g, prev, next, today)
  {
    if Continue(g, next, today) {
      assert ReadsCleanly(fetch, next) && ProgressesAt(fetch, next);
      var page := fetch(next).value;
      var df := acc + page;
      NextUsesLastRow(acc, page);
      LoopSucceeds(fetch, g, df, next, NextMonthYear(df).value, today);
    }
  }

  /** The window fetched last: the last one recorded, or `prev` when none was. */
  function LastFetched(prev: Window, windows: seq<Window>): Window {
    if windows == [] then prev else windows[|windows| - 1]
  }

  /** A run from `acc`, after the window `prev`, that failed without taking the
      NoProgress stop failed at its last step: the reading of the next window
      from the table with every page appended, or the fetch of that window,
      which the guard passed and which is later than the window fetched last. */
  ghost predicate FailsAtEnd(fetch: Window -> Result<seq<MonthRow>>, g: Guard, today: Window,
                             acc: seq<MonthRow>, prev: Window, r: Run)
  {
    var n := NextMonthYear(acc + Concat(r.pages));
    r.outcome.Failure? && !r.stalled ==>
      || (r.pages != [] && n.Failure? && r.outcome.error == n.error)
      || (&& n.Success? && Continue(g, n.value, today)
          && Index(LastFetched(prev, r.windows)) < Index(n.value)
          && fetch(n.value) == Failure(r.outcome.error))
  }

  /** A run from `acc`, after the window `prev`, that took the NoProgress stop
      took it at the window after the table with every page appended: the
      guard passed it, it is no later than the window fetched last, and the
      error names that last window. */
  ghost predicate StallsAtEnd(g: Guard, today: Window, acc: seq<MonthRow>, prev: Window, r: Run) {
    var n := NextMonthYear(acc + Concat(r.pages));
    var last := LastFetched(prev, r.windows);
    r.stalled ==>
      && n.Success? && Continue(g, n.value, today) && Index(n.value) <= Index(last)
      && r.outcome == Failure(NoProgress(last.month, last.year))
  }

  /** Both descriptions carry over from the rest of a run to the run with one
      more page `page` fetched at `next` in front. */
  lemma EndsCons(fetch: Window -> Result<seq<MonthRow>>, g: Guard, today: Window, acc: seq<MonthRow>,
                 prev: Window, next: Window, page: seq<MonthRow>, rest: Run)
    requires FailsAtEnd(fetch, g, today, acc + page, next, rest)
    requires StallsAtEnd(g, today, acc + page, next, rest)
    ensures var r := Run([next] + rest.windows, [page] + rest.pages, rest.outcome, rest.stalled);
      FailsAtEnd(fetch, g, today, acc, prev, r) && StallsAtEnd(g, today, acc, prev, r)
  {
    var r := Run([next] + rest.windows, [page] + rest.pages, rest.outcome, rest.stalled);
    ConcatCons(page, rest.pages);
    SeqAssoc(acc, page, Concat(rest.pages));
    assert acc + Concat(r.pages) == (acc + page) + Concat(rest.pages);
    assert LastFetched(prev, r.windows) == LastFetched(next, rest.windows);
  }

  /** How a loop ends: a failure without the NoProgress stop is `FailsAtEnd`,
      the NoProgress stop is `StallsAtEnd`. */
  lemma {:induction false} LoopEnds(fetch: Window -> Result<seq<MonthRow>>, g: Guard, acc: seq<MonthRow>,
                                    prev: Window, next: Window, today: Window)
    requires NextMonthYear(acc) == Success(next)
    ensures var r := Loop(fetch, g, acc, prev, next, today);
      FailsAtEnd(fetch, g, today, acc, prev, r) && StallsAtEnd(g, today, acc, prev, r)
    decreases Measure(g, prev, next, today)
  {
    var r := Loop(fetch, g, acc, prev, next, today);
    if !Continue(g, next, today) {
    } else if Index(next) <= Index(prev) || fetch(next).Failure? {
      assert acc + Concat(r.pages) == acc;
    } else {
      var page := fetch(next).value;
      var df := acc + page;
      if NextMonthYear(df).Failure? {
        assert r.pages == [page] + [];
        ConcatCons(page, []);
        assert acc + Concat(r.pages) == df;
      } else {
        var n2 := NextMonthYear(df).value;
        var rest := Loop(fetch, g, df, next, n2, today);
        LoopEnds(fetch, g, df, next, n2, today);
        EndsCons(fetch, g, today, acc, prev, next, page, rest);
      }
    }
  }

  /** _recurse_until_today: the first page at `from`, then the loop. */
  function Recursion(fetch: Window -> Result<seq<MonthRow>>, g: Guard, from: Window, today: Window): (r: Run)
    ensures |r.pages| == |r.windows|
    ensures fetch(from).Failure? ==> r == Run([], [], Failure(fetch(from).error), false)
    ensures r.windows != [] ==> r.windows[0] == from && fetch(from) == Success(r.pages[0])
  {
    match fetch(from)
    case Failure(e) => Run([], [], Failure(e), false)
    case Success(first) =>
      match NextMonthYear(first)
      case Failure(e) => Run([from], [first], Failure(e), false)
      case Success(n) =>
        var rest := Loop(fetch, g, first, from, n, today);
        Run([from] + rest.windows, [first] + rest.pages, rest.outcome, rest.stalled)
  }

  /** The result of the whole recursion is every fetched page concatenated in
      fetch order, nothing removed: its length is the sum of the page lengths,
      and the guard fails for the window after the result. */
  lemma RecursionConcatenates(fetch: Window -> Result<seq<MonthRow>>, g: Guard, from: Window, today: Window)
    ensures var r := Recursion(fetch, g, from, today);
      r.outcome.Success? ==>
        && r.windows != []
        && r.outcome.value == Concat(r.pages) && |r.outcome.value| == TotalLength(r.pages)
        && NextMonthYear(r.outcome.value).Success?
        && !Continue(g, NextMonthYear(r.outcome.value).value, today)
  {
    var r := Recursion(fetch, g, from, today);
    if fetch(from).Success? && NextMonthYear(fetch(from).value).Success? {
      var first := fetch(from).value;
      var n := NextMonthYear(first).value;
      LoopAppends(fetch, g, first, from, n, today);
      LoopStops(fetch, g, first, from, n, today);
      var rest := Loop(fetch, g, first, from, n, today);
      assert r.pages == [first] + rest.pages;
      ConcatCons(first, rest.pages);
    }
  }

  /** Every window the recursion visits was fetched into its page; every window
      after the first passed the guard and is the window after the previous page. */
  lemma RecursionFetches(fetch: Window -> Result<seq<MonthRow>>, g: Guard, from: Window, today: Window)
    ensures var r := Recursion(fetch, g, from, today);
      && (forall i :: 0 <= i < |r.pages| ==> fetch(r.windows[i]) == Success(r.pages[i]))
      && (forall i :: 0 < i < |r.windows| ==> Continue(g, r.windows[i], today))
      && Chained(r.windows, r.pages)
  {
    var r := Recursion(fetch, g, from, today);
    if fetch(from).Success? && NextMonthYear(fetch(from).value).Success? {
      var first := fetch(from).value;
      var n := NextMonthYear(first).value;
      LoopFetches(fetch, g, first, from, n, today);
      LoopChains(fetch, g, first, from, n, today);
      var rest := Loop(fetch, g, first, from, n, today);
      assert r.windows == [from] + rest.windows && r.pages == [first] + rest.pages;
      ChainedCons(from, first, rest.windows, rest.pages);
      forall i | 0 <= i < |r.windows|
        ensures fetch(r.windows[i]) == Success(r.pages[i]) && (i > 0 ==> Continue(g, r.windows[i], today))
      {
        if i > 0 {
          assert r.windows[i] == rest.windows[i - 1] && r.pages[i] == rest.pages[i - 1];
        }
      }
    }
  }

  /** The windows fetched are in strictly increasing calendar order, so no
      window is fetched twice, whatever the pages are. */
  lemma RecursionAdvances(fetch: Window -> Result<seq<MonthRow>>, g: Guard, from: Window, today: Window)
    ensures var r := Recursion(fetch, g, from, today);
      forall i, j :: 0 <= i < j < |r.windows| ==> Index(r.windows[i]) < Index(r.windows[j])
  {
    var r := Recursion(fetch, g, from, today);
    if fetch(from).Success? && NextMonthYear(fetch(from).value).Success? {
      var first := fetch(from).value;
      var n := NextMonthYear(first).value;
      LoopAdvances(fetch, g, first, from, n, today);
      var rest := Loop(fetch, g, first, from, n, today);
      assert r.windows == [from] + rest.windows;
      AdvancingCons(from, rest.windows);
    }
    AdvancingOrdered(r.windows);
  }

  lemma {:induction false} AdvancingOrdered(ws: seq<Window>)
    requires Advancing(ws)
    ensures forall i, j :: 0 <= i < j < |ws| ==> Index(ws[i]) < Index(ws[j])
  {
    if |ws| > 1 {
      var init := ws[..|ws| - 1];
      assert Advancing(init) by {
        forall i | 0 < i < |init| ensures Index(init[i - 1]) < Index(init[i]) {
          assert init[i - 1] == ws[i - 1] && init[i] == ws[i];
        }
      }
      AdvancingOrdered(init);
      forall i, j | 0 <= i < j < |ws| ensures Index(ws[i]) < Index(ws[j]) {
        if j < |ws| - 1 {
          assert ws[i] == init[i] && ws[j] == init[j];
        } else if i < j - 1 {
          assert ws[i] == init[i] && ws[j - 1] == init[j - 1];
        }
      }
    }
  }

  /** Where the first page and every page up to today move the next window
      forward, the NoProgress stop is never taken. */
  lemma RecursionNeverStalls(fetch: Window -> Result<seq<MonthRow>>, g: Guard, from: Window, today: Window)
    requires Progressing(fetch, today) && ProgressesAt(fetch, from)
    ensures !Recursion(fetch, g, from, today).stalled
  {
    if fetch(from).Success? {
      var first := fetch(from).value;
      if NextMonthYear(first).Success? {
        LoopNeverStalls(fetch, g, first, from, NextMonthYear(first).value, today);
      }
    }
  }

  /** Where the first page and every page up to today can be fetched, name
      their month in their last row and move the next window forward, the
      recursion succeeds. */
  lemma RecursionSucceeds(fetch: Window -> Result<seq<MonthRow>>, g: Guard, from: Window, today: Window)
    requires Progressing(fetch, today) && ProgressesAt(fetch, from)
    requires Readable(fetch, today) && ReadsCleanly(fetch, from)
    ensures Recursion(fetch, g, from, today).outcome.Success?
  {
    var first := fetch(from).value;
    var n := NextMonthYear(first).value;
    LoopSucceeds(fetch, g, first, from, n, today);
  }

  /** A recursion that fails without taking the NoProgress stop failed at its
      last step: the fetch of `from`, the reading of the next window from the
      pages fetched, or the fetch of that window, which the guard passed and
      which is later than the window fetched last. */
  lemma RecursionFailure(fetch: Window -> Result<seq<MonthRow>>, g: Guard, from: Window, today: Window)
    ensures var r := Recursion(fetch, g, from, today);
      var n := NextMonthYear(Concat(r.pages));
      r.outcome.Failure? && !r.stalled ==>
        || (r.pages == [] && fetch(from) == Failure(r.outcome.error))
        || (r.pages != [] && n.Failure? && r.outcome.error == n.error)
        || (&& r.pages != [] && n.Success? && Continue(g, n.value, today)
            && Index(r.windows[|r.windows| - 1]) < Index(n.value)
            && fetch(n.value) == Failure(r.outcome.error))
  {
    var r := Recursion(fetch, g, from, today);
    if fetch(from).Success? {
      var first := fetch(from).value;
      if NextMonthYear(first).Failure? {
        assert r.pages == [first] + [];
        ConcatCons(first, []);
      } else {
        var n := NextMonthYear(first).value;
        var rest := Loop(fetch, g, first, from, n, today);
        LoopEnds(fetch, g, first, from, n, today);
        assert r.windows == [from] + rest.windows && r.pages == [first] + rest.pages;
        ConcatCons(first, rest.pages);
        assert LastFetched(from, rest.windows) == r.windows[|r.windows| - 1];
      }
    }
  }

  /** A recursion that takes the NoProgress stop took it at the window after
      the pages fetched: the guard passed it, it is no later than the window
      fetched last, and the error names that last window. */
  lemma RecursionStall(fetch: Window -> Result<seq<MonthRow>>, g: Guard, from: Window, today: Window)
    ensures var r := Recursion(fetch, g, from, today);
      var n := NextMonthYear(Concat(r.pages));
      r.stalled ==>
        && r.windows != [] && n.Success? && Continue(g, n.value, today)
        && var last := r.windows[|r.windows| - 1];
        && Index(n.value) <= Index(last)
        && r.outcome == Failure(NoProgress(last.month, last.year))
  {
    var r := Recursion(fetch, g, from, today);
    if fetch(from).Success? && NextMonthYear(fetch(from).value).Success? {
      var first := fetch(from).value;
      var n := NextMonthYear(first).value;
      var rest := Loop(fetch, g, first, from, n, today);
      LoopEnds(fetch, g, first, from, n, today);
      assert r.windows == [from] + rest.windows && r.pages == [first] + rest.pages;
      ConcatCons(first, rest.pages);
      assert LastFetched(from, rest.windows) == r.windows[|r.windows| - 1];
    }
  }

  /** Lines 271-288: fetch the first window, then fetch and append while the
      guard holds, each next window read from the accumulated table; the loop
      gives up with NoProgress where a page leaves the next window no later
      than the window just fetched. */
  method RecurseUntilToday(fetch: Window -> Result<seq<MonthRow>>, g: Guard, from: Window, today: Window)
    returns (r: Result<seq<MonthRow>>)
    ensures r == Recursion(fetch, g, from, today).outcome
  {
    var first := fetch(from);
    if first.Failure? {
      return Failure(first.error);
    }
    var df := first.value;
    var nx := NextMonthYear(df);
    if nx.Failure? {
      return Failure(nx.error);
    }
    var prev, next := from, nx.value;
    while Continue(g, next, today)
      invariant NextMonthYear(df) == Success(next)
      invariant Recursion(fetch, g, from, today).outcome == Loop(fetch, g, df, prev, next, today).outcome
      decreases Measure(g, prev, next, today)
    {
      if Index(next) <= Index(prev) {
        return Failure(NoProgress(prev.month, prev.year));
      }
      var page := fetch(next);
      if page.Failure? {
        return Failure(page.error);
      }
      df := df + page.value;
      nx := NextMonthYear(df);
      if nx.Failure? {
        return Failure(nx.error);
      }
      prev, next := next, nx.value;
    }
    r := Success(df);
  }

  // ---------------------------------------------------------------------
  // The loop body as written, on a page that does not move forward

  /** The variables the loop body updates: the accumulated table and the next window. */
  datatype State = State(df: seq<MonthRow>, next: Window)

  /** One pass of the loop body as written (lines 283-286): fetch `next`,
      append its page, and read the next window from the result. */
  function Step(fetch: Window -> Result<seq<MonthRow>>, s: State): (r: Result<State>)
    ensures r.Success? <==> fetch(s.next).Success? && NextMonthYear(s.df + fetch(s.next).value).Success?
    ensures r.Success? ==>
      r.value.df == s.df + fetch(s.next).value && NextMonthYear(r.value.df) == Success(r.value.next)
  {
    match fetch(s.next)
    case Failure(e) => Failure(e)
    case Success(page) =>
      match NextMonthYear(s.df + page)
      case Failure(e) => Failure(e)
      case Success(n) => Success(State(s.df + page, n))
  }

  /** k passes of the loop body as written, the guard aside. */
  function Steps(fetch: Window -> Result<seq<MonthRow>>, s: State, k: nat): (r: Result<State>)
    ensures r.Success? ==> |s.df| <= |r.value.df| && r.value.df[..|s.df|] == s.df
    ensures r.Success? && k > 0 ==> NextMonthYear(r.value.df) == Success(r.value.next)
    decreases k
  {
    if k == 0 then Success(s)
    else
      match Step(fetch, s)
      case Failure(e) => Failure(e)
      case Success(t) =>
        var r := Steps(fetch, t, k - 1);
        assert r.Success? ==> r.value.df[..|s.df|] == r.value.df[..|t.df|][..|s.df|];
        assert t.df[..|s.df|] == s.df;
        r
  }

  /** As written, a page after which the next window is still the one just
      fetched (an empty page, or one whose last row is the month before) is
      fetched again on every pass: after any number of passes the next window
      is unchanged, so the guard, which reads only it and today, never fails. */
  lemma {:induction false} StalledLoopRepeats(fetch: Window -> Result<seq<MonthRow>>, df: seq<MonthRow>,
                                              next: Window, page: seq<MonthRow>, k: nat)
    requires fetch(next) == Success(page)
    requires NextMonthYear(df + page) == Success(next)
    ensures Steps(fetch, State(df, next), k).Success?
    ensures Steps(fetch, State(df, next), k).value.next == next
    decreases k
  {
    if k > 0 {
      assert Step(fetch, State(df, next)) == Success(State(df + page, next));
      StallPersists(df, page, next);
      StalledLoopRepeats(fetch, df + page, next, page, k - 1);
    }
  }

  /** Appending the stalled page once more leaves the next window where it was. */
  lemma StallPersists(df: seq<MonthRow>, page: seq<MonthRow>, next: Window)
    requires NextMonthYear(df + page) == Success(next)
    ensures NextMonthYear(df + page + page) == Success(next)
  {
    if |page| > 0 {
      NextUsesLastRow(df + page, page);
      NextUsesLastRow(df, page);
    } else {
      assert df + page + page == df + page;
    }
  }

  // ---------------------------------------------------------------------
  // The guard as written and in calendar order

  /** As written, the guard compares month and year separately: when the month
      after the first page is in an earlier year but a later month than today
      (December 2020 against January 2021), the loop never runs, and that month
      and every month up to today are never fetched. */
  lemma ComponentwiseStopsEarly(fetch: Window -> Result<seq<MonthRow>>, from: Window, today: Window,
                                page: seq<MonthRow>, n: Window)
    requires fetch(from) == Success(page) && NextMonthYear(page) == Success(n)
    requires 1 <= today.month && n.year < today.year && n.month > today.month
    ensures Index(n) <= Index(today)
    ensures Recursion(fetch, Componentwise, from, today) == Run([from], [page], Success(page), false)
  {
    assert !Continue(Componentwise, n, today);
    assert Loop(fetch, Componentwise, page, from, n, today) == Run([], [], Success(page), false);
    assert [from] + [] == [from] && [page] + [] == [page];
  }

  /** In calendar order the loop stops only once the month after the last row
      is after today, and every month it fetched was not after today. */
  lemma ChronologicalReachesToday(fetch: Window -> Result<seq<MonthRow>>, from: Window, today: Window)
    ensures var r := Recursion(fetch, Chronological, from, today);
      && (forall i :: 0 < i < |r.windows| ==> Index(r.windows[i]) <= Index(today))
      && (r.outcome.Success? ==>
            var n := NextMonthYear(r.outcome.value); n.Success? && Index(n.value) > Index(today))
  {
    RecursionConcatenates(fetch, Chronological, from, today);
    RecursionFetches(fetch, Chronological, from, today);
  }
}
