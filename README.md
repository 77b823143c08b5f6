# BSE closing prices: a verified model of the scraper core

The repository scrapes monthly closing prices of a scrip from the BSE
(Bombay Stock Exchange) price-history page and keeps the quarter-end months. It has two
scrapers:

- **`bse_scraper.py`** drives a browser.
  - `_pick_monthly_data` picks the monthly table out of the rendered page and normalises it to a Month and a Close column.
  - `_extract_qtrly_dates` keeps the quarter-end rows, labels them `"mar 2024"`, reads the closing price and sorts them from the latest quarter back.
- **`bse_scraper_v2.py`** talks to the ASP.NET form directly.
  - It harvests the `<input>` fields of the page, insists on the `__VIEWSTATE`-style state tokens, keeps the selected settlement and overlays the monthly-report fields.
  - It posts the form and decomposes the answer into a `Quarter End`/`Close` table, falling back to the CSV download postback when that fails.
  - It then keeps fetching the month after the last row until the current month, and filters the quarter-end rows.

The model is in Dafny. It has one module per part of the program:

| module | file | models |
|---|---|---|
| `Wrappers` | wrappers.dfy | `Option`, `Result`, and one `Error` constructor per exception the code raises |
| `Text` | text.dfy | the Python string operations the code uses: `strip`, `lower`, `title`, `split`, `int`, `str`, `f"{m:02d}"`, `replace(",", "")`, the word-boundary regular expressions |
| `Frames` | frames.dfy | a pandas frame as column labels (string, integer position, tuple) over rows of cell strings; `next(... for c in columns ...)`, masks, `frame[[a, b]]` |
| `Normaliser` | normaliser.dfy | `_pick_monthly_data` |
| `QuarterEnds` | quarters.dfy | `_extract_qtrly_dates` |
| `FormPost` | form_post.dfy | `_collect_inputs`, `_get_settlement_value`, the token check, the payload update and the mirror fields |
| `MonthlyPage` | monthly_page.dfy | `_find_monthly_table_html`, `_decompose_monthly_table` and `_get_monthly_table` with its download fallback |
| `Paginator` | paginator.dfy | `_get_quarterly_dates`, `_calculate_next_month_year` and `_recurse_until_today` |

**How the two kinds of code are modelled.**

- Where the source loops and updates variables, the model has a method with the same loop, proved equal to a specification function. That covers the candidate loop, header search, label flattening, input harvesting, token check, table scan, quarter row loop and the fetch loop.
- The mirror fields are seven straight-line assignments in the source (bse_scraper_v2.py:184-190). The model writes them as one loop over the list of mirror fields (`FillMirrors`).
- The properties the code promises are proved as lemmas about those functions.

**Collaborators are parameters.** HTTP, BeautifulSoup, `pd.read_html`, `pd.read_csv`, `float()` and `pd.to_numeric` enter the model as inputs or function parameters:

- a parse of the page;
- `readHtml`, `readCsv` and `post`;
- `parse` for the float conversion;
- `fetch` for one monthly request.

The current date is a parameter too (`today`, `toDate`).

## Model

| member | source | states |
|---|---|---|
| Text.Words | bse_scraper.py:516 | every word `split()` yields is a non-empty run without whitespace |
| Text.WordsOfToken | bse_scraper.py:516 | a single word splits to itself |
| Text.WordsOfPair | bse_scraper.py:516 | two words joined by one space split back into exactly those two words |
| Text.TrimUnspaced | bse_scraper.py:514 | `strip()` leaves a string that neither starts nor ends with whitespace unchanged |
| Text.NatToStringRoundTrip | bse_scraper_v2.py:84 | the decimal digits of `str(n)` read back as n |
| Text.ParseIntRoundTrip | bse_scraper_v2.py:84 | `int(str(i)) == i` for every integer, negative ones included |
| Text.DigitsValueAppend | bse_scraper_v2.py:248 | the value of concatenated digit strings is the first shifted by the length of the second, plus the second |
| Text.Pad2RoundTrip | bse_scraper_v2.py:83 | `f"{m:02d}"` of a month number is exactly two digits that `int()` reads back as m |
| Text.RemoveCommas | bse_scraper.py:527 | `replace(",", "")` leaves no comma, and keeps every other character as often as it occurs |
| Text.RemoveCommasAppend | bse_scraper_v2.py:232 | removing commas distributes over concatenation |
| Text.RemoveCommasUnchanged | bse_scraper_v2.py:232 | a string without commas is left as it is |
| Text.TitleOfCapitalised | bse_scraper_v2.py:69 | `strip().title()` leaves a capitalised word such as "Month" unchanged |
| Text.Prefix3 | bse_scraper_v2.py:242 | `str.slice(0, 3)` is a prefix of at most three characters |
| Frames.Str | bse_scraper.py:74 | `str()` of a tuple label starts with `(`, of an integer position is all digits, so only string or position labels can be all digits |
| Frames.FirstIndex | bse_scraper_v2.py:225-226 | `next(...)` over a sequence: the first element satisfying the test, every earlier one failing it, or none when no element passes |
| Frames.FirstIndexAt | bse_scraper_v2.py:61-74 | an element that passes the test, with every element before it failing, is what `next(...)` finds |
| Frames.Filter | bse_scraper.py:109 | a boolean mask keeps exactly the rows that pass, and nothing else |
| Frames.FilterConcat | bse_scraper_v2.py:242 | masking a concatenation is concatenating the masked parts, so order is kept |
| Frames.FilterIdempotent | bse_scraper_v2.py:242 | applying a mask twice keeps the same rows |
| Normaliser.Chosen | bse_scraper.py:43-71 | a `pd.read_html` table with Month and Close among its `strip().title()` labels means the choice is such a table; nothing is chosen exactly when no table has them and no BeautifulSoup table both mentions the two words and re-parses |
| Normaliser.ChosenFirst | bse_scraper.py:43-59 | the choice is the first candidate table, every earlier one failing the test; with no candidate, it is what the first BeautifulSoup table that mentions both words and re-parses gives |
| Normaliser.ChooseTable | bse_scraper.py:43-71 | the candidate loop, and the soup loop with its `break`, choose what `Chosen` says |
| Normaliser.HeaderRow | bse_scraper.py:78-84 | the header row found in a numeric-labelled table is among the first six rows, has "month" and "close" among its trimmed lower-cased cells, and no earlier row has them; none found means none of the first six rows has them |
| Normaliser.FindHeaderRow | bse_scraper.py:78-84 | the loop over `range(min(6, len(monthly)))` with `break` finds that row |
| Normaliser.KeptPartsSnoc | bse_scraper.py:100 | the kept parts of a tuple label grow by its last part exactly when that part is truthy and does not read "nan" |
| Normaliser.KeptPartsLast | bse_scraper.py:97-104 | the last of the kept tuple parts, or "" when none is kept, is the last part searched for independently from the end |
| Normaliser.FlatLabel | bse_scraper.py:96-104 | a tuple label flattens to its last truthy part not reading "nan", or "" when there is none |
| Normaliser.FlattenLabels | bse_scraper.py:96-104 | the flattening loop gives, per label, the last kept tuple part or the stripped string |
| Normaliser.RecoverHeader | bse_scraper.py:74-104 | the imperative header recovery gives what `Reshape` says |
| Normaliser.CleanedRows | bse_scraper.py:106-114 | no surviving row has a first cell reading "month" (any case, stripped) or containing a `* Spread`/`High-Low` footnote, and the survivors are the recovered rows passing both tests, in order |
| Normaliser.Cleaned | bse_scraper.py:106-114 | dropping the repeated header and footnote rows keeps the labels of the recovered table |
| Normaliser.MonthColumn | bse_scraper.py:124-127 | an exact "month" (any case) wins and is the first one; else the first label containing "month"; none exactly when no label contains it |
| Normaliser.CloseIsWord | bse_scraper.py:130-133 | a label matching `close\*?` also has "close" as a whole word, so the fallback would find it too |
| Normaliser.CloseColumn | bse_scraper.py:130-133 | an exact "close" or "close*" wins and is the first one; else the first label with the whole word "close"; none exactly when no label has it |
| Normaliser.PickMonthlyData | bse_scraper.py:33-142 | the whole normaliser, loops included, returns what `Normalise` says, or raises the same error |
| Normaliser.NoCandidateFails | bse_scraper.py:61-64 | with no usable table the normaliser raises: no tables at all, or none found |
| Normaliser.NormaliseShape | bse_scraper.py:136-142 | a successful result has two columns, the second Close and the first Month (Close when one column matched both), and one row per cleaned row |
| Normaliser.NormaliseCells | bse_scraper.py:116-142 | on success both columns resolve on the trimmed labels of the cleaned table, every cleaned row is kept, and each output row is its cells at the Month column and at the Close column, in that order |
| Normaliser.Normalise | bse_scraper.py:33-142 | a failure is no tables, no table found, a non-text label or a missing Month or Close column; a result is returned exactly when there are tables, one is chosen, its cleaned labels are all text and both a Month and a Close column resolve among them |
| Normaliser.DigitsDoNotMentionMonth | bse_scraper.py:127 | a digit string never contains "month" |
| Normaliser.NumericLabelsWithoutHeaderFail | bse_scraper.py:74-88 | numeric labels with no header row among the first six rows always make the normaliser raise |
| QuarterEnds.FullYear | bse_scraper.py:523 | a year below 100 is read as 2000 plus it (a negative one included, as `2000 + yy` does); a larger one is kept as written |
| QuarterEnds.QuarterIndex | bse_scraper.py:537 | mar, jun, sep and dec map to their places 0..3 in the list, and -1 is given exactly for any other month |
| QuarterEnds.Key | bse_scraper.py:535-538 | a label keyed with a real quarter has at least two words, the year is `int()` of the second and the quarter names the first in the list; a label of that form always gets a real quarter |
| QuarterEnds.RowEntry | bse_scraper.py:514-531 | the only exception one row can raise is `int()`'s ValueError |
| QuarterEnds.RowEntryCases | bse_scraper.py:514-531 | a row is skipped exactly when it has fewer than two words or its first word, title-cased, is no quarter month; it raises exactly when the second word is no integer; otherwise its label is the lower-cased month and the year and its close is the float of the comma-free cell |
| QuarterEnds.Collect | bse_scraper.py:512-531 | the loop appends at most one entry per row |
| QuarterEnds.CollectNext | bse_scraper.py:513-531 | one more row extends the entries by exactly what that row contributes |
| QuarterEnds.CollectFailureSticks | bse_scraper.py:522 | once a row raises, the whole extraction raises that error |
| QuarterEnds.RowErrorIsNotColumn | bse_scraper.py:512-531 | the row loop can only raise `int()`'s ValueError |
| QuarterEnds.DropMissing | bse_scraper.py:533 | `dropna(subset=["Close"])` keeps exactly the entries with a close, and adds none |
| QuarterEnds.DropMissingConcat | bse_scraper.py:533 | dropping from concatenated entries concatenates what is kept of each part, so the order and duplicates of the kept rows are preserved |
| QuarterEnds.DropMissingSingle | bse_scraper.py:533 | a single entry is kept, as its label and price, exactly when it has a price |
| QuarterEnds.Insert | bse_scraper.py:539 | inserting adds the one element to the multiset and nothing else |
| QuarterEnds.SortDescending | bse_scraper.py:539 | the sort is a permutation of its input |
| QuarterEnds.InsertSorted | bse_scraper.py:539 | inserting into a descending sequence keeps it descending |
| QuarterEnds.SortDescendingSorted | bse_scraper.py:539 | the sorted rows are in descending (year, quarter) order |
| QuarterEnds.ExtractQtrlyDates | bse_scraper.py:507-540 | the method, with its row loop, returns what `Extract` says, the ValueError and KeyError included |
| QuarterEnds.Extract | bse_scraper.py:507-540 | the extraction raises only the missing-column ValueError, the KeyError of `dropna` or a row's `int()` ValueError, and returns at most one row per table row; with both columns present it succeeds exactly when no row raises and some row is a quarter end, and it raises a row's ValueError exactly when the row loop does |
| QuarterEnds.ExtractSorted | bse_scraper.py:535-539 | the output is ordered from the latest quarter back |
| QuarterEnds.ExtractKeepsPricedRows | bse_scraper.py:526-539 | the output is a permutation of the appended rows that have a close: every such row is in it and no other |
| QuarterEnds.ExtractNeedsColumns | bse_scraper.py:509-510 | the extraction raises the missing-column ValueError exactly when Month or Close is absent |
| QuarterEnds.NoQuarterRowsRaise | bse_scraper.py:533 | a table with no quarter-end month appends no row, and `dropna` on the column-less frame raises KeyError |
| QuarterEnds.IntToStringIsToken | bse_scraper.py:531 | `str(year)` is one word |
| QuarterEnds.EndLabelWords | bse_scraper.py:531 | a label built from a quarter month splits back into the lower-cased month, one of the four keys, and `str(year)` |
| QuarterEnds.QuarterMonthLower | bse_scraper.py:519-531 | a quarter month lower-cased is one of the four keys the sort looks up, and `title()` restores it |
| QuarterEnds.KeyOfEndLabel | bse_scraper.py:536-538 | the sort key of a label the loop built reads back its year and quarter, so the key lambda never raises |
| QuarterEnds.ReLabelIsIdentity | bse_scraper.py:514-531 | feeding an output label back in as a month cell gives the same label, for years of three digits or more |
| QuarterEnds.ReLabelReadsYear | bse_scraper.py:523 | a label with a year below 100 is read back in the 2000s, so relabelling is not idempotent there |
| FormPost.KeyOf | bse_scraper_v2.py:51-54 | keying a field name keeps the name and puts it in one form |
| FormPost.KeyOfNameOf | bse_scraper_v2.py:51-54 | keying is injective: a key read back from its own name is itself |
| FormPost.Inputs | bse_scraper_v2.py:47-56 | the payload has at most one entry per `<input>` tag |
| FormPost.InputsKeys | bse_scraper_v2.py:47-56 | the harvested names are exactly the names of the named `<input>` tags |
| FormPost.InputsLastWins | bse_scraper_v2.py:47-56 | each harvested name holds the value of the last input carrying it ("" without a value attribute) |
| FormPost.CollectInputs | bse_scraper_v2.py:47-56 | the harvesting loop builds what `Inputs` says |
| FormPost.SettlementValue | bse_scraper_v2.py:25-33 | no select or no selected option gives none; otherwise the value of the first selected option, or KeyError when it has no value attribute |
| FormPost.SettlementFirstSelected | bse_scraper_v2.py:25-33 | an option that is selected, with none selected before it, decides the result: its value, or KeyError without one |
| FormPost.MissingTokenOf | bse_scraper_v2.py:97-98 | no token is reported exactly when all three are present and non-empty; otherwise the first absent or empty one in checking order |
| FormPost.CheckTokens | bse_scraper_v2.py:97-98 | the checking loop stops at that same token |
| FormPost.Update | bse_scraper_v2.py:107-128 | the update touches neither the settlement, nor hidCompanyVal, nor any mirror field |
| FormPost.UpdateFields | bse_scraper_v2.py:83-128 | the update posts the scrip code as given in both code fields, `rdbMonthly` and `M` in the two period fields, the month as the two digits of `02d`, the year as `str(year)`, a from-date on the first of that month, the given to-date and an empty postback event |
| FormPost.BeforeMirrors | bse_scraper_v2.py:101-128 | after the settlement and the update, every updated field holds its new value, a selected settlement is kept, and every other field is as harvested |
| FormPost.Mirror | bse_scraper_v2.py:184-190 | the first n mirror fields take the company value and no other field changes |
| FormPost.FillMirrors | bse_scraper_v2.py:184-190 | the seven assignments give what `Mirror` says |
| FormPost.Overlay | bse_scraper_v2.py:101-190 | each field of the posted payload holds exactly one of these: its update, the harvested company value (mirrors), the selected settlement, or its harvested value |
| FormPost.SettlementNotMirrored | bse_scraper_v2.py:101-103 | the settlement field is not one of the mirror fields, so its value survives the mirror fill |
| FormPost.ApplyOverlay | bse_scraper_v2.py:101-190 | the in-order assignments give what `Overlay` says |
| FormPost.MonthlyPayload | bse_scraper_v2.py:94-190 | the payload is refused exactly when some token is absent or empty, naming the first; otherwise it is the overlay of the harvested inputs |
| FormPost.BuildPayload | bse_scraper_v2.py:94-190 | the method gives what `MonthlyPayload` says |
| FormPost.DownloadPayload | bse_scraper_v2.py:215-216 | the download payload differs from the posted one only in the event target, which names the download button |
| MonthlyPage.FindMonthlyTableHtml | bse_scraper_v2.py:35-45 | the markup of the first table in scope whose text has the whole words Month and Close (any case); none exactly when no table in scope has them |
| MonthlyPage.ScopeSearched | bse_scraper_v2.py:37-41 | when the page has the stock-data element only its tables are searched, whatever the rest of the page holds; otherwise every table of the page is |
| MonthlyPage.Promote | bse_scraper_v2.py:63-74 | a table that matches comes out labelled Quarter End and Close, and a header holding "Month" and "Close" verbatim always matches |
| MonthlyPage.VerbatimHeaderMatches | bse_scraper_v2.py:69-71 | a header cell reading exactly "Month" or "Close" survives `str(c).strip().title()`, so such a header passes the `all(...)` test |
| MonthlyPage.PromoteOutcomes | bse_scraper_v2.py:63-74 | an empty table raises IndexError; a header without Month and Close after normalising is skipped; the exact lookup raises KeyError for Month when no cell is exactly "Month", else for Close; a header holding both verbatim is promoted |
| MonthlyPage.PromoteProjects | bse_scraper_v2.py:63-74 | a promoted table is every row below the header, cut to the first columns labelled exactly Month and exactly Close |
| MonthlyPage.Scan | bse_scraper_v2.py:61-75 | a table the scan returns is labelled Quarter End and Close |
| MonthlyPage.ScanTakesFirst | bse_scraper_v2.py:61-75 | the scan raises "table not found" exactly when every table is skipped; otherwise it raises or returns as the first table not skipped does |
| MonthlyPage.Decompose | bse_scraper_v2.py:58-75 | a decomposed table is labelled Quarter End and Close; a `read_html` failure on the found markup (or the whole answer) is the result, and otherwise the result is the scan of the tables it read |
| MonthlyPage.DecomposeMonthlyTable | bse_scraper_v2.py:58-75 | the for-loop with its early returns gives what `Decompose` says |
| MonthlyPage.FromDownload | bse_scraper_v2.py:225-230 | a table read from the download is labelled Quarter End and Close |
| MonthlyPage.FromDownloadFails | bse_scraper_v2.py:225-228 | the download is rejected, with its one ValueError, exactly when no label has the whole word month or none has close |
| MonthlyPage.FromDownloadProjects | bse_scraper_v2.py:225-230 | otherwise every row is kept, cut to the first month column and the first close column |
| MonthlyPage.FallbackOutcome | bse_scraper_v2.py:213-232 | a failed download post or CSV read is the result; no word-month or word-close column gives the one ValueError; otherwise every CSV row is priced, as its first month cell and the float of its first close cell without commas |
| MonthlyPage.Fallback | bse_scraper_v2.py:213-232 | the fallback posts exactly the download payload, and it succeeds only when the post, the CSV read and the column search all succeed |
| MonthlyPage.Prepare | bse_scraper_v2.py:94-190 | a missing token is reported before the settlement is looked at; then a settlement KeyError; otherwise the monthly payload of the harvested inputs |
| MonthlyPage.Request | bse_scraper_v2.py:195-232 | one or two posts: the payload, then the download payload exactly when the answer cannot be decomposed; a failed first post is the result; a one-post success is the priced decomposed table |
| MonthlyPage.RequestOutcome | bse_scraper_v2.py:195-232 | a decomposed answer to the first post is the priced table; when the download is posted too, the result is the fallback's |
| MonthlyPage.GetMonthlyTable | bse_scraper_v2.py:78-232 | nothing is posted exactly when the payload cannot be prepared, and then its error is the result; otherwise the request with the prepared payload |
| MonthlyPage.MissingTokenPostsNothing | bse_scraper_v2.py:97-98 | a missing state token stops the request before any post |
| Paginator.QuarterlyDates | bse_scraper_v2.py:236-243 | a row is kept exactly when its label starts with Mar, Jun, Sep or Dec |
| Paginator.QuarterlyDatesConcat | bse_scraper_v2.py:242 | the quarter rows of concatenated pages are the concatenated quarter rows of each page |
| Paginator.QuarterlyDatesIdempotent | bse_scraper_v2.py:242 | filtering twice keeps the same rows |
| Paginator.QuarterEndByPrefix | bse_scraper_v2.py:242 | the test is case-sensitive on the label's first three characters |
| Paginator.MonthNumber | bse_scraper_v2.py:253-260 | the mapping knows exactly the twelve abbreviations, and gives the position in 1..12 where each stands |
| Paginator.MonthFrom | bse_scraper_v2.py:253-257 | the lookup from position i on finds s exactly when it is among the abbreviations from there |
| Paginator.Succ | bse_scraper_v2.py:262-268 | the next window is one month later in calendar order, December rolling over into January |
| Paginator.NextMonthYear | bse_scraper_v2.py:245-269 | the result fails exactly as reading the last row fails; otherwise it is the month after the last row's window |
| Paginator.NextUsesLastRow | bse_scraper_v2.py:247 | the rows fetched before the last page do not affect the next window |
| Paginator.AbbrIsToken | bse_scraper_v2.py:249 | every month abbreviation is one word |
| Paginator.DigitsPrefix | bse_scraper_v2.py:248 | "20" in front of a digit string reads as 20 shifted past those digits |
| Paginator.LastWindowOfPair | bse_scraper_v2.py:247-260 | a last row "Mon t" names the month of Mon in the year `int("20" + t)` |
| Paginator.LastWindowOfLabel | bse_scraper_v2.py:247-260 | a last row "Mon yy" with a two-digit year names that month of 20yy |
| Paginator.FourDigits | bse_scraper_v2.py:248 | a four-digit year prints as four digits that read back as the year |
| Paginator.FourDigitYearMisread | bse_scraper_v2.py:248 | a last row that carries the full year, "Mar 2024", is read as the year 202024 |
| Paginator.Continue | bse_scraper_v2.py:281 | under either guard the loop only goes on while the next window is not after today; in calendar order it goes on for every such window |
| Paginator.Concat | bse_scraper_v2.py:284 | concatenating the pages gives as many rows as all the pages together |
| Paginator.ConcatCons | bse_scraper_v2.py:284 | concatenating a page in front of the others puts its rows first |
| Paginator.Loop | bse_scraper_v2.py:281-286 | the loop records one page per window fetched. Where the guard fails it returns what it had, fetching nothing. Where the guard holds for a window no later than the one fetched last, it stops with NoProgress naming that window, fetching nothing, and only that stop sets `stalled`. Otherwise it fetches the next window: a failed fetch is the loop's error, and a page is recorded as the first one |
| Paginator.LoopAppends | bse_scraper_v2.py:284 | on success the loop returns what it had followed by every page it fetched, in order |
| Paginator.LoopStops | bse_scraper_v2.py:281-286 | on success the guard fails for the window after the last row returned |
| Paginator.AllFetchedCons | bse_scraper_v2.py:281-283 | a window fetched under the guard, put in front, keeps all windows fetched |
| Paginator.ChainedCons | bse_scraper_v2.py:286 | a page whose next window is the following one, put in front, keeps the windows chained |
| Paginator.LoopFetches | bse_scraper_v2.py:281-283 | every window the loop visits passed the guard and was fetched into the page recorded for it |
| Paginator.LoopChains | bse_scraper_v2.py:281-286 | the loop starts at the next window, and each later window is the month after the last row of the page before it |
| Paginator.LoopAdvances | bse_scraper_v2.py:281-286 | every window the loop fetches is later than the one fetched before it |
| Paginator.LoopNeverStalls | bse_scraper_v2.py:281-286 | where every page up to today moves the next window past the window fetched, the NoProgress stop is never taken |
| Paginator.LoopSucceeds | bse_scraper_v2.py:281-286 | where, in addition, every window up to today can be fetched and its page's last row names a month and year, the loop succeeds |
| Paginator.LoopEnds | bse_scraper_v2.py:281-286 | a loop that fails without the NoProgress stop failed either reading the next window from the table with every page appended, or fetching that window, which passed the guard and is later than the one fetched last. A loop that takes the NoProgress stop took it at that window, which passed the guard and is no later than the one fetched last, and the error names the last window |
| Paginator.Recursion | bse_scraper_v2.py:271-288 | one page per window, the first window being `from` and its page what `from` fetched; a failed first fetch is the whole run's error, with nothing recorded |
| Paginator.RecursionConcatenates | bse_scraper_v2.py:277-288 | on success the result is all fetched pages concatenated in fetch order: its length is the sum of the page lengths, and the guard fails for the month after it |
| Paginator.RecursionFetches | bse_scraper_v2.py:277-286 | every visited window was fetched into its page, every later one passed the guard, and each is the month after the page before it |
| Paginator.RecursionAdvances | bse_scraper_v2.py:277-286 | the windows fetched are in strictly increasing calendar order, so none is fetched twice |
| Paginator.RecursionNeverStalls | bse_scraper_v2.py:277-288 | where the first page and every page up to today move the next window past the window fetched, the recursion never stops with NoProgress |
| Paginator.RecursionSucceeds | bse_scraper_v2.py:277-288 | where, in addition, `from` and every window up to today can be fetched and each page's last row names a month and year, the recursion succeeds |
| Paginator.RecursionFailure | bse_scraper_v2.py:277-286 | a failing run without the NoProgress stop failed at its last step. That step is the fetch of `from` with nothing recorded, or the reading of the next window from the pages fetched, or the fetch of that window, which passed the guard and is later than the last window fetched |
| Paginator.RecursionStall | bse_scraper_v2.py:281-286 | a run that stops with NoProgress stops at the window after the pages fetched, which passed the guard and is no later than the last window fetched, and the error names that last window |
| Paginator.RecurseUntilToday | bse_scraper_v2.py:271-288 | the while-loop method, with the NoProgress stop, returns what `Recursion` says, for every `fetch` |
| Paginator.ComponentwiseStopsEarly | bse_scraper_v2.py:281 | with the guard as written, a next window in an earlier year but a later month than today ends the loop at once, although that window is not after today |
| Paginator.ChronologicalReachesToday | bse_scraper_v2.py:281 | with the guard in calendar order, every window after the first is not after today, and a successful run stops only once the month after its last row is after today |
| Paginator.Step | bse_scraper_v2.py:283-286 | one pass of the loop body as written succeeds exactly when the fetch and the reading of the next window succeed; it appends the page fetched for the next window and reads the new next window from the accumulated table |
| Paginator.Steps | bse_scraper_v2.py:283-286 | passes of the loop body as written only append to the table, and after at least one pass the next window is the one read from it |
| Paginator.StalledLoopRepeats | bse_scraper_v2.py:283-286 | as written, a page after which the next window is the one just fetched leaves it there pass after pass, so the same window is fetched for ever |
| Paginator.StallPersists | bse_scraper_v2.py:284-286 | appending the stalled page once more leaves the next window unchanged |

## Left out

- HTTP, the browser, BeautifulSoup, `pd.read_html`, `pd.read_csv`, `float()`, `pd.to_numeric` and the current date are not modelled. They are inputs or function parameters.
  - A failure of one of them is a `Failure` value of the parameter, or `Transport` when a function has to be named for it.
  - `raise_for_status()` is part of `post` and `fetch` failing.
- The debug output is not modelled, because it does not affect any result. That covers `print`, the verbose messages, and writing `debug_no_table.html` (bse_scraper.py:62-63).
- The `required_fields` list and the commented-out checks around it (bse_scraper_v2.py:130-162) affect nothing posted, so they are not modelled.
- Case mapping, `\d` and `\b` are modelled on ASCII letters and digits. Python applies them to all of Unicode.
- `int()` is modelled on a sign and ASCII digits. Its acceptance of underscores and non-ASCII digits is not modelled.
- `Frames.Str` prints a tuple label without Python's quote escaping.
- Duplicate column labels are not modelled.
  - pandas then selects several columns for one name; the model takes the first.
  - The one duplicate the model does keep is the case where one column resolves to both Month and Close, at bse_scraper.py:136.
- Cell values are modelled as the strings `str(value)` gives. A missing cell is "nan", and the numeric value of Close is what `parse` gives for that string.
- Field names are split at the `ctl00$ContentPlaceHolder1$` prefix (`FormPost.Key`). This is only a representation: `KeyOfNameOf` shows that keying is injective, so it changes no payload.
- QuarterEnds.SortDescending: rows with equal keys keep their original order. `sort_values` uses an unstable sort and leaves that order unspecified, so only the descending key order is claimed for them.
- QuarterEnds.QuarterIndex: the ValueError of `.index()` is the value -1. No label built by the loop reaches it (`KeyOfEndLabel`).
- `_pick_monthly_data`: the StopIteration of `next()` at bse_scraper.py:127 and 133 is modelled as `ColumnNotFound`.
- `_pick_monthly_data`: the AttributeError of `.strip()` on an integer label at line 117 is modelled as `LabelNotText`.
- MonthlyPage.FromDownload: the ValueError of the fallback (bse_scraper_v2.py:228) is `ColumnNotFound("Month/Close")`, whichever of the two columns is missing.
- Paginator.Loop, Recursion and RecurseUntilToday: the source keeps fetching while the guard holds, even when a page leaves the next window no later than the window just fetched. The model stops there with `NoProgress` instead (see Findings).
  - When the next window is the one just fetched (an empty page, or one ending the month before), the source fetches it for ever (`StalledLoopRepeats`).
  - When it is earlier still, the source refetches an earlier window and appends its rows a second time. The model does not follow the source past that point.
  - Where every page up to today ends no earlier than the month asked for (`Progressing`), the stop is never taken (`RecursionNeverStalls`), so every step the model takes is a step of the source. Where, in addition, every such page can be fetched and names its month (`Readable`), the run succeeds (`RecursionSucceeds`).
- FormPost.Update: the scrip code is the text `str(script_code)` gives, posted as it is. Where it comes from (frontend/app.py) is not part of this model.
- Paginator.LastWindowOfLabel, FourDigitYearMisread and AbbrIsToken are stated for abbreviations the month mapping knows (`MonthNumber(abbr).Some?`). Other first words raise ValueError, which `LastWindow` states.

## Findings

| source | as written | input that shows it | evidently intended | confidence | as-written member | corrected member |
|---|---|---|---|---|---|---|
| bse_scraper_v2.py:281 | `while (next_year <= current_year) and (next_month <= current_month)` compares month and year separately | the first page ends in November 2020, so the next window is December 2020; today is January 2021. Since 12 > 1 the loop never runs, and December 2020 and January 2021 are never fetched. | keep fetching while the next (month, year) is not after today in calendar order | not executed | Paginator.ComponentwiseStopsEarly | Paginator.ChronologicalReachesToday |
| bse_scraper_v2.py:281-286 | the loop fetches the next window again whatever the last page held | today is March 2025 and the page asked for March 2025 comes back with rows only up to February 2025 (or no rows): the next window stays March 2025, the guard still holds, and the same window is fetched for ever | stop instead of fetching a window no later than the one fetched last | not executed | Paginator.StalledLoopRepeats | Paginator.RecursionAdvances |

The loop is modelled under both guards (`Paginator.Guard`): `Componentwise` as written and `Chronological` as intended. Every property of `Loop`, `Recursion` and `RecurseUntilToday` is proved for both. Under both, the loop stops with `NoProgress` where the source would fetch a window no later than the one fetched last. `RecursionAdvances` shows that the corrected loop fetches each window at most once, and `RecursionNeverStalls` shows that it agrees with the source wherever the pages move forward.
