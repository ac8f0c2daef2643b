# Stock dashboard core, modelled in Dafny

`stock_app/app.py` is a Streamlit script that shows a table of US stock
quotes: for each ticker symbol, the one-year low and high, the last close and
the trailing and forward price/earnings ratios. This project models the part
of the script that decides what the table holds, and proves properties about it:

- **Which tickers** (`Tickers`). The list comes from one of three places:
  - a published spreadsheet column, filtered by `load_tickers_from_sheet`;
  - the embedded `DEFAULT_TICKERS_STR`, used when the sheet is configured
    but yields nothing;
  - the comma-separated text in the sidebar text area, used when no sheet is
    configured. Its initial value is the `tickers` query parameter or the
    default text.
  The comma text is parsed by `[t.strip() for t in text.split(',') if t.strip()]`.
- **Which rows** (`Quotes`). `get_stock_data` walks the list, normalizes each
  entry with `str(symbol).strip().upper()`, skips blank ones, and appends one
  of three row shapes:
  - "no history" (error note 查無歷史股價);
  - "fetch failed" (error note 抓取失敗);
  - a full quote row (empty error note).
  The market-data provider is a parameter: one `FetchOutcome` per list entry,
  saying whether the history lookup raised, what history it returned, and
  what the fundamentals lookup did.
- **In which order** (`Display`). A non-empty table is sorted by the symbol
  column. An empty list skips the fetch and shows a warning instead.
  `RefreshDashboard` strings one run of the script together.

Supporting modules:
- `Text`: Python's `strip`, `upper`, `split` and `join`, restricted to ASCII.
- `Seqs`: sequence facts that do not depend on the element type.
- `Wrappers`: the `Option` type.

Prices are integers in cents and ratios are integers in hundredths.
`GOOGLE_SHEET_URL` is a parameter of `ResolveTickers`, not the constant the
script hard-codes, so that both the sheet mode and the manual mode are covered.

Three behaviours of the code shape the model:
- Duplicate entries are kept: nothing removes them, and "IBM" occurs twice in
  `DEFAULT_TICKERS_STR` (lines 23 and 27). `DefaultRowsKeepDuplicates` shows
  both occurrences get a row.
- The error notes are the literals 查無歷史股價 (no price history) and 抓取失敗
  (fetch failed); `Quotes.NoHistoryNote` and `Quotes.FetchFailedNote` hold them.
- `sort_values` is called with its default algorithm, which is not stable.
  The model therefore states only that the result is sorted and a
  permutation of the rows, and proves that the symbol column comes out the
  same whatever order ties take.

## Model

| member | source | states |
|---|---|---|
| Text.Strip | stock_app/app.py:134 | `strip()` leaves no whitespace at either end, and gives "" exactly when the text is all whitespace |
| Text.StripIsSlice | stock_app/app.py:134 | the stripped text is a slice of the original with only whitespace cut from each end |
| Text.NormalizeFacts | stock_app/app.py:41-42 | for `Text.Normalize`, which models `str(symbol).strip().upper()`: the result is empty exactly for a blank entry; the result is trimmed, has no lower-case letter, and normalizing it again changes nothing |
| Text.Upper | stock_app/app.py:41 | `upper()` keeps the length and maps each character on its own, lower-case ASCII letters to upper case and everything else to itself |
| Text.Split | stock_app/app.py:134 | `split(',')` gives at least one piece, and no piece contains a comma |
| Text.JoinSplit | stock_app/app.py:134 | joining the pieces of `split(',')` with ',' gives back the text, so the split loses no character |
| Text.SplitConcat | stock_app/app.py:134 | splitting `a + ',' + b` gives the pieces of `a` followed by the pieces of `b` |
| Text.SplitJoin | stock_app/app.py:115 | splitting the join of comma-free pieces gives the pieces back |
| Tickers.ParseCommaList | stock_app/app.py:134 | every parsed entry is non-empty, has no whitespace at either end and no comma |
| Tickers.ParseConcat | stock_app/app.py:134 | the entries of `a + "," + b` are the entries of `a` followed by those of `b`, so order is kept |
| Tickers.ParseOnePiece | stock_app/app.py:134 | a comma-free text yields its strip, or nothing when it is blank |
| Tickers.ParseMember | stock_app/app.py:134 | a text is an entry exactly when it is the non-empty strip of one of the comma pieces, so nothing non-blank is dropped |
| Tickers.KeepStrippedMember | stock_app/app.py:134 | the comprehension's filter keeps exactly the non-empty strips of the pieces |
| Tickers.ParseAfterSpace | stock_app/app.py:134 | a leading space does not change the parsed list |
| Tickers.ParseJoinRoundTrip | stock_app/app.py:20-28 | well-formed entries written out joined by ", " parse back to the same entries |
| Tickers.DefaultTickersParse | stock_app/app.py:115 | the embedded default text parses to its 95 symbols in order, with "IBM" at positions 27 and 92 |
| Tickers.SheetFilter | stock_app/app.py:91-92 | every kept cell is shorter than 10 characters and is not "TICKER" in any letter case |
| Tickers.SheetFilterMember | stock_app/app.py:91-92 | a text is kept exactly when it is a present cell, shorter than 10 characters, whose upper-case form is not "TICKER" |
| Tickers.SheetFilterAppend | stock_app/app.py:92 | the filter works cell by cell, so it keeps the column's order |
| Tickers.NothingKept | stock_app/app.py:92 | a column none of whose cells passes the filter yields the empty list |
| Tickers.LoadTickersFromSheet | stock_app/app.py:87-96 | a failed read gives the empty list; a successful one gives the filtered column, so every ticker returned is a cell shorter than 10 characters that is not "TICKER" in any letter case |
| Tickers.InitialText | stock_app/app.py:120-121 | the text area starts with the query parameter when it is present and non-empty, with the default text otherwise |
| Tickers.TextAreaValue | stock_app/app.py:125 | the text area returns what the user typed, or its initial value when untouched |
| Tickers.ResolveTickers | stock_app/app.py:106-134 | the text is used exactly when no sheet URL is set; the sheet list is used exactly when a URL is set and the sheet list is non-empty; otherwise the default list; with a URL the list is never empty |
| Tickers.SheetFallback | stock_app/app.py:109-115 | a failed sheet read, and a sheet all of whose cells are filtered out, both give the full default list |
| Tickers.ManualDefault | stock_app/app.py:117-134 | with no sheet, no query parameter and an untouched text area, the list is the default list |
| Quotes.Note | stock_app/app.py:54-78 | the error column is "" exactly for full rows, 查無歷史股價 exactly for no-history rows, 抓取失敗 exactly for failed rows |
| Quotes.LowestLow | stock_app/app.py:58 | the result is at most every daily low and equals one of them |
| Quotes.HighestHigh | stock_app/app.py:59 | the result is at least every daily high and equals one of them |
| Quotes.RatioOf | stock_app/app.py:72-73 | a P/E becomes "N/A" exactly when it is absent or zero, and is shown as itself otherwise |
| Quotes.RowFor | stock_app/app.py:54-78 | the row carries the symbol; it is "no history" exactly for an empty history, and "fetch failed" exactly when the history lookup raised or, after a non-empty history, the fundamentals lookup raised; a full row has the minimum low, maximum high, last close, and the P/E values, or "N/A" |
| Quotes.RowsMatchSymbols | stock_app/app.py:40-43 | one row per non-blank entry, in input order, each carrying that entry's stripped, upper-cased symbol |
| Quotes.RowsAppend | stock_app/app.py:40-79 | the rows of two consecutive stretches of the list are the rows of each stretch, one after the other, so entries do not affect each other |
| Quotes.RowsOfOne | stock_app/app.py:41-78 | a single entry gives no row when blank, and otherwise the row its own outcome calls for |
| Quotes.RowOfEntry | stock_app/app.py:40-78 | the row of non-blank entry `i` sits after the rows of the non-blank entries before it, and is the row its own outcome calls for |
| Quotes.SymbolsOfNormalized | stock_app/app.py:41-43 | a list of already-normalized entries gets one row per entry, duplicates included |
| Quotes.GetStockData | stock_app/app.py:32-84 | the loop's result is the rows of the list, one per non-blank entry in order, each carrying that entry's symbol |
| Display.SymbolLeTotal | stock_app/app.py:162 | any two symbols are comparable under Python's string order |
| Display.SymbolLeTransitive | stock_app/app.py:162 | Python's string order is transitive |
| Display.SymbolLeAntisymmetric | stock_app/app.py:162 | two symbols each at most the other are equal |
| Display.InsertBySymbol | stock_app/app.py:162 | inserting a row into a sorted table keeps it sorted and adds exactly that row |
| Display.SortBySymbol | stock_app/app.py:162 | the result is sorted by symbol and holds the same rows with the same multiplicities |
| Display.DisplayTable | stock_app/app.py:159-162 | the displayed table is the same rows, as a permutation, sorted by symbol |
| Display.SortedSymbolColumnUnique | stock_app/app.py:162 | any two sorted arrangements of the same rows show the same symbol column, so tie order does not change it |
| Display.DisplayOrderExample | stock_app/app.py:162 | rows for MSFT, AAPL and GOOG are displayed as AAPL, GOOG, MSFT |
| Display.DefaultRowsKeepDuplicates | stock_app/app.py:20-28 | the default list gives 95 rows, the rows at positions 27 and 92 both being "IBM" |
| Display.RefreshDashboard | stock_app/app.py:158-193 | there is no table exactly when the resolved list is empty; with a sheet URL there always is one; the table is sorted and a permutation of the rows of the list, one per non-blank entry |

## Left out

- Streamlit presentation is not modelled: page setup, titles, the sidebar, buttons, `st.rerun`, the info and warning messages, and the column formats of `st.dataframe`.
- Writing the edited text back into the query parameter (line 128) is not modelled; it only affects the next run, which gets its query parameter as an input.
- `@st.cache_data(ttl=300)` and `st.cache_data.clear()` are not modelled. Their behaviour belongs to the library and depends on the wall clock.
- The progress bar and the status text in `get_stock_data` are not modelled. Their progress fraction is a float and they do not affect the rows.
- The `print` of the failing symbol and its exception (line 79) and the `st.error` message of a failed sheet read (line 95) are not modelled; they are output only and do not change the rows or the list.
- Exceptions are modelled only where a lookup can raise. `HistoryFailed` and `InfoFailed` stand for any exception raised in the history or fundamentals step, including inside `yfinance`.
- The New York timestamp, the CSV export with its byte-order mark, and the date-stamped file name are not modelled. They depend on the clock and time-zone data, or are library serialisation.
- `pd.read_csv` and `astype(str)` are not modelled. A `SheetLoad` holds the first column with each present cell already rendered as text.
- Text.Strip: only ASCII whitespace is removed, while Python's `strip()` also removes other Unicode whitespace.
- Text.Upper: only `a`..`z` are mapped, while Python's `upper()` is Unicode-aware.
- Quotes.RowFor: prices are integer cents and ratios integer hundredths, and `round(x, 2)` is not modelled. A NaN ratio, which Python treats as true, cannot be expressed.
- Display.DisplayTable: the model sorts by insertion, which keeps ties in input order. Only sortedness and permutation are stated, because pandas' default sort does not promise a tie order.
