# Strong-business stock screener: freshness store, screen and Markdown table

This project models, in Dafny, the sequential core of a stock screener:

- **The freshness store** (`database.py`). `DatabaseManager` keeps one SQLite
  table `stocks`, with `symbol` as primary key and the time `tested_at` at
  which the symbol was last screened. Here the class `Database.DatabaseManager`
  keeps that table as a field `stocks: map<string, Timestamp>`. Its methods
  change the map exactly as the SQL statements change the table:
  - insert-if-absent, where the primary-key violation is swallowed;
  - update-if-present;
  - delete;
  - read one row or all rows;
  - the bulk `refresh` that deletes every symbol listed in a CSV column.

  The four operations that change the table (insert, update, delete and
  refresh) are each proved against a pure function of the old map
  (`Inserted`, `Updated`, `Deleted`, `Refreshed`), and the properties are
  proved about those functions. `CreateTable` states its new table directly.
  `ReadData` is proved against the predicate `RowsOf`, which describes a full
  scan.
- **The strong-business screen** (`strong_business_tester.py`).
  - Two predicates over the fetched series: every free-cash-flow value is
    positive, and every debt/equity ratio is below 2.4.
  - The freshness rule: the symbol has a row, and fewer than 365 whole days
    have passed since it.
  - The per-symbol sequence: skip a fresh symbol; otherwise record the symbol
    in the store, then fetch and check free cash flow, then fetch and check
    the balance sheet, stopping at the first failure. A fetch that raises
    aborts the screen, with the symbol already recorded.

  `StrongBusinessTester.Evaluate` and `StoreAfter` state the outcome and the
  new store as functions. The method `TestStrongBusiness` runs the sequence
  against a `DatabaseManager` and is proved against them.
- **The Markdown serialiser** (`format_table_markdown` in
  `test_strong_business_tester.py`). It builds a header row, a separator row
  and one row per record, joined by line breaks. `MarkdownTable.Markdown`
  specifies the output. A record is a list of fields whose names are all
  different, as the keys of a Python dictionary are, and every record has
  every column of the first one. `FormatTableMarkdown` builds the output with
  the source's loop and is proved equal to it.

Time is an integer count of microseconds. The market-data fetches are
replaced by their results, passed in as a `Fetch`: either the free-cash-flow
values or the debt/equity ratios as a sequence of reals, or an error raised
while fetching. The screen's result is an `Outcome`: it returns a boolean, or
the error propagates. The current time is passed in as a parameter.

Two behaviours of the code are worth stating plainly:
- the free-cash-flow check passes on an empty series, because `all([])` is
  true;
- a screen that is not skipped only inserts the symbol; it never updates an
  existing row. The finding below follows from this.

`strong_business_tester.py:7` imports `insert_data` and `read_data` as
module-level functions, but `database.py` defines them only as methods of
`DatabaseManager`. The model calls the methods of a `DatabaseManager` passed in.

## Model

| member | source | states |
|---|---|---|
| `Database.Inserted` | database.py:54-65 | An absent symbol gains exactly the row (symbol, testedAt). A present symbol keeps its original timestamp, with still one row. Every other row is unchanged. |
| `Database.Updated` | database.py:67-77 | A present symbol gets the new timestamp. An absent symbol matches nothing. The key set and all other rows are unchanged. |
| `Database.Deleted` | database.py:79-89 | The symbol's row is gone if it was there, with no change otherwise. Every other row keeps its value. |
| `Database.Refreshed` | database.py:104-114 | After a refresh a symbol is stored iff it was stored before and no entry of the column strips to it. Kept rows keep their timestamps. |
| `Database.RefreshWithEverySymbolEmpties` | database.py:104-114 | A column that lists, after stripping, every stored symbol leaves the table empty. |
| `Database.RefreshAfterThreeInsertsEmpties` | test_database.py:84-102 | Three already-trimmed symbols inserted into an empty table, then refreshed with the same three, leave no rows. |
| `Database.RowsOfCount` | database.py:91-99 | A full scan returns exactly as many rows as there are stored symbols, one per symbol (primary key). |
| `Database.ReopenKeepsRows` | database.py:22-29 | A new manager opened on the file an existing manager has committed has exactly the same rows, timestamps included. |
| `Database.DatabaseManager.Open` | database.py:17-29 | Connecting creates the table if it is absent. A file that already has the table keeps every row. |
| `Database.DatabaseManager.CreateTable` | database.py:39-52 | Afterwards the table exists. An existing table keeps its rows; a new one is empty. |
| `Database.DatabaseManager.InsertData` | database.py:54-65 | The new table is `Inserted` of the old one. A duplicate does not fail and changes nothing. |
| `Database.DatabaseManager.UpdateData` | database.py:67-77 | The new table is `Updated` of the old one. |
| `Database.DatabaseManager.DeleteData` | database.py:79-89 | The new table is `Deleted` of the old one. |
| `Database.DatabaseManager.ReadData` | database.py:91-102 | A non-empty symbol yields its one row, or no row. An empty (falsy) symbol yields every stored row once, each with its stored timestamp. |
| `Database.DatabaseManager.Refresh` | database.py:104-114 | Opening the file and deleting each stripped symbol of the column in turn leaves exactly `Refreshed` of the opened table. |
| `PyStr.StripLeft` | database.py:113 | Leading white space removed: the result is the longest suffix of the symbol that does not start with white space, and everything before it is white space. |
| `PyStr.StripRight` | database.py:113 | Trailing white space removed: the result is the longest prefix that does not end with white space, and everything after it is white space. |
| `PyStr.Strip` | database.py:113 | The stripped symbol is no longer than the input and neither starts nor ends with white space. |
| `PyStr.StripIdempotent` | database.py:113 | Stripping a stripped symbol changes nothing. |
| `PyStr.StripKeepsTrimmed` | database.py:113 | A symbol without surrounding white space is its own strip. |
| `StrongBusinessTester.HasConsecutivePositiveFcf` | strong_business_tester.py:10-15 | True iff every free-cash-flow value is strictly positive. An empty series passes. |
| `StrongBusinessTester.HasConsistentlyLowDebtRatios` | strong_business_tester.py:18-19 | True iff every value is strictly below the threshold. An empty series passes. |
| `StrongBusinessTester.HasStrongBalanceSheet` | strong_business_tester.py:22-33 | True iff every debt/equity ratio is strictly below the default threshold 2.4. |
| `StrongBusinessTester.ElapsedDays` | strong_business_tester.py:43 | The whole days between the two times, rounded down as `timedelta.days` does. |
| `StrongBusinessTester.FreshWithinWindow` | strong_business_tester.py:41-43 | A symbol is fresh iff it has a row and fewer than 365 days' worth of microseconds have passed since it. |
| `StrongBusinessTester.HasProcessed` | strong_business_tester.py:36-43 | False when no row is read. For a non-empty symbol, true iff its own row is fresh. For an empty symbol, true only if some row is fresh, and false on an empty table. |
| `StrongBusinessTester.OutcomeOf` | strong_business_tester.py:53-63 | A screen raises iff a fetch failed, and returns true iff the business is strong. |
| `StrongBusinessTester.StrongIffBothChecksPass` | strong_business_tester.py:54-63 | For a symbol that is not fresh and fetches that succeed, the result is strong iff all free-cash-flow values are positive and all ratios are below 2.4. |
| `StrongBusinessTester.FcfFailureSkipsBalanceSheet` | strong_business_tester.py:54-56 | A non-positive free-cash-flow value stops the screen, whatever the balance-sheet fetch would give, even an error. |
| `StrongBusinessTester.FreshSymbolSkipped` | strong_business_tester.py:47-49 | A fresh symbol is skipped and the store is unchanged. |
| `StrongBusinessTester.ScreenRecordsSymbol` | strong_business_tester.py:50-51 | Whatever the verdict, aborted screens included, the store holds the symbol afterwards. No other row changes. |
| `StrongBusinessTester.AbortedScreenStillRecordsSymbol` | strong_business_tester.py:51-54 | A first screen whose fetch raises still records the symbol at `now`, so every screen in the next 365 days skips it and returns false. |
| `StrongBusinessTester.FirstScreenOpensWindow` | strong_business_tester.py:46-51 | After a symbol's first screen, any screen in the next 365 days is skipped and leaves the store unchanged. |
| `StrongBusinessTester.StaleEntryNeverRearmed` | strong_business_tester.py:47-51 | As written, a symbol with a stale row is screened again, but the store is left unchanged. The row therefore stays stale. |
| `StrongBusinessTester.StaleEntryExample` | strong_business_tester.py:47-51 | At concrete values, a screen 400 days after the first leaves the row stale. |
| `StrongBusinessTester.StoreAfterUpsert` | strong_business_tester.py:50-51 | Corrected store update: a screen that is not skipped leaves the symbol stored at `now`, and every other row unchanged. |
| `StrongBusinessTester.RescreenRearmsWindow` | strong_business_tester.py:47-51 | With the corrected update, a screen of a non-fresh symbol opens a new 365-day window, also for a stale row. |
| `StrongBusinessTester.TestStrongBusiness` | strong_business_tester.py:46-63 | For a non-empty symbol, the outcome is `OutcomeOf` the verdict (raise, false or true), and the store is left as `StoreAfter`. For an empty symbol, either it is skipped with the store unchanged, or it is inserted and the checks decide the outcome. |
| `StrongBusinessTester.TestStrongBusinessUpserting` | strong_business_tester.py:46-63 | The screen with the corrected update. For a non-empty symbol, the outcome is the same as the original's, and the store becomes `StoreAfterUpsert`. For an empty symbol, either it is skipped with the store unchanged, or it is inserted and updated at `now` and the checks decide the outcome. |
| `MarkdownTable.IndexOf` | test_strong_business_tester.py:21 | `row[header]` finds the first field with that name. |
| `MarkdownTable.Cells` | test_strong_business_tester.py:21 | The cells of a data row are the record's values, one per header, in header order. |
| `MarkdownTable.DataRows` | test_strong_business_tester.py:18-22 | There is one data row per record, in input order. |
| `MarkdownTable.FormatTableMarkdown` | test_strong_business_tester.py:4-25 | The loop-built string equals `Markdown(data)`. It is empty iff there are no records. |
| `MarkdownTable.RowLineFramesEachCell` | test_strong_business_tester.py:12 | A row of at least one cell is `"|"` followed by `" cell |"` for each cell in order. |
| `MarkdownTable.SeparatorHasOneDashPerHeader` | test_strong_business_tester.py:15 | For n ≥ 1 headers, the separator row is `"|"` followed by exactly n copies of `" --- |"`. |
| `MarkdownTable.TableSplitsIntoRows` | test_strong_business_tester.py:25 | When no column name or cell holds a line break, a non-empty table split on line breaks gives back the header row, the separator row and the data rows: `len(data) + 2` lines, with no trailing newline. |
| `MarkdownTable.EmptyTable` | test_strong_business_tester.py:5-6 | No records render as the empty string. |
| `MarkdownTable.SingleRowOfThreeColumns` | test_strong_business_tester.py:34-42 | One record of three distinct columns renders as header row, three `---` cells and the values, in column order. |
| `PyStr.SplitJoinLines` | test_strong_business_tester.py:25 | Splitting `"\n".join(lines)` on line breaks returns the lines, when none contains a line break. |

## Findings

| source | as written | input that shows it | evidently intended | confidence | as-written member | corrected member |
|---|---|---|---|---|---|---|
| strong_business_tester.py:47-51 | A symbol whose row is 365 or more days old is screened again. But `insert_data` hits the primary key, and the error is swallowed (database.py:61-62), so `tested_at` keeps the old time. Every later run screens the symbol again. | Store `{AAPL: 0}`, screened at 400 days, then again at the same moment: both screens run, and the store stays `{AAPL: 0}`. | A screen that is not skipped records the new time (insert or update), opening a new 365-day window. | medium, not executed | `StrongBusinessTester.StaleEntryNeverRearmed` | `StrongBusinessTester.RescreenRearmsWindow` |

## Left out

- The aiosqlite connection, cursors, commits and `__aexit__` close are not modelled. Every statement is taken as committed at once, and storage errors other than the duplicate key are not modelled.
- `asyncio.Lock` and the async/await structure are not modelled. The model is sequential, so the lock has nothing to guard.
- CSV reading and `os.path.expanduser` in `refresh` are not modelled. `Refresh` takes the `Symbol` column as a sequence of strings. A missing `Symbol` column (a `KeyError`) is not modelled.
- `parse_args`, `main` and `test_run` in `database.py`, and `main` in `strong_business_tester.py`, are CLI and demo code. They are not modelled.
- The yahooquery fetches and the pandas reshaping are foreign calls, so they are left out. A fetch is given as its series or as an error; which exception is raised, and why, is not modelled. Because the series is taken as given, dates that repeat in `asOfDate` and collapse in `to_dict()` are not modelled.
- An error raised by a screen propagates out of `main` in `strong_business_tester.py`, so the remaining lines of `tickers.txt` are not screened. The model stops at the `Raises` outcome of one screen.
- The float division `TotalDebt / CommonStockEquity`, and NaN and infinite values, are not modelled. Values are reals, so a NaN ratio, which fails `v < threshold` in Python, has no counterpart.
- `datetime.now()` and the `strptime` parsing of the stored text are not modelled. Time is a microsecond count passed in. The code reads the clock twice, once for the freshness check (strong_business_tester.py:43) and once for the insert (strong_business_tester.py:51). The model uses one `now` for both, so it ignores the time between the two reads. The stored text omits `.%f` when the microsecond is 0, and the parse then raises. That is not modelled.
- `print` and `logging` output are not modelled.
- The `str()` rendering of cell values is not modelled. Records hold already-rendered cells.
- `Database.DatabaseManager.ReadData`: the order of a full scan is left open, because the query has no `ORDER BY`.
- `StrongBusinessTester.HasProcessed`: for an empty symbol the contract is weaker than the code. The code reads every row and judges by whichever row comes first, and that row's order is left open.
- `StrongBusinessTester.TestStrongBusiness`: for an empty symbol the contract gives only the two possible outcomes, for the same reason as `HasProcessed`.
- `StrongBusinessTester.TestStrongBusinessUpserting`: for an empty symbol the contract gives only the two possible outcomes, for the same reason as `HasProcessed`.
- `Database.DatabaseManager.ReadData`: `read_data(None)` and `read_data("")` are both modelled by the empty string.
