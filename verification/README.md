# Expense ledger core, modelled in Dafny

This project models the data-management core of a personal expense tracker.
The tracker is a single Python file, `tracker.py`. Its GUI front end is built with
customtkinter, and it stores its data in one SQLite table:
`expenses(id INTEGER PRIMARY KEY AUTOINCREMENT, date TEXT NOT NULL, category TEXT NOT NULL, amount REAL NOT NULL)`.
The GUI and the SQL plumbing are not modelled. The table becomes an immutable
value: a `Store` holds the rows in rowid order plus the AUTOINCREMENT counter.
Each operation becomes a pure function or a short method over that value.

Modules, one file each:

- `Wrappers` (`wrappers.dfy`): the `Option`, `Result` and `Outcome` datatypes.
- `Seqs` (`seqs.dfy`): subsequences and order-preserving filtering.
- `TextOrder` (`textorder.dfy`): the BINARY collation SQLite uses to compare TEXT, and fixed-width decimal numerals.
- `Dates` (`dates.dfy`): the date check `datetime.strptime(date, "%Y-%m-%d")`, and the zero-padded digit shape of the `full-date` form of section 5.6 of RFC 3339 (shape only: whether the fields form a date is a separate check).
- `Ledger` (`ledger.dfy`): the table, insertion with AUTOINCREMENT ids, and deletion by id (`delete_expense` / `confirm_delete`).
- `Validation` (`validation.dfy`): the three input checks of `add_expense`, in their fixed order, then the insertion.
- `Query` (`query.dfy`): how `update_expense_list` builds its filter, and which rows it lists.
- `Analysis` (`analysis.dfy`): `analyze_expenses`, which runs `GROUP BY category` / `SUM(amount)`.

Some choices of the model:

- Dates follow Python's `_strptime` for the pattern `%Y-%m-%d`:
  - `%Y` is exactly four digits;
  - `%m` is `1[0-2]|0[1-9]|[1-9]`;
  - `%d` is `3[01]|[12]\d|0[1-9]|[1-9]| [1-9]`;
  - no text may follow the day;
  - the numbers must then form a `datetime.date`: year 1 to 9999, a month from 1 to 12, and a day within the month's Gregorian length.
  - So `2024-1-5` and `2024-01- 5` are accepted, as well as `2024-01-05`.
- `float(amount)` is the parameter `parseAmount: string -> Option<real>`. It returns `None` where Python raises `ValueError`.
- Python's `None` and `""` take the same branch everywhere in `update_expense_list`. Both are falsy, so the model writes both as `""`.
- AUTOINCREMENT hands out `nextId` and then increments it. Deleting rows never lowers the counter. Once the largest 64-bit rowid has been used, an insert fails (SQLite's SQLITE_FULL).

The model follows what the code does, including where that differs from what a reader might expect:

- Only the empty string counts as a missing field. A field made of spaces passes that check.
- A category without both dates does not give a category-only filter. It builds the malformed statement `SELECT * FROM expenses AND category = ?`, which is an error.
- Aggregation has no guard against non-finite sums. An empty table gives the "no data" error.
- The GUI's filter button passes only the two dates (tracker.py:221-223). The category branch of `update_expense_list` is therefore reached only by a direct call.

## Model

| member | source | states |
|---|---|---|
| Dates.ParseDateExact | tracker.py:59-64 | the date check yields `d` exactly when `d` is a real calendar date (years 1-9999, Gregorian month lengths) and the text is one of its `%Y-%m-%d` spellings; in both directions |
| Dates.ParseDateAccepts | tracker.py:60-64 | a date text is rejected exactly when it spells no calendar date at all |
| Dates.RejectsImpossibleDates | tracker.py:60-64 | `2024-13-40`, `2023-02-29`, `1900-02-29`, `2024-04-31` and `0000-01-01` are rejected |
| Dates.AcceptsLeapDays | tracker.py:60-64 | February 29 is accepted in 2024 and in 2000 (the 400-year rule) |
| Dates.LooseSpellings | tracker.py:61 | a one-digit month or day and a space before a one-digit day are accepted; trailing text is not |
| Dates.FormatDateRoundTrip | tracker.py:61-63 | every calendar date has a zero-padded `YYYY-MM-DD` text, and the check reads that text back as the same date |
| Dates.FullDateParse | tracker.py:61 | a zero-padded `YYYY-MM-DD` text is accepted exactly when its three fields form a calendar date, and it is then read as those fields |
| Dates.FullDateOrder | tracker.py:79-81 | on zero-padded `YYYY-MM-DD` texts, the TEXT order `BETWEEN` uses is the chronological (year, month, day) order, in both directions |
| Ledger.EmptyStoreValid | tracker.py:32-39 | a freshly created table satisfies the id invariant: ids positive, below the counter, strictly increasing |
| Ledger.IdsUnique | tracker.py:34 | in a table that keeps the invariant, two rows with the same id are the same row |
| Ledger.Insert | tracker.py:67 | an insert fails only when the rowids are used up; otherwise it appends exactly one row with the given fields and an id above every id present, keeps the invariant, and leaves the existing rows as they were |
| Ledger.DeleteIds | tracker.py:102 | deleting a set of ids keeps exactly the rows whose id is not in the set, in their order, with their ids and fields; the counter is unchanged, so deleted ids are not handed out again |
| Ledger.DeleteAbsentIds | tracker.py:102 | deleting ids that no row carries leaves the table unchanged |
| Ledger.ConfirmDelete | tracker.py:99-104 | the loop of single-id deletions, one per selected item, ends in the same table as deleting the whole selection at once |
| Ledger.DeleteExpense | tracker.py:93-104 | an empty selection is refused with `NoSelection` and changes nothing; otherwise exactly the rows with a selected id are removed and every other row stays in order |
| Ledger.Replay | tracker.py:34 | over any sequence of inserts and deletes, the assigned ids strictly increase and each exceeds every id the table held before: ids are never reused |
| Validation.Validate | tracker.py:44-64 | the checks run in a fixed order and the first failure decides the error: `MissingField` iff some input is empty, else `InvalidAmount` iff the amount does not parse, else `InvalidDate` iff the date spells no calendar date; on success the entry holds the given date, category and parsed amount |
| Validation.AddExpense | tracker.py:44-68 | a failed addition returns the table unchanged, with the validation error or `StorageFull`; a successful one appends exactly one row with the given fields, its id is the AUTOINCREMENT counter (so above every id ever assigned, including deleted ones) and the counter moves one past it, and the id invariant is kept |
| Validation.AddExpenseKeepsRecorded | tracker.py:49-67 | additions keep the invariant that every stored row has an accepted date and a non-empty category |
| Validation.DeleteIdsKeepsRecorded | tracker.py:102 | deletions keep the same invariant |
| Validation.ValidateExamples | tracker.py:49-64 | amount `abc` gives `InvalidAmount`, date `2024-13-40` gives `InvalidDate`, an empty category gives `MissingField`, an earlier check wins over a later one, and a blank category with date `2024-1-5` passes |
| Query.ListExpenses | tracker.py:73-88 | the statement is malformed exactly when a category comes without both dates; otherwise the listed rows are a subsequence of the table, in table order, and a row is listed iff it lies in the inclusive text range (when both dates are given) and carries exactly the category (when one is given) |
| Query.PartialRangeListsAll | tracker.py:79-81 | with only one date, or none, and no category, every row is listed in table order |
| Query.ReversedRangeListsNothing | tracker.py:79-81 | a range whose start sorts after its end lists no rows |
| Query.RangeIsChronological | tracker.py:79-85 | when the bounds and a row's date are zero-padded `YYYY-MM-DD` texts, the row is listed iff its date lies chronologically between the bounds (and the category matches, if one is given) |
| Query.CategoryNeedsRange | tracker.py:83-85 | a category with a missing date is an error, never a category-only list |
| Query.JanuaryExample | tracker.py:79-88 | the range 2024-01-01 to 2024-01-31 over rows dated 2023-12-31, 2024-01-15 and 2024-02-01 lists only the 2024-01-15 row |
| Query.UnpaddedDateFallsOutsideItsMonth | tracker.py:60-81 | the date check accepts `2024-1-5` as January 5, but as TEXT it sorts after `2024-01-31`, so the January range does not list that row |
| Analysis.Categories | tracker.py:125 | the grouping keys are the categories present, each exactly once |
| Analysis.GroupSumsAddUp | tracker.py:125 | over distinct categories that cover every row, the per-category sums add up to the total of all amounts |
| Analysis.AnalyzeExpenses | tracker.py:125-133 | `NoData` exactly when the table is empty; otherwise one group per category present and none for absent ones, each with the sum of its category's amounts, and the group sums add up to the total |
| Analysis.FoodAndTransport | tracker.py:125-133 | rows Food 10, Food 5 and Transport 3 give the groups Food 15 and Transport 3 |

## Left out

- GUI code is not modelled: widgets, tooltips (tracker.py:11-26), the layout (tracker.py:177-253) and the message boxes. Each operation returns its error kind and the resulting table instead of showing a dialog.
- The confirmation window of `delete_expense` (tracker.py:107-121) is not modelled. `DeleteExpense` models the confirmed path. Cancelling deletes nothing.
- The Treeview bookkeeping is not modelled: refilling the view, and removing deleted items from it. `ListExpenses` returns the rows the view would show.
- The pie chart and saving it as PNG (tracker.py:135-153) are presentation only.
- `save_database` and `load_database` (tracker.py:156-174) are file I/O and swapping of the global connection. `save_database` also calls a `Connection.write` that does not exist.
- The module-level `conn.close()` before `app.mainloop()` (tracker.py:258) is not modelled. It leaves every callback with a closed connection, which is a lifecycle matter and not ledger semantics.
- `float()` is not modelled. Its grammar (exponents, `nan`, `inf`, surrounding whitespace) is abstracted into the `parseAmount` parameter.
- Amounts are exact reals, so IEEE rounding, NaN and infinities are not modelled. `SUM(amount)` is the exact sum, and the order SQLite adds in does not matter.
- A NaN amount is not modelled. `float('nan')` passes the amount check (tracker.py:54), but SQLite stores a bound NaN as NULL. The INSERT (tracker.py:67) then violates the `NOT NULL` constraint on `amount` (tracker.py:37) and raises an uncaught `IntegrityError`, so nothing is stored. Whatever `parseAmount("nan")` returns in the model, the outcome differs from this one.
- Dates.ParseDate: Python's `\d` also matches non-ASCII decimal digits (for example Arabic-Indic digits). The model accepts only ASCII digits in the year, month and day.
- SQLite type affinity is not modelled. The Treeview hands ids back as strings, and SQLite converts them when comparing with the INTEGER column. The model takes ids as integers.
- Commit, durability and I/O failures of SQLite are not modelled. The only storage failure modelled is running out of rowids.
- Analysis.AnalyzeExpenses: the order of the groups is not constrained. SQLite happens to return them sorted by category, but no ORDER BY asks for that, and the chart does not depend on it.
- The refresh of the list after a successful addition (tracker.py:69) is not modelled separately. It is `ListExpenses` with no filter.
