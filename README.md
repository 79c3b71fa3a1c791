# Personal finance ledger and budgets, modelled in Dafny

This project models the ledger-and-budget logic of a small personal-finance
command-line program that keeps its data in an embedded SQLite file. The
model replaces the SQL with an in-memory store of two tables, each kept as a
sequence of rows in table order:

- **transactions**: `(user_id, category, amount, type, date)`. `type` is
  `income` or `expense`. `date` is text.
- **budgets**: `(user_id, category, monthly_limit, month, year)`, unique on
  `(user_id, category, month, year)`.

Amounts and limits are integer cents.

The modules follow the program's parts:

- `Dates` (`dates.dfy`): dates in `YYYY-MM-DD` text form. It defines the
  store's text order, the month-start slice `date[:8] + "01"`, and what
  Python's `strptime('%Y-%m-%d')` accepts.
- `Budgets` (`budgets.dfy`): the budgets table. It covers the upsert
  `INSERT ... ON CONFLICT(user_id, category, month, year) DO UPDATE SET
  monthly_limit`, the budget lookup of the budget check (by user and category
  only), and `view_budgets`.
- `Ledger` (`ledger.dfy`): the transactions table, the expense `SUM` over the
  window `[month start, date]` (0 when no row matches), and the classification
  into NoBudget, Exceeded (strictly above the limit) or Within.
- `Report` (`report.dfy`): `generate_monthly_report`. It gives the income and
  expense totals of one user for a month (matched as the text
  `f"{month:02d}"`) and a year (matched as the text given), and the savings
  between them.
- `Store` (`store.dfy`): the class `FinanceStore`, whose two fields are the
  tables. `AddTransaction` validates and appends, then runs the budget check
  for an expense. `SetBudget` is the retry loop: at most three attempts,
  retrying only when the store answers "database is locked". What the store
  answers on attempt `i` is the parameter `answer(i)`.
- `Optional` (`optional.dfy`): an `Option` type.

Behaviour kept as the code has it:

- The budget check looks up a budget by user and category only, ignoring
  month and year (`Budgets.BudgetForIgnoresPeriod` shows the effect).
- No code checks that an amount or a limit is positive, or that a month lies
  in 1..12, so the model accepts any integers there.
- The user id is an opaque integer. The time of day is not modelled. Today's
  date is the `today` parameter of `AddTransaction`.

Choices the model makes where the code leaves the result to the engine:

- The budget check's query (main.py:148-152) and `view_budgets`
  (main.py:230) have no `ORDER BY`. SQLite returns rows in an order it
  chooses; with the UNIQUE index of main.py:44 that may be index order
  (user_id, category, month, year). The model reads rows in table order
  (order of insertion), so "the first matching row" means the first one
  inserted.

## Model

| member | source | states |
|---|---|---|
| `Dates.MonthStart` | main.py:139 | for a valid date, the slice is a valid date with the same year and month and day 1 |
| `Dates.DateOrder` | main.py:143 | on well-formed dates, the text comparison the query uses is calendar order (year, then month, then day) |
| `Dates.MonthStartLe` | main.py:139-143 | the month start of a valid date is not after the date in text order |
| `Dates.WindowIsMonthToDate` | main.py:139-144 | for valid dates, a date is in the window `[month start of d, d]` exactly when it is in d's year and month and its day is not after d's day |
| `Dates.ValidDateAccepted` | main.py:121-122 | every zero-padded valid date is also accepted by the strptime validation |
| `Dates.UnpaddedDateAccepted` | main.py:121-122 | strptime accepts "2024-3-5", which is not a zero-padded date |
| `Dates.UnpaddedDateLeavesWindow` | main.py:139-144 | the month start of "2024-3-5" is "2024-3-501", which sorts after it, so that window is empty |
| `Budgets.KeyIndex` | main.py:186 | the conflict target: the position of the first row with the key, with the key there and no earlier, or none when no row has it |
| `Budgets.Upsert` | main.py:183-188 | the new row is in the table; it grows by one row exactly when the key was absent; rows of other keys keep their positions and values |
| `Budgets.UpsertKeepsKeysUnique` | main.py:44 | the upsert preserves uniqueness of (user_id, category, month, year) |
| `Budgets.UpsertStoresRow` | main.py:183-188 | after an upsert, exactly one row has the key and it holds the new limit; the rows of every other key are unchanged and in order |
| `Budgets.UpsertIndex` | main.py:186-187 | after an upsert the key is found where the new row stands; an existing row is updated where it was |
| `Budgets.UpsertIdempotent` | main.py:186-187 | setting the same budget twice leaves the table as setting it once |
| `Budgets.UpsertOverwrites` | main.py:186-187 | setting a key with one limit and then another leaves the table as setting only the second (one row, second limit) |
| `Budgets.ViewBudgets` | main.py:230-231 | at most one entry per table row; no entry when no row is the user's; when every row is the user's, exactly one (category, limit) entry per row, in table order |
| `Budgets.ViewBudgetsAppend` | main.py:230-231 | one more row adds exactly one entry, at the end, to its own user's listing and none to another user's, so duplicates are listed once per row as `fetchall()` returns them |
| `Budgets.ViewBudgetsMembers` | main.py:230-231 | a (category, limit) pair is listed for a user exactly when some row of that user holds it |
| `Budgets.ViewAfterUpsert` | main.py:230 | after setting a budget, the user's listing shows it, and every other user's listing is unchanged |
| `Budgets.BudgetFor` | main.py:148-152 | no result exactly when no row has the user and category; otherwise the limit of the first such row in table order (the model's choice, as the query has no `ORDER BY`), whatever its month and year |
| `Budgets.BudgetForIgnoresPeriod` | main.py:148-151 | with January and February budgets of one category, the January limit is the one the check uses |
| `Ledger.ParseKind` | main.py:109-111 | only "income" and "expense" are accepted, each as its kind |
| `Ledger.SpendAppend` | main.py:140-144 | appending a row adds its amount to the sum exactly when it is an expense of the user and category dated inside the window |
| `Ledger.SpendNoMatch` | main.py:145 | with no row in the window the spend is 0 |
| `Ledger.NewExpenseCounted` | main.py:139-145 | the spend computed right after appending an expense on a valid date includes its amount exactly once |
| `Ledger.UnpaddedExpenseNotCounted` | main.py:139-145 | an expense dated "2024-3-5" is missing from its own budget check |
| `Ledger.SpendIsMonthToDate` | main.py:138-145 | on a table of valid dates, the text-window sum equals the calendar month-to-date expense total |
| `Ledger.Classify` | main.py:154-161 | NoBudget exactly when no budget row was found; Exceeded exactly when spend is strictly above the limit; Within when it is at or below the limit; spend and limit are reported |
| `Ledger.EvaluateAfterExpense` | main.py:137-161 | with a budget, the check after an expense sees the earlier month-to-date spend plus the new amount, and reports Exceeded exactly when that total is above the limit |
| `Ledger.WindowExampleFirst` | main.py:139-145 | with only 50.00 spent on 1 March, the check on the 1st sees 50.00 |
| `Ledger.WindowExampleFifteenth` | main.py:139-145 | 50.00 on the 1st and 60.00 on the 15th: the check on the 15th sees 110.00 |
| `Report.Decimal` | main.py:213 | the decimal text of n is all digits and reads back as n; one digit below 10, two below 100 |
| `Report.FormatMonth` | main.py:213 | `f"{m:02d}"` reads back as m for m >= 0, is two characters for 0..99, and starts with a minus sign for negative m |
| `Report.PeriodMatchesMonth` | main.py:212-213 | for a valid date, the period filter holds exactly when the year text is equal and the month number equals the requested month ("03" matches 3) |
| `Report.MonthlyReport` | main.py:207-218 | savings is total income minus total expense |
| `Report.KindTotalNoMatch` | main.py:216-217 | a total over no matching rows is 0 |
| `Report.ReportAppend` | main.py:208-213 | one more row changes the report only if it is the user's and in the period; an income row adds to income, an expense row to expense, never both |
| `Report.ReportExample` | main.py:207-218 | income 200.00 and 300.00 and expense 150.00 in March 2024 give 500.00, 150.00 and savings 350.00; rows of another month or user are ignored |
| `Report.NegativeSavings` | main.py:218 | a month with only an expense reports negative savings |
| `Dates.TextLe` | main.py:143 | SQLite's text comparison `<=`: character by character, a proper prefix first; its meaning on dates is stated by `Dates.DateOrder` and `Dates.DigitsOrder` |
| `Dates.ValidDate` | main.py:121-122 | the corrected date check: zero-padded `YYYY-MM-DD`, month 1..12, a real day of that month, year at least 1; `Dates.ValidDateAccepted` shows strptime accepts every such date |
| `Dates.StrptimeAccepts` | main.py:121-122 | the as-written check of `strptime(date, '%Y-%m-%d')`: one- or two-character month and day tokens, a space-padded day, the whole text consumed, a real day; `Dates.UnpaddedDateAccepted` and `Dates.SpacePaddedDayLeavesWindow` show what it lets through |
| `Dates.SpacePaddedDayLeavesWindow` | main.py:121-144 | strptime accepts "2024-03- 5"; its month start "2024-03-01" sorts after it because ' ' sorts below '0', so that window is empty |
| `Dates.DayTenLeavesWindow` | main.py:121-144 | strptime accepts "2024-3-10"; its month start "2024-3-101" sorts after it, so that window is empty |
| `Dates.SpacePaddedShortMonthInWindow` | main.py:121-144 | strptime accepts "2024-1- 5", which is not a zero-padded date, yet its month start "2024-1- 01" sorts before it, so that window contains it |
| `Budgets.KeysUnique` | main.py:44 | UNIQUE(user_id, category, month, year): no two rows share a key; kept by `Budgets.UpsertKeepsKeysUnique` and part of `Store.FinanceStore.Valid` |
| `Ledger.InSpendWindow` | main.py:141-143 | the WHERE clause: user, category, kind expense, and `month_start <= date <= date` in text order; on valid dates `Dates.WindowIsMonthToDate` states it as the calendar month up to the date |
| `Ledger.Spend` | main.py:140-145 | `SUM(amount)` over the rows satisfying the WHERE clause, or 0; its meaning is stated by `Ledger.SpendAppend`, `Ledger.SpendNoMatch` and `Ledger.SpendIsMonthToDate` |
| `Ledger.Evaluate` | main.py:137-161 | the budget check: the classification of the window spend against the first budget of (user, category); `Ledger.EvaluateAfterExpense` and `Ledger.Classify` state its meaning |
| `Report.InPeriod` | main.py:212-213 | the report's filter `strftime('%m', date) = f"{month:02d}" AND strftime('%Y', date) = year`; `Report.PeriodMatchesMonth` states it as year text and month number equality |
| `Report.KindTotal` | main.py:207-217 | `SUM(CASE WHEN type = kind THEN amount ELSE 0 END) or 0` over the user's rows in the period; `Report.ReportAppend` and `Report.KindTotalNoMatch` state its meaning |
| `Store.FinanceStore.constructor` | main.py:24-47 | on a fresh database file both tables start empty and the store invariant holds |
| `Store.FinanceStore.AddTransaction` | main.py:101-163 | a bad kind changes nothing; otherwise a bad non-empty date changes nothing; otherwise one row with the given fields is appended (empty date means today), old rows and budgets stay unchanged, and an expense gets the budget check over the new table; in calendar terms, that check classifies the month-to-date expense total of the new table |
| `Store.FinanceStore.SetBudget` | main.py:176-201 | 1 to 3 attempts, all but the last Locked; Stored on Success, Failed on another error, Busy after three locks; the table is upserted only on Stored, leaving exactly one row for the key with the new limit, and is unchanged otherwise |

## Findings

| source | as written | input that shows it | evidently intended | confidence | as-written member | corrected member |
|---|---|---|---|---|---|---|
| main.py:121-122 | `strptime(date, '%Y-%m-%d')` also accepts one-digit months and days and a space-padded day. The slice `date[:8] + '01'` at line 139 gives a start that sorts after the date exactly when `date[8:]` sorts below "01". Three accepted forms do that: `YYYY-M-D` ("2024-3-5" gives "2024-3-501"), `YYYY-M-D0` ("2024-3-10", "2024-3-20", "2024-3-30"; "2024-3-10" gives "2024-3-101") and `YYYY-MM- D` ("2024-03- 5" gives "2024-03-01", as ' ' sorts below '0'). The window is then empty and the just-added expense is missing from its own spend. Other unpadded forms, such as "2024-3-15", "2024-03-5" or "2024-1- 5", still get a window that contains the date. | expense dated `2024-3-5`, `2024-3-10` or `2024-03- 5` | accept only the zero-padded `YYYY-MM-DD` form that the input prompt at main.py:114 ("Enter date (YYYY-MM-DD) or press Enter for today") asks for, so the window starts on the first of the month | medium; not executed | `Ledger.UnpaddedExpenseNotCounted` | `Ledger.NewExpenseCounted` |

The corrected behaviour is used throughout the model. `AddTransaction`
validates dates with `Dates.ValidDate` (zero-padded `YYYY-MM-DD`, real
calendar day, year at least 1). `Dates.ValidDateAccepted` shows that this
accepts only dates `strptime` also accepts. The as-written acceptance is
`Dates.StrptimeAccepts`. `Dates.UnpaddedDateAccepted`,
`Dates.DayTenLeavesWindow` and `Dates.SpacePaddedDayLeavesWindow` show that
it lets `2024-3-5`, `2024-3-10` and `2024-03- 5` through, and
`Dates.SpacePaddedShortMonthInWindow` shows an accepted unpadded date
(`2024-1- 5`) whose window is not empty.

## Left out

- Connections, `PRAGMA busy_timeout`, WAL mode, `timeout=10`, commits and
  closing (main.py:12-13, 50-54, 319): engine configuration and I/O. A Locked
  attempt leaves the table unchanged in the model.
- `time.sleep(1)` and every `print`: timing and presentation. The outcomes
  the messages report are returned as `AddResult` and `SetBudgetResult`.
- `hash_password`, `register_user`, `login_user` (main.py:75-98): credential
  storage and a foreign SHA-256 call. The user id is an opaque integer.
- `backup_data` and `restore_data` (main.py:237-247), and with them the
  snapshot round-trip property: file I/O and a foreign SQL dump.
- The menu, `input()`, `.lower()`, `float()` and `int()` parsing, and the
  `ValueError` paths (main.py:104-106, 167-168, 250-318): input handling.
  The model takes the lower-cased kind, the amount in cents, and the month as
  an integer.
- `datetime.now()` (main.py:118): a clock, supplied as `today`.
- `strptime` is modelled with ASCII digits only. Python's `\d` also matches
  other Unicode digits.
- The first `set_budget` (main.py:56-72): dead code, redefined at main.py:176.
- Lock contention between processes: concurrency. It appears only as the
  Locked outcome an attempt may get, and so does the property about N
  concurrent setters.
- Store errors inside `add_transaction` and `generate_monthly_report`
  (main.py:165-166, 224-225): the model's store always accepts the insert
  and the queries.
- Errors other than `sqlite3.OperationalError` inside `set_budget` would
  propagate out of the function. The model folds them into `OtherError`,
  which leaves the table unchanged in both cases.
- Floating-point `REAL` amounts: integer cents, without float rounding.
- The `id` columns (AUTOINCREMENT): rows are kept in table order instead.
  Queries without `ORDER BY` are read in that order, which is the model's
  choice: SQLite may return them in another order, such as that of the
  UNIQUE index at main.py:44.
- SQLite's `strftime` on text that is not a date gives NULL. The model reads
  characters 0-3 and 5-6 of the date directly. This is the same result for
  every date the model can store, since all of them are valid.
- Store.FinanceStore.AddTransaction: accepts only zero-padded `YYYY-MM-DD`
  dates, the form the input prompt at main.py:114 ("Enter date
  (YYYY-MM-DD) or press Enter for today") asks for. The source's `strptime` check at main.py:121-122
  also records unpadded and space-padded dates such as "2024-3-5",
  "2024-03-5" and "2024-03- 5". The model returns InvalidDate for them and
  records nothing. This is the corrected half of the finding above. It does
  not model how the source stores such rows.
- Store.FinanceStore.constructor: the model starts from a fresh database
  file. `CREATE TABLE IF NOT EXISTS` (main.py:16-47) keeps the rows of an
  existing file, which may include unpadded dates the program stored
  before. Such rows fall outside `Valid()` and are not modelled.
