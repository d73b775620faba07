# Personal finance ledger — a Dafny model

This project models the transaction ledger of a small desktop finance tracker.
In that tracker, users enter dated income and expense transactions. Each one has a type, a category, an amount
and a note. The tracker keeps them in a SQLite table named `transactions` and shows a running
balance. The model covers five parts:

- **The entry form's guard chain** (`FormDialog.validate_submit` / `get_data`), in `form.dfy`, module
  `Form`. A candidate holds what the user typed, with the amount already read by `float()`. The guard
  chain either refuses it, giving the first failed check, or accepts it as a row. The amount of an
  accepted row is rounded to cents. The form also pre-fills itself from a stored row when the user edits it.
- **The table** (`init_db` and the INSERT/UPDATE/DELETE/SELECT statements), in `storage.dfy`, module
  `Storage`. The table as a value is a map from id to row plus the AUTOINCREMENT counter (`Table`,
  with the functions `Inserted`, `Updated`, `Deleted`). The database file is a class `Database`
  whose methods update those fields and are proved equal to the functions. `SELECT ... ORDER BY date`
  is a method that returns every row once, sorted by the date *text*.
- **The ledger header** (`load_transactions`), in `ledger.dfy`, module `Ledger`. The balance loop is
  proved to compute income minus everything else. "Tracked since" is the first listed date, and the
  arrow is ▲, ▼ or nothing according to the balance's sign. The window (`FinanceTracker`) is a class
  over a `Database`. Its add, edit and delete actions each change the table and then reload.
- **The search bar** (`filter_table`), in `search.dfy`, module `Search`. A row stays visible when
  the lower-cased search text occurs in the lower-cased text of one of its five cells.
- **Shared text operations** in `text.dfy`, module `Text`: lower-casing, substring search, the
  order SQLite uses for TEXT values, and the `%.2f` rendering of cents with its inverse.
  `records.dfy` (module `Records`) holds the row shape.

Amounts are integer cents, the value after rounding. The amount the form holds is the exact value
of the double that `float()` produced from the typed text. The balance is an exact integer sum.

A few behaviours follow the code rather than a tidier reading of the application:

- Rows with equal dates are listed in no fixed order. The query orders by `date` alone, with no id
  tie-break. The lemma `SummaryIndependentOfTieOrder` shows that the header still does not depend on that order.
- `date` is `MM-dd-yyyy` text, so the listing order is text order, not calendar order.
- The type is free text. Only `type.lower() == "income"` counts as income. Everything else,
  whatever its spelling, is subtracted.
- The table itself validates nothing. Validation happens only in the form.
- Deleting an id that has no row is a silent no-op. Editing one shows a "not found" warning and changes
  nothing.
- The balance is not rounded, because it is an exact sum of amounts that are already in cents.

The method `Ledger.SalaryThenFoodScenario` builds a new database and adds a 1,000.00 income dated
01-01-2024 and a 150.50 expense dated 01-02-2024. It then shows from the contracts alone that the
header reads 849.50 ▲, tracked since 01-01-2024.

## Model

| member | source | states |
|---|---|---|
| Form.RoundCents | main.py:76 | `round(amount, 2)` in cents: the result is within half a cent of the amount, and an exact tie goes to an even number of cents |
| Form.RoundCentsOfCents | main.py:248 | an amount that already has two decimals rounds to itself |
| Form.ValidateSubmitAsWritten | main.py:44-79 | the source's guard chain: each refusal (not numeric, empty category, category over 20, not positive, over 9,999,999) happens exactly when its check fails and all earlier ones pass; an accepted row carries the candidate's fields, the rounded amount and a category of 1..20 characters, but its amount is only known to lie in 0..9,999,999.00 |
| Form.ValidateSubmit | main.py:44-79 | the same chain with positivity checked on the rounded amount: the same refusals in the same order, and every accepted row satisfies `ValidRow` (1 to 20 characters, 0.01 to 9,999,999.00) |
| Form.SubCentAmountAcceptedAsZero | main.py:65-76 | an amount of 0.004 passes the written guards and is stored as 0.00; the corrected chain refuses it as not positive |
| Form.ValidateSubmitDiffersOnlyOnZeroAmounts | main.py:65-76 | the two chains disagree exactly when the written one accepts an amount that rounds to 0.00, and then the corrected one says "not positive" |
| Form.Accepted | main.py:73-89 | the row handed on carries the typed date, type and category, the note as present text, and an amount within half a cent of the typed one |
| Form.PrefillType | main.py:246 | the combo box shows the stored type when it is exactly "Income" or "Expense" (case-sensitive match), and otherwise stays on its first item, "Income" |
| Form.Prefill | main.py:243-249 | the pre-filled form carries the row's date, category and note text, and an amount that rounds back to the stored cents |
| Form.ResubmitUnchangedKeepsRow | main.py:243-252 | the chain as written and the corrected one both accept a valid row's pre-filled form, pressed OK unchanged; they return the row with the type and note the form showed, which for a standard type with a note is the stored row itself |
| Text.Contains | main.py:299 | `needle in haystack`: true exactly when the needle occurs at some position of the haystack |
| Text.EmptyIsSubstring | main.py:299 | the empty text occurs in every text |
| Text.Lower | main.py:294 | `str.lower`: the same length, no upper-case ASCII letter left, each upper-case letter mapped to its lower-case one and every other character unchanged |
| Text.LowerIdempotent | main.py:294 | lower-casing twice is lower-casing once |
| Text.TextLeReflexive | main.py:162 | the TEXT order is reflexive |
| Text.TextLeTotal | main.py:162 | any two date texts are ordered one way or the other |
| Text.TextLeTransitive | main.py:162 | the TEXT order is transitive |
| Text.TextLeAntisymmetric | main.py:162 | two texts each no later than the other are equal |
| Text.NatValueOfNatText | main.py:186 | the digits printed for a whole number read back as that number |
| Text.UnsignedCentsText | main.py:186 | `%.2f` of a non-negative amount has the canonical shape: a whole part with no leading zero, a point and exactly two digits |
| Text.CentsText | main.py:186 | `%.2f` of any amount has the canonical shape, with a minus sign exactly when the amount is negative |
| Text.NatTextOfWholeText | main.py:186 | a whole part with no leading zero is exactly the digits printed for its value |
| Text.UnsignedCentsTextUnique | main.py:186 | every text of the unsigned canonical shape is the `%.2f` rendering of the value it reads as |
| Text.CentsTextUnique | main.py:186 | a canonical text whose minus sign agrees with its value is the `%.2f` rendering of that value, so with the round trip the rendering is fixed completely |
| Text.UnsignedCentsRoundTrip | main.py:186 | `%.2f` of a non-negative amount reads back as the same cents |
| Text.CentsTextRoundTrip | main.py:186 | `%.2f` of any amount, sign included, reads back as the same cents |
| Storage.Lookup | main.py:235-236 | `SELECT ... WHERE id = ?` finds a row exactly when the id is in the table, and then the row stored under it |
| Storage.Inserted | main.py:284-287 | INSERT gives the row the id after the largest ever handed out, which no present row has; every other row is unchanged; the table grows by exactly one row; id and row invariants are kept |
| Storage.Updated | main.py:256-260 | UPDATE replaces all five columns of the row with that id and nothing else; on a missing id the table is unchanged |
| Storage.Deleted | main.py:275 | DELETE leaves no row under that id and every other row unchanged; on a missing id the table is unchanged |
| Storage.IdsStrictlyIncrease | database.py:14 | over any run of inserts, updates and deletes, inserts get strictly increasing ids above every id handed out before, so ids are never reused after a delete |
| Storage.ValidRowsPreserved | main.py:57-76 | starting from valid rows, statements that write only valid rows (those the corrected chain `Form.ValidateSubmit` accepts) leave only valid rows |
| Storage.InsertByDate | main.py:162 | inserting one entry into a listing adds exactly that entry |
| Storage.InsertByDateKeepsOrder | main.py:162 | inserting into a date-sorted listing keeps it sorted by date |
| Storage.SortedCons | main.py:162 | an entry no later than every entry of a sorted listing can go in front of it |
| Storage.ListingMembers | main.py:162-163 | every listed entry is a row of the table under its id, and every row of the table is listed |
| Storage.ListingEmptyIff | main.py:170 | the listing is empty exactly when the table is |
| Storage.FirstIsEarliest | main.py:178 | the first listed date is no later, in text order, than the date of any row |
| Storage.Database.Fresh | database.py:5-6 | connecting to a missing file gives a database without the table and with no rows |
| Storage.Database.Existing | database.py:5-6 | connecting to an earlier file gives its table unchanged |
| Storage.Database.InitDb | database.py:8-24 | `CREATE TABLE IF NOT EXISTS`: afterwards the table exists; an existing table keeps all rows and its counter; a new one is empty with counter 0 |
| Storage.Database.Insert | main.py:284-288 | the stored table becomes `Inserted` of the old one, and the returned id is the new row's |
| Storage.Database.Update | main.py:256-261 | the stored table becomes `Updated` of the old one |
| Storage.Database.Delete | main.py:275-276 | the stored table becomes `Deleted` of the old one |
| Storage.Database.SelectById | main.py:235-236 | returns the row with that id, or nothing when there is none |
| Storage.Database.SelectAllByDate | main.py:162-163 | returns every row once with its id, non-decreasing by date text |
| Search.RenderRow | main.py:183-187 | the five cells show date, type and category as stored, the canonical `%.2f` text of the amount (which reads back as the amount), and the note text, empty for a NULL note |
| Search.HiddenRows | main.py:292-302 | a row is hidden exactly when no cell's lower-cased text contains the lower-cased search text |
| Search.EmptySearchMatchesEveryRow | main.py:294-302 | an empty search text hides no row |
| Search.SearchIgnoresCase | main.py:294 | searching for a text and for its lower-cased form hides the same rows |
| Ledger.IsIncome | main.py:190 | a type counts as income exactly when it spells "income" in any mix of upper and lower case |
| Ledger.AmountTotalAppend | main.py:180-195 | the total of two joined listings is the sum of their totals |
| Ledger.AmountTotalPermutation | main.py:180-195 | income and expense totals do not depend on the order of the rows |
| Ledger.Arrow | main.py:217-225 | ▲ exactly when the balance is positive, ▼ exactly when negative, nothing exactly at zero |
| Ledger.SummaryOf | main.py:170-229 | an empty listing shows 0.00, no date and no arrow; otherwise a date is shown; the arrow is ▲ exactly for a positive balance and ▼ exactly for a negative one |
| Ledger.Summarize | main.py:170-229 | the balance loop yields income minus all other amounts, the first listed date (none and 0.00 for an empty listing) and the balance's arrow |
| Ledger.SummaryOfListing | main.py:170-178 | an empty table shows 0.00, no date and no arrow; otherwise "tracked since" is the date of some row and no row's date text is earlier |
| Ledger.SummaryIndependentOfTieOrder | main.py:162-195 | two listings of the same table, whatever order they give rows with equal dates, show the same balance, date and arrow |
| Ledger.StandardTypes | main.py:190 | the form's "Income" counts as income and "Expense" does not |
| Ledger.DatesOfJanuary | main.py:162 | 01-01-2024 sorts no later than 01-02-2024 |
| Ledger.TwoRowSummary | main.py:158-229 | a table of an income row under id 1 and an expense row under id 2, dated no earlier in text order, shows income minus expense, tracked since the income's date, whatever listing the query returns |
| Ledger.FinanceTracker.constructor | main.py:92-97 | the window starts showing a listing of the table and its header |
| Ledger.FinanceTracker.LoadTransactions | main.py:158-229 | afterwards the window shows a listing of the current table and that listing's header |
| Ledger.FinanceTracker.AddTransaction | main.py:280-290 | the table becomes `Inserted` of the old one and the window is reloaded |
| Ledger.FinanceTracker.EditTransaction | main.py:231-263 | a missing id is reported and changes nothing; a cancelled form changes nothing; otherwise the row is replaced and the window reloaded |
| Ledger.FinanceTracker.DeleteTransaction | main.py:265-278 | when confirmed, the row is gone and the window reloaded; otherwise nothing changes |
| Ledger.FinanceTracker.FilterTable | main.py:292-302 | hides exactly the shown rows none of whose rendered cells matches the search text |

## Findings

| source | as written | input that shows it | evidently intended | confidence | as-written member | corrected member |
|---|---|---|---|---|---|---|
| main.py:65-76 | `amount <= 0` is checked before `round(amount, 2)`, so a positive amount under half a cent passes and is stored as 0.00 | amount text `0.004` (see `Form.SubCentAmountAcceptedAsZero`) | refuse an amount that is not positive after rounding ("Amount must be a positive number.") | not executed; follows from the guard order and Python's `round` | Form.ValidateSubmitAsWritten | Form.ValidateSubmit |

## Left out

- All PySide6 presentation is left out: widgets, layouts, row colours, label styling, the buttons and their per-row closures, and message boxes. The delete confirmation is the `confirmed` parameter. The edit dialog's outcome is the `submitted` parameter: the row `get_data` returned, or None when the user cancelled. The dialog re-prompting after a refusal is not modelled.
- Stylesheet loading, frozen-bundle path resolution and application start-up are left out. They are file I/O and process entry.
- The sqlite3 connection, commit and close are left out. Each statement is modelled as applying atomically. I/O failures of the database file are not modelled.
- `float()` parsing is left out. The candidate carries its result as `Option<real>`. Values that `float()` accepts but that are not finite reals (`nan`, `inf`) are not represented. `nan` passes every guard of the source, because each comparison with it is false.
- Form.RoundCents: the candidate holds the exact value of the double `float()` returned, and on that value rounding half to even is what CPython's `round(x, 2)` computes. The conversion from the typed decimal text to that double is not modelled. So the model does not show that typing "0.005" gives 1 cent: the double nearest 0.005 lies slightly above it. Read as the exact decimal 0.005, the same candidate would round to 0 cents.
- Ledger.Summarize: the balance is an exact sum in cents, not the source's float accumulation. So its arrow can differ from what the window shows. An income of 0.10 and one of 0.20 with an expense of 0.30 sums to about 5.55e-17 in floats, and the window shows "₱0.00▲". `Arrow` gives no arrow for that exact zero. A float balance of `-0.00` is not modelled either.
- `QDate` conversion and formatting are left out. The date is opaque `MM-dd-yyyy` text, and a stored date is assumed to survive the pre-fill round trip of the edit form.
- Text.Lower: lower-cases ASCII letters only. Python's `str.lower` also maps other Unicode letters.
- The AUTOINCREMENT limit is left out. SQLite refuses inserts once the largest id reaches 2^63 - 1.
- Ledger.FinanceTracker.FilterTable: returns the hidden flags instead of storing them in the table widget. How Qt carries hidden flags across a later reload is not modelled.
- An absent (NULL) note is shown and pre-filled as empty text. The form itself always stores a note, possibly empty.
