# Expense ledger of BudgetPlanner, in Dafny

BudgetPlanner is a browser expense tracker. The user sets a budget and a
currency, then logs expenses against that budget. The page shows three
numbers: the budget, the expense total and the balance. The user can also
search the expense list, delete or edit an entry, and export the list as CSV.

This project models the ledger inside `app.js` with the DOM taken out.

- **State.** The class `Budget.Ledger` holds the three numbers the page
  shows, the list `App.expenseList` and the lock on the budget input.
- **Invariant.** `Ledger.Valid()` states that:
  - the shown total is the sum of the listed amounts;
  - the balance is the budget minus that total, and never negative;
  - every listed record passed the checks of `addExpense`.
- **Operations.** Each handler keeps that invariant, and its postcondition
  gives the whole new state in terms of the old one. Deleting adjusts the
  total incrementally and adding recounts it; both give the same numbers.
- **Pure parts.** These are functions with lemmas:
  - the search filter and the date sort of `renderExpenses`, and its badge table;
  - the CSV text of `exportToCSV`;
  - the string operations these use: `trim`, `toLowerCase`, `includes`,
    `join`, `split`, and the decimal text of a number.

Modules (one file each):

| module | file | content |
|---|---|---|
| `Strings` | strings.dfy | `trim`, ASCII `toLowerCase`, `includes`, `join`, `split`, integer text |
| `Expenses` | expenses.dfy | records, number fields, budget and expense validation, `Sum`, `FindIndex`, `RemoveAt` |
| `View` | view.dfy | title filter, stable most-recent-first sort, badge classes, display rows |
| `Csv` | csv.dfy | header, cell rows, CSV text and how it reads back |
| `Budget` | ledger.dfy | class `Ledger` with one method per `Balances`, `ExpenseItem` and `App` operation, and two client scenarios |

Modelling choices:

- **Amounts** are whole numbers (`int`), for example cents.
- **Number inputs** are a `NumField`: blank, not a number, or a number.
  `ToNumber` models JavaScript's unary `+`: a blank field reads as 0, and
  text that is not a number reads as NaN.
- **Dates** are `yyyy-mm-dd` texts. The model compares them character by
  character, which gives the same order as `new Date(...)` for such texts.
- **Record ids** are passed in by the caller. Ids need not be unique,
  because delete and edit act on the first match.
- **The sort** is modelled by an insertion sort. `Array.prototype.sort` is
  stable, and `View.StableSortIsUnique` proves that every stable
  most-recent-first order of a list is the same sequence.
- **The budget lock** is the field `budgetLocked`. In the code, the budget
  input and its button are disabled after the first budget (app.js:146-147).
  In the model, a second `SetBudget` is refused with `BudgetLocked`.
- **Starting values.** The constructor starts all three numbers at 0, with
  the budget unlocked and the list empty. The page's HTML is not part of
  this model, so these initial values are an assumption.

Some behaviours of the code are easy to mistake for others. The model
follows the code in each case:

- The export refuses an empty list (app.js:183); it does not write a
  header-only file. `Ledger.ExportToCsv` refuses it. The pure text
  `Csv.CsvText([])` is still defined and is the header line alone
  (`Csv.CsvOfEmpty`).
- Editing is not a one-step replace. It copies the record's fields into the
  form and deletes the record (app.js:47-56). The record comes back only
  when the user presses "add" again. The model proves that the copied
  fields pass the add checks again (`Ledger.EditExpenseItem`,
  `Expenses.EditedFieldsReaccepted`).
- Delete does not report whether a record was removed. The code returns
  nothing, and so does the model.
- The balance is not derived on demand. The code stores it as display text
  and reads it back for the affordability check (app.js:155). The model
  stores it too and proves that it stays equal to budget minus total.

## Model

| member | source | states |
|---|---|---|
| `Strings.Trim` | app.js:151 | the trimmed title has no white space (ECMAScript WhiteSpace or LineTerminator) at either end |
| `Strings.TrimIsInnerSlice` | app.js:151 | the trimmed title is a contiguous slice of the input with only white space before and after it |
| `Strings.TrimEmptyIffAllSpace` | app.js:151 | trimming gives the empty title exactly when the input is all white space, so `!title` refuses blank titles |
| `Strings.TrimKeeps` | app.js:151 | a title with no white space at either end is left as it is |
| `Strings.TrimIdempotent` | app.js:151 | trimming a title twice gives the same result as trimming it once |
| `Strings.ContainsIff` | app.js:66 | `includes` holds exactly when the search text occurs at some position of the title |
| `Strings.ContainsEmpty` | app.js:66 | every title includes the empty search text |
| `Strings.SplitJoin` | app.js:193 | splitting a `join(sep)` gives the parts back when no part contains the separator |
| `Strings.JoinSplit` | app.js:193 | joining what `split(sep)` gives rebuilds the text |
| `Strings.NatTextRoundTrip` | app.js:190 | the decimal text of an amount reads back as the same number |
| `Strings.IntText` | app.js:190 | an amount's text is digits, with a leading minus sign only for a negative amount |
| `Strings.Lower` | app.js:61-66 | `toLowerCase` on ASCII: every capital A-Z becomes its small letter (code plus 32), every other character stays, and the length is kept |
| `Strings.LowerAlikeIff` | app.js:61-66 | two texts lower-case alike exactly when they differ at most in the case of ASCII letters |
| `Strings.LowerIdempotent` | app.js:61-66 | lower-casing an already lower-cased text changes nothing |
| `Strings.Contains` | app.js:66 | a title can include only a search text no longer than itself; `Strings.ContainsIff` characterises `includes` in full |
| `Strings.Join` | app.js:193 | the joined text starts with the first part, followed by the separator when there are more parts; `Strings.SplitJoin` and `Strings.JoinSplit` give the round trips |
| `Expenses.ToNumber` | app.js:152 | unary `+` reads a numeric field as that number, a blank field as 0, and gives NaN exactly for text that is not a number |
| `Expenses.BudgetPassesAsWritten` | app.js:135 | the written guard passes a number exactly when it is positive and a currency is chosen, passes text that reads as NaN whenever a currency is chosen, and never passes a blank field |
| `Expenses.NotANumberBudgetPasses` | app.js:135 | the guard as written lets a budget that reads as NaN through |
| `Expenses.CheckBudget` | app.js:135-140 | a budget is accepted exactly when it reads as a positive number and a currency is chosen; the accepted value is that number |
| `Expenses.CheckBudgetAgreesOnNumbers` | app.js:135 | on every input that is not NaN, the corrected check accepts exactly what the written guard lets through |
| `Expenses.CheckExpense` | app.js:151-165 | the expense is refused as invalid exactly when the title is empty, the amount is NaN or not positive, or the date or category is missing; otherwise it is refused for the balance exactly when the amount exceeds the shown balance; an accepted draft is well formed, affordable, and carries the trimmed title and the given amount, date and category |
| `Expenses.AffordableAccepted` | app.js:162-165 | well-formed fields whose amount is at most the balance, the whole balance included, are accepted unchanged, and the balance left is not negative |
| `Expenses.OverBalanceRefused` | app.js:162-165 | filled-in fields whose amount exceeds the balance are refused for the balance |
| `Expenses.EditedFieldsReaccepted` | app.js:47-56 | the fields edit copies into the form pass every add check again once the record's amount is back in the balance |
| `Expenses.Sum` | app.js:34 | the `reduce` total of non-negative amounts is non-negative; `Expenses.SumConcat`, `Expenses.SumAppend` and `Expenses.SumRemoveAt` relate it to list changes |
| `Expenses.SumConcat` | app.js:34 | the `reduce` total of two lists joined is the sum of their totals |
| `Expenses.SumAppend` | app.js:34 | appending a record adds its amount to the total |
| `Expenses.SumRemoveAt` | app.js:20-23 | cutting a record out lowers the recounted total by its amount, so the incremental delete agrees with a recount |
| `Expenses.SumNonNegative` | app.js:34 | a list of positive amounts has a non-negative total, positive when the list is not empty |
| `Expenses.RemoveAt` | app.js:42 | `splice(index, 1)` keeps the records before the index and shifts the later ones down by one |
| `Expenses.FindIndex` | app.js:39 | `findIndex` gives -1 when no record has the id, and otherwise the first index whose record has it |
| `Expenses.RemovedIdGone` | app.js:38-45 | when an id occurs once, after its record is removed the id is no longer found |
| `View.FilterByTitle` | app.js:66 | the filter is no longer than the list, and every record it keeps is listed and passes the search test; `View.FilterByTitleExact` and `View.FilterKeepsDateOrder` give the converse and the order |
| `View.FilterByTitleExact` | app.js:61-66 | the filter keeps every record whose lower-cased title includes the lower-cased search text, as often as it occurs, and no other |
| `View.EmptyFilterKeepsAll` | app.js:61-66 | an empty search keeps the whole list in order |
| `View.VisibleIgnoresCase` | app.js:61-66 | search texts that differ only in the case of ASCII letters ("foo", "FOO", "Foo") give the same view |
| `View.DateBeforeIrreflexive` | app.js:67 | no date comes before itself |
| `View.DateBeforeTransitive` | app.js:67 | the date order is transitive |
| `View.DateBeforeTotal` | app.js:67 | of two different dates one comes before the other |
| `View.NotEarlierTransitive` | app.js:67 | "not earlier than" is transitive, as the comparator needs for a consistent sort |
| `View.Insert` | app.js:67 | inserting a record into the sorted part adds exactly that record |
| `View.SortByDate` | app.js:67 | the sorted view is a permutation of the filtered list |
| `View.InsertSorted` | app.js:67 | inserting into a most-recent-first sequence keeps it most recent first |
| `View.SortByDateSorted` | app.js:67 | the sort puts the most recent date first, and no record comes before a later-dated one |
| `View.WithDateInsert` | app.js:67 | insertion places a record ahead of the records with its own date |
| `View.SortByDateStable` | app.js:67 | records with equal dates keep their list order |
| `View.StableSortIsUnique` | app.js:67 | two most-recent-first orders with the same per-date order are equal, so any stable sort gives this view |
| `View.FilterKeepsDateOrder` | app.js:65-66 | filtering keeps list order: the matching records of each date come out in their list order |
| `View.Visible` | app.js:65-67 | the view is no longer than the list, and every record in it is listed and matches; `View.VisibleSpec` gives multiplicities, order and stability |
| `View.VisibleSpec` | app.js:65-67 | the view holds exactly the matching records with their multiplicities, most recent first, and the matching records of each date in their list order |
| `View.BadgeClass` | app.js:71-77 | `Food`, `Travel`, `Shopping` and `Bills` get `category-food`, `category-travel`, `category-shopping` and `category-bills`; the badge is always one of the five `category-*` classes, and it is `category-general` exactly for `General` and for any category outside the table |
| `View.RowsOf` | app.js:68-91 | one row per visible record, in view order |
| `View.Render` | app.js:65-91 | one row per visible record, and each row is the row of some listed record that matches the search; `View.RenderShowsRecords` names the record and its cells |
| `View.RenderShowsRecords` | app.js:79-83 | each row belongs to a listed, matching record and shows its title, `currency amount`, date and stored category verbatim, its badge class, and its id |
| `Csv.CellRows` | app.js:189-191 | one cell row per record in list order: title, amount, date, category |
| `Csv.JoinRows` | app.js:193 | each row becomes its cells joined by `,` |
| `Csv.CsvText` | app.js:193 | the text starts with the header line, followed by a newline when there are records; `Csv.CsvLines` reads it back line by line |
| `Csv.CsvOfEmpty` | app.js:185-193 | with no records the text is the header line alone |
| `Csv.CsvLines` | app.js:183-193 | read line by line, the export is the header `Title,Amount,Date,Category`, then one line per record in list order, so it has one line more than the list when no field holds a newline |
| `Csv.RecordLineCells` | app.js:190-193 | a record's line splits back into its four cells when no cell holds a comma |
| `Csv.CommaInTitleShiftsColumns` | app.js:190-193 | cells are not quoted, so for every record whose title holds one comma, and no other cell does, the line reads back as five cells: the two halves of the title, then amount, date and category |
| `Budget.Ledger.constructor` | app.js:96-97 | the ledger starts with an empty list, all three numbers at 0, and the budget unlocked |
| `Budget.Ledger.UpdateBudgetAmount` | app.js:8-12 | the budget and total are written, and the balance is their difference |
| `Budget.Ledger.UpdateExpenseBalance` | app.js:14-18 | the total is written and the balance is recomputed from the shown budget |
| `Budget.Ledger.DeleteExpense` | app.js:20-23 | the shown total drops by the given amount and the balance is recomputed |
| `Budget.Ledger.UpdateBalances` | app.js:33-36 | the total becomes the sum of the list and the balance becomes budget minus that sum |
| `Budget.Ledger.SetBudget` | app.js:131-148 | the invariant is kept; a locked budget or an input failing `CheckBudget` changes nothing; otherwise budget = input, total = 0, balance = budget, and the budget input locks |
| `Budget.Ledger.AddExpense` | app.js:150-180 | the invariant is kept; the outcome is `CheckExpense` on the trimmed title and the shown balance; a refusal changes nothing; otherwise exactly one record is appended, earlier records are untouched, total rises and balance falls by the amount |
| `Budget.Ledger.DeleteExpenseItem` | app.js:38-45 | the invariant is kept; an unknown id changes nothing; otherwise only the first record with the id is removed, the others keep their order, and the balance rises by its amount |
| `Budget.Ledger.EditExpenseItem` | app.js:47-56 | returns the first matching record's fields, or nothing for an unknown id; afterwards the state is what that delete leaves, and the returned fields pass `CheckExpense` against the new balance |
| `Budget.Ledger.Refresh` | app.js:26-31 | recounting a consistent ledger changes no number and no record, and the rows are the current view |
| `Budget.Ledger.ExportToCsv` | app.js:182-193 | refused exactly when the list is empty; otherwise the text is `Csv.CsvText` of the list in insertion order |

## Findings

| source | as written | input that shows it | evidently intended | confidence | as-written member | corrected member |
|---|---|---|---|---|---|---|
| app.js:135 | `+budgetInput.value <= 0` is false when the value reads as NaN, so non-numeric budget text passes the guard and the budget becomes NaN | budget text that is not a number, currency "USD" | refuse it, as "Please enter a valid budget" says | low, not executed: a number-typed input field would hand over an empty value instead | `Expenses.NotANumberBudgetPasses` | `Expenses.CheckBudget` |

`Budget.Ledger.SetBudget` uses the corrected check.

## Left out

- DOM reads and writes, `innerHTML`, `alert`, event wiring and `location.reload` (app.js:3-5, 59-63, 79-91, 99-116): these are the page, not the ledger. Alerts become `Refused` outcomes. The form values and the search text become parameters.
- Clearing the form after an add (app.js:175-177), showing the add box (app.js:141) and the currency symbol texts (app.js:107-111, 142-144): these are display only. The currency label is a parameter of the rows.
- The theme switcher and `localStorage` (app.js:117-128, 206-211): these are persistence and styling.
- `Blob`, `URL.createObjectURL` and the download link (app.js:193-202): this is browser file I/O. Only the CSV text is modelled.
- `Date.now().toString()` ids (app.js:168): this reads the clock. The id is a parameter.
- Floating-point amounts and their text (app.js:21, 34, 81, 190): amounts are whole numbers, shown with `Strings.IntText`.
- Text-to-number parsing (app.js:135, 152): the field's value is given already classified as blank, not a number, or a number.
- `new Date(...)` parsing (app.js:67): dates are compared as `yyyy-mm-dd` texts. The model does not cover inputs that are not dates.
- Unicode `toLowerCase` (app.js:61, 66): only ASCII letters are lower-cased.
- `View.BadgeClass`: does not model that the plain-object lookup (app.js:71-77) also finds names inherited from `Object.prototype`, such as `constructor`, whose values are truthy. In the source such a category would get a non-class value. The model gives every category outside the five `category-general`.
- `Budget.Ledger.EditExpenseItem`: the fields go into the form inputs in the source (app.js:50-53). Here they are the method's result.
