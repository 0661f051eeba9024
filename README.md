# Payment record table of the cashflow app

The app keeps one table of customer payments in its session. It has eight
columns: Date, Customer Name, Amount, Payment Method, Received By,
Transferred to Bank, Status and Days. Three sidebar forms change the table:

- **create** builds a row from its inputs and appends it. Status and Days are
  derived; the flag is stored as "Yes"/"No". The row is rejected when an
  identical row already exists.
- **update** stores a new "Transferred to Bank" flag on one row and
  regenerates that row's status.
- **delete** drops one row.

Every change to the table ends by renumbering the index 0..n-1; a rejected
duplicate leaves the table, index included, as it was. Two read-only views use
the table. The records tab builds a row style that would mark rows that are
not banked and are more than seven days old, but it passes the unstyled table
to its editor, so no row is ever marked; the model keeps the rule of that
style (`Overdue`). The analytics view shows the total of all amounts and the sum
of amounts per payment method.

The model has three modules:

- `PaymentRecords` (`records.dfy`): the row datatype, the derived fields and
  the overdue rule.
- `PaymentReports` (`reports.dfy`): the total and the per-method sums.
- `PaymentTable` (`table.dfy`): the class `Table` and one pure function on
  sequences per form. `Table` holds the rows and the index labels, and its
  methods `Create`, `UpdateTransfer` and `Delete` change them step by step.
  Each method's contract ties the new rows to the pure function. The lemmas
  about that function state what the form keeps: no duplicates, flag and
  status in agreement, and the report figures.

Amounts are whole cents (`nat`). Dates are day numbers (`int`). The current
date is the parameter `today`. `Days` is `today - date` at creation and can be
negative for a future date, since the app does not guard against that.

The model follows this app's code where it differs from the other
variants of the application. This app does not reject blank names. It
keeps no per-customer totals and no bad-debt table, and it does not save
anything to files. It computes `Days` once, when the row is created, and
never recomputes it. None of these appear in the model.

Create and delete keep the table free of identical rows; an update can make
two rows identical (`UpdateCanDuplicate`). The app only promises to prevent *adding*
duplicates, so this is recorded as a property, not as a defect.

## Model

| member | source | states |
|---|---|---|
| `PaymentRecords.Flag` | app.py:38 | the flag text is "Yes" exactly when transferred and "No" exactly when not |
| `PaymentRecords.StatusFor` | app.py:39 | definition of the status text: it is "Transferred to Bank" exactly when transferred, and otherwise "Waiting Payment from " followed by the receiver; properties in `StatusRoundTrip` and `StatusDeterminesFlag` |
| `PaymentRecords.WaitingOn` | app.py:39 | a status yields a receiver exactly when it is "Waiting Payment from " followed by that receiver |
| `PaymentRecords.StatusRoundTrip` | app.py:39 | the receiver can be read back from a non-transferred status; a transferred status yields none |
| `PaymentRecords.StatusDeterminesFlag` | app.py:39 | equal status texts mean equal flags, and equal receivers when not transferred |
| `PaymentRecords.NewPayment` | app.py:32-41 | a new row has flag and status consistent with the checkbox, the receiver can be read back from a waiting status, Days = today - date (0 exactly when dated today), and the input fields are copied |
| `PaymentRecords.SetTransfer` | app.py:70-71 | after an update the row is consistent with the new flag, its status names the row's own receiver, and no column other than flag and status differs |
| `PaymentRecords.SetTransferLastWins` | app.py:70-71 | two successive updates give the same row as the last one alone |
| `PaymentRecords.SetTransferSameFlag` | app.py:64-71 | re-submitting the flag a consistent row already shows leaves it unchanged |
| `PaymentRecords.SetTransferOfNew` | app.py:70-71 | updating a freshly created row equals creating it with the new flag |
| `PaymentRecords.Overdue` | app.py:100 | definition of the overdue rule: an overdue row is not transferred and more than 7 days old; properties in `OverdueMeansWaiting`, `OverdueNew` and `OverdueAfterTransfer` |
| `PaymentRecords.OverdueMeansWaiting` | app.py:100 | on a consistent row the overdue rule holds exactly when the status waits on the row's receiver and Days > 7 |
| `PaymentRecords.OverdueNew` | app.py:100 | a new row is overdue exactly when not transferred and dated more than 7 days before today |
| `PaymentRecords.OverdueAfterTransfer` | app.py:100 | after an update the row is overdue exactly when the new flag is off and Days > 7 |
| `PaymentReports.Total` | app.py:118 | definition of the total of the Amount column: 0 for an empty table and at least every row's amount; properties in `TotalAppend` and `MethodSumsSplitTotal` |
| `PaymentReports.MethodSum` | app.py:120 | definition of one method's sum: 0 for an empty table and at least the amount of every row paid by that method; properties in `MethodSumAtMostTotal`, `MethodSumAbsent` and `MethodSumsSplitTotal` |
| `PaymentReports.GroupSums` | app.py:120 | the per-method report lists exactly the methods that occur, each with the sum of its rows' amounts |
| `PaymentReports.TotalAppend` | app.py:118 | the total of a concatenation is the sum of the totals |
| `PaymentReports.MethodSumAppend` | app.py:120 | a method's sum over a concatenation is the sum of its sums |
| `PaymentReports.MethodSumAtMostTotal` | app.py:118-120 | no method's sum exceeds the total |
| `PaymentReports.MethodSumAbsent` | app.py:120 | a method that occurs in no row sums to zero |
| `PaymentReports.MethodSumsSplitTotal` | app.py:118-120 | the four method sums add up to the total |
| `PaymentReports.GroupsAddUpToTotal` | app.py:118-120 | the values of the per-method report add up to the total payments figure |
| `PaymentReports.ReplaceKeepsTotal` | app.py:118 | replacing a row by one with the same amount leaves the total unchanged |
| `PaymentReports.ReplaceKeepsMethodSum` | app.py:120 | replacing a row by one with the same amount and method leaves every method's sum unchanged |
| `PaymentReports.ReplaceKeepsGroups` | app.py:120 | replacing a row by one with the same amount and method leaves the per-method report unchanged |
| `PaymentTable.DropLabel` | app.py:85 | dropping a label leaves rows and labels of equal length, no longer and with that label gone; a label no row carries leaves both unchanged (see Left out); which rows stay is stated by `DropDistinctLabel` |
| `PaymentTable.DropDistinctLabel` | app.py:85 | with distinct labels, dropping the label at position i removes exactly that row and that label, and the others keep their order and labels |
| `PaymentTable.AddIfAbsent` | app.py:43-51 | definition of the rows after a create: the table holds exactly the old rows and the candidate; an existing candidate leaves it unchanged; otherwise it grows by one, the candidate is last and the old rows keep their order; invariants in `AddIfAbsentKeepsNoDuplicates`, `AddIfAbsentKeepsConsistent` and `AddIfAbsentReports` |
| `PaymentTable.AddIfAbsentKeepsNoDuplicates` | app.py:45-47 | a table without identical rows has none after a create |
| `PaymentTable.AddIfAbsentTwice` | app.py:43-51 | submitting the same row twice adds it once |
| `PaymentTable.AddIfAbsentKeepsConsistent` | app.py:38-48 | a create keeps every row's flag and status in agreement |
| `PaymentTable.AddIfAbsentReports` | app.py:45-48 | a create adds the candidate's amount to the total and to its method's sum exactly when it is accepted |
| `PaymentTable.UpdateAt` | app.py:70-71 | definition of the rows after an update: an update keeps the length and every other row; in the target row only flag and status change, the flag to "Yes" or "No" as the checkbox says and the status derived from that row's receiver; invariants in `UpdateAtKeepsConsistent` and `UpdateAtKeepsReports` |
| `PaymentTable.UpdateAtKeepsConsistent` | app.py:70-71 | an update keeps every row's flag and status in agreement |
| `PaymentTable.UpdateAtKeepsReports` | app.py:70-71 | an update changes neither the total nor the per-method report |
| `PaymentTable.UpdateCanDuplicate` | app.py:70-71 | there is a table free of identical rows, with two rows that differ only in flag and status, which one update makes contain two identical rows |
| `PaymentTable.RemoveAt` | app.py:85-86 | definition of the rows after a delete: removing position i shortens by one, keeps the rows before i, shifts the rows after i down by one, and removes exactly one copy of row i; invariants in `RemoveAtKeepsNoDuplicates`, `RemoveAtKeepsConsistent` and `RemoveAtReports` |
| `PaymentTable.RemoveAtKeepsNoDuplicates` | app.py:85-86 | a delete keeps the table free of identical rows |
| `PaymentTable.RemoveAtKeepsConsistent` | app.py:85-86 | a delete keeps every row's flag and status in agreement |
| `PaymentTable.RemoveAtReports` | app.py:85-86 | a delete takes exactly the removed row's amount out of the total and out of its method's sum |
| `PaymentTable.DropContiguous` | app.py:85-86 | on a renumbered index, dropping label i removes exactly the row at position i |
| `PaymentTable.Table.constructor` | app.py:9-10 | the session starts with an empty, valid table |
| `PaymentTable.Table.ResetIndex` | app.py:13-14 | renumbering keeps the rows and sets the labels to 0..n-1 |
| `PaymentTable.Table.Create` | app.py:30-51 | the candidate is appended, and the method reports success, exactly when no identical row exists; otherwise the table is unchanged; the labels are renumbered and a duplicate-free table stays so |
| `PaymentTable.Table.UpdateTransfer` | app.py:68-74 | only the selected row's flag and status change, the status derived from that row's own receiver; length and labels are kept |
| `PaymentTable.Table.Delete` | app.py:83-87 | the selected row goes, the others keep their relative order, the length drops by one and the labels stay 0..n-1 |

## Left out

- The Streamlit widgets, forms, sidebar, tabs, page settings, the data editor, the success and warning messages and the footer are user interface and are not modelled.
- The row styling and the bar chart are presentation. Only the rule of the row style is modelled (`Overdue`); the style itself is never displayed by the app.
- DropLabel: pandas raises `KeyError` when no row carries the label; the model instead returns the table unchanged. `Delete` never reaches this case, because it requires a label of the renumbered index.
- NewPayment: takes the amount already in whole cents; the float rounding `round(amount, 2)` and float summation of the totals are not modelled.
- The current date comes in as the parameter `today`. Dates are day numbers, not `YYYY-MM-DD` strings. Two dates are equal as strings exactly when they are equal as day numbers, so the duplicate check is unaffected.
- The update and delete forms fail on an empty table, because there is no row to select. The model instead requires a valid row label.
- The data frame's column types are not modelled. The duplicate check compares values, as the model's datatype equality does.
- GroupSums: returns a map, so it leaves out the display order of the per-method report (sorted by method label).
- Session state lasting across script reruns is not modelled: the model is one `Table` object that the forms change in turn.
