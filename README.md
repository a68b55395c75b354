# Debt snowball calculator: verified model of the payoff simulation

The calculator takes a table of debts and a monthly budget. Each debt has a
name, a starting balance, an APR in percent and a minimum payment. It then
simulates the payoff month by month:

1. Rows with a missing cell or a non-positive starting balance are dropped.
2. Each month, every debt with a positive balance is paid its minimum (capped
   by its balance) out of the budget, in table order.
3. Whatever budget is left cascades down the table. Each active debt takes
   `min(balance, left)` until the budget is used up.
4. Each active debt is charged a twelfth of its APR as interest and settled.
   The payment is capped at balance plus interest. Principal and the new
   balance are floored at zero. One ledger row is written per active debt.
5. The loop stops when every balance is paid off or after 240 months.
6. The summary reports the total interest in the ledger and the number of
   distinct month labels.

The model has one module per part of the program:

- `DebtTable` (`debt_table.dfy`): the rows, the clean-up filter, and the
  original row labels that the filter keeps.
- `Monthly` (`monthly.dfy`): one month as specification functions, with
  lemmas about them:
  - the minimums due;
  - the minimum pass;
  - the cascade;
  - settlement;
  - the month's ledger rows;
  - the new balances.
- `Simulator` (`simulator.dfy`) holds three things:
  - the imperative simulation: a method per loop of the source over arrays of
    balances and payments, each proved equal to the functions in `Monthly`;
  - the whole run as a function (`Run`, `Schedule`);
  - the properties of the run and the summary.
- `LabelIndexing` (`label_indexing.dfy`): the minimum pass as the source
  actually indexes it (see Findings).
- `Scenarios` (`scenarios.dfy`): a worked single-loan schedule.
- `Wrappers` (`wrappers.dfy`): `Option` and `Result`.

Money is modelled as exact `real`s. The budget is one number: the base budget
plus the extra snowball, as the source adds them before the loop. The model
starts after that addition. Months are numbered 1, 2, … . The source labels
them with the "%b %Y" name of consecutive calendar months counted from today.
Those labels are distinct across 240 consecutive months, so counting distinct
numbers counts the same thing.

## Model

| member | source | states |
|---|---|---|
| DebtTable.Kept | app.py:28-29 | the keep condition: no missing cell and a positive starting balance; `Filter`, `KeptLabels` and their lemmas are stated in its terms |
| DebtTable.ToDebt | app.py:28-29 | a kept row becomes a debt with exactly that row's cells, and its balance is positive |
| DebtTable.Filter | app.py:28-29 | the clean-up never adds rows, and every surviving debt has a positive starting balance |
| DebtTable.KeptLabels | app.py:28-29 | one original label per surviving debt, each a valid row position |
| DebtTable.KeptLabelsDescribeFilter | app.py:28-29 | the k-th surviving debt is the kept row carrying the k-th label, converted unchanged |
| DebtTable.KeptLabelsIncrease | app.py:28-29 | surviving labels strictly increase, so the filter keeps table order |
| DebtTable.KeptLabelsComplete | app.py:28-29 | every row that meets the keep condition survives, so nothing valid is dropped |
| DebtTable.FilterMembers | app.py:28-29 | a debt survives if and only if some row that meets the keep condition converts to it |
| DebtTable.FilterAllKept | app.py:28-29 | when every row is valid, nothing is dropped and the labels are 0..n-1 |
| Monthly.MinimumDue | app.py:44-45 | a paid-off debt owes nothing; an active debt owes its minimum or its balance, whichever is smaller |
| Monthly.Dues | app.py:42-45 | the list of minimums due, one per debt in table order, each the `MinimumDue` of that debt; `Simulator.ComputeMinimumDues` builds it |
| Monthly.MinimumPass | app.py:47-59 | the minimum pass read positionally: one payment per debt and the budget left; `Simulator.ApplyMinimums` computes it, and the four `MinimumPass…` lemmas below state its properties |
| Monthly.MinimumPassBudget | app.py:47-59 | the minimum pass never overspends: the remainder stays in [0, budget] and remainder plus payments equals the budget |
| Monthly.MinimumPassPerDebt | app.py:52-59 | each debt is paid between zero and its minimum due, and a paid-off debt is paid nothing |
| Monthly.MinimumPassFullOrExhausted | app.py:52-59 | either every active debt got its full minimum, or the budget is used up |
| Monthly.MinimumPassInOrder | app.py:52-59 | minimums are paid in table order while the budget lasts: a debt gets anything only if every earlier active debt got its full minimum |
| Monthly.Extras | app.py:61-68 | the cascade: each debt's extra and the budget left; `Simulator.CascadeExtra` computes it, and the `Extras…` lemmas below state its properties |
| Monthly.ExtrasBudget | app.py:61-68 | the cascade never overspends what the minimum pass left, and accounts for all of it |
| Monthly.ExtrasPerDebt | app.py:62-67 | each extra is non-negative and at most the debt's balance; paid-off debts get none |
| Monthly.ExtrasFullWhenLeft | app.py:62-68 | budget is left after the cascade only if every active debt took its whole balance as extra |
| Monthly.ExtrasCascade | app.py:62-68 | a debt receives extra only after every earlier active debt has taken its whole balance |
| Monthly.ExtrasStopWhenExhausted | app.py:64-65 | once the budget is used up, later debts get no extra and nothing more is spent (the early break) |
| Monthly.ExtrasPrefix | app.py:62-68 | the cascade over the first k debts equals the first k entries of the full cascade |
| Monthly.Allocation | app.py:47-68 | each debt's allotment for the month: its minimum-pass payment plus its cascade extra; `Monthly.AllocationWithinBudget` bounds it |
| Monthly.AllocationWithinBudget | app.py:47-68 | a month's allotments total at most the budget; each is non-negative, zero for a paid-off debt, and at most minimum due plus balance |
| Monthly.Settle | app.py:76-80 | one debt's settlement: interest, capped payment, floored principal and new balance; `Monthly.SettleBounds` states its properties |
| Monthly.SettleBounds | app.py:76-80 | interest is balance times APR/1200; payment is at most the allotment and at most balance plus interest; principal and new balance are non-negative; a non-negative balance never rises; an allotment covering balance plus interest clears the debt |
| Monthly.EntryFor | app.py:82-90 | the ledger row of one settled debt: its month, name and starting balance, with the settlement's interest, principal, payment and new balance |
| Monthly.MonthEntries | app.py:71-90 | the month's ledger rows, at most one per debt; `Monthly.MonthEntriesPerActiveDebt` says exactly which rows |
| Monthly.ActiveIndicesComplete | app.py:71-74 | the list of active positions is strictly increasing and contains every active debt |
| Monthly.MonthEntriesPerActiveDebt | app.py:71-92 | a month writes exactly one row per debt active at its start, in table order, even when its payment is zero; the j-th row is the settlement of the j-th active debt |
| Monthly.MonthEntriesMonth | app.py:82-83 | every row of a month carries that month's label |
| Monthly.MonthEntriesNonEmpty | app.py:71-90 | a month that starts with some positive balance writes at least one row |
| Monthly.NewBalances | app.py:71-92 | one balance per debt after settlement: `SettledBalance` of each; `Monthly.NewBalancesBounds` bounds them |
| Monthly.SettledBalance | app.py:72-92 | a paid-off debt keeps its balance and an active one takes its settled new balance |
| Monthly.NewBalancesBounds | app.py:71-92 | settlement leaves paid-off debts unchanged and puts each active balance between zero and where it started |
| Monthly.ZeroBudgetMonth | app.py:47-92 | with no budget nothing is allotted, and with non-negative rates every balance ends the month where it began |
| Monthly.MonthPaymentsWithinAllocation | app.py:78 | a month's recorded payments total at most what was allotted |
| Monthly.MonthWithinBudget | app.py:47-92 | the payments recorded in one month never exceed the budget |
| Monthly.StrandedAllocation | app.py:52-68 | exhibits allotments as written: 150 and 50 out of a 200 budget for debts of 100 (minimum 50) and 1000 |
| Monthly.CascadeCanStrandBudget | app.py:61-80 | as written, that example pays only 150 of the 200 while the second debt stays open at 950 |
| Simulator.StartingBalances | app.py:34-35 | the working balances start as a copy of the starting balances |
| Simulator.AnyPositive | app.py:38 | the loop's first condition: some balance is positive; `Simulator.HasPositiveBalance` computes it |
| Simulator.Run | app.py:38-92 | the rest of the loop from a state: stop when nothing is owed or at month 240, otherwise one more month; it keeps one balance per debt |
| Simulator.Advance | app.py:39-92 | one loop iteration (allocation, rows, settled balances) followed by the rest of the run |
| Simulator.Schedule | app.py:33-92 | the whole loop from the starting balances, month 0 and an empty ledger; `Simulator.Simulate` computes it, and the `Run…` and `Schedule…` lemmas state its properties |
| Simulator.HasPositiveBalance | app.py:38 | the loop's first condition: true exactly when some balance is positive |
| Simulator.ComputeMinimumDues | app.py:42-45 | the loop builds the list of minimums due, one per debt, as `MinimumDue` defines them |
| Simulator.ApplyMinimums | app.py:47-59 | the in-place minimum pass produces exactly the payments and remainder of `MinimumPass` |
| Simulator.CascadeExtra | app.py:61-68 | the in-place cascade, with its early break, adds exactly the extras of `Extras` and leaves its remainder |
| Simulator.SettleDebt | app.py:76-92 | settling one active debt yields the ledger row and new balance of the settlement rule |
| Simulator.SettleMonth | app.py:70-92 | the settlement loop overwrites the balances with `NewBalances` and writes exactly the month's rows `MonthEntries` |
| Simulator.MonthEntriesStep | app.py:71-92 | one more settled debt adds at most its own row to the month's rows |
| Simulator.SimulateMonth | app.py:42-92 | one loop iteration: balances become the settled balances of the month's allocation, and the rows are that month's rows |
| Simulator.RunStep | app.py:38-92 | while some balance is positive and fewer than 240 months have passed, the run is one more month followed by the rest |
| Simulator.MonthStep | app.py:38-92 | one simulated month writes at least one row, all with its label; no balance rises or goes negative; its payments fit the budget; its interest is non-negative; with a zero budget the balances stay as they were |
| Simulator.Simulate | app.py:33-92 | the imperative simulation computes exactly `Schedule`: at most 240 months, and fewer only when every balance is paid off |
| Simulator.RunGuard | app.py:38-39 | the run ends at month 240 or with every balance paid off |
| Simulator.RunMonthCount | app.py:38-39 | the month counter only grows, never passes 240, and moves whenever a month is due |
| Simulator.RunLedgerGrows | app.py:82-90 | rows already written are kept, and every simulated month appends at least one |
| Simulator.RunBalance | app.py:71-92 | over the whole run no balance rises, and a non-negative balance never goes negative |
| Simulator.MonthsOf | app.py:99 | every row's month label is among the ledger's labels |
| Simulator.MonthsOfAppend | app.py:82-99 | the labels of two ledgers joined are the union of their labels |
| Simulator.MonthsOfOneMonth | app.py:82-83 | a non-empty month of rows has exactly its own label |
| Simulator.MonthLabelsStep | app.py:82-99 | appending one month's rows adds exactly that month's label |
| Simulator.RunMonths | app.py:38-99 | the run adds exactly one distinct label for each simulated month |
| Simulator.MonthRowsAppend | app.py:82-90 | the rows of month m in two joined ledgers are those of each, in order |
| Simulator.MonthRowsAll | app.py:82-83 | a ledger whose rows all carry label m is its own month-m rows |
| Simulator.MonthRowsNone | app.py:82-83 | a ledger with no row labelled m has no month-m rows |
| Simulator.LedgerMonthStep | app.py:82-90 | appending the next month's rows keeps every month within the budget |
| Simulator.RunWithinBudget | app.py:47-92 | budget conservation over the whole run: for every month, the payments of its rows total at most the budget |
| Simulator.TotalInterest | app.py:98 | the sum of the ledger's interest column |
| Simulator.TotalInterestAppend | app.py:98 | the total interest of two joined ledgers is the sum of their totals |
| Simulator.MonthInterestNonNegative | app.py:76-77 | with non-negative rates and balances, a month's rows accrue non-negative interest |
| Simulator.RunInterest | app.py:76-98 | with non-negative rates and balances, the run only adds interest |
| Simulator.Summarize | app.py:94-99 | the summary: total interest and number of distinct month labels, or the missing-column failure on an empty ledger; `Simulator.ScheduleSummary` states what it reports for a schedule |
| Simulator.ScheduleSummary | app.py:94-99 | if some debt starts positive, the summary reports the ledger's total interest and exactly the number of simulated months (at least 1); otherwise nothing is simulated and the summary fails |
| Simulator.ScheduleGuarantees | app.py:33-99 | over a schedule: at most 240 months, stopping early only when everything is paid; balances between zero and their start; each month within budget; interest non-negative |
| Simulator.RunZeroBudget | app.py:38-92 | with a zero budget and a positive balance, the run hits the 240-month guard with balances unchanged |
| Simulator.ScheduleZeroBudget | app.py:33-92 | a zero-budget schedule with an unpaid debt lasts 240 months and pays nothing down |
| LabelIndexing.MinimumPassByLabel | app.py:52-59 | the pass as written keeps one payment per debt while it succeeds |
| LabelIndexing.ContiguousLabelsAgree | app.py:43-57 | when the labels are 0..n-1, indexing the minimums by label is the positional minimum pass |
| LabelIndexing.FilterKeepsAllAgrees | app.py:28-59 | if the clean-up drops no row, the source's lookup by label is harmless |
| LabelIndexing.LastLabelOutOfRange | app.py:57 | an active last debt whose label is past the end of the minimums list makes the pass fail |
| LabelIndexing.DroppedRowBreaksMinimumPass | app.py:28-59 | if the clean-up drops any row before a kept row, the first month's minimum pass fails with an index error, whatever the budget |
| LabelIndexing.ZeroBalanceFirstRowDropped | app.py:28-29 | a zero-balance first row is dropped, and the second row keeps label 1 |
| LabelIndexing.ZeroBalanceFirstRowFails | app.py:28-59 | concrete case: the positional pass pays the surviving debt 50, but the pass as written fails on label 1 |
| Scenarios.OneDebtAllocation | app.py:42-68 | a one-debt month allots the minimum out of the budget, plus the cascade's extra |
| Scenarios.OneDebtEntries | app.py:71-92 | a one-debt month with a positive balance writes one row and settles that one balance |
| Scenarios.OneDebtStep | app.py:38-92 | one month of a one-debt schedule is that row and that settled balance |
| Scenarios.LoanMonthOne | app.py:38-92 | a 1200 loan at 12% with minimum 100 and budget 1200: month 1 charges 12 interest, pays 1200 and leaves 12 |
| Scenarios.LoanMonthTwo | app.py:38-92 | month 2 charges 0.12, pays 12.12, clears the loan, and the loop stops |
| Scenarios.SingleLoanSchedule | app.py:33-99 | the whole two-row schedule of that loan, and its summary of 12.12 interest over 2 months |
| Scenarios.TwoRows | app.py:98-99 | a two-row ledger's interest total and month labels |

## Left out

- The Streamlit user interface is not modelled: the sidebar inputs, the data
  editor, the button, the spinner and the result display (app.py:7-25,
  94-96, 100). The budget and the table are parameters.
- pandas is not modelled. The table is a sequence of rows, and a missing cell
  (`dropna`) is `None`.
- Calendar month labels are not modelled. The source derives them from
  today's date, so the clock is left out. Months are numbered instead (see
  above).
- Floating point and `round(x, 2)` are not modelled. Amounts are exact reals,
  and the ledger rows hold the unrounded values. The source's summary adds up
  the rounded interest column.
- The outer `try/except` is not modelled as a whole (app.py:9, 101-102). The
  two failures it catches here are modelled as values:
  - the `min_payments[i]` index error: `LabelIndexing`, see Findings;
  - the missing "Interest" column of an empty ledger: `Summarize` returns
    `Failure(MissingInterestColumn)`.
- An empty or fully filtered table: the source raises on the summary and
  shows an error message. It does not report "0 months". The model follows
  the code.
- Strategy ordering is not modelled. The source has no snowball or avalanche
  sort; debts are paid in table order, and so is the model.
- The cascade follows the code as written (app.py:61-68). It gives a debt up
  to its whole balance on top of the minimum it was already paid. Settlement
  then caps the payment at balance plus interest and does not pass the
  excess on. So part of the budget can go unpaid while a later debt stays
  open; `Monthly.CascadeCanStrandBudget` shows 50 of a 200 budget unpaid.
  The model proves what the code does and does not model a different
  cascade.
- The budget is never negative: both budget inputs have a minimum of 0
  (app.py:11-12), and the budget is their sum (app.py:13). Lemmas that need
  this require `budget >= 0.0`. Rates and minimum payments are not
  constrained by the source, and the model computes with negative values
  too. Lemmas that need signs require `RatesNonNegative` or
  `MinimumsNonNegative`, as their contracts say.
- Simulator.Simulate: the ledger is a `seq` value the method builds, not a
  list of dictionaries appended in place. The balances are a mutable array.

## Findings

| source | as written | input that shows it | evidently intended | confidence | as-written member | corrected member |
|---|---|---|---|---|---|---|
| app.py:57 | the minimum pass loops over the table's row labels, but reads the minimum due with the label as a position, `min_payments[i]`, in a list built in table order; the clean-up keeps the original labels | rows `A` (balance 0) and `B` (balance 500, 20%, minimum 50), budget 100: `B` keeps label 1 while the list of minimums has a single entry, so month 1 raises an index error and the user sees an error message instead of a plan | the k-th debt in table order is paid against the k-th minimum due, which pays `B` its minimum of 50 | not executed | LabelIndexing.DroppedRowBreaksMinimumPass | Monthly.MinimumPass (with LabelIndexing.ContiguousLabelsAgree) |

`LabelIndexing.ZeroBalanceFirstRowFails` is the concrete counterexample. The
rest of the model (`Monthly.Allocation`, `Simulator.ApplyMinimums` and
everything after them) uses the positional pass.
