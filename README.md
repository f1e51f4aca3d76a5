# Flexible microloan repayment: eligibility and schedule

A Dafny model of the computational core of the finnex loan calculator, `loan_app.py`. It has two parts:

- **Eligibility** (`check_eligibility`). The customer's rows are taken from the record table in table order. The customer is eligible when at least one of three columns has been strictly positive in each of the last 11 months: call-credit purchases, data purchases or cash inflow. The code reads this as `rolling(window=11).min().iloc[-1] > 0`. That value is NaN, which is not `> 0`, until 11 rows exist.
- **Flexible repayment plan** (`calculate_repayment_plan`). Ineligible customers get the eligibility message back. For an eligible customer:
  - The obligation is the loan plus a flat 20%.
  - The base repayment is 10% of the customer's mean cash inflow.
  - A `while remaining_loan > 0` loop takes half, one or one and a half times the base each month. The choice depends on whether that month's inflow is below 0.9×mean, above 1.1×mean, or in between. Months past the end of the data use the mean itself.
  - Each month appends one row: month number, repayment, cumulative repayment, and the remaining balance shown clipped at zero.

Modules:

- `Wrappers` (wrappers.dfy): `Option`, which stands for pandas' NaN.
- `CustomerRecords` (records.dfy): a table row, the per-customer filter `RowsOf` and the column accessor `Column`.
- `Eligibility` (eligibility.dfy): the rolling minimum and `CheckEligibility`.
- `RepaymentSchedule` (repayment.dfy):
  - Specification functions describe month k of a plan: `MonthRepayment`, `Repaid`, `Balance` and `Entry`.
  - `EndsAfter` says when the loop stops.
  - `CalculateRepaymentPlan` and its loop `RepayMonthByMonth` are proved to build exactly those months.
  - Lemmas give the plan's properties.

Amounts are exact `real`s, and the constants 1.2, 0.1, 0.9, 1.1, 0.5 and 1.5 are exact.

Points where the behaviour of `loan_app.py` is easy to misread:

- **Window length.** The window is 11 rows, as the code computes it; the comment at loan_app.py:26 and the assistant prompt at loan_app.py:171 speak of 12 months.
- **Short histories.** A customer with fewer than 11 rows never passes a column. pandas yields NaN for an incomplete window; it does not shrink the window.
- **Last month.** Months past the end of the data use the mean inflow (loan_app.py:66-67). The last repayment is not reduced to the remaining balance, so it may overshoot; only the displayed balance is clipped at zero (loan_app.py:84, bounded by `Overshoot`).
- **Non-positive mean inflow.** There is no guard against a mean inflow that is not positive. A customer can be eligible through credit or data purchases and still have such a mean. With a positive obligation, the loop then never exits. The model reports this as `NeverRepaid`, and `NoProgressWithoutInflow` proves that the balance never falls below the obligation in that case. `InflowEligibleTerminates` shows that with non-negative inflows, eligibility through the inflow column rules it out.
- **Unreachable check.** The second "Customer not found." check in `calculate_repayment_plan` cannot be reached, because an eligible customer has at least 11 rows (`CheckEligibility`'s contract). The method still carries that branch.

## Model

| member | source | states |
|---|---|---|
| CustomerRecords.RowsOf | loan_app.py:21-24 | the filtered rows all carry the requested CustomerID, are no more than the table's, and are empty exactly when no table row has that id (the "Customer not found." case) |
| CustomerRecords.RowsOfMembers | loan_app.py:21 | a row is among the customer's rows iff it is a table row carrying the customer's id |
| CustomerRecords.RowsOfAppend | loan_app.py:21 | filtering keeps table order: filtering a concatenation is the concatenation of the filtered parts |
| Eligibility.MinOf | loan_app.py:27-29 | the rolling `.min()` of a window is an element of the window and no larger than any element of it |
| Eligibility.WindowMin | loan_app.py:27-29 | the rolling minimum at one position is None (NaN) exactly while fewer than 11 values are available; otherwise it is one of the window's values and no larger than any of them |
| Eligibility.RollingMin | loan_app.py:27-29 | `rolling(window=w).min()` has one value per row, None exactly at the first w-1 rows, and otherwise the minimum of the w values ending there; it is used only through `Consistent` |
| Eligibility.Consistent | loan_app.py:27-29 | `rolling(window=11).min().iloc[-1] > 0` holds iff the series has at least 11 values and its last 11 are all strictly positive |
| Eligibility.CheckEligibility | loan_app.py:20-34 | no matching rows gives (False, "Customer not found."); eligible iff some of the three columns is positive over the last 11 rows; an eligible customer has at least 11 rows; messages "Customer is eligible for a loan." / "Customer is not eligible for a loan." |
| Eligibility.SomeColumnPositive | loan_app.py:27-31 | "some column is positive over the window" is exactly the `or` of the three named columns |
| Eligibility.OneColumnSuffices | loan_app.py:31-32 | the three checks are joined by `or`: one column positive over the window makes the customer eligible whatever the others hold |
| RepaymentSchedule.TotalObligation | loan_app.py:53 | the interest added is 20% of the loan, so a positive loan grows |
| RepaymentSchedule.Mean | loan_app.py:60 | the mean times the number of months is the sum of the inflows, and the mean is at least the smallest inflow |
| RepaymentSchedule.BaseRepayment | loan_app.py:61 | the base repayment is a tenth of the mean inflow, positive and below it when the mean is positive |
| RepaymentSchedule.TierRepayment | loan_app.py:72-77 | an inflow below 0.9 × mean pays 0.5 × base; one within [0.9, 1.1] × mean pays the base; one above 1.1 × mean pays 1.5 × base; so every month pays exactly one of the three; with a positive mean it lies between 0.5 and 1.5 times the (positive) base, with a non-positive mean it is not positive |
| RepaymentSchedule.MonthRepayment | loan_app.py:66-77 | month k's repayment lies between 0.5 and 1.5 × base for a positive mean, is not positive otherwise, and is the base for months past the data when the mean is not negative |
| RepaymentSchedule.Entry | loan_app.py:80-85 | row k is month k + 1 with that month's repayment; its cumulative repayment is the obligation minus the true balance; its shown balance is never negative, positive exactly when the true balance is, and then adds up with the cumulative to the obligation |
| RepaymentSchedule.CalculateRepaymentPlan | loan_app.py:39-91 | an ineligible customer gets (None, eligibility message); otherwise, with the obligation 1.2 × loan and the mean over the customer's inflow column, the plan is exactly the months `Entry(k)` up to the first month whose balance is not positive, or `NeverRepaid` when the mean is not positive and the obligation is |
| RepaymentSchedule.RepayMonthByMonth | loan_app.py:63-87 | the loop produces the rows `Entry(0..n-1)` where n is the first month with a non-positive balance; each row's cumulative repayment `total - remaining` equals the sum of repayments so far |
| RepaymentSchedule.RepaidLowerBound | loan_app.py:65-79 | with a positive mean, after n months at least n × 0.5 × base has been repaid |
| RepaymentSchedule.MonthsBeforeSettling | loan_app.py:65-87 | while the balance has stayed positive the month index stays below the bound total / (0.5 × base) + 1: the loop terminates |
| RepaymentSchedule.NoProgressWithoutInflow | loan_app.py:60-87 | with a mean inflow not positive and a positive obligation, the balance after any number of months is at least the obligation: the loop never exits |
| RepaymentSchedule.NeverPaysDown | loan_app.py:72-79 | with a mean inflow not positive, nothing is ever repaid in total |
| RepaymentSchedule.PastDataPaysBase | loan_app.py:66-77 | months past the end of the data pay the base when the mean is not negative (half the base when it is negative) |
| RepaymentSchedule.TierMonotone | loan_app.py:72-77 | with a positive mean, a month with more inflow never pays less |
| RepaymentSchedule.RepaidIncreasing | loan_app.py:79-83 | with a positive mean, cumulative repayment is strictly increasing month over month |
| RepaymentSchedule.EndsAfterUnique | loan_app.py:65 | the number of months of a plan is uniquely determined |
| RepaymentSchedule.PlanLengthBound | loan_app.py:65-87 | with a positive mean, a positive obligation is paid within fewer than total / (0.5 × base) + 1 months and a non-positive one needs no month |
| RepaymentSchedule.Overshoot | loan_app.py:79-84 | the final true balance is not positive and overshoots by less than the last repayment, so by less than 1.5 × base |
| RepaymentSchedule.EntryShape | loan_app.py:80-85 | rows are numbered 1..n; cumulative grows by each month's repayment; every row but the last shows a positive balance that adds up with the cumulative to the obligation; the last shows 0 |
| RepaymentSchedule.SumNonNegative | loan_app.py:60 | the sum of non-negative inflows is non-negative |
| RepaymentSchedule.SumPositive | loan_app.py:60 | the sum of non-negative inflows with one positive value is positive |
| RepaymentSchedule.InflowEligibleTerminates | loan_app.py:29 | with non-negative inflows, passing the inflow consistency check makes the mean inflow positive, so the loop ends |
| RepaymentSchedule.SumConstant | loan_app.py:60 | the sum of n equal inflows c is n × c |
| RepaymentSchedule.ConstantInflowRepaid | loan_app.py:60-79 | for a constant inflow c the mean is c and after n months exactly n × 0.1 × c has been repaid |
| RepaymentSchedule.TwelveMonthsOfHundred | loan_app.py:53-87 | twelve months of inflow 100 and a loan of 1000: obligation 1200, mean 100, and the plan has exactly 120 months |

## Left out

- The Streamlit interface and the spreadsheet load with `st.cache_data` (loan_app.py:9-13, 137-190) are presentation and file I/O. The table is a parameter of every operation.
- `assess_loan_risk`, the schedule-summary chat call and the API-key setup (loan_app.py:15-16, 94-134, 163-183) call an external language-model service whose output is opaque text.
- `describe()` summary statistics (loan_app.py:108) only feed that prompt.
- IEEE floating-point rounding and NaN values inside the data are not modelled. Amounts are exact reals. The NaN of an incomplete rolling window is modelled as `None`.
- The type of the CustomerID column as loaded from the spreadsheet (integer or float) is not modelled; ids are integers.
- CalculateRepaymentPlan: the non-terminating run of the code (mean inflow not positive, obligation positive) is not a run of the model; the method returns `NeverRepaid` there, and `NoProgressWithoutInflow` proves that the code's loop would never exit.
- The pandas DataFrame built from the list of rows is not modelled; the plan is the sequence of rows.
