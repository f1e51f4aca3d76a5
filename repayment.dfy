/**
 * The flexible repayment plan of `calculate_repayment_plan`: 20% is added to
 * the loan once, a base monthly repayment of 10% of the customer's mean cash
 * inflow is set, and month after month a repayment of half, one or one and a
 * half times the base is taken off the balance, by how that month's inflow
 * compares with the mean, until the balance is no longer positive.
 *
 * The specification functions below describe month k of the plan directly;
 * the method `CalculateRepaymentPlan` runs the loop and is proved to produce
 * exactly those months.
 */
module RepaymentSchedule {
  import opened CustomerRecords
  import opened Eligibility

  const InterestFactor: real := 1.2
  const BaseRate: real := 0.1
  const LowBand: real := 0.9
  const HighBand: real := 1.1
  const LowFactor: real := 0.5
  const HighFactor: real := 1.5

  /** One row of the plan table: Month, FlexibleRepayment, CumulativeRepayment, RemainingLoan. */
  datatype ScheduleEntry = ScheduleEntry(
    month: nat,
    flexibleRepayment: real,
    cumulativeRepayment: real,
    remainingLoan: real)

  /**
   * What `calculate_repayment_plan` yields: the plan, or `(None, message)`.
   * `NeverRepaid` stands for the case in which its loop never exits
   * (see `NoProgressWithoutInflow`).
   */
  datatype PlanOutcome =
    | Plan(entries: seq<ScheduleEntry>)
    | Rejected(message: string)
    | NeverRepaid

  function Sum(s: seq<real>): real
  {
    if s == [] then 0.0 else s[0] + Sum(s[1..])
  }

  /** pandas' `Series.mean()` of a non-empty series. */
  function Mean(s: seq<real>): (r: real)
    requires |s| > 0
    ensures r * (|s| as real) == Sum(s)
    ensures MinOf(s) <= r
  {
    SumAtLeast(s, MinOf(s));
    LemmaMulLeImpliesLeDiv(MinOf(s), |s| as real, Sum(s));
    Sum(s) / (|s| as real)
  }

  /** The loan plus the flat 20% interest. */
  function TotalObligation(loanAmount: real): (total: real)
    ensures total - loanAmount == 0.2 * loanAmount
    ensures loanAmount > 0.0 ==> total > loanAmount
  {
    loanAmount * InterestFactor
  }

  /** A tenth of the mean inflow: positive and below the mean when the mean is positive. */
  function BaseRepayment(avg: real): (base: real)
    ensures base * 10.0 == avg
    ensures avg > 0.0 ==> 0.0 < base < avg
  {
    avg * BaseRate
  }

  /** The inflow looked at in month k (0-based): the recorded one, or the mean past the end of the data. */
  function InflowAt(inflows: seq<real>, avg: real, k: nat): (inflow: real)
  {
    if k >= |inflows| then avg else inflows[k]
  }

  /** The repayment due in a month with inflow `inflow`, for a customer whose mean inflow is `avg`. */
  function TierRepayment(inflow: real, avg: real): (r: real)
    ensures avg > 0.0 ==> 0.0 < LowFactor * BaseRepayment(avg) <= r <= HighFactor * BaseRepayment(avg)
    ensures avg <= 0.0 ==> r <= 0.0
    ensures r == LowFactor * BaseRepayment(avg) || r == BaseRepayment(avg) || r == HighFactor * BaseRepayment(avg)
    ensures inflow < LowBand * avg ==> r == LowFactor * BaseRepayment(avg)
    ensures LowBand * avg <= inflow <= HighBand * avg ==> r == BaseRepayment(avg)
    ensures LowBand * avg <= inflow && inflow > HighBand * avg ==> r == HighFactor * BaseRepayment(avg)
  {
    var base := BaseRepayment(avg);
    if inflow < LowBand * avg then base * LowFactor
    else if inflow > HighBand * avg then base * HighFactor
    else base
  }

  /** The repayment of month k (0-based). */
  function MonthRepayment(inflows: seq<real>, avg: real, k: nat): (r: real)
    ensures avg > 0.0 ==> 0.0 < LowFactor * BaseRepayment(avg) <= r <= HighFactor * BaseRepayment(avg)
    ensures avg <= 0.0 ==> r <= 0.0
    ensures k >= |inflows| && avg >= 0.0 ==> r == BaseRepayment(avg)
  {
    TierRepayment(InflowAt(inflows, avg, k), avg)
  }

  /** The sum of the repayments of the first n months. */
  function Repaid(inflows: seq<real>, avg: real, n: nat): real
  {
    if n == 0 then 0.0 else Repaid(inflows, avg, n - 1) + MonthRepayment(inflows, avg, n - 1)
  }

  /** The true (possibly negative) balance after n months. */
  function Balance(total: real, inflows: seq<real>, avg: real, n: nat): real
  {
    total - Repaid(inflows, avg, n)
  }

  /** The loop runs exactly n times: the balance was positive before each of them and is not after the last. */
  predicate EndsAfter(total: real, inflows: seq<real>, avg: real, n: nat)
  {
    Balance(total, inflows, avg, n) <= 0.0 &&
    forall j :: 0 <= j < n ==> Balance(total, inflows, avg, j) > 0.0
  }

  /** The k-th row (0-based) of the plan: the balance is shown clipped at zero. */
  function Entry(total: real, inflows: seq<real>, avg: real, k: nat): (e: ScheduleEntry)
    ensures e.month == k + 1 && e.flexibleRepayment == MonthRepayment(inflows, avg, k)
    ensures e.cumulativeRepayment == total - Balance(total, inflows, avg, k + 1)
    ensures e.remainingLoan >= 0.0
    ensures e.remainingLoan > 0.0 <==> Balance(total, inflows, avg, k + 1) > 0.0
    ensures e.remainingLoan > 0.0 ==> e.cumulativeRepayment + e.remainingLoan == total
  {
    var balance := Balance(total, inflows, avg, k + 1);
    ScheduleEntry(k + 1, MonthRepayment(inflows, avg, k), Repaid(inflows, avg, k + 1),
                  if balance > 0.0 then balance else 0.0)
  }

  /**
   * `calculate_repayment_plan(customer_id, loan_amount)` over the table `table`.
   * An ineligible customer gets the eligibility message back; otherwise the plan
   * holds one entry per month of the loop, month k being `Entry(.., k)`, and the
   * loop stops at the first month whose balance is no longer positive. When the
   * mean inflow is not positive and there is something to repay, the loop of the
   * code never stops, reported here as `NeverRepaid`.
   */
  method CalculateRepaymentPlan(table: seq<MonthlyRecord>, customerId: int, loanAmount: real)
    returns (outcome: PlanOutcome)
    ensures !CheckEligibility(table, customerId).eligible ==>
      outcome == Rejected(CheckEligibility(table, customerId).message)
    ensures CheckEligibility(table, customerId).eligible ==>
      var inflows := Column(RowsOf(table, customerId), CashInflow);
      var avg := Mean(inflows);
      var total := TotalObligation(loanAmount);
      if total > 0.0 && avg <= 0.0 then
        outcome == NeverRepaid
      else
        outcome.Plan? && EndsAfter(total, inflows, avg, |outcome.entries|) &&
        forall k :: 0 <= k < |outcome.entries| ==> outcome.entries[k] == Entry(total, inflows, avg, k)
  {
    var verdict := CheckEligibility(table, customerId);
    if !verdict.eligible {
      return Rejected(verdict.message);
    }
    var rows := RowsOf(table, customerId);
    if rows == [] {
      return Rejected(NotFoundMessage);
    }
    var totalLoan := loanAmount * InterestFactor;
    var inflows := Column(rows, CashInflow);
    var averageInflow := Mean(inflows);
    if totalLoan > 0.0 && averageInflow <= 0.0 {
      NoProgressWithoutInflow(totalLoan, inflows, averageInflow);
      return NeverRepaid;
    }
    var plan := RepayMonthByMonth(inflows, averageInflow, totalLoan);
    return Plan(plan);
  }

  /**
   * The `while remaining_loan > 0` loop: one entry per month until the balance
   * is no longer positive.
   */
  method RepayMonthByMonth(inflows: seq<real>, averageInflow: real, totalLoan: real)
    returns (plan: seq<ScheduleEntry>)
    requires averageInflow > 0.0 || totalLoan <= 0.0
    ensures EndsAfter(totalLoan, inflows, averageInflow, |plan|)
    ensures forall k :: 0 <= k < |plan| ==> plan[k] == Entry(totalLoan, inflows, averageInflow, k)
  {
    plan := [];
    var remaining := totalLoan;
    var monthlyRepayment := averageInflow * BaseRate;
    ghost var bound := MonthBound(totalLoan, averageInflow);
    var monthIndex: nat := 0;
    while remaining > 0.0
      invariant remaining == Balance(totalLoan, inflows, averageInflow, monthIndex)
      invariant |plan| == monthIndex
      invariant forall j :: 0 <= j < monthIndex ==> Balance(totalLoan, inflows, averageInflow, j) > 0.0
      invariant forall k :: 0 <= k < monthIndex ==> plan[k] == Entry(totalLoan, inflows, averageInflow, k)
      decreases bound - monthIndex
    {
      MonthsBeforeSettling(totalLoan, inflows, averageInflow, monthIndex);
      var currentInflow;
      if monthIndex >= |inflows| {
        currentInflow := averageInflow;
      } else {
        currentInflow := inflows[monthIndex];
      }
      var repayment;
      if currentInflow < LowBand * averageInflow {
        repayment := monthlyRepayment * LowFactor;
      } else if currentInflow > HighBand * averageInflow {
        repayment := monthlyRepayment * HighFactor;
      } else {
        repayment := monthlyRepayment;
      }
      remaining := remaining - repayment;
      var entry := ScheduleEntry(monthIndex + 1, repayment, totalLoan - remaining,
                                 if remaining > 0.0 then remaining else 0.0);
      assert entry == Entry(totalLoan, inflows, averageInflow, monthIndex);
      plan := plan + [entry];
      monthIndex := monthIndex + 1;
    }
  }

  /** Every month pays at least half the base when the mean inflow is positive. */
  lemma {:induction false} RepaidLowerBound(inflows: seq<real>, avg: real, n: nat)
    requires avg > 0.0
    ensures Repaid(inflows, avg, n) >= (n as real) * (LowFactor * BaseRepayment(avg))
  {
    if n > 0 {
      RepaidLowerBound(inflows, avg, n - 1);
    }
  }

  /**
   * An upper bound on the number of months the loop can run: the obligation
   * divided by the smallest possible repayment, plus one.
   */
  function MonthBound(total: real, avg: real): int
  {
    if avg > 0.0 then (total / (LowFactor * BaseRepayment(avg))).Floor + 1 else 0
  }

  /** A positive balance after n months means n is below `MonthBound`. */
  lemma MonthsBeforeSettling(total: real, inflows: seq<real>, avg: real, n: nat)
    requires avg > 0.0 || total <= 0.0
    requires forall j :: 0 <= j <= n ==> Balance(total, inflows, avg, j) > 0.0
    ensures n < MonthBound(total, avg)
  {
    assert Balance(total, inflows, avg, 0) > 0.0;
    assert avg > 0.0;
    var minRepayment := LowFactor * BaseRepayment(avg);
    RepaidLowerBound(inflows, avg, n);
    assert Balance(total, inflows, avg, n) > 0.0;
    LemmaMulLtImpliesLtDiv(n as real, minRepayment, total);
  }

  /** a * b < c with b positive gives a < c / b. */
  lemma LemmaMulLtImpliesLtDiv(a: real, b: real, c: real)
    requires b > 0.0 && a * b < c
    ensures a < c / b
  {
  }

  /** a * b <= c with b positive gives a <= c / b. */
  lemma LemmaMulLeImpliesLeDiv(a: real, b: real, c: real)
    requires b > 0.0 && a * b <= c
    ensures a <= c / b
  {
  }

  /**
   * With a mean inflow that is not positive, no month pays anything off, so a
   * positive balance stays positive forever: the loop of the code never exits.
   */
  lemma {:induction false} NoProgressWithoutInflow(total: real, inflows: seq<real>, avg: real)
    requires avg <= 0.0 && total > 0.0
    ensures forall n: nat :: Balance(total, inflows, avg, n) >= total
  {
    forall n: nat ensures Balance(total, inflows, avg, n) >= total {
      NeverPaysDown(inflows, avg, n);
    }
  }

  lemma {:induction false} NeverPaysDown(inflows: seq<real>, avg: real, n: nat)
    requires avg <= 0.0
    ensures Repaid(inflows, avg, n) <= 0.0
  {
    if n > 0 {
      NeverPaysDown(inflows, avg, n - 1);
    }
  }

  /**
   * Months past the end of the data look at the mean inflow itself, which lies
   * in the middle band when the mean is not negative: they pay the base. (With a
   * negative mean, the mean is below 0.9 times itself, so they pay half the base.)
   */
  lemma PastDataPaysBase(inflows: seq<real>, avg: real, k: nat)
    requires k >= |inflows|
    ensures avg >= 0.0 ==> MonthRepayment(inflows, avg, k) == BaseRepayment(avg)
    ensures avg < 0.0 ==> MonthRepayment(inflows, avg, k) == LowFactor * BaseRepayment(avg)
  {
  }

  /** A month with more inflow never pays less, when the mean inflow is positive. */
  lemma TierMonotone(x: real, y: real, avg: real)
    requires avg > 0.0 && x <= y
    ensures TierRepayment(x, avg) <= TierRepayment(y, avg)
  {
  }

  /** With a positive mean inflow the amount repaid grows strictly month after month. */
  lemma {:induction false} RepaidIncreasing(inflows: seq<real>, avg: real, j: nat, k: nat)
    requires avg > 0.0 && j < k
    ensures Repaid(inflows, avg, j) < Repaid(inflows, avg, k)
    decreases k
  {
    if j < k - 1 {
      RepaidIncreasing(inflows, avg, j, k - 1);
    }
  }

  /** The number of months of a plan is determined: the first month whose balance is not positive. */
  lemma EndsAfterUnique(total: real, inflows: seq<real>, avg: real, n: nat, m: nat)
    requires EndsAfter(total, inflows, avg, n) && EndsAfter(total, inflows, avg, m)
    ensures n == m
  {
  }

  /**
   * Termination bound: a positive obligation is paid off within
   * total / (0.5 * base) + 1 months; a non-positive one needs no month at all.
   */
  lemma PlanLengthBound(total: real, inflows: seq<real>, avg: real, n: nat)
    requires avg > 0.0 && EndsAfter(total, inflows, avg, n)
    ensures total <= 0.0 ==> n == 0
    ensures total > 0.0 ==> (n as real) < total / (LowFactor * BaseRepayment(avg)) + 1.0
  {
    if n > 0 {
      var minRepayment := LowFactor * BaseRepayment(avg);
      assert Balance(total, inflows, avg, n - 1) > 0.0;
      RepaidLowerBound(inflows, avg, n - 1);
      LemmaMulLtImpliesLtDiv((n - 1) as real, minRepayment, total);
    }
  }

  /**
   * The code has no final-month clamp: the last repayment may overshoot, but
   * by less than that repayment, so by less than 1.5 times the base.
   */
  lemma Overshoot(total: real, inflows: seq<real>, avg: real, n: nat)
    requires avg > 0.0 && n > 0 && EndsAfter(total, inflows, avg, n)
    ensures -MonthRepayment(inflows, avg, n - 1) < Balance(total, inflows, avg, n) <= 0.0
    ensures Balance(total, inflows, avg, n) > -(HighFactor * BaseRepayment(avg))
  {
    assert Balance(total, inflows, avg, n - 1) > 0.0;
  }

  /**
   * The rows of a plan of n months: numbered 1..n, the cumulative repayment
   * grows by each month's repayment and adds up with the shown balance to the
   * obligation, every row but the last shows a positive balance and the last
   * shows zero.
   */
  lemma EntryShape(total: real, inflows: seq<real>, avg: real, n: nat, k: nat)
    requires EndsAfter(total, inflows, avg, n) && k < n
    ensures Entry(total, inflows, avg, k).month == k + 1
    ensures Entry(total, inflows, avg, k).cumulativeRepayment ==
      (if k == 0 then 0.0 else Entry(total, inflows, avg, k - 1).cumulativeRepayment)
      + Entry(total, inflows, avg, k).flexibleRepayment
    ensures k < n - 1 ==> Entry(total, inflows, avg, k).remainingLoan > 0.0
    ensures k < n - 1 ==>
      Entry(total, inflows, avg, k).cumulativeRepayment + Entry(total, inflows, avg, k).remainingLoan == total
    ensures k == n - 1 ==> Entry(total, inflows, avg, k).remainingLoan == 0.0
  {
    if k == 0 {
      assert Repaid(inflows, avg, 0) == 0.0;
    }
    if k < n - 1 {
      assert Balance(total, inflows, avg, k + 1) > 0.0;
    }
  }

  lemma {:induction false} SumNonNegative(s: seq<real>)
    requires forall i :: 0 <= i < |s| ==> s[i] >= 0.0
    ensures Sum(s) >= 0.0
  {
    if s != [] {
      SumNonNegative(s[1..]);
    }
  }

  lemma {:induction false} SumPositive(s: seq<real>, i: nat)
    requires forall j :: 0 <= j < |s| ==> s[j] >= 0.0
    requires i < |s| && s[i] > 0.0
    ensures Sum(s) > 0.0
  {
    if i == 0 {
      SumNonNegative(s[1..]);
    } else {
      SumPositive(s[1..], i - 1);
    }
  }

  /**
   * For a customer whose recorded inflows are never negative, eligibility
   * through the cash-inflow column makes the mean inflow positive, so the
   * repayment loop ends.
   */
  lemma InflowEligibleTerminates(inflows: seq<real>)
    requires forall i :: 0 <= i < |inflows| ==> inflows[i] >= 0.0
    requires PositiveOverWindow(inflows, Window)
    ensures |inflows| > 0 && Mean(inflows) > 0.0
  {
    SumPositive(inflows, |inflows| - 1);
  }

  lemma {:induction false} SumAtLeast(s: seq<real>, m: real)
    requires forall i :: 0 <= i < |s| ==> m <= s[i]
    ensures (|s| as real) * m <= Sum(s)
  {
    if s != [] {
      SumAtLeast(s[1..], m);
    }
  }

  lemma {:induction false} SumConstant(s: seq<real>, c: real)
    requires forall i :: 0 <= i < |s| ==> s[i] == c
    ensures Sum(s) == (|s| as real) * c
  {
    if s != [] {
      SumConstant(s[1..], c);
    }
  }

  /** A customer whose inflow never varies repays exactly the base, 10% of that inflow, every month. */
  lemma {:induction false} ConstantInflowRepaid(inflows: seq<real>, c: real, n: nat)
    requires |inflows| > 0 && forall i :: 0 <= i < |inflows| ==> inflows[i] == c
    requires c > 0.0
    ensures Mean(inflows) == c
    ensures Repaid(inflows, c, n) == (n as real) * BaseRepayment(c)
  {
    SumConstant(inflows, c);
    if n > 0 {
      ConstantInflowRepaid(inflows, c, n - 1);
    }
  }

  /**
   * Twelve months of an inflow of 100 and a loan of 1000: an obligation of
   * 1200 paid at 10 a month, in exactly 120 months.
   */
  lemma TwelveMonthsOfHundred()
    ensures var inflows := seq(12, _ => 100.0);
      TotalObligation(1000.0) == 1200.0 && Mean(inflows) == 100.0 &&
      EndsAfter(TotalObligation(1000.0), inflows, Mean(inflows), 120)
  {
    var inflows := seq(12, _ => 100.0);
    ConstantInflowRepaid(inflows, 100.0, 120);
    forall j | 0 <= j < 120
      ensures Balance(1200.0, inflows, 100.0, j) > 0.0
    {
      ConstantInflowRepaid(inflows, 100.0, j);
    }
  }
}
