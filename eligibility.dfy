/**
 * The eligibility rule of `check_eligibility`: a customer qualifies when at
 * least one of three columns has been strictly positive over the last
 * `Window` months of their history. The window is pandas'
 * `rolling(window=11).min()` read at the last row, which is NaN (and so not
 * `> 0`) until 11 values are present.
 */
module Eligibility {
  import opened Wrappers
  import opened CustomerRecords

  /** The rolling-window length used by the code (its comment speaks of 12 months). */
  const Window: nat := 11

  const NotFoundMessage: string := "Customer not found."
  const EligibleMessage: string := "Customer is eligible for a loan."
  const IneligibleMessage: string := "Customer is not eligible for a loan."

  /** The pair `(eligible, message)` that `check_eligibility` returns. */
  datatype Verdict = Verdict(eligible: bool, message: string)

  /** The smallest value of a non-empty series. */
  function MinOf(s: seq<real>): (m: real)
    requires |s| > 0
    ensures m in s
    ensures forall i :: 0 <= i < |s| ==> m <= s[i]
  {
    if |s| == 1 then s[0]
    else
      var rest := MinOf(s[1..]);
      if s[0] <= rest then s[0] else rest
  }

  /**
   * The value of `series.rolling(window=w).min()` at position i: None (NaN)
   * while fewer than w values are available, else the least of the w values
   * ending at i.
   */
  function WindowMin(s: seq<real>, w: nat, i: nat): (o: Option<real>)
    requires w > 0 && i < |s|
    ensures o.None? <==> i + 1 < w
    ensures o.Some? ==> forall j :: i + 1 - w <= j <= i ==> o.value <= s[j]
    ensures o.Some? ==> o.value in s[i + 1 - w .. i + 1]
  {
    if i + 1 < w then None
    else
      var window := s[i + 1 - w .. i + 1];
      assert forall j :: i + 1 - w <= j <= i ==> s[j] == window[j - (i + 1 - w)];
      Some(MinOf(window))
  }

  /** `series.rolling(window=w).min()`: the window minimum at every position. */
  function RollingMin(s: seq<real>, w: nat): (r: seq<Option<real>>)
    requires w > 0
    ensures |r| == |s|
    ensures forall i :: 0 <= i < |s| ==> (r[i].None? <==> i + 1 < w)
    ensures forall i, j :: 0 <= i < |s| && r[i].Some? && i + 1 - w <= j <= i ==> r[i].value <= s[j]
    ensures forall i :: 0 <= i < |s| && r[i].Some? ==> r[i].value in s[i + 1 - w .. i + 1]
  {
    seq(|s|, i requires 0 <= i < |s| => WindowMin(s, w, i))
  }

  /** A series is positive over a window when it has at least w values and its last w are all > 0. */
  predicate PositiveOverWindow(s: seq<real>, w: nat)
  {
    |s| >= w && forall i :: |s| - w <= i < |s| ==> s[i] > 0.0
  }

  /**
   * `series.rolling(window=11).min().iloc[-1] > 0`, with NaN > 0 false.
   * It holds exactly when the last 11 values exist and are all positive.
   */
  predicate Consistent(s: seq<real>)
    requires |s| > 0
    ensures Consistent(s) <==> PositiveOverWindow(s, Window)
  {
    match RollingMin(s, Window)[|s| - 1]
    case None => false
    case Some(m) =>
      var tail := s[|s| - Window ..];
      assert m == MinOf(tail);
      assert forall i :: |s| - Window <= i < |s| ==> s[i] == tail[i - (|s| - Window)];
      m > 0.0
  }

  /** `check_eligibility(customer_id)` over the table `table`. */
  function CheckEligibility(table: seq<MonthlyRecord>, id: int): (v: Verdict)
    ensures RowsOf(table, id) == [] ==> v == Verdict(false, NotFoundMessage)
    ensures v.eligible ==> exists m :: PositiveOverWindow(Column(RowsOf(table, id), m), Window)
    ensures (exists m :: PositiveOverWindow(Column(RowsOf(table, id), m), Window)) ==> v.eligible
    ensures v.eligible ==> |RowsOf(table, id)| >= Window && v.message == EligibleMessage
    ensures !v.eligible && RowsOf(table, id) != [] ==> v.message == IneligibleMessage
  {
    var rows := RowsOf(table, id);
    if rows == [] then
      Verdict(false, NotFoundMessage)
    else
      var credit := Consistent(Column(rows, CallCredit));
      var data := Consistent(Column(rows, Data));
      var inflow := Consistent(Column(rows, CashInflow));
      SomeColumnPositive(rows);
      if credit || data || inflow then
        Verdict(true, EligibleMessage)
      else
        Verdict(false, IneligibleMessage)
  }

  /** Some column is positive over the window exactly when one of the three named ones is. */
  lemma SomeColumnPositive(rows: seq<MonthlyRecord>)
    ensures (exists m :: PositiveOverWindow(Column(rows, m), Window)) <==>
      PositiveOverWindow(Column(rows, CallCredit), Window) ||
      PositiveOverWindow(Column(rows, Data), Window) ||
      PositiveOverWindow(Column(rows, CashInflow), Window)
  {
  }

  /**
   * The three checks are joined by "or": one column that is positive over the
   * window makes the customer eligible, whatever the other two columns hold.
   */
  lemma OneColumnSuffices(table: seq<MonthlyRecord>, id: int, m: Metric)
    requires PositiveOverWindow(Column(RowsOf(table, id), m), Window)
    ensures CheckEligibility(table, id) == Verdict(true, EligibleMessage)
  {
  }
}
