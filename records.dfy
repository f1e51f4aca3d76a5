/**
 * The customer table: one row per customer per reporting month, in file order,
 * and the two ways the loan code reads it: the rows of one customer
 * (`customer_data[customer_data['CustomerID'] == customer_id]`) and one numeric
 * column of those rows.
 */
module CustomerRecords {

  /** One row of the table. Monetary amounts are exact reals. */
  datatype MonthlyRecord = MonthlyRecord(
    customerId: int,
    callCreditPurchase: real,  // TotalCallCreditPurchase
    dataPurchase: real,        // TotalDataPurchase
    cashInflow: real)          // TotalCashInflow

  /** The three columns the eligibility rule looks at. */
  datatype Metric = CallCredit | Data | CashInflow

  function Field(r: MonthlyRecord, m: Metric): real
  {
    match m
    case CallCredit => r.callCreditPurchase
    case Data => r.dataPurchase
    case CashInflow => r.cashInflow
  }

  /** The rows of `table` whose CustomerID is `id`, in table order. */
  function RowsOf(table: seq<MonthlyRecord>, id: int): (rows: seq<MonthlyRecord>)
    ensures |rows| <= |table|
    ensures forall i :: 0 <= i < |rows| ==> rows[i].customerId == id
    ensures rows == [] <==> forall i :: 0 <= i < |table| ==> table[i].customerId != id
  {
    if table == [] then []
    else (if table[0].customerId == id then [table[0]] else []) + RowsOf(table[1..], id)
  }

  /** The customer's rows are exactly the table's rows that carry the customer's id. */
  lemma {:induction false} RowsOfMembers(table: seq<MonthlyRecord>, id: int)
    ensures forall r :: r in RowsOf(table, id) <==> r in table && r.customerId == id
  {
    if table != [] {
      RowsOfMembers(table[1..], id);
      assert table == [table[0]] + table[1..];
    }
  }

  /** Filtering keeps the table's order: the rows taken from a prefix come first. */
  lemma {:induction false} RowsOfAppend(a: seq<MonthlyRecord>, b: seq<MonthlyRecord>, id: int)
    ensures RowsOf(a + b, id) == RowsOf(a, id) + RowsOf(b, id)
  {
    if a != [] {
      assert (a + b)[1..] == a[1..] + b;
      RowsOfAppend(a[1..], b, id);
    } else {
      assert a + b == b;
    }
  }

  /** One column of a customer's rows, as a series indexed like the rows. */
  function Column(rows: seq<MonthlyRecord>, m: Metric): (col: seq<real>)
    ensures |col| == |rows|
    ensures forall i :: 0 <= i < |rows| ==> col[i] == Field(rows[i], m)
  {
    seq(|rows|, i requires 0 <= i < |rows| => Field(rows[i], m))
  }
}
